/** The FlatBuffers envelope codec of src/ipc_envelope.c.

    The decoder reads any layout; the encoder writes one canonical layout and leaves
    three padding bytes unwritten. `Holds` says, with writers only, what it means for a
    buffer to store an envelope, and the lemmas connect it to the reader. */
module Envelope {
  import opened LittleEndian
  import opened Wrappers

  const FIXED_SIZE := 48

  const KIND_CONTROL: int8 := 3

  datatype Env = Env(source: int32, target: int32, kind: int8, corr: int32, payload: seq<byte>)

  /** A zero-copy payload pointer into the decoded buffer; `Null` is the NULL pointer. */
  datatype Slice = Null | Slice(start: nat, len: nat)

  datatype View = View(source: int32, target: int32, kind: int8, corr: int32, payload: Slice)

  /** The return code (0 is `ok`) together with the view as the call leaves it. */
  datatype Decoded = Decoded(ok: bool, view: View)

  const EmptyView := View(0, 0, 0, 0, Null)

  // ---------------------------------------------------------------- decoder

  /** Offset of a field inside the buffer, or `None` when absent. */
  datatype Field = None | Pos(pos: nat)

  function SlotVoff(b: seq<byte>, vt: nat, vtLen: uint16, id: nat): uint16
    requires id < 5 && vt + vtLen <= |b|
  {
    if vtLen < 6 + 2 * id then 0 else Rd16(b, vt + 4 + 2 * id)
  }

  function FieldAt(b: seq<byte>, table: nat, voff: uint16, size: nat): (f: Field)
    requires size <= |b|
    ensures f.Pos? ==> f.pos + size <= |b|
  {
    if voff == 0 then Field.None
    else if table + voff > SizeSub(|b|, size) then Field.None
    else Pos(table + voff)
  }

  function I32Or0(b: seq<byte>, f: Field): int32
    requires f.Pos? ==> f.pos + 4 <= |b|
  {
    if f.Pos? then ToI32(Rd32(b, f.pos)) else 0
  }

  function I8Or0(b: seq<byte>, f: Field): int8
    requires f.Pos? ==> f.pos + 1 <= |b|
  {
    if f.Pos? then ToI8(b[f.pos]) else 0
  }

  datatype Header = Bad | Header(root: nat, vt: nat, vtLen: uint16)

  /** Root offset, vtable position and vtable length, each checked before it is used. */
  function DecodeHeader(b: seq<byte>): (h: Header)
    ensures h.Header? ==> 8 <= |b| && 4 <= h.root && h.root + 4 <= |b| && h.vt + h.vtLen <= |b|
  {
    if |b| < 8 then Bad else
    var root := Rd32(b, 0);
    if root < 4 || root > SizeSub(|b|, 4) then Bad else
    var soffset := ToI32(Rd32(b, root));
    if soffset < 0 || soffset > root then Bad else
    var vt := SizeSub(root, soffset);
    if vt > SizeSub(|b|, 4) then Bad else
    var vtLen := Rd16(b, vt);
    if vt + vtLen > |b| then Bad else Header(root, vt, vtLen)
  }

  /** The payload slice behind its field, or `None` for a vector that does not fit. */
  function DecodePayload(b: seq<byte>, f: Field): (s: Option<Slice>)
    requires 4 <= |b| && (f.Pos? ==> f.pos + 4 <= |b|)
    ensures s.Some? && s.value.Slice? ==> 5 <= s.value.start && s.value.start + s.value.len <= |b|
  {
    if f.None? then Some(Null) else
    var uoff := Rd32(b, f.pos);
    if uoff == 0 || uoff > SizeSub(SizeSub(|b|, 4), f.pos) then Option.None else
    var hdr := f.pos + uoff;
    var vlen := Rd32(b, hdr);
    if vlen > SizeSub(SizeSub(|b|, 4), hdr) then Option.None else Some(Slice(hdr + 4, vlen))
  }

  /** The four scalar fields, absent ones reading as 0. */
  function DecodeScalars(b: seq<byte>, table: nat, vt: nat, vtLen: uint16): View
    requires 4 <= |b| && vt + vtLen <= |b|
  {
    View(
      I32Or0(b, FieldAt(b, table, SlotVoff(b, vt, vtLen, 0), 4)),
      I32Or0(b, FieldAt(b, table, SlotVoff(b, vt, vtLen, 1), 4)),
      I8Or0(b, FieldAt(b, table, SlotVoff(b, vt, vtLen, 2), 1)),
      I32Or0(b, FieldAt(b, table, SlotVoff(b, vt, vtLen, 4), 4)),
      Null)
  }

  /** `ipc_envelope_decode`; every read and every length subtraction is well defined for
      every byte string, which is what makes the function total. */
  function Decode(b: seq<byte>): Decoded {
    var h := DecodeHeader(b);
    if h.Bad? then Decoded(false, EmptyView) else
    var view := DecodeScalars(b, h.root, h.vt, h.vtLen);
    var p := DecodePayload(b, FieldAt(b, h.root, SlotVoff(b, h.vt, h.vtLen, 3), 4));
    if p.None? then Decoded(false, view) else Decoded(true, view.(payload := p.value))
  }

  /** The payload bytes a view designates. */
  function PayloadOf(b: seq<byte>, v: View): seq<byte>
    requires v.payload.Slice? ==> v.payload.start + v.payload.len <= |b|
  {
    if v.payload.Null? then [] else b[v.payload.start..v.payload.start + v.payload.len]
  }

  /** The payload slice lies inside the buffer, past the root word, whatever the bytes. */
  lemma PayloadInBounds(b: seq<byte>)
    ensures var v := Decode(b).view;
            v.payload.Slice? ==> Decode(b).ok && 5 <= v.payload.start && v.payload.start + v.payload.len <= |b|
  {
  }

  ghost predicate DecodesTo(b: seq<byte>, env: Env) {
    PayloadInBounds(b);
    var d := Decode(b);
    d.ok && Env(d.view.source, d.view.target, d.view.kind, d.view.corr, PayloadOf(b, d.view)) == env
  }

  // ---------------------------------------------------------------- what a buffer stores

  /** Where a builder put things: table, vtable and its length, the five field offsets in
      field-id order (0 for a field left out), and the payload vector. */
  datatype Layout = Layout(table: uint32, vtable: nat, vtLen: uint16, off: seq<uint16>, vector: nat)

  /** A vtable entry: written when the vtable is long enough, left out otherwise. */
  predicate SlotHolds(b: seq<byte>, l: Layout, id: nat)
    requires id < |l.off|
  {
    if 6 + 2 * id <= l.vtLen then At(b, l.vtable + 4 + 2 * id, Le16(l.off[id])) else l.off[id] == 0
  }

  /** A field of `size` bytes is left out, or its place is not inside the buffer. */
  predicate Absent(b: seq<byte>, l: Layout, id: nat, size: nat)
    requires id < |l.off|
  {
    l.off[id] == 0 || l.table + l.off[id] + size > |b|
  }

  predicate ScalarHolds(b: seq<byte>, l: Layout, id: nat, bytes: seq<byte>, isDefault: bool)
    requires id < |l.off|
  {
    SlotHolds(b, l, id) && if Absent(b, l, id, |bytes|) then isDefault else At(b, l.table + l.off[id], bytes)
  }

  predicate ScalarsHold(b: seq<byte>, l: Layout, env: Env)
    requires |l.off| == 5
  {
    && ScalarHolds(b, l, 0, Le32(ToU32(env.source)), env.source == 0)
    && ScalarHolds(b, l, 1, Le32(ToU32(env.target)), env.target == 0)
    && ScalarHolds(b, l, 2, [ToU8(env.kind)], env.kind == 0)
    && ScalarHolds(b, l, 4, Le32(ToU32(env.corr)), env.corr == 0)
  }

  predicate PayloadHolds(b: seq<byte>, l: Layout, payload: seq<byte>)
    requires |l.off| == 5
  {
    SlotHolds(b, l, 3) &&
    if Absent(b, l, 3, 4) then payload == [] else
      var self := l.table + l.off[3];
      && self < l.vector < self + 0x1_0000_0000 && |payload| < 0x1_0000_0000
      && At(b, self, Le32(l.vector - self))
      && At(b, l.vector, Le32(|payload|))
      && At(b, l.vector + 4, payload)
  }

  /** The fields of `env` stand where layout `l` says; one whose place is not inside the buffer
      has its default. All bytes the layout does not name (padding, extra vtable slots, gaps)
      are arbitrary. */
  predicate FieldsHold(b: seq<byte>, l: Layout, env: Env) {
    && |l.off| == 5 && 4 <= l.table && l.vtable + 4 <= |b| && l.vtable + l.vtLen <= |b|
    && At(b, 0, Le32(l.table))
    && At(b, l.vtable, Le16(l.vtLen))
    && ScalarsHold(b, l, env)
    && PayloadHolds(b, l, env.payload)
  }

  /** `b` stores `env` under layout `l`, with the vtable at or before the table. */
  predicate Holds(b: seq<byte>, l: Layout, env: Env) {
    && FieldsHold(b, l, env) && l.vtable <= l.table && l.table - l.vtable < 0x8000_0000
    && At(b, l.table, Le32(l.table - l.vtable))
  }

  /** The same with the vtable behind the table, at a negative offset, as FlatBuffers allows. */
  predicate HoldsBackwards(b: seq<byte>, l: Layout, env: Env) {
    && FieldsHold(b, l, env) && l.table < l.vtable <= l.table + 0x8000_0000
    && At(b, l.table, Le32(0x1_0000_0000 - (l.vtable - l.table)))
  }

  lemma HeaderRead(b: seq<byte>, l: Layout, env: Env)
    requires Holds(b, l, env)
    ensures DecodeHeader(b) == Header(l.table, l.vtable, l.vtLen)
  {
    Rd32At(b, 0, l.table);
    Rd32At(b, l.table, l.table - l.vtable);
    Rd16At(b, l.vtable, l.vtLen);
    HeaderIs(b, l.table, l.vtable, l.vtLen);
  }

  lemma HeaderIs(b: seq<byte>, table: uint32, vtable: nat, vtLen: uint16)
    requires 4 <= table && table + 4 <= |b| && vtable <= table && table - vtable < 0x8000_0000 && vtable + 4 <= |b|
    requires vtable + vtLen <= |b| && Rd32(b, 0) == table && Rd32(b, table) == table - vtable && Rd16(b, vtable) == vtLen
    ensures DecodeHeader(b) == Header(table, vtable, vtLen)
  {
  }

  lemma PayloadRead(b: seq<byte>, l: Layout, payload: seq<byte>)
    requires |l.off| == 5 && 4 <= l.table && 4 <= |b| && l.vtable + l.vtLen <= |b| && PayloadHolds(b, l, payload)
    ensures var s := DecodePayload(b, FieldAt(b, l.table, SlotVoff(b, l.vtable, l.vtLen, 3), 4));
            s.Some? && PayloadOf(b, EmptyView.(payload := s.value)) == payload
  {
    SlotRead(b, l, 3);
    if !Absent(b, l, 3, 4) {
      VectorRead(b, l.table + l.off[3], l.vector, payload);
    }
  }

  lemma VectorRead(b: seq<byte>, self: nat, vector: nat, payload: seq<byte>)
    requires 4 <= self < vector < self + 0x1_0000_0000 && |payload| < 0x1_0000_0000
    requires At(b, self, Le32(vector - self)) && At(b, vector, Le32(|payload|)) && At(b, vector + 4, payload)
    ensures DecodePayload(b, Pos(self)) == Some(Slice(vector + 4, |payload|))
    ensures b[vector + 4..vector + 4 + |payload|] == payload
  {
    Rd32At(b, self, vector - self);
    Rd32At(b, vector, |payload|);
  }

  lemma SlotRead(b: seq<byte>, l: Layout, id: nat)
    requires id < |l.off| == 5 && l.vtable + l.vtLen <= |b| && SlotHolds(b, l, id)
    ensures SlotVoff(b, l.vtable, l.vtLen, id) == l.off[id]
  {
    if 6 + 2 * id <= l.vtLen {
      Rd16At(b, l.vtable + 4 + 2 * id, l.off[id]);
    }
  }

  lemma ScalarRead(b: seq<byte>, l: Layout, id: nat, x: int32)
    requires id < |l.off| == 5 && 4 <= |b| && l.vtable + l.vtLen <= |b|
    requires ScalarHolds(b, l, id, Le32(ToU32(x)), x == 0)
    ensures I32Or0(b, FieldAt(b, l.table, SlotVoff(b, l.vtable, l.vtLen, id), 4)) == x
  {
    SlotRead(b, l, id);
    if !Absent(b, l, id, 4) {
      Rd32At(b, l.table + l.off[id], ToU32(x));
    }
  }

  lemma KindRead(b: seq<byte>, l: Layout, x: int8)
    requires |l.off| == 5 && 4 <= |b| && l.vtable + l.vtLen <= |b|
    requires ScalarHolds(b, l, 2, [ToU8(x)], x == 0)
    ensures I8Or0(b, FieldAt(b, l.table, SlotVoff(b, l.vtable, l.vtLen, 2), 1)) == x
  {
    SlotRead(b, l, 2);
    if !Absent(b, l, 2, 1) {
      var p := l.table + l.off[2];
      assert b[p + 0] == [ToU8(x)][0];
    }
  }

  lemma ScalarsRead(b: seq<byte>, l: Layout, env: Env)
    requires Holds(b, l, env)
    ensures DecodeScalars(b, l.table, l.vtable, l.vtLen) == View(env.source, env.target, env.kind, env.corr, Null)
  {
    ScalarRead(b, l, 0, env.source);
    ScalarRead(b, l, 1, env.target);
    KindRead(b, l, env.kind);
    ScalarRead(b, l, 4, env.corr);
  }

  /** Completeness: whatever layout a builder chose with the vtable before the table, and
      whichever default fields or trailing vtable slots it left out, the decoder accepts
      the buffer and returns the stored envelope. */
  lemma DecodeComplete(b: seq<byte>, l: Layout, env: Env)
    requires Holds(b, l, env)
    ensures DecodesTo(b, env)
  {
    HeaderRead(b, l, env);
    ScalarsRead(b, l, env);
    PayloadRead(b, l, env.payload);
  }

  /** Of the layouts FlatBuffers allows, the decoder accepts exactly those with the vtable at or
      before the table. */
  lemma DecodesIffVtableFirst(b: seq<byte>, l: Layout, env: Env)
    requires Holds(b, l, env) || HoldsBackwards(b, l, env)
    ensures DecodesTo(b, env) <==> l.vtable <= l.table
    ensures Decode(b).ok <==> l.vtable <= l.table
  {
    if l.vtable <= l.table {
      DecodeComplete(b, l, env);
    } else {
      Rd32At(b, 0, l.table);
      Rd32At(b, l.table, 0x1_0000_0000 - (l.vtable - l.table));
    }
  }

  // ---------------------------------------------------------------- every buffer

  lemma Rd32Stands(b: seq<byte>, i: nat)
    requires i + 4 <= |b|
    ensures At(b, i, Le32(Rd32(b, i)))
  {
    LeRd32(b, i);
  }

  lemma Rd16Stands(b: seq<byte>, i: nat)
    requires i + 2 <= |b|
    ensures At(b, i, Le16(Rd16(b, i)))
  {
    LeRd16(b, i);
  }

  lemma SlotStands(b: seq<byte>, l: Layout, id: nat)
    requires id < |l.off| == 5 && l.vtable + l.vtLen <= |b| && l.off[id] == SlotVoff(b, l.vtable, l.vtLen, id)
    ensures SlotHolds(b, l, id)
  {
    if 6 + 2 * id <= l.vtLen {
      Rd16Stands(b, l.vtable + 4 + 2 * id);
    }
  }

  lemma ScalarStands(b: seq<byte>, l: Layout, id: nat)
    requires id < |l.off| == 5 && 4 <= |b| && SlotHolds(b, l, id)
    ensures var x := I32Or0(b, FieldAt(b, l.table, l.off[id], 4)); ScalarHolds(b, l, id, Le32(ToU32(x)), x == 0)
  {
    if !Absent(b, l, id, 4) {
      Rd32Stands(b, l.table + l.off[id]);
    }
  }

  lemma KindStands(b: seq<byte>, l: Layout)
    requires |l.off| == 5 && 4 <= |b| && SlotHolds(b, l, 2)
    ensures var x := I8Or0(b, FieldAt(b, l.table, l.off[2], 1)); ScalarHolds(b, l, 2, [ToU8(x)], x == 0)
  {
  }

  /** Where the vector that the payload field at `f` points to starts. */
  function VectorOf(b: seq<byte>, f: Field): nat
    requires f.Pos? ==> f.pos + 4 <= |b|
  {
    if f.None? then 0 else f.pos + Rd32(b, f.pos)
  }

  lemma VectorStands(b: seq<byte>, self: nat, vector: nat)
    requires 4 <= self && self + 4 <= |b| && vector == self + Rd32(b, self) && DecodePayload(b, Pos(self)).Some?
    ensures self < vector < self + 0x1_0000_0000 && vector + 4 <= |b| && At(b, self, Le32(vector - self))
    ensures var payload := PayloadOf(b, EmptyView.(payload := DecodePayload(b, Pos(self)).value));
      |payload| < 0x1_0000_0000 && At(b, vector, Le32(|payload|)) && At(b, vector + 4, payload)
  {
    Rd32Stands(b, self);
    Rd32Stands(b, vector);
  }

  lemma PayloadStands(b: seq<byte>, l: Layout)
    requires |l.off| == 5 && 4 <= l.table && 4 <= |b| && SlotHolds(b, l, 3)
    requires var f := FieldAt(b, l.table, l.off[3], 4); DecodePayload(b, f).Some? && l.vector == VectorOf(b, f)
    ensures PayloadHolds(b, l, PayloadOf(b, EmptyView.(payload := DecodePayload(b, FieldAt(b, l.table, l.off[3], 4)).value)))
  {
    if !Absent(b, l, 3, 4) {
      VectorStands(b, l.table + l.off[3], l.vector);
    }
  }

  /** The layout that the decoder finds. */
  function Found(b: seq<byte>): Layout
    requires Decode(b).ok
  {
    var h := DecodeHeader(b);
    var off := seq(5, id requires 0 <= id < 5 => SlotVoff(b, h.vt, h.vtLen, id));
    Layout(h.root, h.vt, h.vtLen, off, VectorOf(b, FieldAt(b, h.root, off[3], 4)))
  }

  lemma HeaderStands(b: seq<byte>)
    requires DecodeHeader(b).Header?
    ensures var h := DecodeHeader(b);
      && At(b, 0, Le32(h.root)) && At(b, h.vt, Le16(h.vtLen)) && h.vt + 4 <= |b|
      && h.vt <= h.root && h.root - h.vt < 0x8000_0000 && At(b, h.root, Le32(h.root - h.vt))
  {
    var h := DecodeHeader(b);
    Rd32Stands(b, 0);
    Rd16Stands(b, h.vt);
    Rd32Stands(b, h.root);
  }

  lemma SlotsStand(b: seq<byte>, l: Layout)
    requires |l.off| == 5 && l.vtable + l.vtLen <= |b|
    requires forall id :: 0 <= id < 5 ==> l.off[id] == SlotVoff(b, l.vtable, l.vtLen, id)
    ensures forall id :: 0 <= id < 5 ==> SlotHolds(b, l, id)
  {
    forall id | 0 <= id < 5
      ensures SlotHolds(b, l, id)
    {
      SlotStands(b, l, id);
    }
  }

  lemma ScalarsStand(b: seq<byte>, l: Layout)
    requires |l.off| == 5 && 4 <= |b| && l.vtable + l.vtLen <= |b|
    requires forall id :: 0 <= id < 5 ==> l.off[id] == SlotVoff(b, l.vtable, l.vtLen, id) && SlotHolds(b, l, id)
    ensures var v := DecodeScalars(b, l.table, l.vtable, l.vtLen);
      && ScalarHolds(b, l, 0, Le32(ToU32(v.source)), v.source == 0)
      && ScalarHolds(b, l, 1, Le32(ToU32(v.target)), v.target == 0)
      && ScalarHolds(b, l, 2, [ToU8(v.kind)], v.kind == 0)
      && ScalarHolds(b, l, 4, Le32(ToU32(v.corr)), v.corr == 0)
  {
    ScalarStands(b, l, 0);
    ScalarStands(b, l, 1);
    KindStands(b, l);
    ScalarStands(b, l, 4);
  }

  /** What the decoder found: a header, a vtable, and a payload behind its field. */
  ghost predicate FoundBy(b: seq<byte>, l: Layout) {
    && 8 <= |b| && |l.off| == 5 && DecodeHeader(b) == Header(l.table, l.vtable, l.vtLen)
    && (forall id :: 0 <= id < 5 ==> l.off[id] == SlotVoff(b, l.vtable, l.vtLen, id))
    && var f := FieldAt(b, l.table, l.off[3], 4);
    DecodePayload(b, f).Some? && l.vector == VectorOf(b, f)
  }

  lemma FoundIs(b: seq<byte>)
    requires Decode(b).ok
    ensures FoundBy(b, Found(b))
  {
  }

  /** The envelope that is read through a layout. */
  function ReadBy(b: seq<byte>, l: Layout): Env
    requires FoundBy(b, l)
  {
    var v := DecodeScalars(b, l.table, l.vtable, l.vtLen);
    var payload := DecodePayload(b, FieldAt(b, l.table, l.off[3], 4)).value;
    Env(v.source, v.target, v.kind, v.corr, PayloadOf(b, EmptyView.(payload := payload)))
  }

  lemma ReadIsDecoded(b: seq<byte>, l: Layout, env: Env)
    requires FoundBy(b, l) && DecodesTo(b, env)
    ensures env == ReadBy(b, l)
  {
  }

  lemma ScalarsReadHold(b: seq<byte>, l: Layout)
    requires FoundBy(b, l)
    ensures ScalarsHold(b, l, ReadBy(b, l))
  {
    SlotsStand(b, l);
    ScalarsStand(b, l);
  }

  lemma PayloadReadHolds(b: seq<byte>, l: Layout)
    requires FoundBy(b, l)
    ensures PayloadHolds(b, l, ReadBy(b, l).payload)
  {
    SlotsStand(b, l);
    PayloadStands(b, l);
  }

  lemma PartsHold(b: seq<byte>, l: Layout, env: Env)
    requires FoundBy(b, l) && ScalarsHold(b, l, env) && PayloadHolds(b, l, env.payload)
    ensures Holds(b, l, env)
  {
    HeaderStands(b);
  }

  lemma LayoutHolds(b: seq<byte>, l: Layout)
    requires FoundBy(b, l)
    ensures Holds(b, l, ReadBy(b, l))
  {
    ScalarsReadHold(b, l);
    PayloadReadHolds(b, l);
    PartsHold(b, l, ReadBy(b, l));
  }

  lemma FoundHolds(b: seq<byte>, env: Env)
    requires DecodesTo(b, env)
    ensures Holds(b, Found(b), env)
  {
    FoundIs(b);
    ReadIsDecoded(b, Found(b), env);
    LayoutHolds(b, Found(b));
  }

  lemma Returned(b: seq<byte>)
    requires Decode(b).ok
    ensures exists env :: DecodesTo(b, env)
  {
    var v := Decode(b).view;
    assert DecodesTo(b, Env(v.source, v.target, v.kind, v.corr, PayloadOf(b, v)));
  }

  /** On every byte string: the decoder succeeds if and only if the bytes store an envelope, and
      what it returns is that envelope. */
  lemma DecodesIff(b: seq<byte>)
    ensures Decode(b).ok <==> exists l, env :: Holds(b, l, env)
    ensures forall env :: DecodesTo(b, env) <==> exists l :: Holds(b, l, env)
  {
    forall env | DecodesTo(b, env)
      ensures Holds(b, Found(b), env)
    {
      FoundHolds(b, env);
    }
    if Decode(b).ok {
      Returned(b);
    }
    forall l, env | Holds(b, l, env)
      ensures DecodesTo(b, env)
    {
      DecodeComplete(b, l, env);
    }
  }

  /** A buffer stores at most one envelope, however the layout is read. */
  lemma HoldsUnique(b: seq<byte>, l1: Layout, e1: Env, l2: Layout, e2: Env)
    requires Holds(b, l1, e1) && Holds(b, l2, e2)
    ensures e1 == e2
  {
    DecodeComplete(b, l1, e1);
    DecodeComplete(b, l2, e2);
  }

  // ---------------------------------------------------------------- canonical encoder

  const CanonicalLayout := Layout(20, 4, 14, [4, 8, 12, 16, 20], 44)

  predicate Encodable(env: Env) {
    |env.payload| < 0x1_0000_0000
  }

  /** `b` is a canonical encoding of `env`: the canonical layout and exactly its size.
      The bytes at 33..35 are not determined. */
  predicate Canonical(b: seq<byte>, env: Env) {
    && |b| == FIXED_SIZE + |env.payload|
    && Holds(b, CanonicalLayout, env)
  }

  lemma CanonicalBytes(b: seq<byte>, env: Env)
    requires Encodable(env) && |b| == 48 + |env.payload|
    requires At(b, 0, Le32(20)) && At(b, 4, Le16(14)) && At(b, 8, Le16(4)) && At(b, 10, Le16(8)) && At(b, 12, Le16(12))
    requires At(b, 14, Le16(16)) && At(b, 16, Le16(20)) && At(b, 20, Le32(16)) && At(b, 24, Le32(ToU32(env.source)))
    requires At(b, 28, Le32(ToU32(env.target))) && At(b, 32, [ToU8(env.kind)]) && At(b, 36, Le32(8))
    requires At(b, 40, Le32(ToU32(env.corr))) && At(b, 44, Le32(|env.payload|)) && At(b, 48, env.payload)
    ensures Canonical(b, env)
  {
  }

  function Vtable(rest: seq<byte>): seq<byte> {
    var r18 := [0, 0] + rest;
    var r16 := Le16(20) + r18;
    var r14 := Le16(16) + r16;
    var r12 := Le16(12) + r14;
    var r10 := Le16(8) + r12;
    var r8 := Le16(4) + r10;
    var r6 := Le16(24) + r8;
    var r4 := Le16(14) + r6;
    var r0 := Le32(20) + r4;
    r0
  }

  function TableHead(env: Env, rest: seq<byte>): seq<byte> {
    var r33 := [0, 0, 0] + rest;
    var r32 := [ToU8(env.kind)] + r33;
    var r28 := Le32(ToU32(env.target)) + r32;
    var r24 := Le32(ToU32(env.source)) + r28;
    var r20 := Le32(16) + r24;
    r20
  }

  function TableTail(env: Env): seq<byte>
    requires Encodable(env)
  {
    var r44 := Le32(|env.payload|) + env.payload;
    var r40 := Le32(ToU32(env.corr)) + r44;
    var r36 := Le32(8) + r40;
    r36
  }

  /** The canonical encoding with zeros in the padding. */
  function Encoded(env: Env): seq<byte>
    requires Encodable(env)
  {
    Vtable(TableHead(env, TableTail(env)))
  }

  lemma VtableAt(b: seq<byte>, rest: seq<byte>)
    requires At(b, 0, Vtable(rest))
    ensures At(b, 0, Le32(20)) && At(b, 4, Le16(14)) && At(b, 8, Le16(4)) && At(b, 10, Le16(8)) && At(b, 12, Le16(12))
    ensures At(b, 14, Le16(16)) && At(b, 16, Le16(20)) && At(b, 20, rest)
  {
    var r18 := [0, 0] + rest;
    var r16 := Le16(20) + r18;
    var r14 := Le16(16) + r16;
    var r12 := Le16(12) + r14;
    var r10 := Le16(8) + r12;
    var r8 := Le16(4) + r10;
    var r6 := Le16(24) + r8;
    var r4 := Le16(14) + r6;
    var r0 := Le32(20) + r4;
    AtConcat(b, 0, Le32(20), r4);
    AtConcat(b, 4, Le16(14), r6);
    AtConcat(b, 6, Le16(24), r8);
    AtConcat(b, 8, Le16(4), r10);
    AtConcat(b, 10, Le16(8), r12);
    AtConcat(b, 12, Le16(12), r14);
    AtConcat(b, 14, Le16(16), r16);
    AtConcat(b, 16, Le16(20), r18);
    AtConcat(b, 18, [0, 0], rest);
  }

  lemma TableHeadAt(b: seq<byte>, env: Env, rest: seq<byte>)
    requires At(b, 20, TableHead(env, rest))
    ensures At(b, 20, Le32(16)) && At(b, 24, Le32(ToU32(env.source))) && At(b, 28, Le32(ToU32(env.target)))
    ensures At(b, 32, [ToU8(env.kind)]) && At(b, 36, rest)
  {
    var r33 := [0, 0, 0] + rest;
    var r32 := [ToU8(env.kind)] + r33;
    var r28 := Le32(ToU32(env.target)) + r32;
    var r24 := Le32(ToU32(env.source)) + r28;
    var r20 := Le32(16) + r24;
    AtConcat(b, 20, Le32(16), r24);
    AtConcat(b, 24, Le32(ToU32(env.source)), r28);
    AtConcat(b, 28, Le32(ToU32(env.target)), r32);
    AtConcat(b, 32, [ToU8(env.kind)], r33);
    AtConcat(b, 33, [0, 0, 0], rest);
  }

  lemma TableTailAt(b: seq<byte>, env: Env)
    requires Encodable(env) && At(b, 36, TableTail(env))
    ensures At(b, 36, Le32(8)) && At(b, 40, Le32(ToU32(env.corr))) && At(b, 44, Le32(|env.payload|)) && At(b, 48, env.payload)
  {
    var r44 := Le32(|env.payload|) + env.payload;
    var r40 := Le32(ToU32(env.corr)) + r44;
    var r36 := Le32(8) + r40;
    AtConcat(b, 36, Le32(8), r40);
    AtConcat(b, 40, Le32(ToU32(env.corr)), r44);
    AtConcat(b, 44, Le32(|env.payload|), env.payload);
  }

  /** Every envelope has a canonical encoding. */
  lemma EncodedCanonical(env: Env)
    requires Encodable(env)
    ensures Canonical(Encoded(env), env)
  {
    var b := Encoded(env);
    VtableAt(b, TableHead(env, TableTail(env)));
    TableHeadAt(b, env, TableTail(env));
    TableTailAt(b, env);
    CanonicalBytes(b, env);
  }

  /** `ipc_envelope_encode`: refuses a buffer that is too small and otherwise writes a
      canonical encoding, touching neither the padding nor the bytes behind it. */
  method Encode(out: array<byte>, cap: nat, env: Env) returns (n: nat)
    requires cap <= out.Length && Encodable(env)
    modifies out
    ensures n == if FIXED_SIZE + |env.payload| > cap then 0 else FIXED_SIZE + |env.payload|
    ensures n == 0 ==> out[..] == old(out[..])
    ensures n != 0 ==> n <= cap && Canonical(out[..n], env)
    ensures forall k :: 0 <= k < out.Length && (33 <= k < 36 || n <= k) ==> out[k] == old(out[k])
  {
    var need := FIXED_SIZE + |env.payload|;
    if need > cap {
      return 0;
    }
    WriteVtable(out);
    WriteTable(out, env);
    Copy(out, 48, env.payload);
    CanonicalBytes(out[..need], env);
    return need;
  }

  /** The header word and the vtable, bytes 0..18. */
  method WriteVtable(out: array<byte>)
    requires 48 <= out.Length
    modifies out
    ensures At(out[..], 0, Le32(20)) && At(out[..], 4, Le16(14)) && At(out[..], 6, Le16(24))
    ensures At(out[..], 8, Le16(4)) && At(out[..], 10, Le16(8)) && At(out[..], 12, Le16(12))
    ensures At(out[..], 14, Le16(16)) && At(out[..], 16, Le16(20))
    ensures forall k :: 18 <= k < out.Length ==> out[k] == old(out[k])
  {
    Wr32(out, 0, 20);
    Wr16(out, 4, 14);
    Wr16(out, 6, 24);
    Wr16(out, 8, 4);
    Wr16(out, 10, 8);
    Wr16(out, 12, 12);
    Wr16(out, 14, 16);
    Wr16(out, 16, 20);
  }

  /** The table and the vector length, bytes 20..48 except the padding. */
  method WriteTable(out: array<byte>, env: Env)
    requires 48 <= out.Length && Encodable(env)
    modifies out
    ensures At(out[..], 20, Le32(16)) && At(out[..], 24, Le32(ToU32(env.source)))
    ensures At(out[..], 28, Le32(ToU32(env.target))) && At(out[..], 32, [ToU8(env.kind)])
    ensures At(out[..], 36, Le32(8)) && At(out[..], 40, Le32(ToU32(env.corr))) && At(out[..], 44, Le32(|env.payload|))
    ensures forall k :: 0 <= k < out.Length && (k < 20 || 33 <= k < 36 || 48 <= k) ==> out[k] == old(out[k])
  {
    Wr32(out, 20, 16);
    Wr32(out, 24, ToU32(env.source));
    Wr32(out, 28, ToU32(env.target));
    out[32] := ToU8(env.kind);
    Wr32(out, 36, 8);
    Wr32(out, 40, ToU32(env.corr));
    Wr32(out, 44, |env.payload|);
  }

  /** Round trip: decoding any canonical encoding gives the envelope back. */
  lemma DecodeEncode(b: seq<byte>, env: Env)
    requires Canonical(b, env)
    ensures DecodesTo(b, env)
  {
    DecodeComplete(b, CanonicalLayout, env);
  }
}
