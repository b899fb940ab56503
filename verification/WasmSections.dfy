/** WebAssembly.Module.customSections (src/ext_wasm3.c): a scan of the raw binary for custom
    sections of a given name. The format is that of the WebAssembly Core Specification: u32 in
    LEB128 (section 5.2.2), sections (5.5.2) and custom sections (5.5.3). */
module WasmSections {
  import opened LittleEndian
  import opened Wrappers

  type Bytes = seq<byte>

  const PREAMBLE := 8
  const WRAP32 := 0x1_0000_0000

  // ---------------------------------------------------------------- the format

  /** `b` is a LEB128 encoding of an unsigned integer of at most `bits` bits. It need not be the
      shortest. */
  predicate IsLeb(b: Bytes, bits: nat) {
    b != [] && if b[0] < 0x80 then |b| == 1 && b[0] < Pow2(bits) else bits > 7 && IsLeb(b[1..], bits - 7)
  }

  function Pow2(n: nat): (p: nat)
    ensures p > 0
  {
    if n == 0 then 1 else 2 * Pow2(n - 1)
  }

  function LebValue(b: Bytes): nat {
    if b == [] then 0 else if b[0] < 0x80 then b[0] else (b[0] as int) - 0x80 + 0x80 * LebValue(b[1..])
  }

  /** A section: `size` and `nameSize` are the encodings chosen for the lengths. */
  datatype Section =
    | Custom(size: Bytes, nameSize: Bytes, name: Bytes, content: Bytes)
    | Other(id: byte, size: Bytes, body: Bytes)

  function BodyOf(s: Section): Bytes {
    match s
    case Custom(_, nameSize, name, content) => nameSize + name + content
    case Other(_, _, body) => body
  }

  function IdOf(s: Section): byte {
    if s.Custom? then 0 else s.id
  }

  function Written(s: Section): Bytes {
    [IdOf(s)] + s.size + BodyOf(s)
  }

  predicate WellFormed(s: Section) {
    && IsLeb(s.size, 32) && LebValue(s.size) == |BodyOf(s)|
    && (s.Custom? ==> IsLeb(s.nameSize, 32) && LebValue(s.nameSize) == |s.name|)
    && (s.Other? ==> s.id != 0)
  }

  predicate AllWellFormed(secs: seq<Section>) {
    secs == [] || (WellFormed(secs[0]) && AllWellFormed(secs[1..]))
  }

  function AllWritten(secs: seq<Section>): Bytes {
    if secs == [] then [] else Written(secs[0]) + AllWritten(secs[1..])
  }

  function Selected(s: Section, name: Bytes): seq<Bytes> {
    if s.Custom? && s.name == name then [s.content] else []
  }

  /** The contents of the custom sections called `name`, in order. */
  function Contents(secs: seq<Section>, name: Bytes): seq<Bytes> {
    if secs == [] then [] else
    Selected(secs[0], name) + Contents(secs[1..], name)
  }

  // ---------------------------------------------------------------- reading a number

  /** The number read and the offset behind it, or how far it got before the input ended. */
  datatype Leb = Done(value: uint32, next: nat) | Cut(value: uint32, next: nat)

  /** The decoding loop after `k` bytes, with `acc` assembled so far: five bytes at most, and a
      32-bit accumulator. */
  function ReadLeb(b: Bytes, p: nat, end: nat, k: nat, acc: uint32): (r: Leb)
    requires p <= end <= |b| && k < 5 && acc < Weight(k)
    ensures p <= r.next <= end && (r.Done? ==> p < r.next)
    decreases end - p
  {
    if p == end then Cut(acc, p) else
    var v := Shifted(b[p] % 0x80, k, acc);
    if k == 4 || b[p] < 0x80 then Done(v, p + 1) else ReadLeb(b, p + 1, end, k + 1, v)
  }

  /** 2 to the 7k: the weight of byte k. */
  function Weight(k: nat): nat
    requires k <= 5
  {
    if k == 0 then 1 else if k == 1 then 0x80 else if k == 2 then 0x4000
    else if k == 3 then 0x20_0000 else if k == 4 then 0x1000_0000 else 0x8_0000_0000
  }

  /** `d << 7k` on 32 bits. */
  function Digit(d: byte, k: nat): (v: uint32)
    requires k < 5 && d < 0x80
    ensures k < 4 ==> v + Weight(k) <= Weight(k + 1)
  {
    if k == 0 then d else if k == 1 then d * 0x80 else if k == 2 then d * 0x4000
    else if k == 3 then d * 0x20_0000 else d * 0x1000_0000 % WRAP32
  }

  /** `acc | d << 7k`: the bits of `acc` lie below the shift. */
  function Shifted(d: byte, k: nat, acc: uint32): (v: uint32)
    requires k < 5 && d < 0x80 && acc < Weight(k)
    ensures k < 4 ==> v < Weight(k + 1)
  {
    acc + Digit(d, k)
  }

  /** The digits of an encoding, from byte `k` on. */
  function DigitSum(leb: Bytes, k: nat): nat
    requires k + |leb| <= 5
  {
    if leb == [] then 0 else Digit(leb[0] % 0x80, k) + DigitSum(leb[1..], k + 1)
  }

  lemma {:induction false} LebLength(leb: Bytes, k: nat)
    requires k < 5 && IsLeb(leb, 32 - 7 * k)
    ensures k + |leb| <= 5
    decreases |leb|
  {
    if leb[0] >= 0x80 {
      LebLength(leb[1..], k + 1);
    }
  }

  /** The loop reads every valid encoding, whatever follows it. */
  lemma {:induction false} ReadsLeb(b: Bytes, p: nat, end: nat, k: nat, acc: uint32, leb: Bytes)
    requires k < 5 && acc < Weight(k) && IsLeb(leb, 32 - 7 * k) && At(b, p, leb) && p + |leb| <= end <= |b| && k + |leb| <= 5
    ensures acc + DigitSum(leb, k) < WRAP32
    ensures ReadLeb(b, p, end, k, acc) == Done(acc + DigitSum(leb, k), p + |leb|)
    decreases |leb|
  {
    assert b[p] == b[p + 0] == leb[0];
    var d, rest := leb[0] % 0x80, leb[1..];
    if leb[0] < 0x80 {
      assert DigitSum(rest, k + 1) == 0;
    } else {
      AtTail(b, p, leb);
      ReadsLeb(b, p + 1, end, k + 1, Shifted(d, k, acc), rest);
    }
  }

  lemma {:induction false} DigitSumIsValue(leb: Bytes, k: nat)
    requires k < 5 && IsLeb(leb, 32 - 7 * k) && k + |leb| <= 5
    ensures DigitSum(leb, k) == LebValue(leb) * Weight(k)
    decreases |leb|
  {
    var d, rest := leb[0] % 0x80, leb[1..];
    if leb[0] < 0x80 {
      LastFits(d, k);
      DigitValue(d, k);
      assert DigitSum(rest, k + 1) == 0;
    } else {
      DigitSumIsValue(rest, k + 1);
      DigitValue(d, k);
      Regroup(d, LebValue(rest), k);
    }
  }

  lemma DigitValue(d: byte, k: nat)
    requires k < 5 && d < 0x80 && (k == 4 ==> d < 0x10)
    ensures Digit(d, k) == d * Weight(k)
  {
  }

  lemma AtTail(b: Bytes, p: nat, x: Bytes)
    requires x != [] && At(b, p, x)
    ensures At(b, p + 1, x[1..])
  {
    forall j | 0 <= j < |x| - 1
      ensures b[p + 1 + j] == x[1..][j]
    {
      assert b[p + (j + 1)] == x[j + 1];
    }
  }

  lemma ReadsWhole(b: Bytes, p: nat, end: nat, leb: Bytes)
    requires IsLeb(leb, 32) && At(b, p, leb) && p + |leb| <= end <= |b|
    ensures LebValue(leb) < WRAP32 && ReadLeb(b, p, end, 0, 0) == Done(LebValue(leb), p + |leb|)
  {
    LebLength(leb, 0);
    ReadsLeb(b, p, end, 0, 0, leb);
    DigitSumIsValue(leb, 0);
  }

  lemma LastFits(d: byte, k: nat)
    requires k < 5 && d < 0x80 && d < Pow2(32 - 7 * k)
    ensures k == 4 ==> d < 0x10
  {
    if k == 4 {
      assert Pow2(4) == 2 * Pow2(3) && Pow2(3) == 2 * Pow2(2) && Pow2(2) == 2 * Pow2(1) && Pow2(1) == 2 * Pow2(0);
    }
  }

  lemma Regroup(d: nat, m: nat, k: nat)
    requires k < 5
    ensures d * Weight(k) + m * Weight(k + 1) == (d + 0x80 * m) * Weight(k)
  {
    var p := Weight(k);
    assert m * (0x80 * p) == 0x80 * m * p;
    assert (d + 0x80 * m) * p == d * p + 0x80 * m * p;
  }

  // ---------------------------------------------------------------- the scan

  /** The name test on a custom section from `start` to `end`, and the content behind the
      name. */
  function Match(b: Bytes, start: nat, end: nat, name: Bytes): seq<Bytes>
    requires start <= end <= |b|
  {
    var r := ReadLeb(b, start, end, 0, 0);
    if r.value == |name| && r.next + r.value <= end && b[r.next..r.next + r.value] == name
    then [b[r.next + r.value..end]] else []
  }

  /** One turn of the scan: what it adds, and where the next section starts. */
  datatype Turn = Stop | Next(found: seq<Bytes>, p: nat)

  /** Where the contents of the section at `p` lie, when all of it is there. */
  datatype Span = Missing | Span(start: nat, end: nat)

  function SpanAt(b: Bytes, p: nat): (s: Span)
    requires p <= |b|
    ensures s.Span? ==> p < s.start <= s.end <= |b|
  {
    if p + 2 > |b| then Missing else
    var r := ReadLeb(b, p + 1, |b|, 0, 0);
    if r.Cut? || r.next + r.value > |b| then Missing else Span(r.next, r.next + r.value)
  }

  function Found(b: Bytes, p: nat, s: Span, name: Bytes): seq<Bytes>
    requires s.Span? && p < s.start <= s.end <= |b|
  {
    if b[p] == 0 then Match(b, s.start, s.end, name) else []
  }

  function TurnAt(b: Bytes, p: nat, name: Bytes): (t: Turn)
    requires p <= |b|
    ensures t.Next? ==> p < t.p <= |b|
  {
    var s := SpanAt(b, p);
    if s.Missing? then Stop else Next(Found(b, p, s, name), s.end)
  }

  /** The scan over an input of `n` bytes from `p` on, with `turn` saying what each turn does. */
  function Follow(turn: nat -> Turn, n: nat, p: nat): seq<Bytes>
    requires p <= n
    decreases n - p
  {
    match turn(p)
    case Stop => []
    case Next(found, q) => if p < q <= n then found + Follow(turn, n, q) else found
  }

  function Turns(b: Bytes, name: Bytes): nat -> Turn {
    (p: nat) => if p <= |b| then TurnAt(b, p, name) else Stop
  }

  function ScanFrom(b: Bytes, p: nat, name: Bytes): seq<Bytes>
    requires p <= |b|
  {
    Follow(Turns(b, name), |b|, p)
  }

  function Scan(b: Bytes, name: Bytes): seq<Bytes> {
    if PREAMBLE > |b| then [] else ScanFrom(b, PREAMBLE, name)
  }

  /** A string argument as C sees it: up to its first NUL. */
  function CString(request: Bytes): (name: Bytes)
    ensures name <= request && 0 !in name && (0 !in request ==> name == request)
  {
    if request == [] || request[0] == 0 then [] else [request[0]] + CString(request[1..])
  }

  // ---------------------------------------------------------------- the scan in the source's form

  /** The decoding loop: at most five bytes, never past `end`. `cut` says the input ended
      first. */
  method DecodeLeb(b: Bytes, p: nat, end: nat) returns (value: uint32, next: nat, cut: bool)
    requires p <= end <= |b|
    ensures ReadLeb(b, p, end, 0, 0) == if cut then Cut(value, next) else Done(value, next)
  {
    value, next, cut := 0, p, false;
    var shift := 0;
    while true
      invariant p <= next <= end && shift % 7 == 0 && 0 <= shift / 7 < 5 && value < Weight(shift / 7)
      invariant !cut && ReadLeb(b, next, end, shift / 7, value) == ReadLeb(b, p, end, 0, 0)
      decreases end - next
    {
      if next == end {
        cut := true;
        return;
      }
      var c := b[next];
      value := Shifted(c % 0x80, shift / 7, value);
      next := next + 1;
      shift := shift + 7;
      if shift > 28 || c < 0x80 {
        return;
      }
    }
  }

  method CustomSections(b: Bytes, request: Bytes) returns (found: seq<Bytes>)
    ensures found == Scan(b, CString(request))
  {
    var name := CString(request);
    found := [];
    if PREAMBLE > |b| {
      return;
    }
    var p := PREAMBLE;
    var stop := false;
    while p < |b| && !stop
      invariant p <= |b| && found + (if stop then [] else ScanFrom(b, p, name)) == Scan(b, name)
      decreases |b| - p, !stop
    {
      var more;
      ghost var at := p;
      stop, more, p := ScanOne(b, p, name);
      ScanUnfolds(b, at, name);
      Assoc(found, more, if stop then [] else ScanFrom(b, p, name));
      found := found + more;
    }
    if !stop {
      ScanUnfolds(b, p, name);
    }
    assert found + [] == found;
  }

  lemma ScanUnfolds(b: Bytes, p: nat, name: Bytes)
    requires p <= |b|
    ensures p == |b| ==> ScanFrom(b, p, name) == []
    ensures ScanFrom(b, p, name)
         == match TurnAt(b, p, name) { case Stop => [] case Next(found, q) => found + ScanFrom(b, q, name) }
  {
  }

  /** One turn of the section loop; `stop` when a section is cut off. */
  method ScanOne(b: Bytes, p: nat, name: Bytes) returns (stop: bool, more: seq<Bytes>, next: nat)
    requires p < |b|
    ensures TurnAt(b, p, name) == if stop then Stop else Next(more, next)
    ensures p <= next <= |b| && (stop ==> more == []) && (!stop ==> p < next)
  {
    stop, more, next := true, [], p;
    if p + 2 > |b| {
      return;
    }
    var id := b[p];
    var size, start, cut := DecodeLeb(b, p + 1, |b|);
    if cut || start + size > |b| {
      return;
    }
    if id == 0 {
      more := MatchName(b, start, start + size, name);
    }
    stop, next := false, start + size;
  }

  method MatchName(b: Bytes, start: nat, end: nat, name: Bytes) returns (content: seq<Bytes>)
    requires start <= end <= |b|
    ensures content == Match(b, start, end, name)
  {
    var len, np, _ := DecodeLeb(b, start, end);
    content := [];
    if len == |name| && np + len <= end && b[np..np + len] == name {
      var offset := np + len - start;
      content := [b[start + offset..end]];
    }
  }

  // ---------------------------------------------------------------- the scan finds what is there

  /** What stands where in a written section. */
  lemma Layout(b: Bytes, p: nat, s: Section)
    requires At(b, p, Written(s))
    ensures |Written(s)| == 1 + |s.size| + |BodyOf(s)| && p + |Written(s)| <= |b|
    ensures b[p] == IdOf(s) && At(b, p + 1, s.size) && At(b, p + 1 + |s.size|, BodyOf(s))
  {
    AtConcat(b, p, [IdOf(s)] + s.size, BodyOf(s));
    AtConcat(b, p, [IdOf(s)], s.size);
    assert b[p + 0] == [IdOf(s)][0];
  }

  lemma MatchWritten(b: Bytes, start: nat, end: nat, s: Section, name: Bytes)
    requires s.Custom? && WellFormed(s) && At(b, start, BodyOf(s)) && end == start + |BodyOf(s)|
    ensures Match(b, start, end, name) == if s.name == name then [s.content] else []
  {
    var at := start + |s.nameSize|;
    BodyParts(b, start, s);
    ReadsWhole(b, start, end, s.nameSize);
    MatchRead(b, start, end, name, |s.name|, at);
  }

  lemma BodyParts(b: Bytes, start: nat, s: Section)
    requires s.Custom? && At(b, start, BodyOf(s))
    ensures |BodyOf(s)| == |s.nameSize| + |s.name| + |s.content| && start + |BodyOf(s)| <= |b|
    ensures var at := start + |s.nameSize|;
      At(b, start, s.nameSize) && b[at..at + |s.name|] == s.name && b[at + |s.name|..start + |BodyOf(s)|] == s.content
  {
    ThreeParts(b, start, s.nameSize, s.name, s.content);
  }

  lemma ThreeParts(b: Bytes, p: nat, x: Bytes, y: Bytes, z: Bytes)
    requires At(b, p, x + y + z)
    ensures p + |x| + |y| + |z| <= |b| && At(b, p, x)
    ensures b[p + |x|..p + |x| + |y|] == y && b[p + |x| + |y|..p + |x| + |y| + |z|] == z
  {
    AtConcat(b, p, x + y, z);
    AtConcat(b, p, x, y);
    AtSlice(b, p + |x|, y);
    AtSlice(b, p + |x| + |y|, z);
  }

  lemma MatchRead(b: Bytes, start: nat, end: nat, name: Bytes, len: uint32, at: nat)
    requires start <= end <= |b| && ReadLeb(b, start, end, 0, 0) == Done(len, at) && at + len <= end
    ensures Match(b, start, end, name) == if b[at..at + len] == name then [b[at + len..end]] else []
  {
  }

  /** Where the body of a section written at `p` starts. */
  function BodyStart(p: nat, s: Section): nat {
    p + 1 + |s.size|
  }

  lemma SpanOfSection(b: Bytes, p: nat, s: Section)
    requires WellFormed(s) && At(b, p, Written(s))
    ensures p + |Written(s)| == BodyStart(p, s) + |BodyOf(s)| <= |b| && p + 2 <= |b|
    ensures SpanAt(b, p) == Span(BodyStart(p, s), p + |Written(s)|)
  {
    Layout(b, p, s);
    ReadsWhole(b, p + 1, |b|, s.size);
  }

  lemma FoundInSection(b: Bytes, p: nat, s: Section, name: Bytes)
    requires WellFormed(s) && At(b, p, Written(s)) && BodyStart(p, s) + |BodyOf(s)| <= |b|
    ensures Found(b, p, Span(BodyStart(p, s), BodyStart(p, s) + |BodyOf(s)|), name) == Selected(s, name)
  {
    Layout(b, p, s);
    if s.Custom? {
      MatchWritten(b, BodyStart(p, s), BodyStart(p, s) + |BodyOf(s)|, s, name);
    }
  }

  lemma TurnOverSection(b: Bytes, p: nat, s: Section, name: Bytes)
    requires WellFormed(s) && At(b, p, Written(s))
    ensures p + |Written(s)| <= |b| && TurnAt(b, p, name) == Next(Selected(s, name), p + |Written(s)|)
  {
    SpanOfSection(b, p, s);
    FoundInSection(b, p, s, name);
  }

  /** The turns from `p` on go over the sections one by one and stop at the end. */
  predicate SectionTurns(turn: nat -> Turn, n: nat, p: nat, secs: seq<Section>, name: Bytes)
    decreases |secs|
  {
    p <= n &&
    if secs == [] then turn(p) == Stop else
    var q := p + |Written(secs[0])|;
    turn(p) == Next(Selected(secs[0], name), q) && p < q && SectionTurns(turn, n, q, secs[1..], name)
  }

  lemma {:induction false} FollowSections(turn: nat -> Turn, n: nat, p: nat, secs: seq<Section>, name: Bytes)
    requires SectionTurns(turn, n, p, secs, name)
    ensures Follow(turn, n, p) == Contents(secs, name)
    decreases |secs|
  {
    if secs != [] {
      FollowSections(turn, n, p + |Written(secs[0])|, secs[1..], name);
    }
  }

  lemma HeadTurn(b: Bytes, p: nat, s: Section, rest: Bytes, name: Bytes)
    requires WellFormed(s) && p <= |b| && b[p..] == Written(s) + rest
    ensures var q := p + |Written(s)|;
      p < q <= |b| && b[q..] == rest && Turns(b, name)(p) == Next(Selected(s, name), q)
  {
    TailStarts(b, p, Written(s), rest);
    TurnOverSection(b, p, s, name);
  }

  lemma {:induction false} TurnsOverSections(b: Bytes, p: nat, secs: seq<Section>, rest: Bytes, name: Bytes)
    requires p <= |b| && b[p..] == AllWritten(secs) + rest && AllWellFormed(secs) && CutOff(rest)
    ensures SectionTurns(Turns(b, name), |b|, p, secs, name)
    decreases |secs|
  {
    if secs == [] {
      assert b[p..] == rest;
      CutTurn(b, p, name);
    } else {
      var s := secs[0];
      WrittenCons(secs, rest);
      HeadTurn(b, p, s, AllWritten(secs[1..]) + rest, name);
      var q := p + |Written(s)|;
      TurnsOverSections(b, q, secs[1..], rest, name);
      AddTurn(Turns(b, name), |b|, p, q, secs, name);
    }
  }

  lemma WrittenCons(secs: seq<Section>, rest: Bytes)
    requires secs != []
    ensures AllWritten(secs) + rest == Written(secs[0]) + (AllWritten(secs[1..]) + rest)
  {
  }

  /** Nothing, or the beginning of a section that the end of the input cuts off. */
  ghost predicate CutOff(x: Bytes) {
    x == [] || exists s :: WellFormed(s) && x < Written(s)
  }

  /** An input that ends inside a number is cut. */
  lemma {:induction false} ReadsCut(b: Bytes, p: nat, k: nat, acc: uint32, leb: Bytes)
    requires p <= |b| && k < 5 && acc < Weight(k) && IsLeb(leb, 32 - 7 * k) && k + |leb| <= 5 && b[p..] < leb
    ensures ReadLeb(b, p, |b|, k, acc).Cut?
    decreases |leb|
  {
    if p < |b| {
      assert b[p] == b[p..][0] == leb[0] && |leb| > 1;
      assert b[p + 1..] == b[p..][1..];
      ReadsCut(b, p + 1, k + 1, Shifted(leb[0] % 0x80, k, acc), leb[1..]);
    }
  }

  lemma CutTurn(b: Bytes, p: nat, name: Bytes)
    requires p <= |b| && CutOff(b[p..])
    ensures Turns(b, name)(p) == Stop
  {
    if p + 2 <= |b| {
      var s :| WellFormed(s) && b[p..] < Written(s);
      CutSpan(b, p, s);
    }
  }

  lemma CutInSize(b: Bytes, p: nat, s: Section)
    requires WellFormed(s) && p + 2 <= |b| && |b| - p - 1 < |s.size| && b[p + 1..] == s.size[..|b| - p - 1]
    ensures SpanAt(b, p).Missing?
  {
    LebLength(s.size, 0);
    ReadsCut(b, p + 1, 0, 0, s.size);
  }

  lemma CutInBody(b: Bytes, p: nat, s: Section, part: Bytes)
    requires WellFormed(s) && p + 2 <= |b| && b[p + 1..] == s.size + part && |part| < |BodyOf(s)|
    ensures SpanAt(b, p).Missing?
  {
    TailStarts(b, p + 1, s.size, part);
    ReadsWhole(b, p + 1, |b|, s.size);
  }

  /** The part behind the section's id is cut in the number, or behind it. */
  lemma CutSpan(b: Bytes, p: nat, s: Section)
    requires WellFormed(s) && p + 2 <= |b| && b[p..] < Written(s)
    ensures SpanAt(b, p).Missing?
  {
    var n := |b| - p - 1;
    BehindId(b, p, s);
    if n < |s.size| {
      CutInSize(b, p, s);
    } else {
      CutInBody(b, p, s, BodyOf(s)[..n - |s.size|]);
    }
  }

  lemma BehindId(b: Bytes, p: nat, s: Section)
    requires p < |b| && b[p..] < Written(s)
    ensures var n := |b| - p - 1;
      n < |s.size| + |BodyOf(s)| &&
      b[p + 1..] == if n < |s.size| then s.size[..n] else s.size + BodyOf(s)[..n - |s.size|]
  {
    var n := |b| - p - 1;
    assert b[p + 1..] == b[p..][1..] == Written(s)[1..n + 1];
    assert Written(s)[1..] == s.size + BodyOf(s);
    assert Written(s)[1..n + 1] == Written(s)[1..][..n];
  }

  lemma AddTurn(turn: nat -> Turn, n: nat, p: nat, q: nat, secs: seq<Section>, name: Bytes)
    requires secs != [] && p < q <= n && q == p + |Written(secs[0])|
    requires turn(p) == Next(Selected(secs[0], name), q) && SectionTurns(turn, n, q, secs[1..], name)
    ensures SectionTurns(turn, n, p, secs, name)
  {
  }

  lemma TailStarts(b: Bytes, p: nat, x: Bytes, y: Bytes)
    requires p <= |b| && b[p..] == x + y
    ensures At(b, p, x) && p + |x| <= |b| && b[p + |x|..] == y
  {
    assert forall k :: 0 <= k < |x| ==> b[p + k] == b[p..][k];
    assert b[p + |x|..] == b[p..][|x|..];
  }

  lemma ScanOfSections(b: Bytes, secs: seq<Section>, rest: Bytes, name: Bytes)
    requires PREAMBLE <= |b| && b[PREAMBLE..] == AllWritten(secs) + rest && AllWellFormed(secs) && CutOff(rest)
    ensures Scan(b, name) == Contents(secs, name)
  {
    TurnsOverSections(b, PREAMBLE, secs, rest, name);
    FollowSections(Turns(b, name), |b|, PREAMBLE, secs, name);
  }

  lemma BehindPreamble(preamble: Bytes, tail: Bytes)
    ensures (preamble + tail)[|preamble|..] == tail
  {
  }

  /** For every module binary built from well-formed sections, with lengths in any valid
      LEB128 form, the scan returns exactly the contents of the custom sections with the
      requested name, in order, and if the binary is cut off inside a section, those of the
      sections before; of a request with a NUL in it, the part before the NUL is the name. */
  lemma ScanFindsCustomSections(preamble: Bytes, secs: seq<Section>, rest: Bytes, request: Bytes)
    requires |preamble| == PREAMBLE && AllWellFormed(secs) && CutOff(rest)
    ensures Scan(preamble + (AllWritten(secs) + rest), CString(request)) == Contents(secs, CString(request))
    ensures 0 !in request ==> Scan(preamble + (AllWritten(secs) + rest), CString(request)) == Contents(secs, request)
  {
    BehindPreamble(preamble, AllWritten(secs) + rest);
    ScanOfSections(preamble + (AllWritten(secs) + rest), secs, rest, CString(request));
  }
}
