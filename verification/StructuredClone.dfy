/** structuredClone of polyfill.js: a recursive copy of cyclic, shared object graphs through
    a `seen` map. This module defines the copy on values and proves that its result is an
    isomorphic, disjoint graph; `StructuredCloneCode` is the code that fills containers in
    place and refines it. */
module StructuredClone {
  import opened Wrappers

  type Ref = nat

  /** Values. Primitives are abstract; their equality stands for the SameValueZero comparison
      of Map and Set keys. */
  datatype Value = Prim(p: string) | Symbol(id: nat) | Obj(r: Ref)

  datatype Kind = Array | Plain | MapKind | SetKind | Buffer(bytes: seq<int>) | Typed(ctor: string, data: seq<int>) | Function

  /** A member of a container: an array element or Set member, a property, a Map entry. */
  datatype Member = Elem(v: Value) | Prop(key: string, v: Value) | Entry(k: Value, v: Value)

  /** An object: its kind and its members in enumeration order (own enumerable string keys in
      `Object.keys` order, Map and Set members in insertion order), and the prototype that an
      assignment to "__proto__" gave it, if any. */
  datatype Node = Node(kind: Kind, members: seq<Member>, proto: Option<Ref>)

  type Heap = map<Ref, Node>

  const PROTO := "__proto__"

  predicate Shaped(kind: Kind, m: Member) {
    match kind
    case Array => m.Elem?
    case SetKind => m.Elem?
    case Plain => m.Prop?
    case MapKind => m.Entry?
    case _ => false
  }

  /** The two members compete for one key. Array elements never do. */
  predicate SameKey(kind: Kind, a: Member, b: Member) {
    match kind
    case SetKind => a.v == b.v
    case Plain => a.Prop? && b.Prop? && a.key == b.key
    case MapKind => a.Entry? && b.Entry? && a.k == b.k
    case _ => false
  }

  function WithValue(m: Member, v: Value): Member {
    match m
    case Elem(_) => Elem(v)
    case Prop(key, _) => Prop(key, v)
    case Entry(k, _) => Entry(k, v)
  }

  // ---------------------------------------------------------------- filling a container

  /** What stays when a member is set again: a Set keeps its member, a property or entry
      keeps its place and takes the new value. */
  function Merge(was: Member, m: Member): Member {
    if was.Elem? then was else WithValue(was, m.v)
  }

  predicate IsProto(kind: Kind, m: Member) {
    kind.Plain? && m.Prop? && m.key == PROTO
  }

  /** The names for which an object of this kind, as a prototype, has a getter and no setter.
      Assigning one of them to an object below has no effect, in code that is not strict. */
  predicate Hides(kind: Kind, key: string) {
    match kind
    case MapKind => key == "size"
    case SetKind => key == "size"
    case Buffer(_) => key in {"byteLength", "maxByteLength", "resizable", "detached"}
    case Typed(_, _) => key in {"buffer", "byteLength", "byteOffset", "length"}
    case _ => false
  }

  /** Whether the prototype of `n` keeps `m` out. */
  predicate Hidden(heap: Heap, n: Node, m: Member) {
    n.kind.Plain? && m.Prop? && n.proto.Some? && n.proto.value in heap && Hides(heap[n.proto.value].kind, m.key)
  }

  /** `result[i] = v`, `result[key] = v`, `result.set(k, v)` or `result.add(v)`. Assigning to
      "__proto__" sets the prototype instead of creating a property, if the value is an object;
      assigning to a new property that the prototype hides does nothing. */
  function Put(n: Node, m: Member, hidden: bool): Node {
    if IsProto(n.kind, m) then (if m.v.Obj? then n.(proto := Some(m.v.r)) else n)
    else if exists i :: 0 <= i < |n.members| && SameKey(n.kind, n.members[i], m) then
      n.(members := seq(|n.members|, i requires 0 <= i < |n.members| =>
           if SameKey(n.kind, n.members[i], m) then Merge(n.members[i], m) else n.members[i]))
    else if hidden then n
    else n.(members := n.members + [m])
  }

  // ---------------------------------------------------------------- well-formed sources

  predicate Known(src: Heap, v: Value) {
    v.Obj? ==> v.r in src
  }

  predicate MemberKnown(src: Heap, m: Member) {
    Known(src, m.v) && (m.Entry? ==> Known(src, m.k))
  }

  /** Every reference in the graph leads to a node of the graph. */
  predicate Closed(src: Heap) {
    forall r, i :: r in src && 0 <= i < |src[r].members| ==> MemberKnown(src, src[r].members[i])
  }

  /** Members fit their container, and no two compete for one key; the prototype is the one
      that objects of the kind have. */
  predicate NodeOk(n: Node) {
    && n.proto == None
    && (forall i :: 0 <= i < |n.members| ==> Shaped(n.kind, n.members[i]))
    && (forall i, j :: 0 <= i < j < |n.members| ==> !SameKey(n.kind, n.members[i], n.members[j]))
  }

  ghost predicate HasProto(n: Node) {
    exists m :: m in n.members && IsProto(n.kind, m)
  }

  /** An own property "__proto__" does not hold an object that has one itself. (The prototypes
      of copies would form chains, and a cycle among them is an error of its own.) */
  ghost predicate FlatProtos(src: Heap) {
    forall r, m :: r in src && m in src[r].members && IsProto(src[r].kind, m) && m.v.Obj? && m.v.r in src ==> !HasProto(src[m.v.r])
  }

  ghost predicate WellFormed(src: Heap) {
    Closed(src) && FlatProtos(src) && forall r :: r in src ==> NodeOk(src[r])
  }

  // ---------------------------------------------------------------- clone

  /** The object store, the `seen` map and the allocator. */
  datatype St = St(heap: Heap, seen: map<Ref, Ref>, next: Ref)

  /** A value and the state after, or a DataCloneError. */
  datatype Out = Ok(v: Value, st: St) | Thrown

  datatype MemberOut = MemberOk(m: Member, st: St) | MemberThrown

  function Unseen(src: Heap, st: St): nat {
    |src.Keys - st.seen.Keys|
  }

  ghost predicate SubMap(a: map<Ref, Ref>, b: map<Ref, Ref>) {
    forall r :: r in a ==> r in b && b[r] == a[r]
  }

  ghost predicate Grows(src: Heap, st: St, st': St) {
    st.heap.Keys <= st'.heap.Keys && SubMap(st.seen, st'.seen) && Unseen(src, st') <= Unseen(src, st)
  }

  /** Allocate the copy of `r`, still empty, and record it in `seen` before looking inside. */
  function Open(st: St, r: Ref, kind: Kind): St {
    St(st.heap[st.next := Node(kind, [], None)], st.seen[r := st.next], st.next + 1)
  }

  lemma OpenGrows(src: Heap, st: St, r: Ref)
    requires r in src && r !in st.seen
    ensures Grows(src, st, Open(st, r, src[r].kind)) && Unseen(src, Open(st, r, src[r].kind)) < Unseen(src, st)
  {
    var st' := Open(st, r, src[r].kind);
    assert src.Keys - st.seen.Keys == (src.Keys - st'.seen.Keys) + {r};
  }

  function Store(st: St, d: Ref, m: Member): St
    requires d in st.heap
  {
    st.(heap := st.heap[d := Put(st.heap[d], m, Hidden(st.heap, st.heap[d], m))])
  }

  function BothOk(a: Out, b: Out): MemberOut {
    if a.Thrown? || b.Thrown? then MemberThrown else MemberOk(Entry(a.v, b.v), b.st)
  }

  /** `clone(value, seen)`. */
  function Clone(src: Heap, st: St, v: Value): (o: Out)
    requires Closed(src) && Known(src, v)
    ensures o.Ok? ==> Grows(src, st, o.st)
    decreases Unseen(src, st), 0, 0
  {
    match v
    case Prim(_) => Ok(v, st)
    case Symbol(_) => Thrown
    case Obj(r) =>
      if r in st.seen then Ok(Obj(st.seen[r]), st)
      else if src[r].kind.Function? then Thrown
      else
        OpenGrows(src, st, r);
        CloneMembers(src, Open(st, r, src[r].kind), st.next, r, 0)
  }

  /** The loop over the members of container `r`, filling its copy `d` from member `i` on. */
  function CloneMembers(src: Heap, st: St, d: Ref, r: Ref, i: nat): (o: Out)
    requires Closed(src) && r in src && i <= |src[r].members| && d in st.heap
    ensures o.Ok? ==> Grows(src, st, o.st)
    decreases Unseen(src, st), 2, |src[r].members| - i
  {
    if i == |src[r].members| then Ok(Obj(d), st) else
    var c := CloneMember(src, st, src[r].members[i]);
    if c.MemberThrown? then Thrown else
    CloneMembers(src, Store(c.st, d, c.m), d, r, i + 1)
  }

  /** The clones inside one loop iteration; of a Map entry the key comes first. */
  function CloneMember(src: Heap, st: St, m: Member): (o: MemberOut)
    requires Closed(src) && MemberKnown(src, m)
    ensures o.MemberOk? ==> Grows(src, st, o.st)
    decreases Unseen(src, st), 1, 0
  {
    if m.Entry? then
      var a := Clone(src, st, m.k);
      if a.Thrown? then MemberThrown else BothOk(a, Clone(src, a.st, m.v))
    else
      var o := Clone(src, st, m.v);
      if o.Thrown? then MemberThrown else MemberOk(WithValue(m, o.v), o.st)
  }

  /** `structuredClone(value)`: an empty `seen`, and an allocator beyond the source. */
  function StructuredClone(src: Heap, next: Ref, v: Value): Out
    requires Closed(src) && Known(src, v)
  {
    Clone(src, St(src, map[], next), v)
  }

  // ---------------------------------------------------------------- images under `seen`

  /** Where `seen` sends a value; primitives stay what they are. */
  function Image(seen: map<Ref, Ref>, v: Value): Value {
    if v.Obj? && v.r in seen then Obj(seen[v.r]) else v
  }

  function ImageMember(seen: map<Ref, Ref>, m: Member): Member {
    if m.Entry? then Entry(Image(seen, m.k), Image(seen, m.v)) else WithValue(m, Image(seen, m.v))
  }

  function ImageMembers(seen: map<Ref, Ref>, ms: seq<Member>): (r: seq<Member>)
    ensures |r| == |ms| && forall i :: 0 <= i < |r| ==> r[i] == ImageMember(seen, ms[i])
  {
    seq(|ms|, i requires 0 <= i < |ms| => ImageMember(seen, ms[i]))
  }

  function ImageProto(seen: map<Ref, Ref>, proto: Option<Ref>): Option<Ref> {
    if proto.Some? && proto.value in seen then Some(seen[proto.value]) else proto
  }

  /** The node with every reference renamed by `seen`: same kind, same keys, same order. */
  function ImageNode(seen: map<Ref, Ref>, n: Node): Node {
    Node(n.kind, ImageMembers(seen, n.members), ImageProto(seen, n.proto))
  }

  /** The object that one of the first `k` members makes the prototype of a copy. */
  function ProtoOf(n: Node, k: nat): Option<Ref>
    requires k <= |n.members|
  {
    if k == 0 then None
    else if IsProto(n.kind, n.members[k - 1]) && n.members[k - 1].v.Obj? then Some(n.members[k - 1].v.r)
    else ProtoOf(n, k - 1)
  }

  /** Member `k` is a property that the prototype set before keeps out of the copy. */
  predicate KeptOut(src: Heap, n: Node, k: nat)
    requires k < |n.members|
  {
    var q := ProtoOf(n, k);
    n.kind.Plain? && n.members[k].Prop? && q.Some? && q.value in src && Hides(src[q.value].kind, n.members[k].key)
  }

  /** Member `k` does not become a member of the copy. */
  predicate Lost(src: Heap, n: Node, k: nat)
    requires k < |n.members|
  {
    IsProto(n.kind, n.members[k]) || KeptOut(src, n, k)
  }

  function KeptMembers(src: Heap, n: Node, k: nat): (r: seq<Member>)
    requires k <= |n.members|
    ensures forall m :: m in r ==> m in n.members[..k]
  {
    if k == 0 then [] else
    var before := KeptMembers(src, n, k - 1);
    assert n.members[..k] == n.members[..k - 1] + [n.members[k - 1]];
    if Lost(src, n, k - 1) then before else before + [n.members[k - 1]]
  }

  /** What survives the copy. */
  function Kept(src: Heap, n: Node): Node {
    Node(n.kind, KeptMembers(src, n, |n.members|), ProtoOf(n, |n.members|))
  }

  /** The copy of `n` after its first `k` members went in. */
  function Built(src: Heap, n: Node, seen: map<Ref, Ref>, k: nat): Node
    requires k <= |n.members|
  {
    if k == 0 then Node(n.kind, [], None)
    else Put(Built(src, n, seen, k - 1), ImageMember(seen, n.members[k - 1]), KeptOut(src, n, k - 1))
  }

  /** A value `clone` has copied. */
  predicate Seen(seen: map<Ref, Ref>, v: Value) {
    !v.Symbol? && (v.Obj? ==> v.r in seen)
  }

  predicate MemberSeen(seen: map<Ref, Ref>, m: Member) {
    Seen(seen, m.v) && (m.Entry? ==> Seen(seen, m.k))
  }

  predicate MembersSeen(n: Node, seen: map<Ref, Ref>, k: nat)
    requires k <= |n.members|
  {
    forall i :: 0 <= i < k ==> MemberSeen(seen, n.members[i])
  }

  ghost predicate Apart(m: map<Ref, Ref>, a: Ref, b: Ref) {
    a in m && b in m && m[a] == m[b] ==> a == b
  }

  ghost predicate Injective(m: map<Ref, Ref>) {
    forall a, b {:trigger Apart(m, a, b)} :: Apart(m, a, b)
  }

  lemma {:induction false} BuiltStable(src: Heap, n: Node, a: map<Ref, Ref>, b: map<Ref, Ref>, k: nat)
    requires k <= |n.members| && SubMap(a, b) && MembersSeen(n, a, k)
    ensures MembersSeen(n, b, k) && Built(src, n, a, k) == Built(src, n, b, k)
  {
    if k != 0 {
      BuiltStable(src, n, a, b, k - 1);
      assert MemberSeen(a, n.members[k - 1]);
    }
  }

  lemma {:induction false} BuiltProto(src: Heap, n: Node, seen: map<Ref, Ref>, k: nat)
    requires k <= |n.members| && MembersSeen(n, seen, k)
    ensures var b, q := Built(src, n, seen, k), ProtoOf(n, k);
      b.kind == n.kind && b.proto == ImageProto(seen, q) && (q.Some? ==> q.value in seen)
  {
    if k != 0 {
      BuiltProto(src, n, seen, k - 1);
      assert MemberSeen(seen, n.members[k - 1]);
    }
  }

  /** Members with different keys have images with different keys. */
  lemma ImageKeys(kind: Kind, seen: map<Ref, Ref>, a: Member, b: Member)
    requires Injective(seen) && MemberSeen(seen, a) && MemberSeen(seen, b) && Shaped(kind, a) && Shaped(kind, b)
    requires SameKey(kind, ImageMember(seen, a), ImageMember(seen, b))
    ensures SameKey(kind, a, b)
  {
    SameImage(seen, a.v, b.v);
    if a.Entry? && b.Entry? {
      SameImage(seen, a.k, b.k);
    }
  }

  lemma SameImage(seen: map<Ref, Ref>, a: Value, b: Value)
    requires Injective(seen) && Seen(seen, a) && Seen(seen, b)
    ensures Image(seen, a) == Image(seen, b) <==> a == b
  {
    if a.Obj? && b.Obj? {
      assert Apart(seen, a.r, b.r);
    }
  }

  /** Filling the fresh container member by member rebuilds what is not lost, in order: no
      member replaces an earlier one, because distinct keys have distinct images. */
  lemma {:induction false} BuiltIsImage(src: Heap, n: Node, seen: map<Ref, Ref>, k: nat)
    requires k <= |n.members| && NodeOk(n) && Injective(seen) && MembersSeen(n, seen, k)
    ensures Built(src, n, seen, k) == ImageNode(seen, Node(n.kind, KeptMembers(src, n, k), ProtoOf(n, k)))
  {
    if k == 0 {
      assert KeptMembers(src, n, 0) == [];
    } else {
      BuiltIsImage(src, n, seen, k - 1);
      assert MemberSeen(seen, n.members[k - 1]);
      PutKept(src, n, seen, k - 1);
    }
  }

  lemma PutKept(src: Heap, n: Node, seen: map<Ref, Ref>, k: nat)
    requires k < |n.members| && NodeOk(n) && Injective(seen) && MembersSeen(n, seen, k + 1)
    ensures Put(ImageNode(seen, Node(n.kind, KeptMembers(src, n, k), ProtoOf(n, k))), ImageMember(seen, n.members[k]), KeptOut(src, n, k))
         == ImageNode(seen, Node(n.kind, KeptMembers(src, n, k + 1), ProtoOf(n, k + 1)))
  {
    var kept := KeptMembers(src, n, k);
    if !IsProto(n.kind, n.members[k]) {
      forall x | x in kept
        ensures !SameKey(n.kind, ImageMember(seen, x), ImageMember(seen, n.members[k]))
      {
        KeptDiffers(n, seen, k, x);
      }
      PutNew(n.kind, seen, kept, ProtoOf(n, k), n.members[k], KeptOut(src, n, k));
    }
  }

  /** A member whose key is not there yet goes to the end, or nowhere. */
  lemma PutNew(kind: Kind, seen: map<Ref, Ref>, kept: seq<Member>, proto: Option<Ref>, m: Member, hidden: bool)
    requires !IsProto(kind, m)
    requires forall x :: x in kept ==> !SameKey(kind, ImageMember(seen, x), ImageMember(seen, m))
    ensures Put(ImageNode(seen, Node(kind, kept, proto)), ImageMember(seen, m), hidden)
         == ImageNode(seen, Node(kind, if hidden then kept else kept + [m], proto))
  {
    assert ImageMembers(seen, kept + [m]) == ImageMembers(seen, kept) + [ImageMember(seen, m)];
    forall i | 0 <= i < |kept|
      ensures !SameKey(kind, ImageMembers(seen, kept)[i], ImageMember(seen, m))
    {
      assert kept[i] in kept;
    }
  }

  lemma KeptDiffers(n: Node, seen: map<Ref, Ref>, k: nat, x: Member)
    requires k < |n.members| && NodeOk(n) && Injective(seen) && MembersSeen(n, seen, k + 1) && x in n.members[..k]
    ensures !SameKey(n.kind, ImageMember(seen, x), ImageMember(seen, n.members[k]))
  {
    var j :| 0 <= j < k && n.members[j] == x;
    if SameKey(n.kind, ImageMember(seen, x), ImageMember(seen, n.members[k])) {
      ImageKeys(n.kind, seen, n.members[j], n.members[k]);
    }
  }

  // ---------------------------------------------------------------- the invariant

  ghost predicate SourceKept(src: Heap, st: St) {
    forall r :: r in src ==> r in st.heap && st.heap[r] == src[r]
  }

  ghost predicate CopiesFresh(src: Heap, st: St) {
    && (forall x :: x in st.heap ==> x < st.next)
    && (forall r :: r in st.seen ==> r in src && st.seen[r] in st.heap && st.seen[r] !in src)
  }

  ghost predicate SameKind(src: Heap, st: St, r: Ref) {
    r in st.seen && r in src && st.seen[r] in st.heap ==> st.heap[st.seen[r]].kind == src[r].kind
  }

  ghost predicate SameKinds(src: Heap, st: St) {
    forall r {:trigger SameKind(src, st, r)} :: SameKind(src, st, r)
  }

  /** The source is untouched and `seen` maps source objects injectively to fresh ones of the
      same kind. */
  ghost predicate StOk(src: Heap, st: St) {
    SourceKept(src, st) && CopiesFresh(src, st) && Injective(st.seen) && SameKinds(src, st)
  }

  /** The copy of `r` is complete. */
  ghost predicate Done(src: Heap, st: St, r: Ref) {
    && r in src && r in st.seen && st.seen[r] in st.heap && !src[r].kind.Function?
    && MembersSeen(src[r], st.seen, |src[r].members|)
    && st.heap[st.seen[r]] == Built(src, src[r], st.seen, |src[r].members|)
  }

  ghost predicate NewDone(src: Heap, st: St, st': St) {
    forall r {:trigger Done(src, st', r)} :: r in st'.seen && r !in st.seen ==> Done(src, st', r)
  }

  ghost predicate Unchanged(st: St, st': St) {
    forall x :: x in st.heap ==> x in st'.heap && st'.heap[x] == st.heap[x]
  }

  /** What every successful call does to the state. */
  ghost predicate Step(src: Heap, st: St, st': St) {
    StOk(src, st') && Grows(src, st, st') && Unchanged(st, st') && NewDone(src, st, st')
  }

  lemma ImageStable(a: map<Ref, Ref>, b: map<Ref, Ref>, v: Value)
    requires SubMap(a, b) && Seen(a, v)
    ensures Seen(b, v) && Image(b, v) == Image(a, v)
  {
  }

  lemma DoneStable(src: Heap, a: St, b: St, r: Ref)
    requires Done(src, a, r) && SubMap(a.seen, b.seen) && a.seen[r] in b.heap && b.heap[a.seen[r]] == a.heap[a.seen[r]]
    ensures Done(src, b, r)
  {
    BuiltStable(src, src[r], a.seen, b.seen, |src[r].members|);
  }

  lemma NewDoneTrans(src: Heap, a: St, b: St, c: St)
    requires NewDone(src, a, b) && NewDone(src, b, c) && SubMap(b.seen, c.seen) && Unchanged(b, c)
    ensures NewDone(src, a, c)
  {
    forall r | r in c.seen && r !in a.seen
      ensures Done(src, c, r)
    {
      if r in b.seen {
        assert Done(src, b, r);
        DoneStable(src, b, c, r);
      }
    }
  }

  lemma StepTrans(src: Heap, a: St, b: St, c: St)
    requires Step(src, a, b) && Step(src, b, c)
    ensures Step(src, a, c)
  {
    NewDoneTrans(src, a, b, c);
  }

  lemma OpenOk(src: Heap, st: St, r: Ref)
    requires StOk(src, st) && r in src && r !in st.seen
    ensures StOk(src, Open(st, r, src[r].kind)) && st.next !in st.heap
  {
    var st' := Open(st, r, src[r].kind);
    forall a, b
      ensures Apart(st'.seen, a, b)
    {
      assert Apart(st.seen, a, b);
    }
    forall q
      ensures SameKind(src, st', q)
    {
      assert SameKind(src, st, q);
    }
  }

  /** Everything a successful `clone` establishes. */
  ghost predicate Good(src: Heap, st: St, v: Value, o: Out) {
    o.Ok? ==> Step(src, st, o.st) && Seen(o.st.seen, v) && o.v == Image(o.st.seen, v)
  }

  ghost predicate GoodMember(src: Heap, st: St, m: Member, o: MemberOut) {
    o.MemberOk? ==> Step(src, st, o.st) && MemberSeen(o.st.seen, m) && o.m == ImageMember(o.st.seen, m)
  }

  /** The loop over `r` is at member `i`: its copy holds the images of the members before. */
  ghost predicate Filling(src: Heap, st: St, d: Ref, r: Ref, i: nat) {
    && StOk(src, st) && r in src && r in st.seen && st.seen[r] == d && !src[r].kind.Function?
    && i <= |src[r].members| && MembersSeen(src[r], st.seen, i) && st.heap[d] == Built(src, src[r], st.seen, i)
  }

  /** What the rest of the loop establishes: as `Step`, except that the copy `d` changes. */
  ghost predicate GoodMembers(src: Heap, st: St, d: Ref, r: Ref, o: Out) {
    o.Ok? ==>
      && StOk(src, o.st) && Grows(src, st, o.st) && NewDone(src, st, o.st) && Done(src, o.st, r)
      && o.v == Obj(d) && UnchangedBut(st, o.st, d)
  }

  ghost predicate UnchangedBut(st: St, st': St, d: Ref) {
    forall x :: x in st.heap && x != d ==> x in st'.heap && st'.heap[x] == st.heap[x]
  }

  lemma OpenUnchanged(src: Heap, st: St, r: Ref, st': St)
    requires StOk(src, st) && r in src && UnchangedBut(Open(st, r, src[r].kind), st', st.next)
    ensures Unchanged(st, st')
  {
    forall x | x in st.heap
      ensures x in st'.heap && st'.heap[x] == st.heap[x]
    {
      assert x != st.next;
    }
  }

  lemma OpenNewDone(src: Heap, st: St, r: Ref, st': St)
    requires r in src && NewDone(src, Open(st, r, src[r].kind), st') && Done(src, st', r)
    ensures NewDone(src, st, st')
  {
    forall q | q in st'.seen && q !in st.seen
      ensures Done(src, st', q)
    {
      assert q == r || q !in Open(st, r, src[r].kind).seen;
    }
  }

  lemma OpenGood(src: Heap, st: St, st1: St, r: Ref, o: Out)
    requires Grows(src, st, st1) && r in st1.seen && o.Ok?
    requires GoodMembers(src, st1, st1.seen[r], r, o) && Unchanged(st, o.st) && NewDone(src, st, o.st)
    ensures Good(src, st, Obj(r), o)
  {
    GrowsTrans(src, st, st1, o.st);
  }

  lemma GrowsTrans(src: Heap, a: St, b: St, c: St)
    requires Grows(src, a, b) && Grows(src, b, c)
    ensures Grows(src, a, c)
  {
  }

  lemma {:induction false} CloneGood(src: Heap, st: St, v: Value)
    requires Closed(src) && Known(src, v) && StOk(src, st)
    ensures Good(src, st, v, Clone(src, st, v))
    decreases Unseen(src, st), 0, 0
  {
    if v.Obj? && v.r !in st.seen && !src[v.r].kind.Function? {
      var st1 := Open(st, v.r, src[v.r].kind);
      OpenGrows(src, st, v.r);
      OpenOk(src, st, v.r);
      CloneMembersGood(src, st1, st.next, v.r, 0);
      var o := CloneMembers(src, st1, st.next, v.r, 0);
      if o.Ok? {
        OpenUnchanged(src, st, v.r, o.st);
        OpenNewDone(src, st, v.r, o.st);
        OpenGood(src, st, st1, v.r, o);
      }
    }
  }

  lemma EntryImage(seen: map<Ref, Ref>, m: Member, k: Value, v: Value)
    requires m.Entry? && Seen(seen, m.k) && Seen(seen, m.v) && k == Image(seen, m.k) && v == Image(seen, m.v)
    ensures MemberSeen(seen, m) && Entry(k, v) == ImageMember(seen, m)
  {
  }

  lemma EntryGood(src: Heap, st: St, m: Member, a: Out, b: Out)
    requires m.Entry? && a.Ok? && Good(src, st, m.k, a) && Good(src, a.st, m.v, b)
    ensures GoodMember(src, st, m, BothOk(a, b))
  {
    if b.Ok? {
      StepTrans(src, st, a.st, b.st);
      ImageStable(a.st.seen, b.st.seen, m.k);
      EntryImage(b.st.seen, m, a.v, b.v);
    }
  }

  lemma {:induction false} CloneMemberGood(src: Heap, st: St, m: Member)
    requires Closed(src) && MemberKnown(src, m) && StOk(src, st)
    ensures GoodMember(src, st, m, CloneMember(src, st, m))
    decreases Unseen(src, st), 1, 0
  {
    if m.Entry? {
      CloneGood(src, st, m.k);
      var a := Clone(src, st, m.k);
      if a.Ok? {
        CloneGood(src, a.st, m.v);
        EntryGood(src, st, m, a, Clone(src, a.st, m.v));
      }
    } else {
      CloneGood(src, st, m.v);
    }
  }

  lemma StoreOk(src: Heap, st: St, d: Ref, m: Member)
    requires StOk(src, st) && d in st.heap && d !in src
    ensures StOk(src, Store(st, d, m)) && Unseen(src, Store(st, d, m)) == Unseen(src, st)
  {
    forall q
      ensures SameKind(src, Store(st, d, m), q)
    {
      assert SameKind(src, st, q);
    }
  }

  /** What the prototype of the copy hides is what that of the original's value would. */
  lemma HiddenIsKeptOut(src: Heap, st: St, d: Ref, r: Ref, i: nat)
    requires StOk(src, st) && r in src && i < |src[r].members| && MembersSeen(src[r], st.seen, i)
    requires d in st.heap && st.heap[d] == Built(src, src[r], st.seen, i)
    ensures Hidden(st.heap, st.heap[d], ImageMember(st.seen, src[r].members[i])) <==> KeptOut(src, src[r], i)
  {
    BuiltProto(src, src[r], st.seen, i);
    var q := ProtoOf(src[r], i);
    if q.Some? {
      assert SameKind(src, st, q.value);
    }
  }

  lemma FillingStep(src: Heap, st: St, d: Ref, r: Ref, i: nat, c: MemberOut)
    requires Filling(src, st, d, r, i) && i < |src[r].members| && c.MemberOk? && GoodMember(src, st, src[r].members[i], c)
    ensures d in c.st.heap && Filling(src, Store(c.st, d, c.m), d, r, i + 1) && Grows(src, st, Store(c.st, d, c.m))
  {
    BuiltStable(src, src[r], st.seen, c.st.seen, i);
    HiddenIsKeptOut(src, c.st, d, r, i);
    StoreOk(src, c.st, d, c.m);
  }

  lemma FilledGood(src: Heap, st: St, d: Ref, r: Ref)
    requires r in src && Filling(src, st, d, r, |src[r].members|)
    ensures GoodMembers(src, st, d, r, Ok(Obj(d), st))
  {
  }

  lemma {:induction false} CloneMembersGood(src: Heap, st: St, d: Ref, r: Ref, i: nat)
    requires Closed(src) && Filling(src, st, d, r, i)
    ensures GoodMembers(src, st, d, r, CloneMembers(src, st, d, r, i))
    decreases Unseen(src, st), 2, |src[r].members| - i
  {
    if i == |src[r].members| {
      FilledGood(src, st, d, r);
    } else {
      var c := CloneMember(src, st, src[r].members[i]);
      CloneMemberGood(src, st, src[r].members[i]);
      if c.MemberOk? {
        FillingStep(src, st, d, r, i, c);
        var st2 := Store(c.st, d, c.m);
        var o := CloneMembers(src, st2, d, r, i + 1);
        assert CloneMembers(src, st, d, r, i) == o;
        CloneMembersGood(src, st2, d, r, i + 1);
        StepGood(src, st, c, d, r, o);
      }
    }
  }

  lemma StepGood(src: Heap, st: St, c: MemberOut, d: Ref, r: Ref, o: Out)
    requires c.MemberOk? && NewDone(src, st, c.st) && Unchanged(st, c.st) && SubMap(st.seen, c.st.seen) && Injective(c.st.seen)
    requires r in st.seen && st.seen[r] == d
    requires d in c.st.heap && Grows(src, st, Store(c.st, d, c.m)) && GoodMembers(src, Store(c.st, d, c.m), d, r, o)
    ensures GoodMembers(src, st, d, r, o)
  {
    if o.Ok? {
      StepDone(src, st, c.st, o.st, d, r);
      GrowsTrans(src, st, Store(c.st, d, c.m), o.st);
    }
  }

  lemma StepDone(src: Heap, a: St, b: St, c: St, d: Ref, r: Ref)
    requires NewDone(src, a, b) && r in a.seen && a.seen[r] == d && SubMap(a.seen, b.seen) && Injective(b.seen)
    requires SubMap(b.seen, c.seen) && UnchangedBut(b, c, d)
    requires forall q {:trigger Done(src, c, q)} :: q in c.seen && q !in b.seen ==> Done(src, c, q)
    ensures NewDone(src, a, c)
  {
    forall q | q in c.seen && q !in a.seen
      ensures Done(src, c, q)
    {
      if q in b.seen {
        assert Done(src, b, q);
        assert Apart(b.seen, q, r);
        DoneStable(src, b, c, q);
      }
    }
  }

  // ---------------------------------------------------------------- reachability

  ghost predicate Mentions(m: Member, v: Value) {
    m.v == v || (m.Entry? && m.k == v)
  }

  /** Object `a` holds a reference to object `b`. */
  ghost predicate Points(src: Heap, a: Ref, b: Ref) {
    a in src && exists m :: m in src[a].members && Mentions(m, Obj(b))
  }

  ghost predicate Path(src: Heap, p: seq<Ref>) {
    |p| > 0 && forall i :: 0 <= i < |p| - 1 ==> Points(src, p[i], p[i + 1])
  }

  /** Some chain of references leads from `v` to object `r`. */
  ghost predicate Reaches(src: Heap, v: Value, r: Ref) {
    v.Obj? && exists p :: Path(src, p) && p[0] == v.r && p[|p| - 1] == r
  }

  /** Object `r` cannot be cloned itself: a function, or the holder of a symbol. */
  ghost predicate Offends(src: Heap, r: Ref) {
    r in src && (src[r].kind.Function? || exists m, id :: m in src[r].members && Mentions(m, Symbol(id)))
  }

  ghost predicate Uncloneable(src: Heap, v: Value) {
    v.Symbol? || exists r :: Reaches(src, v, r) && Offends(src, r)
  }

  /** A set of objects that no reference leaves. */
  ghost predicate Region(src: Heap, s: set<Ref>) {
    forall a, b :: a in s && Points(src, a, b) ==> b in s
  }

  ghost predicate Inside(v: Value, s: set<Ref>) {
    v.Obj? ==> v.r in s
  }

  /** A call that starts inside a region stays inside it, and fails only on an offender. */
  ghost predicate Within(src: Heap, s: set<Ref>, before: map<Ref, Ref>, v: Value, o: Out) {
    if o.Ok? then o.st.seen.Keys <= before.Keys + s
    else v.Symbol? || exists r :: r in s && Offends(src, r)
  }

  ghost predicate MemberWithin(src: Heap, s: set<Ref>, before: map<Ref, Ref>, o: MemberOut) {
    if o.MemberOk? then o.st.seen.Keys <= before.Keys + s
    else exists r :: r in s && Offends(src, r)
  }

  lemma {:induction false} CloneWithin(src: Heap, st: St, v: Value, s: set<Ref>)
    requires Closed(src) && Known(src, v) && Region(src, s) && Inside(v, s)
    ensures Within(src, s, st.seen, v, Clone(src, st, v))
    decreases Unseen(src, st), 0, 0
  {
    if v.Obj? && v.r !in st.seen {
      if src[v.r].kind.Function? {
        assert Offends(src, v.r);
      } else {
        OpenGrows(src, st, v.r);
        CloneMembersWithin(src, Open(st, v.r, src[v.r].kind), st.next, v.r, 0, s);
      }
    }
  }

  /** The member belongs to an object of the region, so its references stay in it. */
  lemma {:induction false} CloneMemberWithin(src: Heap, st: St, a: Ref, m: Member, s: set<Ref>)
    requires Closed(src) && MemberKnown(src, m) && Region(src, s) && a in src && a in s && m in src[a].members
    ensures MemberWithin(src, s, st.seen, CloneMember(src, st, m))
    decreases Unseen(src, st), 1, 0
  {
    ValueInside(src, a, m, m.v, s);
    if m.Entry? {
      ValueInside(src, a, m, m.k, s);
      CloneWithin(src, st, m.k, s);
      var o := Clone(src, st, m.k);
      if o.Ok? {
        CloneWithin(src, o.st, m.v, s);
        BothWithin(src, s, st.seen, m, o, Clone(src, o.st, m.v));
        assert CloneMember(src, st, m) == BothOk(o, Clone(src, o.st, m.v));
      }
    } else {
      CloneWithin(src, st, m.v, s);
    }
  }

  lemma BothWithin(src: Heap, s: set<Ref>, before: map<Ref, Ref>, m: Member, a: Out, b: Out)
    requires m.Entry? && a.Ok? && Within(src, s, before, m.k, a) && Within(src, s, a.st.seen, m.v, b)
    requires (m.v.Symbol? ==> exists r :: r in s && Offends(src, r))
    ensures MemberWithin(src, s, before, BothOk(a, b))
  {
  }

  lemma ValueInside(src: Heap, a: Ref, m: Member, v: Value, s: set<Ref>)
    requires Region(src, s) && a in src && a in s && m in src[a].members && Mentions(m, v)
    ensures Inside(v, s) && (v.Symbol? ==> Offends(src, a))
  {
    if v.Obj? {
      assert Points(src, a, v.r);
    }
    if v.Symbol? {
      assert Mentions(m, Symbol(v.id));
    }
  }

  lemma {:induction false} CloneMembersWithin(src: Heap, st: St, d: Ref, r: Ref, i: nat, s: set<Ref>)
    requires Closed(src) && r in src && i <= |src[r].members| && d in st.heap && Region(src, s) && r in s
    ensures var o := CloneMembers(src, st, d, r, i);
      if o.Ok? then o.st.seen.Keys <= st.seen.Keys + s else exists q :: q in s && Offends(src, q)
    decreases Unseen(src, st), 2, |src[r].members| - i
  {
    if i < |src[r].members| {
      var c := CloneMember(src, st, src[r].members[i]);
      CloneMemberWithin(src, st, r, src[r].members[i], s);
      if c.MemberOk? {
        CloneMembersWithin(src, Store(c.st, d, c.m), d, r, i + 1, s);
      }
    }
  }

  // ---------------------------------------------------------------- the whole copy

  /** The objects some chain of references leads to. */
  ghost function Reachable(src: Heap, v: Value): set<Ref> {
    set r | r in src && Reaches(src, v, r)
  }

  lemma PathPoints(src: Heap, p: seq<Ref>, b: Ref)
    requires Path(src, p) && Points(src, p[|p| - 1], b)
    ensures Path(src, p + [b])
  {
  }

  lemma ReachableRegion(src: Heap, v: Value)
    requires Closed(src) && Known(src, v)
    ensures Region(src, Reachable(src, v)) && Inside(v, Reachable(src, v))
  {
    if v.Obj? {
      assert Path(src, [v.r]);
    }
    forall a: Ref, b: Ref | a in Reachable(src, v) && Points(src, a, b)
      ensures b in Reachable(src, v)
    {
      var p :| Path(src, p) && p[0] == v.r && p[|p| - 1] == a;
      PathPoints(src, p, b);
      assert (p + [b])[0] == v.r;
      var m :| m in src[a].members && Mentions(m, Obj(b));
      var i :| 0 <= i < |src[a].members| && src[a].members[i] == m;
      assert MemberKnown(src, src[a].members[i]);
    }
  }

  /** A region holding `v` holds all that `v` reaches. */
  lemma {:induction false} ReachedInside(src: Heap, s: set<Ref>, p: seq<Ref>, i: nat)
    requires Region(src, s) && Path(src, p) && p[0] in s && i < |p|
    ensures p[i] in s
  {
    if i > 0 {
      ReachedInside(src, s, p, i - 1);
      var j := i - 1;
      assert Points(src, p[j], p[j + 1]);
    }
  }

  lemma ReachableLeast(src: Heap, v: Value, s: set<Ref>)
    requires Region(src, s) && Inside(v, s)
    ensures Reachable(src, v) <= s
  {
    forall r | r in Reachable(src, v)
      ensures r in s
    {
      var p :| Path(src, p) && p[0] == v.r && p[|p| - 1] == r;
      ReachedInside(src, s, p, |p| - 1);
    }
  }

  /** Every object seen is finished: what it references was seen, and nothing offends. */
  lemma DoneRegion(src: Heap, st: St)
    requires forall r :: r in st.seen ==> Done(src, st, r)
    ensures Region(src, st.seen.Keys) && forall r :: r in st.seen ==> !Offends(src, r)
  {
    forall a, m, v | a in st.seen && m in src[a].members && Mentions(m, v)
      ensures Seen(st.seen, v)
    {
      var i :| 0 <= i < |src[a].members| && src[a].members[i] == m;
      assert Done(src, st, a) && MemberSeen(st.seen, src[a].members[i]);
    }
    forall a: Ref, b: Ref | a in st.seen && Points(src, a, b)
      ensures b in st.seen
    {
      var m :| m in src[a].members && Mentions(m, Obj(b));
      assert Seen(st.seen, Obj(b));
    }
    forall r | r in st.seen
      ensures !Offends(src, r)
    {
      assert Done(src, st, r);
      forall m, id | m in src[r].members
        ensures !Mentions(m, Symbol(id))
      {
        assert Mentions(m, Symbol(id)) ==> Seen(st.seen, Symbol(id));
      }
    }
  }

  /** The copy of the object `r`, with references renamed by the copy's own `seen`. */
  ghost predicate Renamed(src: Heap, st: St, r: Ref, n: Node) {
    r in st.seen && st.seen[r] in st.heap && st.heap[st.seen[r]] == ImageNode(st.seen, n)
  }

  /** `seen` is an isomorphism from what `v` reaches onto fresh objects: it is injective, its
      domain is exactly the reachable part, it sends `v` to the result, and every copy is its
      original, minus the members that are lost, with all references renamed by `seen`. The
      source is as before. */
  ghost predicate Isomorphic(src: Heap, v: Value, o: Out) {
    && o.Ok? && o.st.seen.Keys == Reachable(src, v) && Injective(o.st.seen) && o.v == Image(o.st.seen, v)
    && (forall r :: r in src ==> r in o.st.heap && o.st.heap[r] == src[r])
    && (forall r :: r in o.st.seen ==> o.st.seen[r] !in src)
    && (forall r {:trigger Renamed(src, o.st, r, Kept(src, src[r]))} :: r in o.st.seen ==> r in src && Renamed(src, o.st, r, Kept(src, src[r])))
  }

  lemma SeenIsReachable(src: Heap, next: Ref, v: Value)
    requires Closed(src) && Known(src, v) && (forall x :: x in src ==> x < next)
    ensures StructuredClone(src, next, v).Thrown? <==> Uncloneable(src, v)
    ensures var o := StructuredClone(src, next, v);
      o.Ok? ==> Good(src, St(src, map[], next), v, o) && o.st.seen.Keys == Reachable(src, v)
  {
    var st, o := St(src, map[], next), StructuredClone(src, next, v);
    CloneGood(src, st, v);
    ReachableRegion(src, v);
    CloneWithin(src, st, v, Reachable(src, v));
    if o.Ok? {
      forall r | r in o.st.seen
        ensures Done(src, o.st, r)
      {
      }
      DoneRegion(src, o.st);
      ReachableLeast(src, v, o.st.seen.Keys);
      forall r | Reaches(src, v, r) && r in src
        ensures !Offends(src, r)
      {
        assert r in Reachable(src, v);
      }
    }
  }

  /** `structuredClone` throws exactly on a graph that holds a function or a symbol, and
      otherwise returns an isomorphic, disjoint graph. */
  lemma CloneIsIsomorphic(src: Heap, next: Ref, v: Value)
    requires WellFormed(src) && Known(src, v) && (forall x :: x in src ==> x < next)
    ensures StructuredClone(src, next, v).Thrown? <==> Uncloneable(src, v)
    ensures !Uncloneable(src, v) ==> Isomorphic(src, v, StructuredClone(src, next, v))
  {
    SeenIsReachable(src, next, v);
    var o := StructuredClone(src, next, v);
    if o.Ok? {
      forall r | r in o.st.seen
        ensures r in src && Renamed(src, o.st, r, Kept(src, src[r]))
      {
        assert Done(src, o.st, r);
        DoneRenamed(src, o.st, r);
      }
    }
  }

  lemma DoneRenamed(src: Heap, st: St, r: Ref)
    requires Done(src, st, r) && NodeOk(src[r]) && Injective(st.seen)
    ensures Renamed(src, st, r, Kept(src, src[r]))
  {
    BuiltIsImage(src, src[r], st.seen, |src[r].members|);
  }

  lemma SameSize(seen: map<Ref, Ref>, a: Node, b: Node)
    requires ImageNode(seen, a) == ImageNode(seen, b)
    ensures |a.members| == |b.members|
  {
    assert |ImageMembers(seen, a.members)| == |ImageMembers(seen, b.members)|;
  }

  lemma {:induction false} KeptAll(src: Heap, n: Node, k: nat)
    requires k <= |n.members| && forall i :: 0 <= i < k ==> !IsProto(n.kind, n.members[i])
    ensures KeptMembers(src, n, k) == n.members[..k] && ProtoOf(n, k) == None
  {
    if k != 0 {
      KeptAll(src, n, k - 1);
      assert n.members[..k] == n.members[..k - 1] + [n.members[k - 1]];
    }
  }

  lemma {:induction false} KeptFewer(src: Heap, n: Node, k: nat, i: nat)
    requires k <= |n.members|
    ensures |KeptMembers(src, n, k)| <= k && (i < k && IsProto(n.kind, n.members[i]) ==> |KeptMembers(src, n, k)| < k)
  {
    if k != 0 {
      KeptFewer(src, n, k - 1, i);
    }
  }

  lemma KeptWhole(src: Heap, n: Node)
    requires NodeOk(n)
    ensures if HasProto(n) then |Kept(src, n).members| < |n.members| else Kept(src, n) == n
  {
    if HasProto(n) {
      var i :| 0 <= i < |n.members| && IsProto(n.kind, n.members[i]);
      KeptFewer(src, n, |n.members|, i);
    } else {
      KeptAll(src, n, |n.members|);
      assert n.members[..|n.members|] == n.members;
    }
  }

  lemma CopyIsKept(src: Heap, next: Ref, v: Value, r: Ref)
    requires WellFormed(src) && Known(src, v) && (forall x :: x in src ==> x < next)
    requires !Uncloneable(src, v) && r in src && Reaches(src, v, r)
    ensures var o := StructuredClone(src, next, v); o.Ok? && Renamed(src, o.st, r, Kept(src, src[r]))
  {
    CloneIsIsomorphic(src, next, v);
    assert r in Reachable(src, v);
  }

  /** The copy of an object is the renamed original exactly when the original has no own
      property called "__proto__": assigning that one sets the prototype instead. */
  lemma LosslessIffNoProto(src: Heap, next: Ref, v: Value, r: Ref)
    requires WellFormed(src) && Known(src, v) && (forall x :: x in src ==> x < next)
    requires !Uncloneable(src, v) && r in src && Reaches(src, v, r)
    ensures var o := StructuredClone(src, next, v);
      o.Ok? && (Renamed(src, o.st, r, src[r]) <==> !HasProto(src[r]))
  {
    CopyIsKept(src, next, v, r);
    KeptWhole(src, src[r]);
    var st := StructuredClone(src, next, v).st;
    if Renamed(src, st, r, src[r]) {
      SameSize(st.seen, src[r], Kept(src, src[r]));
    }
  }

  // ---------------------------------------------------------------- what is lost

  ghost predicate HasKey(n: Node, key: string) {
    exists m :: m in n.members && m.Prop? && m.key == key
  }

  lemma HasKeySnoc(kind: Kind, ms: seq<Member>, m: Member, key: string)
    ensures HasKey(Node(kind, ms + [m], None), key) <==> HasKey(Node(kind, ms, None), key) || (m.Prop? && m.key == key)
  {
    if HasKey(Node(kind, ms, None), key) {
      var x :| x in ms && x.Prop? && x.key == key;
      assert x in ms + [m];
    }
    assert m in ms + [m];
  }

  lemma {:induction false} KeptHasKey(src: Heap, n: Node, k: nat, i: nat)
    requires NodeOk(n) && n.kind.Plain? && k <= |n.members| && i < |n.members|
    ensures HasKey(Node(n.kind, KeptMembers(src, n, k), None), n.members[i].key) <==> i < k && !Lost(src, n, i)
  {
    if k != 0 {
      KeptHasKey(src, n, k - 1, i);
      HasKeySnoc(n.kind, KeptMembers(src, n, k - 1), n.members[k - 1], n.members[i].key);
      KeysDiffer(n, k - 1, i);
    }
  }

  lemma KeysDiffer(n: Node, i: nat, j: nat)
    requires NodeOk(n) && n.kind.Plain? && i < |n.members| && j < |n.members|
    ensures n.members[i].Prop? && n.members[j].Prop? && (n.members[i].key == n.members[j].key ==> i == j)
  {
    assert i < j ==> !SameKey(n.kind, n.members[i], n.members[j]);
    assert j < i ==> !SameKey(n.kind, n.members[j], n.members[i]);
  }

  lemma ImageHasKey(seen: map<Ref, Ref>, n: Node, key: string)
    ensures HasKey(ImageNode(seen, n), key) <==> HasKey(n, key)
  {
    var ms := ImageMembers(seen, n.members);
    if HasKey(n, key) {
      var m :| m in n.members && m.Prop? && m.key == key;
      var i :| 0 <= i < |n.members| && n.members[i] == m;
      assert ms[i] in ms;
    }
    if HasKey(ImageNode(seen, n), key) {
      var m :| m in ms && m.Prop? && m.key == key;
      var i :| 0 <= i < |ms| && ms[i] == m;
      assert n.members[i] in n.members;
    }
  }

  lemma {:induction false} ProtoIs(n: Node, k: nat, j: nat)
    requires NodeOk(n) && j < k <= |n.members| && IsProto(n.kind, n.members[j])
    ensures ProtoOf(n, k) == if n.members[j].v.Obj? then Some(n.members[j].v.r) else None
    decreases k
  {
    if j < k - 1 {
      ProtoIs(n, k - 1, j);
      assert !SameKey(n.kind, n.members[j], n.members[k - 1]);
    } else {
      NoProtoBefore(n, j, j);
    }
  }

  lemma {:induction false} NoProtoBefore(n: Node, k: nat, j: nat)
    requires NodeOk(n) && k <= j < |n.members| && IsProto(n.kind, n.members[j])
    ensures ProtoOf(n, k) == None
  {
    if k != 0 {
      NoProtoBefore(n, k - 1, j);
      assert !SameKey(n.kind, n.members[k - 1], n.members[j]);
    }
  }

  /** With an own "__proto__" at position `j`, the copy of a plain object has the properties
      that the original has, except "__proto__" itself, and except those behind it that its
      value, as a prototype, answers with a getter. */
  lemma PropertyKeptIff(src: Heap, next: Ref, v: Value, r: Ref, i: nat, j: nat)
    requires WellFormed(src) && Known(src, v) && (forall x :: x in src ==> x < next)
    requires !Uncloneable(src, v) && r in src && Reaches(src, v, r) && src[r].kind.Plain?
    requires i < |src[r].members| && j < |src[r].members| && IsProto(Plain, src[r].members[j])
    ensures var o, ms := StructuredClone(src, next, v), src[r].members;
      && o.Ok? && r in o.st.seen && o.st.seen[r] in o.st.heap
      && (HasKey(o.st.heap[o.st.seen[r]], ms[i].key)
          <==> i < j || (i > j && !(ms[j].v.Obj? && ms[j].v.r in src && Hides(src[ms[j].v.r].kind, ms[i].key))))
  {
    CopyIsKept(src, next, v, r);
    var st, n := StructuredClone(src, next, v).st, src[r];
    ImageHasKey(st.seen, Kept(src, n), n.members[i].key);
    KeptHasKey(src, n, |n.members|, i);
    LostIff(src, n, i, j);
  }

  lemma LostIff(src: Heap, n: Node, i: nat, j: nat)
    requires NodeOk(n) && i < |n.members| && j < |n.members| && IsProto(n.kind, n.members[j])
    ensures Lost(src, n, i) <==>
      i == j || (i > j && n.members[j].v.Obj? && n.members[j].v.r in src && Hides(src[n.members[j].v.r].kind, n.members[i].key))
  {
    if i < j {
      NoProtoBefore(n, i, j);
      assert !SameKey(n.kind, n.members[i], n.members[j]);
    } else if i > j {
      ProtoIs(n, i, j);
      assert !SameKey(n.kind, n.members[j], n.members[i]);
    }
  }
}
