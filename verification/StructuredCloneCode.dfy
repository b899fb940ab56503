/** `clone` of polyfill.js as it runs: one object store, the `seen` map and an allocator,
    updated in place, with a loop that fills each fresh container. It refines the function
    `StructuredClone.Clone`, whose result is proved isomorphic to the source. */
module StructuredCloneCode {
  import opened StructuredClone
  import opened Wrappers

  class Cloner {
    var heap: Heap
    var seen: map<Ref, Ref>
    var next: Ref

    ghost function State(): St
      reads this
    {
      St(heap, seen, next)
    }

    constructor (store: Heap, free: Ref)
      ensures heap == store && seen == map[] && next == free
    {
      heap, seen, next := store, map[], free;
    }

    /** The outcome of a call is the one the function describes; after an exception the
        state does not matter. */
    ghost predicate Follows(o: Out, thrown: bool, w: Value)
      reads this
    {
      match o
      case Ok(v, st) => !thrown && w == v && State() == st
      case Thrown => thrown
    }

    ghost predicate FollowsMember(o: MemberOut, thrown: bool, w: Member)
      reads this
    {
      match o
      case MemberOk(m, st) => !thrown && w == m && State() == st
      case MemberThrown => thrown
    }

    /** The loop over `r` stands at member `i`, and what is left of it completes `whole`. */
    ghost predicate AtMember(src: Heap, d: Ref, r: Ref, i: nat, whole: Out)
      requires Closed(src)
      reads this
    {
      Filling(src, State(), d, r, i) && CloneMembers(src, State(), d, r, i) == whole
    }

    method Clone(ghost src: Heap, v: Value) returns (thrown: bool, w: Value)
      requires Closed(src) && Known(src, v) && StOk(src, State())
      modifies this
      ensures Follows(StructuredClone.Clone(src, old(State()), v), thrown, w)
      decreases Unseen(src, State()), 1
    {
      if v.Prim? {
        return false, v;
      }
      if v.Symbol? {
        return true, v;
      }
      if v.r in seen {
        return false, Obj(seen[v.r]);
      }
      if heap[v.r].kind.Function? {
        return true, v;
      }
      thrown, w := CloneContainer(src, v.r);
    }

    /** Record the fresh, still empty copy of `r` before looking inside, then fill it. */
    method CloneContainer(ghost src: Heap, r: Ref) returns (thrown: bool, w: Value)
      requires Closed(src) && StOk(src, State()) && r in src && r !in seen && !src[r].kind.Function?
      modifies this
      ensures Follows(StructuredClone.Clone(src, old(State()), Obj(r)), thrown, w)
      decreases Unseen(src, State()), 0
    {
      CloneUnfolds(src, State(), r);
      ghost var whole := StructuredClone.Clone(src, State(), Obj(r));
      var d := next;
      heap, seen, next := heap[d := Node(heap[r].kind, [], None)], seen[r := d], next + 1;
      assert State() == Open(old(State()), r, src[r].kind);
      thrown := Fill(src, d, r, whole);
      w := Obj(d);
    }

    method Fill(ghost src: Heap, d: Ref, r: Ref, ghost whole: Out) returns (thrown: bool)
      requires Closed(src) && AtMember(src, d, r, 0, whole)
      modifies this
      ensures Follows(whole, thrown, Obj(d))
      decreases Unseen(src, State()), 5
    {
      thrown := false;
      var i, n := 0, |heap[r].members|;
      while i < n
        invariant !thrown && AtMember(src, d, r, i, whole)
        invariant Unseen(src, State()) <= Unseen(src, old(State()))
      {
        thrown := CloneInto(src, d, r, i, whole);
        if thrown {
          break;
        }
        i := i + 1;
      }
      if !thrown {
        CloneMembersEnd(src, State(), d, r, whole);
      }
    }

    /** One turn of the loop: clone member `i` of `r` and put it into `d`. */
    method CloneInto(ghost src: Heap, d: Ref, r: Ref, i: nat, ghost whole: Out) returns (thrown: bool)
      requires Closed(src) && AtMember(src, d, r, i, whole) && i < |src[r].members|
      modifies this
      ensures thrown ==> whole.Thrown?
      ensures !thrown ==> AtMember(src, d, r, i + 1, whole)
      ensures !thrown ==> Unseen(src, State()) <= Unseen(src, old(State()))
      decreases Unseen(src, State()), 4
    {
      ghost var c := StructuredClone.CloneMember(src, State(), src[r].members[i]);
      CloneMembersUnfolds(src, State(), d, r, i);
      var m;
      thrown, m := CloneMember(src, heap[r].members[i]);
      if !thrown {
        heap := heap[d := Put(heap[d], m, Hidden(heap, heap[d], m))];
        assert State() == Store(c.st, d, c.m);
      }
    }

    method CloneMember(ghost src: Heap, m: Member) returns (thrown: bool, w: Member)
      requires Closed(src) && MemberKnown(src, m) && StOk(src, State())
      modifies this
      ensures FollowsMember(StructuredClone.CloneMember(src, old(State()), m), thrown, w)
      decreases Unseen(src, State()), 3
    {
      if m.Entry? {
        thrown, w := CloneEntry(src, m);
      } else {
        var v;
        thrown, v := Clone(src, m.v);
        w := WithValue(m, v);
      }
    }

    /** `result.set(clone(k), clone(v))`: the key comes first. */
    method CloneEntry(ghost src: Heap, m: Member) returns (thrown: bool, w: Member)
      requires Closed(src) && MemberKnown(src, m) && StOk(src, State()) && m.Entry?
      modifies this
      ensures FollowsMember(StructuredClone.CloneMember(src, old(State()), m), thrown, w)
      decreases Unseen(src, State()), 2
    {
      ghost var a := StructuredClone.Clone(src, State(), m.k);
      CloneEntryUnfolds(src, State(), m);
      var k, v := m.k, m.v;
      thrown, k := Clone(src, m.k);
      if !thrown {
        ghost var b := StructuredClone.Clone(src, a.st, m.v);
        thrown, v := Clone(src, m.v);
        assert Follows(b, thrown, v);
      }
      w := Entry(k, v);
    }
  }

  lemma CloneUnfolds(src: Heap, st: St, r: Ref)
    requires Closed(src) && StOk(src, st) && r in src && r !in st.seen && !src[r].kind.Function?
    ensures Filling(src, Open(st, r, src[r].kind), st.next, r, 0)
    ensures Unseen(src, Open(st, r, src[r].kind)) < Unseen(src, st)
    ensures Clone(src, st, Obj(r)) == CloneMembers(src, Open(st, r, src[r].kind), st.next, r, 0)
  {
    OpenGrows(src, st, r);
    OpenOk(src, st, r);
    CloneIs(src, st, r);
  }

  lemma CloneIs(src: Heap, st: St, r: Ref)
    requires Closed(src) && r in src && r !in st.seen && !src[r].kind.Function?
    ensures Clone(src, st, Obj(r)) == CloneMembers(src, Open(st, r, src[r].kind), st.next, r, 0)
  {
    OpenGrows(src, st, r);
  }

  lemma CloneEntryUnfolds(src: Heap, st: St, m: Member)
    requires Closed(src) && MemberKnown(src, m) && StOk(src, st) && m.Entry?
    ensures var a := Clone(src, st, m.k);
      if a.Thrown? then CloneMember(src, st, m) == MemberThrown else
        && StOk(src, a.st) && Unseen(src, a.st) <= Unseen(src, st)
        && CloneMember(src, st, m) == BothOk(a, Clone(src, a.st, m.v))
  {
    CloneGood(src, st, m.k);
  }

  lemma CloneMembersUnfolds(src: Heap, st: St, d: Ref, r: Ref, i: nat)
    requires Closed(src) && Filling(src, st, d, r, i) && i < |src[r].members|
    ensures var c, whole := CloneMember(src, st, src[r].members[i]), CloneMembers(src, st, d, r, i);
      if c.MemberThrown? then whole.Thrown? else
        && d in c.st.heap && Filling(src, Store(c.st, d, c.m), d, r, i + 1)
        && Unseen(src, Store(c.st, d, c.m)) <= Unseen(src, st)
        && whole == CloneMembers(src, Store(c.st, d, c.m), d, r, i + 1)
  {
    var c := CloneMember(src, st, src[r].members[i]);
    CloneMemberGood(src, st, src[r].members[i]);
    if c.MemberOk? {
      FillingStep(src, st, d, r, i, c);
    }
  }

  lemma CloneMembersEnd(src: Heap, st: St, d: Ref, r: Ref, whole: Out)
    requires Closed(src) && r in src && d in st.heap && CloneMembers(src, st, d, r, |src[r].members|) == whole
    ensures whole == Ok(Obj(d), st)
  {
  }

  /** `structuredClone(value)`. */
  method Run(src: Heap, next: Ref, v: Value) returns (thrown: bool, w: Value, copy: Heap, ghost st: St)
    requires WellFormed(src) && Known(src, v) && (forall x :: x in src ==> x < next)
    ensures thrown <==> Uncloneable(src, v)
    ensures !thrown ==> st.heap == copy && Isomorphic(src, v, Ok(w, st))
  {
    var c := new Cloner(src, next);
    thrown, w := c.Clone(src, v);
    copy, st := c.heap, c.State();
    CloneIsIsomorphic(src, next, v);
  }
}
