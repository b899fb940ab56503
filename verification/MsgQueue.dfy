/** The lock-free inbound queue of src/msgq.c with its consumer and wake-up in src/thread.c.

    A state machine over sequentially consistent atomic steps: any number of producers, each
    of which may be suspended between its exchange and its link, one consumer, a coalescing
    wake-up signal, and an allocator that may hand out a freed address again. */
module MsgQueue {
  import opened Wrappers

  type Addr = nat
  type Pid = nat

  const STUB: Addr := 0

  datatype Msg = Msg(data: string, source: int, flags: int)

  datatype Node = Node(msg: Msg, next: Option<Addr>)

  /** Where a producer stands inside `qz_msg_push`. */
  datatype Phase =
    | Outside
    | Prepared(node: Addr)                  // node written, tail not exchanged yet
    | Exchanged(node: Addr, prev: Addr)     // tail exchanged, predecessor not linked yet
    | Linked                                // linked, uv_async_send not called yet

  datatype Sent = Sent(pid: Pid, msg: Msg)

  /** The shared memory, then the wake-up flags, then history: `chain` lists the nodes from
      head to tail in exchange order (linked or not), `order` every message in exchange
      order, `popped` what the consumer got, `calls` what each producer was asked to push. */
  datatype State = State(
    heap: map<Addr, Node>, head: Addr, tail: Addr, phase: map<Pid, Phase>,
    signal: bool, draining: bool, shutdown: bool,
    chain: seq<Addr>, order: seq<Sent>, popped: seq<Msg>, calls: map<Pid, seq<Msg>>)

  datatype Step =
    | Prepare(p: Pid, a: Addr, m: Msg)      // malloc returned `a`; fill it in
    | Exchange(p: Pid)
    | Link(p: Pid)
    | Signal(p: Pid)                        // uv_async_send: signals coalesce
    | Wake                                  // libuv clears the signal and runs qz_wake_cb
    | Pop                                   // one qz_msg_pop of the drain loop
    | Shutdown

  const Empty := Msg("", 0, 0)

  const Init := State(map[STUB := Node(Empty, None)], STUB, STUB, map[], false, false, false, [STUB], [], [], map[])

  function PhaseOf(s: State, p: Pid): Phase {
    if p in s.phase then s.phase[p] else Outside
  }

  function CallsOf(s: State, p: Pid): seq<Msg> {
    if p in s.calls then s.calls[p] else []
  }

  predicate Enabled(s: State, st: Step) {
    match st
    case Prepare(p, a, m) => PhaseOf(s, p).Outside? && a !in s.heap
    case Exchange(p) => PhaseOf(s, p).Prepared?
    case Link(p) => PhaseOf(s, p).Exchanged?
    case Signal(p) => PhaseOf(s, p).Linked?
    case Wake => s.signal && !s.draining
    case Pop => s.draining
    case Shutdown => true
  }

  /** The nodes a step reads or writes; touching one that is not allocated is a fault. */
  function Touches(s: State, st: Step): set<Addr>
    requires Enabled(s, st)
  {
    match st
    case Exchange(p) => {PhaseOf(s, p).node}
    case Link(p) => {PhaseOf(s, p).prev}
    case Pop => {s.head} + (if s.head in s.heap && s.heap[s.head].next.Some? then {s.heap[s.head].next.value} else {})
    case _ => {}
  }

  function Next(s: State, st: Step): State
    requires Enabled(s, st) && Touches(s, st) <= s.heap.Keys
  {
    match st
    case Prepare(p, a, m) =>
      s.(heap := s.heap[a := Node(m, None)], phase := s.phase[p := Prepared(a)], calls := s.calls[p := CallsOf(s, p) + [m]])
    case Exchange(p) =>
      var a := PhaseOf(s, p).node;
      s.(tail := a, phase := s.phase[p := Exchanged(a, s.tail)],
         chain := s.chain + [a], order := s.order + [Sent(p, s.heap[a].msg)])
    case Link(p) =>
      var ph := PhaseOf(s, p);
      s.(heap := s.heap[ph.prev := s.heap[ph.prev].(next := Some(ph.node))], phase := s.phase[p := Linked])
    case Signal(p) => s.(phase := s.phase[p := Outside], signal := true)
    case Wake => s.(signal := false, draining := !s.shutdown)
    case Pop =>
      var nq := s.heap[s.head].next;
      if nq.None? then s.(draining := false) else
      s.(head := nq.value, heap := if s.head == STUB then s.heap else s.heap - {s.head},
         chain := if s.chain == [] then [] else s.chain[1..], popped := s.popped + [s.heap[nq.value].msg])
    case Shutdown => s.(shutdown := true)
  }

  /** Reached from the initial state by `run`, every step enabled and free of faults. */
  ghost predicate Reaches(run: seq<Step>, s: State)
    decreases |run|
  {
    if run == [] then s == Init else
    var last := run[|run| - 1];
    exists p :: Reaches(run[..|run| - 1], p) && Enabled(p, last) && Touches(p, last) <= p.heap.Keys && s == Next(p, last)
  }

  // ---------------------------------------------------------------- the invariant

  function Messages(order: seq<Sent>): (ms: seq<Msg>)
    ensures |ms| == |order| && forall i :: 0 <= i < |ms| ==> ms[i] == order[i].msg
  {
    seq(|order|, i requires 0 <= i < |order| => order[i].msg)
  }

  function By(order: seq<Sent>, p: Pid): seq<Msg> {
    if order == [] then [] else
    By(order[..|order| - 1], p) + if order[|order| - 1].pid == p then [order[|order| - 1].msg] else []
  }

  /** Producer `p` holds node `a`, not yet reachable for the consumer. */
  predicate Holds(s: State, p: Pid, a: Addr) {
    var ph := PhaseOf(s, p);
    (ph.Prepared? || ph.Exchanged?) && ph.node == a
  }

  predicate MidPush(s: State, p: Pid) {
    PhaseOf(s, p).Exchanged? || PhaseOf(s, p).Linked?
  }

  /** The chain: distinct allocated nodes from head to tail, the stub only in front. */
  predicate ChainOk(s: State) {
    && STUB in s.heap && |s.chain| > 0 && s.chain[0] == s.head && s.chain[|s.chain| - 1] == s.tail
    && (forall i :: 0 <= i < |s.chain| ==> s.chain[i] in s.heap)
    && (forall i, j :: 0 <= i < j < |s.chain| ==> s.chain[i] != s.chain[j])
    && (forall i :: 1 <= i < |s.chain| ==> s.chain[i] != STUB)
  }

  /** Every chain node but the last is linked to its successor or its link is owed by the
      producer that exchanged it; the tail has no successor. */
  ghost predicate LinksOk(s: State)
    requires ChainOk(s)
  {
    && s.heap[s.tail].next.None?
    && (forall i :: 0 <= i < |s.chain| - 1 ==> LinkedAt(s, i) || Gap(s, i))
  }

  predicate LinkedAt(s: State, i: nat)
    requires ChainOk(s) && i < |s.chain| - 1
  {
    s.heap[s.chain[i]].next == Some(s.chain[i + 1])
  }

  ghost predicate Gap(s: State, i: nat)
    requires ChainOk(s) && i < |s.chain| - 1
  {
    s.heap[s.chain[i]].next.None? && exists p :: PhaseOf(s, p) == Exchanged(s.chain[i + 1], s.chain[i])
  }

  /** The gap between positions `i` and `i + 1` is the one phase `ph` has to close. */
  predicate GapOf(s: State, i: nat, ph: Phase)
    requires ChainOk(s) && i < |s.chain| - 1
  {
    ph == Exchanged(s.chain[i + 1], s.chain[i]) && s.heap[s.chain[i]].next.None?
  }

  predicate PrivateNode(s: State, a: Addr) {
    a in s.heap && a !in s.chain && a != STUB && s.heap[a].next.None?
  }

  /** What each producer holds: a private node, or a place in the chain with an open gap
      right before it. No node is held twice. */
  ghost predicate ProducersOk(s: State)
    requires ChainOk(s)
  {
    && (forall p :: PhaseOf(s, p).Prepared? ==> PrivateNode(s, PhaseOf(s, p).node))
    && (forall p :: PhaseOf(s, p).Exchanged? ==>
          exists i :: 0 <= i < |s.chain| - 1 && GapOf(s, i, PhaseOf(s, p)))
    && (forall p, q, a :: Holds(s, p, a) && Holds(s, q, a) ==> p == q)
  }

  /** No leak: an allocated node is the stub, in the chain, or still private to a producer. */
  ghost predicate NoLeak(s: State) {
    forall a :: a in s.heap ==> a == STUB || a in s.chain || exists p :: PhaseOf(s, p) == Prepared(a)
  }

  predicate HistoryOk(s: State)
    requires ChainOk(s)
  {
    && |s.order| == |s.popped| + |s.chain| - 1
    && s.popped == Messages(s.order)[..|s.popped|]
    && (forall i :: 1 <= i < |s.chain| ==> s.heap[s.chain[i]].msg == s.order[|s.popped| + i - 1].msg)
  }

  /** The message a producer has prepared but not exchanged, if any. */
  function Private(s: State, p: Pid): seq<Msg> {
    var ph := PhaseOf(s, p);
    if ph.Prepared? && ph.node in s.heap then [s.heap[ph.node].msg] else []
  }

  ghost predicate CallsOk(s: State) {
    forall p :: CallsOf(s, p) == By(s.order, p) + Private(s, p)
  }

  /** No lost wake-up, as an invariant: unconsumed nodes always have somebody coming. */
  ghost predicate WakeOk(s: State) {
    |s.chain| > 1 && !s.shutdown ==> s.signal || s.draining || exists p :: MidPush(s, p)
  }

  ghost predicate Inv(s: State) {
    ChainOk(s) && LinksOk(s) && ProducersOk(s) && NoLeak(s) && HistoryOk(s) && CallsOk(s) && WakeOk(s)
  }

  // ---------------------------------------------------------------- preservation

  lemma HoldsInHeap(s: State, p: Pid, a: Addr)
    requires ChainOk(s) && ProducersOk(s) && Holds(s, p, a)
    ensures a in s.heap && a != STUB
  {
    if PhaseOf(s, p).Exchanged? {
      var i :| 0 <= i < |s.chain| - 1 && GapOf(s, i, PhaseOf(s, p));
      assert s.chain[i + 1] == a;
    }
  }

  /** A head without successor is the tail, or a producer still owes the link behind it. */
  lemma HeadGap(s: State)
    requires ChainOk(s) && LinksOk(s)
    ensures s.heap[s.head].next.None? && |s.chain| > 1 ==> exists p :: PhaseOf(s, p).Exchanged?
    ensures s.heap[s.head].next.Some? ==> |s.chain| > 1 && s.heap[s.head].next.value == s.chain[1]
  {
    if |s.chain| > 1 {
      assert LinkedAt(s, 0) || Gap(s, 0);
    }
  }

  /** No step reads or writes a freed node. */
  lemma StepSafe(s: State, st: Step)
    requires Inv(s) && Enabled(s, st)
    ensures Touches(s, st) <= s.heap.Keys
  {
    match st
    case Exchange(p) => assert PhaseOf(s, p).Prepared?;
    case Link(p) =>
      var i :| 0 <= i < |s.chain| - 1 && GapOf(s, i, PhaseOf(s, p));
      assert s.chain[i] == PhaseOf(s, p).prev;
    case Pop => HeadGap(s);
    case Prepare(p, a, m) =>
    case Signal(p) =>
    case Wake =>
    case Shutdown =>
  }

  /** Gaps survive a step that keeps the chain, the links inside it and the phases of the
      producers that owe a link. */
  lemma KeepLinks(s: State, s': State)
    requires ChainOk(s) && LinksOk(s) && ChainOk(s') && s'.chain == s.chain && s'.tail == s.tail
    requires forall i :: 0 <= i < |s.chain| ==> s'.heap[s.chain[i]].next == s.heap[s.chain[i]].next
    requires forall q :: PhaseOf(s, q).Exchanged? ==> PhaseOf(s', q) == PhaseOf(s, q)
    ensures LinksOk(s')
  {
    assert s.tail == s.chain[|s.chain| - 1];
    forall i | 0 <= i < |s'.chain| - 1
      ensures LinkedAt(s', i) || Gap(s', i)
    {
      if Gap(s, i) {
        var q :| PhaseOf(s, q) == Exchanged(s.chain[i + 1], s.chain[i]);
        assert PhaseOf(s', q) == PhaseOf(s, q);
      } else {
        assert LinkedAt(s, i);
      }
    }
  }

  lemma KeepGap(s: State, s': State, p: Pid)
    requires ChainOk(s) && ChainOk(s') && ProducersOk(s) && s.chain <= s'.chain && PhaseOf(s, p).Exchanged? && PhaseOf(s', p) == PhaseOf(s, p)
    requires forall i :: 0 <= i < |s.chain| ==> s'.heap[s.chain[i]].next == s.heap[s.chain[i]].next
    ensures exists i :: 0 <= i < |s'.chain| - 1 && GapOf(s', i, PhaseOf(s', p))
  {
    var i :| 0 <= i < |s.chain| - 1 && GapOf(s, i, PhaseOf(s, p));
    assert GapOf(s', i, PhaseOf(s', p));
  }

  lemma KeepWake(s: State, s': State)
    requires WakeOk(s) && s'.chain == s.chain && s'.signal == s.signal && s'.draining == s.draining && s'.shutdown == s.shutdown
    requires forall q :: MidPush(s, q) ==> MidPush(s', q)
    ensures WakeOk(s')
  {
  }

  lemma KeepCalls(s: State, s': State)
    requires CallsOk(s) && s'.order == s.order && s'.calls == s.calls
    requires forall q :: Private(s', q) == Private(s, q)
    ensures CallsOk(s')
  {
    forall q
      ensures CallsOf(s', q) == By(s'.order, q) + Private(s', q)
    {
      assert CallsOf(s, q) == By(s.order, q) + Private(s, q);
    }
  }

  lemma KeepNoLeak(s: State, s': State)
    requires NoLeak(s) && s'.heap.Keys == s.heap.Keys && s'.chain == s.chain
    requires forall q :: PhaseOf(s, q).Prepared? ==> PhaseOf(s', q) == PhaseOf(s, q)
    ensures NoLeak(s')
  {
    forall b | b in s'.heap && b != STUB && b !in s'.chain
      ensures exists q :: PhaseOf(s', q) == Prepared(b)
    {
      var q :| PhaseOf(s, q) == Prepared(b);
      assert PhaseOf(s', q) == Prepared(b);
    }
  }

  // -- Prepare

  lemma PrepareProducers(s: State, p: Pid, a: Addr, m: Msg)
    requires ChainOk(s) && ProducersOk(s) && Enabled(s, Prepare(p, a, m)) && ChainOk(Next(s, Prepare(p, a, m)))
    ensures ProducersOk(Next(s, Prepare(p, a, m)))
  {
    var s' := Next(s, Prepare(p, a, m));
    forall q | PhaseOf(s', q).Exchanged?
      ensures exists i :: 0 <= i < |s'.chain| - 1 && GapOf(s', i, PhaseOf(s', q))
    {
      KeepGap(s, s', q);
    }
    forall q | PhaseOf(s', q).Prepared?
      ensures PrivateNode(s', PhaseOf(s', q).node)
    {
      assert q != p ==> PhaseOf(s, q) == PhaseOf(s', q);
    }
    forall q, r, b | Holds(s', q, b) && Holds(s', r, b)
      ensures q == r
    {
      if q != p { assert Holds(s, q, b); HoldsInHeap(s, q, b); }
      if r != p { assert Holds(s, r, b); HoldsInHeap(s, r, b); }
    }
  }

  lemma PrepareNoLeak(s: State, p: Pid, a: Addr, m: Msg)
    requires NoLeak(s) && Enabled(s, Prepare(p, a, m))
    ensures NoLeak(Next(s, Prepare(p, a, m)))
  {
    var s' := Next(s, Prepare(p, a, m));
    assert PhaseOf(s', p) == Prepared(a);
    forall b | b in s'.heap && b != STUB && b !in s'.chain && b != a
      ensures exists q :: PhaseOf(s', q) == Prepared(b)
    {
      var q :| PhaseOf(s, q) == Prepared(b);
      assert PhaseOf(s', q) == Prepared(b);
    }
  }

  lemma PrepareCallsOf(s: State, p: Pid, a: Addr, m: Msg, q: Pid)
    requires ChainOk(s) && ProducersOk(s) && Enabled(s, Prepare(p, a, m))
    requires CallsOf(s, q) == By(s.order, q) + Private(s, q)
    ensures var s' := Next(s, Prepare(p, a, m)); CallsOf(s', q) == By(s'.order, q) + Private(s', q)
  {
    var s' := Next(s, Prepare(p, a, m));
    if q != p {
      assert PhaseOf(s', q) == PhaseOf(s, q) && (PhaseOf(s, q).Prepared? ==> PrivateNode(s, PhaseOf(s, q).node));
    } else {
      assert Private(s, p) == [] && Private(s', p) == [m];
      assert By(s.order, p) + [] == By(s.order, p);
    }
  }

  lemma PrepareCalls(s: State, p: Pid, a: Addr, m: Msg)
    requires ChainOk(s) && ProducersOk(s) && CallsOk(s) && Enabled(s, Prepare(p, a, m))
    ensures CallsOk(Next(s, Prepare(p, a, m)))
  {
    forall q {
      PrepareCallsOf(s, p, a, m, q);
    }
  }

  lemma PrepareMemory(s: State, p: Pid, a: Addr, m: Msg)
    requires ChainOk(s) && LinksOk(s) && HistoryOk(s) && WakeOk(s) && Enabled(s, Prepare(p, a, m))
    ensures ChainOk(Next(s, Prepare(p, a, m))) && LinksOk(Next(s, Prepare(p, a, m))) && HistoryOk(Next(s, Prepare(p, a, m)))
    ensures WakeOk(Next(s, Prepare(p, a, m)))
  {
    var s' := Next(s, Prepare(p, a, m));
    assert forall b :: b in s.heap ==> b != a && s'.heap[b] == s.heap[b];
    assert ChainOk(s');
    assert forall q :: q != p ==> PhaseOf(s', q) == PhaseOf(s, q);
    KeepLinks(s, s');
    KeepWake(s, s');
  }

  lemma PrepareInv(s: State, p: Pid, a: Addr, m: Msg)
    requires Inv(s) && Enabled(s, Prepare(p, a, m))
    ensures Inv(Next(s, Prepare(p, a, m)))
  {
    PrepareMemory(s, p, a, m);
    PrepareProducers(s, p, a, m);
    PrepareNoLeak(s, p, a, m);
    PrepareCalls(s, p, a, m);
  }

  // -- Exchange

  lemma ExchangeChain(s: State, p: Pid)
    requires ChainOk(s) && ProducersOk(s) && Enabled(s, Exchange(p)) && Touches(s, Exchange(p)) <= s.heap.Keys
    ensures ChainOk(Next(s, Exchange(p)))
  {
    assert PhaseOf(s, p).Prepared?;
  }

  lemma ExchangeLinks(s: State, p: Pid)
    requires ChainOk(s) && LinksOk(s) && ProducersOk(s) && Enabled(s, Exchange(p)) && Touches(s, Exchange(p)) <= s.heap.Keys
    requires ChainOk(Next(s, Exchange(p)))
    ensures LinksOk(Next(s, Exchange(p)))
  {
    var s' := Next(s, Exchange(p));
    var n := |s.chain|;
    assert PhaseOf(s, p).Prepared?;
    forall i | 0 <= i < n
      ensures LinkedAt(s', i) || Gap(s', i)
    {
      if i == n - 1 {
        assert PhaseOf(s', p) == Exchanged(s'.chain[i + 1], s'.chain[i]);
      } else if Gap(s, i) {
        var q :| PhaseOf(s, q) == Exchanged(s.chain[i + 1], s.chain[i]);
        assert PhaseOf(s', q) == Exchanged(s'.chain[i + 1], s'.chain[i]);
      } else {
        assert LinkedAt(s, i);
      }
    }
  }

  lemma ExchangeProducers(s: State, p: Pid)
    requires ChainOk(s) && LinksOk(s) && ProducersOk(s) && Enabled(s, Exchange(p)) && Touches(s, Exchange(p)) <= s.heap.Keys
    requires ChainOk(Next(s, Exchange(p)))
    ensures ProducersOk(Next(s, Exchange(p)))
  {
    var s' := Next(s, Exchange(p));
    var a := PhaseOf(s, p).node;
    assert Holds(s, p, a);
    forall q | PhaseOf(s', q).Prepared?
      ensures PrivateNode(s', PhaseOf(s', q).node)
    {
      assert PhaseOf(s, q) == PhaseOf(s', q) && Holds(s, q, PhaseOf(s, q).node);
    }
    forall q | PhaseOf(s', q).Exchanged?
      ensures exists i :: 0 <= i < |s'.chain| - 1 && GapOf(s', i, PhaseOf(s', q))
    {
      if q == p {
        assert GapOf(s', |s.chain| - 1, PhaseOf(s', p));
      } else {
        KeepGap(s, s', q);
      }
    }
    forall q, r, b | Holds(s', q, b) && Holds(s', r, b)
      ensures q == r
    {
      assert Holds(s, q, b) && Holds(s, r, b);
    }
  }

  lemma ExchangeNoLeak(s: State, p: Pid)
    requires NoLeak(s) && Enabled(s, Exchange(p)) && Touches(s, Exchange(p)) <= s.heap.Keys
    ensures NoLeak(Next(s, Exchange(p)))
  {
    var s' := Next(s, Exchange(p));
    var a := PhaseOf(s, p).node;
    assert s'.chain[|s.chain|] == a && forall i :: 0 <= i < |s.chain| ==> s'.chain[i] == s.chain[i];
    forall b | b in s'.heap && b != STUB && b !in s'.chain
      ensures exists q :: PhaseOf(s', q) == Prepared(b)
    {
      var q :| PhaseOf(s, q) == Prepared(b);
      assert PhaseOf(s', q) == Prepared(b);
    }
  }

  lemma ExchangeCalls(s: State, p: Pid)
    requires CallsOk(s) && Enabled(s, Exchange(p)) && Touches(s, Exchange(p)) <= s.heap.Keys
    ensures CallsOk(Next(s, Exchange(p)))
  {
    var s' := Next(s, Exchange(p));
    assert s'.order[..|s'.order| - 1] == s.order;
    forall q
      ensures CallsOf(s', q) == By(s'.order, q) + Private(s', q)
    {
      assert CallsOf(s, q) == By(s.order, q) + Private(s, q);
    }
  }

  lemma ExchangeInv(s: State, p: Pid)
    requires Inv(s) && Enabled(s, Exchange(p)) && Touches(s, Exchange(p)) <= s.heap.Keys
    ensures Inv(Next(s, Exchange(p)))
  {
    ExchangeChain(s, p);
    ExchangeLinks(s, p);
    ExchangeProducers(s, p);
    ExchangeNoLeak(s, p);
    ExchangeCalls(s, p);
    assert MidPush(Next(s, Exchange(p)), p);
    ExchangeHistory(s, p);
  }

  lemma ExchangeHistory(s: State, p: Pid)
    requires ChainOk(s) && HistoryOk(s) && Enabled(s, Exchange(p)) && Touches(s, Exchange(p)) <= s.heap.Keys
    requires ChainOk(Next(s, Exchange(p)))
    ensures HistoryOk(Next(s, Exchange(p)))
  {
    var s' := Next(s, Exchange(p));
    assert Messages(s'.order)[..|s.popped|] == Messages(s.order)[..|s.popped|];
  }

  // -- Link

  lemma LinkLinks(s: State, p: Pid, i: nat)
    requires ChainOk(s) && LinksOk(s) && ProducersOk(s) && Enabled(s, Link(p)) && Touches(s, Link(p)) <= s.heap.Keys
    requires i < |s.chain| - 1 && GapOf(s, i, PhaseOf(s, p)) && ChainOk(Next(s, Link(p)))
    ensures LinksOk(Next(s, Link(p)))
  {
    var s' := Next(s, Link(p));
    forall j | 0 <= j < |s'.chain| - 1
      ensures LinkedAt(s', j) || Gap(s', j)
    {
      if j == i {
        assert LinkedAt(s', i);
      } else if Gap(s, j) {
        var q :| PhaseOf(s, q) == Exchanged(s.chain[j + 1], s.chain[j]);
        assert PhaseOf(s', q) == Exchanged(s'.chain[j + 1], s'.chain[j]);
      } else {
        assert LinkedAt(s, j);
      }
    }
  }

  lemma LinkGap(s: State, p: Pid, i: nat, q: Pid)
    requires ChainOk(s) && ProducersOk(s) && Enabled(s, Link(p)) && Touches(s, Link(p)) <= s.heap.Keys
    requires i < |s.chain| - 1 && GapOf(s, i, PhaseOf(s, p)) && ChainOk(Next(s, Link(p)))
    requires PhaseOf(Next(s, Link(p)), q).Exchanged?
    ensures var s' := Next(s, Link(p)); exists j :: 0 <= j < |s'.chain| - 1 && GapOf(s', j, PhaseOf(s', q))
  {
    var s' := Next(s, Link(p));
    var j :| 0 <= j < |s.chain| - 1 && GapOf(s, j, PhaseOf(s, q));
    if j == i {
      assert Holds(s, p, s.chain[i + 1]) && Holds(s, q, s.chain[i + 1]);
    }
    assert GapOf(s', j, PhaseOf(s', q));
  }

  lemma LinkProducers(s: State, p: Pid, i: nat)
    requires ChainOk(s) && ProducersOk(s) && Enabled(s, Link(p)) && Touches(s, Link(p)) <= s.heap.Keys
    requires i < |s.chain| - 1 && GapOf(s, i, PhaseOf(s, p)) && ChainOk(Next(s, Link(p)))
    ensures ProducersOk(Next(s, Link(p)))
  {
    var s' := Next(s, Link(p));
    forall q | PhaseOf(s', q).Prepared?
      ensures PrivateNode(s', PhaseOf(s', q).node)
    {
      assert PhaseOf(s, q) == PhaseOf(s', q);
    }
    forall q | PhaseOf(s', q).Exchanged?
      ensures exists j :: 0 <= j < |s'.chain| - 1 && GapOf(s', j, PhaseOf(s', q))
    {
      LinkGap(s, p, i, q);
    }
    forall q, r, b | Holds(s', q, b) && Holds(s', r, b)
      ensures q == r
    {
      assert Holds(s, q, b) && Holds(s, r, b);
    }
  }

  lemma LinkRest(s: State, p: Pid)
    requires ChainOk(s) && NoLeak(s) && CallsOk(s) && Enabled(s, Link(p)) && Touches(s, Link(p)) <= s.heap.Keys
    ensures var s' := Next(s, Link(p)); ChainOk(s') && NoLeak(s') && CallsOk(s') && WakeOk(s')
  {
    var s' := Next(s, Link(p));
    assert forall q :: q != p ==> PhaseOf(s', q) == PhaseOf(s, q);
    assert MidPush(s', p);
    KeepNoLeak(s, s');
    KeepCalls(s, s');
  }

  lemma LinkHistory(s: State, p: Pid)
    requires ChainOk(s) && HistoryOk(s) && Enabled(s, Link(p)) && Touches(s, Link(p)) <= s.heap.Keys
    requires ChainOk(Next(s, Link(p)))
    ensures HistoryOk(Next(s, Link(p)))
  {
    var s' := Next(s, Link(p));
    forall i | 1 <= i < |s'.chain|
      ensures s'.heap[s'.chain[i]].msg == s'.order[|s'.popped| + i - 1].msg
    {
      assert s'.heap[s.chain[i]].msg == s.heap[s.chain[i]].msg;
    }
  }

  lemma LinkInv(s: State, p: Pid)
    requires Inv(s) && Enabled(s, Link(p)) && Touches(s, Link(p)) <= s.heap.Keys
    ensures Inv(Next(s, Link(p)))
  {
    var i :| 0 <= i < |s.chain| - 1 && GapOf(s, i, PhaseOf(s, p));
    LinkRest(s, p);
    LinkHistory(s, p);
    LinkLinks(s, p, i);
    LinkProducers(s, p, i);
  }

  // -- Pop

  lemma PopChain(s: State)
    requires ChainOk(s) && LinksOk(s) && Enabled(s, Pop) && s.heap[s.head].next.Some? && Touches(s, Pop) <= s.heap.Keys
    ensures ChainOk(Next(s, Pop))
  {
    HeadGap(s);
  }

  lemma PopLinks(s: State)
    requires ChainOk(s) && LinksOk(s) && Enabled(s, Pop) && s.heap[s.head].next.Some? && Touches(s, Pop) <= s.heap.Keys
    requires ChainOk(Next(s, Pop))
    ensures LinksOk(Next(s, Pop))
  {
    var s' := Next(s, Pop);
    HeadGap(s);
    forall j | 0 <= j < |s'.chain| - 1
      ensures LinkedAt(s', j) || Gap(s', j)
    {
      if Gap(s, j + 1) {
        var q :| PhaseOf(s, q) == Exchanged(s.chain[j + 2], s.chain[j + 1]);
        assert PhaseOf(s', q) == Exchanged(s'.chain[j + 1], s'.chain[j]);
      } else {
        assert LinkedAt(s, j + 1);
      }
    }
  }

  lemma PopProducers(s: State)
    requires ChainOk(s) && LinksOk(s) && ProducersOk(s) && Enabled(s, Pop) && s.heap[s.head].next.Some? && Touches(s, Pop) <= s.heap.Keys
    requires ChainOk(Next(s, Pop))
    ensures ProducersOk(Next(s, Pop))
  {
    var s' := Next(s, Pop);
    HeadGap(s);
    forall q | PhaseOf(s', q).Prepared?
      ensures PrivateNode(s', PhaseOf(s', q).node)
    {
      assert PhaseOf(s, q) == PhaseOf(s', q);
    }
    forall q | PhaseOf(s', q).Exchanged?
      ensures exists j :: 0 <= j < |s'.chain| - 1 && GapOf(s', j, PhaseOf(s', q))
    {
      var j :| 0 <= j < |s.chain| - 1 && GapOf(s, j, PhaseOf(s, q));
      assert j != 0;
      assert GapOf(s', j - 1, PhaseOf(s', q));
    }
    forall q, r, b | Holds(s', q, b) && Holds(s', r, b)
      ensures q == r
    {
      assert Holds(s, q, b) && Holds(s, r, b);
    }
  }

  lemma PopNoLeak(s: State)
    requires ChainOk(s) && NoLeak(s) && Enabled(s, Pop) && s.heap[s.head].next.Some? && Touches(s, Pop) <= s.heap.Keys
    ensures NoLeak(Next(s, Pop))
  {
    var s' := Next(s, Pop);
    forall b | b in s'.heap && b != STUB && b !in s'.chain
      ensures exists q :: PhaseOf(s', q) == Prepared(b)
    {
      assert s.chain == [s.head] + s'.chain;
      var q :| PhaseOf(s, q) == Prepared(b);
      assert PhaseOf(s', q) == Prepared(b);
    }
  }

  lemma PopHistory(s: State)
    requires ChainOk(s) && LinksOk(s) && HistoryOk(s) && Enabled(s, Pop) && s.heap[s.head].next.Some? && Touches(s, Pop) <= s.heap.Keys
    requires ChainOk(Next(s, Pop))
    ensures HistoryOk(Next(s, Pop))
  {
    HeadGap(s);
    var s', k := Next(s, Pop), |s.popped|;
    assert s'.popped == Messages(s.order)[..k + 1];
    forall i | 1 <= i < |s'.chain|
      ensures s'.heap[s'.chain[i]].msg == s'.order[|s'.popped| + i - 1].msg
    {
      assert s'.chain[i] == s.chain[i + 1];
      assert s.heap[s.chain[i + 1]].msg == s.order[k + (i + 1) - 1].msg;
    }
  }

  lemma PopCalls(s: State)
    requires ChainOk(s) && ProducersOk(s) && CallsOk(s) && Enabled(s, Pop) && s.heap[s.head].next.Some? && Touches(s, Pop) <= s.heap.Keys
    ensures CallsOk(Next(s, Pop))
  {
    var s' := Next(s, Pop);
    assert s.head == s.chain[0];
    forall q
      ensures Private(s', q) == Private(s, q)
    {
      assert PhaseOf(s', q) == PhaseOf(s, q);
      assert PhaseOf(s, q).Prepared? ==> PrivateNode(s, PhaseOf(s, q).node);
    }
    KeepCalls(s, s');
  }

  lemma PopStops(s: State)
    requires Inv(s) && Enabled(s, Pop) && s.heap[s.head].next.None? && Touches(s, Pop) <= s.heap.Keys
    ensures Inv(Next(s, Pop))
  {
    var s' := Next(s, Pop);
    KeepRest(s, s');
    HeadGap(s);
    if |s.chain| > 1 {
      var p :| PhaseOf(s, p).Exchanged?;
      assert MidPush(s', p);
    }
  }

  lemma PopInv(s: State)
    requires Inv(s) && Enabled(s, Pop) && Touches(s, Pop) <= s.heap.Keys
    ensures Inv(Next(s, Pop))
  {
    if s.heap[s.head].next.Some? {
      PopChain(s);
      PopLinks(s);
      PopProducers(s);
      PopNoLeak(s);
      PopHistory(s);
      PopCalls(s);
    } else {
      PopStops(s);
    }
  }

  // -- Signal, Wake, Shutdown

  lemma KeepProducers(s: State, s': State)
    requires ChainOk(s) && ChainOk(s') && ProducersOk(s) && s'.heap == s.heap && s'.chain == s.chain
    requires forall q :: PhaseOf(s', q).Prepared? || PhaseOf(s', q).Exchanged? ==> PhaseOf(s', q) == PhaseOf(s, q)
    ensures ProducersOk(s')
  {
    forall q | PhaseOf(s', q).Exchanged?
      ensures exists i :: 0 <= i < |s'.chain| - 1 && GapOf(s', i, PhaseOf(s', q))
    {
      KeepGap(s, s', q);
    }
    forall q, r, b | Holds(s', q, b) && Holds(s', r, b)
      ensures q == r
    {
      assert Holds(s, q, b) && Holds(s, r, b);
    }
  }

  /** A step that leaves the memory, the history and every producer inside a push alone. */
  lemma KeepRest(s: State, s': State)
    requires Inv(s) && s'.heap == s.heap && s'.head == s.head && s'.tail == s.tail && s'.chain == s.chain
    requires s'.order == s.order && s'.popped == s.popped && s'.calls == s.calls
    requires forall q :: PhaseOf(s, q).Prepared? || PhaseOf(s, q).Exchanged? || PhaseOf(s', q).Prepared? || PhaseOf(s', q).Exchanged?
               ==> PhaseOf(s', q) == PhaseOf(s, q)
    ensures ChainOk(s') && LinksOk(s') && ProducersOk(s') && NoLeak(s') && HistoryOk(s') && CallsOk(s')
  {
    KeepLinks(s, s');
    KeepNoLeak(s, s');
    KeepCalls(s, s');
    KeepProducers(s, s');
  }

  /** Every atomic step of any producer and of the consumer keeps the invariant. */
  lemma StepInv(s: State, st: Step)
    requires Inv(s) && Enabled(s, st) && Touches(s, st) <= s.heap.Keys
    ensures Inv(Next(s, st))
  {
    match st
    case Prepare(p, a, m) => PrepareInv(s, p, a, m);
    case Exchange(p) => ExchangeInv(s, p);
    case Link(p) => LinkInv(s, p);
    case Pop => PopInv(s);
    case Signal(p) => KeepRest(s, Next(s, st));
    case Wake => KeepRest(s, Next(s, st));
    case Shutdown => KeepRest(s, Next(s, st));
  }

  lemma InitInv()
    ensures Inv(Init)
  {
    assert forall p :: PhaseOf(Init, p) == Outside;
  }

  lemma {:induction false} ReachesInv(run: seq<Step>, s: State)
    requires Reaches(run, s)
    ensures Inv(s)
    decreases |run|
  {
    if run == [] {
      InitInv();
    } else {
      var last := run[|run| - 1];
      var p :| Reaches(run[..|run| - 1], p) && Enabled(p, last) && Touches(p, last) <= p.heap.Keys && s == Next(p, last);
      ReachesInv(run[..|run| - 1], p);
      StepInv(p, last);
    }
  }

  // ---------------------------------------------------------------- what every run guarantees

  /** Memory safety: in any reachable state, whatever step comes next, every node it reads or
      writes is allocated; a node is freed only when nobody will touch it again. The node
      the consumer is dispatching (the head) is allocated too. */
  lemma MemorySafe(run: seq<Step>, s: State, st: Step)
    requires Reaches(run, s) && Enabled(s, st)
    ensures Touches(s, st) <= s.heap.Keys && s.head in s.heap
  {
    ReachesInv(run, s);
    StepSafe(s, st);
  }

  /** Linearizability: the consumer has received a prefix of the messages in the order in
      which the producers' exchanges took effect. */
  lemma PoppedIsPrefix(run: seq<Step>, s: State)
    requires Reaches(run, s)
    ensures s.popped <= Messages(s.order)
  {
    ReachesInv(run, s);
  }

  lemma {:induction false} ByPrefix(order: seq<Sent>, n: nat, p: Pid)
    requires n <= |order|
    ensures By(order[..n], p) <= By(order, p)
  {
    if n < |order| {
      ByPrefix(order[..|order| - 1], n, p);
      assert order[..|order| - 1][..n] == order[..n];
    } else {
      assert order[..n] == order;
    }
  }

  /** Per-producer FIFO: of each producer the consumer has a prefix of what it was asked to
      push, in program order, with nothing lost, duplicated or invented. */
  lemma PerProducerFifo(run: seq<Step>, s: State, p: Pid)
    requires Reaches(run, s)
    ensures |s.popped| <= |s.order| && s.popped == Messages(s.order[..|s.popped|])
    ensures By(s.order[..|s.popped|], p) <= CallsOf(s, p)
  {
    ReachesInv(run, s);
    ByPrefix(s.order, |s.popped|, p);
    assert CallsOf(s, p) == By(s.order, p) + Private(s, p);
  }

  /** No lost wake-up: when no producer is inside a push, no signal is pending and the drain
      loop is not running (and the runtime is not shutting down), every message pushed has
      been consumed, the queue is just its head, and all other memory is back. */
  lemma NoLostWakeup(run: seq<Step>, s: State)
    requires Reaches(run, s) && !s.signal && !s.draining && !s.shutdown
    requires forall p :: PhaseOf(s, p).Outside?
    ensures s.popped == Messages(s.order) && s.chain == [s.head]
    ensures s.head in s.heap && s.heap[s.head].next.None?
    ensures forall p :: By(s.order, p) == CallsOf(s, p)
    ensures s.heap.Keys == {STUB, s.head}
  {
    ReachesInv(run, s);
    forall p
      ensures By(s.order, p) == CallsOf(s, p)
    {
      assert CallsOf(s, p) == By(s.order, p) + Private(s, p);
    }
    assert Messages(s.order)[..|s.popped|] == Messages(s.order);
  }
}
