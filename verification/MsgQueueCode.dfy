/** The queue's operations as src/msgq.c and src/thread.c write them: each method below does
    the loads, stores and frees of one atomic step on the shared fields, and refines the
    step of the same name in `MsgQueue`. */
module MsgQueueCode {
  import opened MsgQueue
  import opened Wrappers

  class Inbound {
    var heap: map<Addr, Node>
    var msgHead: Addr
    var msgTail: Addr
    var phase: map<Pid, Phase>
    var signal: bool
    var draining: bool
    var shuttingDown: bool
    ghost var chain: seq<Addr>
    ghost var order: seq<Sent>
    var popped: seq<Msg>             // messages dispatched, oldest first
    ghost var calls: map<Pid, seq<Msg>>

    ghost function Abs(): State
      reads this
    {
      State(heap, msgHead, msgTail, phase, signal, draining, shuttingDown, chain, order, popped, calls)
    }

    constructor ()
      ensures Abs() == Init && Inv(Abs())
    {
      heap := map[STUB := Node(Empty, None)];
      msgHead, msgTail, phase := STUB, STUB, map[];
      signal, draining, shuttingDown := false, false, false;
      chain, order, popped, calls := [STUB], [], [], map[];
      new;
      InitInv();
    }

    /** malloc and the stores that fill the node, before anything is published. */
    method PushPrepare(p: Pid, a: Addr, m: Msg)
      requires Safe(Abs(), Prepare(p, a, m))
      modifies this
      ensures Abs() == Next(old(Abs()), Prepare(p, a, m))
    {
      calls := calls[p := CallsOf(Abs(), p) + [m]];
      heap := heap[a := Node(m, None)];
      phase := phase[p := Prepared(a)];
    }

    /** `__atomic_exchange_n(&rt->msg_tail, m)`. */
    method PushExchange(p: Pid)
      requires Safe(Abs(), Exchange(p))
      modifies this
      ensures Abs() == Next(old(Abs()), Exchange(p))
    {
      var m := phase[p].node;
      var prev := msgTail;
      order := order + [Sent(p, heap[m].msg)];
      chain := chain + [m];
      msgTail := m;
      phase := phase[p := Exchanged(m, prev)];
    }

    /** The release store into `prev->q.next`. */
    method PushLink(p: Pid)
      requires Safe(Abs(), Link(p))
      modifies this
      ensures Abs() == Next(old(Abs()), Link(p))
    {
      var prev, m := phase[p].prev, phase[p].node;
      heap := heap[prev := heap[prev].(next := Some(m))];
      phase := phase[p := Linked];
    }

    /** `uv_async_send`. */
    method PushSignal(p: Pid)
      requires Safe(Abs(), Signal(p))
      modifies this
      ensures Abs() == Next(old(Abs()), Signal(p))
    {
      signal := true;
      phase := phase[p := Outside];
    }

    /** The first half of an uninterrupted `qz_msg_push`. */
    method PublishNode(p: Pid, a: Addr, m: Msg)
      requires Safe(Abs(), Prepare(p, a, m))
      modifies this
      ensures Abs() == Publish(old(Abs()), p, a, m)
    {
      PushPrepare(p, a, m);
      PushExchange(p);
    }

    method FinishPush(p: Pid)
      requires Safe(Abs(), Link(p))
      modifies this
      ensures Abs() == Finish(old(Abs()), p)
    {
      PushLink(p);
      PushSignal(p);
    }

    /** `qz_msg_push` run without interruption: the message becomes the newest one. */
    method Push(p: Pid, a: Addr, m: Msg)
      requires Inv(Abs()) && Enabled(Abs(), Prepare(p, a, m))
      modifies this
      ensures Inv(Abs()) && signal
      ensures order == old(order) + [Sent(p, m)] && chain == old(chain) + [a] && popped == old(popped)
    {
      PublishOk(Abs(), p, a, m);
      PublishNode(p, a, m);
      FinishOk(Abs(), p);
      FinishPush(p);
    }

    /** `qz_msg_pop`: the next linked message, freeing the previous head. */
    method PopMsg() returns (m: Option<Msg>)
      requires Safe(Abs(), Pop)
      modifies this
      ensures Abs() == Next(old(Abs()), Pop) && m == old(PopResult(Abs()))
    {
      var head := msgHead;
      var nq := heap[head].next;
      if nq.None? {
        draining := false;
        return None;
      }
      m := Some(heap[nq.value].msg);
      msgHead := nq.value;
      if head != STUB {
        heap := heap - {head};
      }
      chain := if chain == [] then [] else chain[1..];
      popped := popped + [m.value];
    }

    /** `qz_msg_has_pending`: some message is linked behind the head. */
    method HasPending() returns (b: bool)
      requires Inv(Abs())
      ensures b <==> LinkedRun(heap, chain) > 0
      ensures b ==> |chain| > 1
      ensures !b && |chain| > 1 ==> exists p :: PhaseOf(Abs(), p).Exchanged?
    {
      HeadGap(Abs());
      b := heap[msgHead].next.Some?;
    }

    /** The loop of `qz_wake_cb` with no producer running meanwhile: it takes what is linked. */
    method Drain()
      requires Inv(Abs()) && draining
      modifies this
      ensures Inv(Abs()) && !draining && order == old(order) && phase == old(phase) && signal == old(signal)
      ensures Took(old(Abs()), Abs(), LinkedRun(old(heap), old(chain))) && msgHead in heap && heap[msgHead].next.None?
    {
      ghost var was := Abs();
      TookNone(was);
      var m;
      ghost var k;
      m, k := DrainTurn(was, 0);
      while m.Some?
        invariant Draining(was, Abs(), k, m.Some?)
        decreases m.Some?, |chain|
      {
        m, k := DrainTurn(was, k);
      }
    }

    /** One pop of the loop. */
    method DrainTurn(ghost was: State, ghost k: nat) returns (m: Option<Msg>, ghost more: nat)
      requires Draining(was, Abs(), k, true)
      modifies this
      ensures Draining(was, Abs(), more, m.Some?) && (m.Some? ==> |chain| < old(|chain|))
    {
      ghost var s := Abs();
      PopEffect(s);
      m := PopMsg();
      more := if m.Some? then k + 1 else k;
      if m.Some? {
        TookMore(was, s, Abs(), m.value, k);
      } else {
        TookSame(was, s, Abs(), k);
        TookAll(was, Abs(), k);
      }
    }

    /** `qz_wake_cb`: unless the runtime shuts down, it dispatches the messages that were linked
        one behind the other when it began, in order, and leaves nothing linked behind the
        head. */
    method WakeCb()
      requires Inv(Abs()) && Enabled(Abs(), Wake)
      modifies this
      ensures Inv(Abs()) && !draining && !signal && order == old(order) && phase == old(phase)
      ensures old(shuttingDown) ==> popped == old(popped) && heap == old(heap) && chain == old(chain)
      ensures !old(shuttingDown) ==> Woken(old(Abs()), Abs())
      ensures popped <= Messages(order)
      ensures !old(shuttingDown) && (forall p :: !PhaseOf(Abs(), p).Exchanged?) ==> popped == Messages(order)
    {
      ghost var was := Abs();
      StepInv(was, Wake);
      signal := false;
      draining := !shuttingDown;
      AllPopped(Abs());
      if shuttingDown {
        return;
      }
      ghost var begun := Abs();
      Drain();
      WakeEffect(was, begun, Abs());
    }
  }

  // ---------------------------------------------------------------- what is linked

  /** How many nodes of the chain are linked one behind the other after its first. */
  function LinkedRun(heap: map<Addr, Node>, chain: seq<Addr>): (n: nat)
    ensures chain != [] ==> n < |chain|
    ensures forall i :: 0 <= i < n ==> IsLinked(heap, chain, i)
    ensures !IsLinked(heap, chain, n)
  {
    if !IsLinked(heap, chain, 0) then 0 else
    var rest := chain[1..];
    var n := LinkedRun(heap, rest);
    assert forall i :: 0 <= i < n ==> IsLinked(heap, rest, i);
    assert forall i :: 1 <= i <= n + 1 ==> (IsLinked(heap, chain, i) <==> IsLinked(heap, rest, i - 1));
    n + 1
  }

  predicate IsLinked(heap: map<Addr, Node>, chain: seq<Addr>, i: nat) {
    i + 1 < |chain| && chain[i] in heap && heap[chain[i]].next == Some(chain[i + 1])
  }

  function MessagesAt(heap: map<Addr, Node>, nodes: seq<Addr>): (ms: seq<Msg>)
    requires forall a :: a in nodes ==> a in heap
    ensures |ms| == |nodes| && forall i :: 0 <= i < |ms| ==> ms[i] == heap[nodes[i]].msg
  {
    seq(|nodes|, i requires 0 <= i < |nodes| => heap[nodes[i]].msg)
  }

  /** From `was` to `s` the consumer has taken the first `k` nodes behind the head. */
  ghost predicate Took(was: State, s: State, k: nat) {
    && k < |was.chain| && s.chain == was.chain[k..]
    && (forall a :: a in was.chain ==> a in was.heap)
    && s.popped == was.popped + MessagesAt(was.heap, was.chain[1..k + 1])
    && (forall i :: 0 <= i < k ==> IsLinked(was.heap, was.chain, i))
    && (forall a :: a in s.chain ==> a in s.heap && s.heap[a] == was.heap[a])
  }

  lemma TookNone(s: State)
    requires ChainOk(s)
    ensures Took(s, s, 0)
  {
    assert s.popped + MessagesAt(s.heap, s.chain[1..1]) == s.popped;
  }

  /** The drain loop that began at `was` stands at `s`, or has ended there. */
  ghost predicate Draining(was: State, s: State, k: nat, more: bool) {
    && Inv(s) && s.order == was.order && s.phase == was.phase && s.signal == was.signal && Took(was, s, k)
    && s.draining == more && (!more ==> k == LinkedRun(was.heap, was.chain) && s.head in s.heap && s.heap[s.head].next.None?)
  }

  lemma TookMore(was: State, s: State, s': State, m: Msg, k: nat)
    requires Took(was, s, k) && PopsOne(s, s', m) && s'.popped == s.popped + [m]
    ensures Took(was, s', k + 1)
  {
    var a := s.chain[1];
    assert a == was.chain[k + 1] && s.chain[0] == was.chain[k] && s.heap[s.chain[0]] == was.heap[was.chain[k]];
    assert IsLinked(was.heap, was.chain, k);
    assert was.chain[1..k + 2] == was.chain[1..k + 1] + [a];
    assert MessagesAt(was.heap, was.chain[1..k + 2]) == MessagesAt(was.heap, was.chain[1..k + 1]) + [m];
    Assoc(was.popped, MessagesAt(was.heap, was.chain[1..k + 1]), [m]);
  }

  lemma TookSame(was: State, s: State, s': State, k: nat)
    requires Took(was, s, k) && s'.heap == s.heap && s'.chain == s.chain && s'.popped == s.popped
    ensures Took(was, s', k)
  {
  }

  lemma RunIs(heap: map<Addr, Node>, chain: seq<Addr>, k: nat)
    requires !IsLinked(heap, chain, k) && forall i :: 0 <= i < k ==> IsLinked(heap, chain, i)
    ensures LinkedRun(heap, chain) == k
  {
    var n := LinkedRun(heap, chain);
    assert !(n < k) && !(k < n);
  }

  lemma TookAll(was: State, s: State, k: nat)
    requires Took(was, s, k) && ChainOk(s) && s.heap[s.head].next.None?
    ensures k == LinkedRun(was.heap, was.chain)
  {
    assert s.head == was.chain[k];
    RunIs(was.heap, was.chain, k);
  }

  /** The linked run ends with the chain, or where a producer still owes its link. */
  lemma RunStops(s: State)
    requires ChainOk(s) && LinksOk(s)
    ensures var n := LinkedRun(s.heap, s.chain);
      n < |s.chain| && (n + 1 < |s.chain| ==> exists p :: PhaseOf(s, p) == Exchanged(s.chain[n + 1], s.chain[n]))
  {
    var n := LinkedRun(s.heap, s.chain);
    if n + 1 < |s.chain| {
      assert LinkedAt(s, n) || Gap(s, n);
    }
  }

  /** What a wake-up that began at `was` has done: the nodes of the linked run are taken, their
      messages are handed over in order, the run ends with the chain or at a producer that was
      suspended before its link, and nothing is linked behind the head. */
  ghost predicate Woken(was: State, s: State) {
    var n := LinkedRun(was.heap, was.chain);
    && n < |was.chain| && s.chain == was.chain[n..] && (forall a :: a in was.chain ==> a in was.heap)
    && s.popped == was.popped + MessagesAt(was.heap, was.chain[1..n + 1])
    && (n + 1 < |was.chain| ==> exists p :: PhaseOf(was, p) == Exchanged(was.chain[n + 1], was.chain[n]))
    && s.head in s.heap && s.heap[s.head].next.None?
  }

  lemma WakeEffect(was: State, begun: State, s: State)
    requires Inv(was) && Inv(s) && begun.heap == was.heap && begun.chain == was.chain && begun.popped == was.popped
    requires Took(begun, s, LinkedRun(begun.heap, begun.chain)) && s.head in s.heap && s.heap[s.head].next.None?
    ensures Woken(was, s) && s.popped <= Messages(s.order)
    ensures (forall p :: !PhaseOf(s, p).Exchanged?) ==> s.popped == Messages(s.order)
  {
    RunStops(was);
    HeadGap(s);
    AllPopped(s);
  }

  /** An enabled step whose every access hits allocated memory. */
  predicate Safe(s: State, st: Step) {
    Enabled(s, st) && Touches(s, st) <= s.heap.Keys
  }

  function Publish(s: State, p: Pid, a: Addr, m: Msg): State
    requires Enabled(s, Prepare(p, a, m))
  {
    Next(Next(s, Prepare(p, a, m)), Exchange(p))
  }

  function Finish(s: State, p: Pid): State
    requires Safe(s, Link(p))
  {
    Next(Next(s, Link(p)), Signal(p))
  }

  lemma PublishOk(s: State, p: Pid, a: Addr, m: Msg)
    requires Inv(s) && Enabled(s, Prepare(p, a, m))
    ensures var s' := Publish(s, p, a, m);
            Inv(s') && Enabled(s', Link(p)) && s'.order == s.order + [Sent(p, m)] && s'.chain == s.chain + [a] && s'.popped == s.popped
  {
    StepInv(s, Prepare(p, a, m));
    StepInv(Next(s, Prepare(p, a, m)), Exchange(p));
  }

  lemma FinishOk(s: State, p: Pid)
    requires Inv(s) && Enabled(s, Link(p))
    ensures Safe(s, Link(p))
    ensures var s' := Finish(s, p);
            Inv(s') && s'.signal && s'.order == s.order && s'.chain == s.chain && s'.popped == s.popped
  {
    StepSafe(s, Link(p));
    StepInv(s, Link(p));
    StepInv(Next(s, Link(p)), Signal(p));
  }

  /** What a pop returns. */
  function PopResult(s: State): Option<Msg>
    requires Safe(s, Pop)
  {
    var nq := s.heap[s.head].next;
    if nq.None? then None else Some(s.heap[nq.value].msg)
  }

  /** A pop moved from the first node of the chain to the linked second one. */
  ghost predicate PopsOne(s: State, s': State, m: Msg) {
    && |s.chain| > 1 && s'.chain == s.chain[1..] && IsLinked(s.heap, s.chain, 0)
    && s.chain[1] in s.heap && m == s.heap[s.chain[1]].msg
    && (forall a :: a in s'.chain ==> a in s.heap && a in s'.heap && s'.heap[a] == s.heap[a])
  }

  /** A pop is safe, and what it does to the part of the state a caller watches. */
  lemma PopEffect(s: State)
    requires Inv(s) && s.draining
    ensures Safe(s, Pop) && Inv(Next(s, Pop))
    ensures var s', m := Next(s, Pop), PopResult(s);
            && s'.order == s.order && s'.phase == s.phase && s'.signal == s.signal
            && s'.popped == s.popped + (if m.Some? then [m.value] else [])
            && (m.Some? ==> s'.draining && PopsOne(s, s', m.value))
            && (m.None? ==> !s'.draining && s'.heap == s.heap && s'.head == s.head && s'.chain == s.chain && s.head in s.heap && s.heap[s.head].next.None?)
  {
    StepSafe(s, Pop);
    StepInv(s, Pop);
    HeadGap(s);
  }

  lemma AllPopped(s: State)
    requires ChainOk(s) && HistoryOk(s)
    ensures s.popped <= Messages(s.order) && (|s.chain| == 1 ==> s.popped == Messages(s.order))
  {
    assert |s.popped| == |s.order| ==> Messages(s.order)[..|s.popped|] == Messages(s.order);
  }
}
