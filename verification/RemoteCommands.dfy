/** A command that an endpoint forwards to another node: two nodes of src/control.c, the origin
    with the connection and the target that executes, joined by the channel between them.

    Each node enforces the deadline it computed itself when it registered the command, so a
    forwarded command may run after its origin has answered TIMEOUT: exactly if its timeout is
    positive, and by less than the time it travelled. Commands an origin executes itself never
    do (`Receipts.ExecutesFailClosed`). */
module RemoteCommands {
  import opened Receipts
  import opened Wrappers

  datatype Command = Command(correl: Correl, timeout: nat)

  /** A command on its way, and when it was sent. */
  datatype Packet = Packet(c: Command, sentAt: Time)

  /** History: when a command was sent and when it arrived, and where the target's log records
      its registration. */
  datatype Arrival = Arrival(c: Command, sentAt: Time, at: Time, pos: nat)

  datatype System = System(origin: Node, target: Node, wire: seq<Packet>, arrivals: seq<Arrival>)

  const Start := System(Receipts.Init, Receipts.Init, [], [])

  datatype Step =
    | Pass(d: nat)              // time passes on both nodes
    | Send(c: Command, conn: Conn)
    | Arrive                    // the target takes a command off the wire and registers it
    | AtOrigin(a: Action)
    | AtTarget(a: Action)

  /** The origin's entry for a command of connection `conn`. */
  function Asked(s: System, c: Command, conn: Conn): Entry {
    Entry(c.correl, s.origin.now + c.timeout, -1, Some(conn))
  }

  /** The target's entry: its own deadline, and the way back up. */
  function Accepted(s: System): Entry
    requires s.wire != []
  {
    Entry(s.wire[0].c.correl, s.target.now + s.wire[0].c.timeout, 0, None)
  }

  predicate Can(s: System, st: Step) {
    match st
    case Pass(_) => true
    case Send(c, conn) => Enabled(s.origin, Forward(Asked(s, c, conn)))
    case Arrive => s.wire != []
    case AtOrigin(a) => !a.Tick? && !a.Forward? && Enabled(s.origin, a)
    case AtTarget(a) => !a.Tick? && Enabled(s.target, a)
  }

  function Do(s: System, st: Step): System
    requires Can(s, st)
  {
    match st
    case Pass(d) => s.(origin := Next(s.origin, Tick(d)), target := Next(s.target, Tick(d)))
    case Send(c, conn) => s.(origin := Next(s.origin, Forward(Asked(s, c, conn))), wire := s.wire + [Packet(c, s.origin.now)])
    case Arrive =>
      s.(target := Next(s.target, Submit(Accepted(s))), wire := s.wire[1..],
         arrivals := s.arrivals + [Arrival(s.wire[0].c, s.wire[0].sentAt, s.target.now, |s.target.log|)])
    case AtOrigin(a) => s.(origin := Next(s.origin, a))
    case AtTarget(a) => s.(target := Next(s.target, a))
  }

  ghost predicate Runs(run: seq<Step>, s: System)
    decreases |run|
  {
    if run == [] then s == Start else
    var last := run[|run| - 1];
    exists p :: Runs(run[..|run| - 1], p) && Can(p, last) && s == Do(p, last)
  }

  lemma Extend(run: seq<Step>, s: System, st: Step)
    requires Runs(run, s) && Can(s, st)
    ensures Runs(run + [st], Do(s, st))
  {
    var r := run + [st];
    assert r[..|r| - 1] == run;
    assert Runs(r[..|r| - 1], s) && r[|r| - 1] == st;
  }

  lemma ExtendNode(run: seq<Action>, n: Node, a: Action)
    requires Reaches(run, n) && Enabled(n, a)
    ensures Reaches(run + [a], Next(n, a))
  {
    var r := run + [a];
    assert r[..|r| - 1] == run;
    assert Reaches(r[..|r| - 1], n) && r[|r| - 1] == a;
  }

  function OriginAction(s: System, st: Step): seq<Action>
    requires Can(s, st)
  {
    match st
    case Pass(d) => [Tick(d)]
    case Send(c, conn) => [Forward(Asked(s, c, conn))]
    case Arrive => []
    case AtOrigin(a) => [a]
    case AtTarget(_) => []
  }

  function TargetAction(s: System, st: Step): seq<Action>
    requires Can(s, st)
  {
    match st
    case Pass(d) => [Tick(d)]
    case Send(_, _) => []
    case Arrive => [Submit(Accepted(s))]
    case AtOrigin(_) => []
    case AtTarget(a) => [a]
  }

  /** Each node of the pair is a node as `Receipts` describes it, so every guarantee proved
      there holds at both ends. */
  lemma {:induction false} BothAreNodes(run: seq<Step>, s: System) returns (atOrigin: seq<Action>, atTarget: seq<Action>)
    requires Runs(run, s)
    ensures Reaches(atOrigin, s.origin) && Reaches(atTarget, s.target)
    decreases |run|
  {
    if run == [] {
      atOrigin, atTarget := [], [];
    } else {
      var last := run[|run| - 1];
      var p :| Runs(run[..|run| - 1], p) && Can(p, last) && s == Do(p, last);
      atOrigin, atTarget := BothAreNodes(run[..|run| - 1], p);
      var a, b := OriginAction(p, last), TargetAction(p, last);
      if a != [] {
        ExtendNode(atOrigin, p.origin, a[0]);
        atOrigin := atOrigin + a;
      }
      if b != [] {
        ExtendNode(atTarget, p.target, b[0]);
        atTarget := atTarget + b;
      }
    }
  }

  // ---------------------------------------------------------------- arrivals

  /** What the target's log records of an arrival: the entry, with the deadline that the target
      set, and no start of any command before that moment after it. */
  ghost predicate Recorded(s: System, a: Arrival) {
    && a.sentAt <= a.at <= s.target.now
    && a.pos < |s.target.log| && s.target.log[a.pos] == Registered(Entry(a.c.correl, a.at + a.c.timeout, 0, None), true)
    && (forall i :: a.pos < i < |s.target.log| && s.target.log[i].Claimed? ==> a.at <= s.target.log[i].at)
  }

  /** Both nodes have the same clock. */
  ghost predicate Timed(s: System) {
    && s.origin.now == s.target.now
    && (forall p :: p in s.wire ==> p.sentAt <= s.origin.now)
    && (forall a :: a in s.arrivals ==> Recorded(s, a))
  }

  /** A node's log grows, and what starts, starts now. */
  lemma LogGrows(n: Node, a: Action)
    requires Enabled(n, a)
    ensures Next(n, a).now >= n.now && n.log <= Next(n, a).log
    ensures forall i :: |n.log| <= i < |Next(n, a).log| && Next(n, a).log[i].Claimed? ==> Next(n, a).log[i].at == n.now
  {
    forall i | |n.log| <= i < |Next(n, a).log| && Next(n, a).log[i].Claimed?
      ensures Next(n, a).log[i].at == n.now
    {
      OnlyDispatchClaims(n, a, i - |n.log|);
    }
  }

  lemma StaysRecorded(s: System, t: System, act: Action, a: Arrival)
    requires Recorded(s, a) && Enabled(s.target, act) && t.target == Next(s.target, act)
    ensures Recorded(t, a)
  {
    LogGrows(s.target, act);
  }

  lemma ArrivalRecorded(s: System)
    requires Timed(s) && s.wire != []
    ensures Recorded(Do(s, Arrive), Arrival(s.wire[0].c, s.wire[0].sentAt, s.target.now, |s.target.log|))
  {
  }

  lemma TimedStep(s: System, st: Step)
    requires Timed(s) && Can(s, st)
    ensures Timed(Do(s, st))
  {
    var t := Do(s, st);
    var b := TargetAction(s, st);
    forall a | a in s.arrivals
      ensures Recorded(t, a)
    {
      if b != [] {
        StaysRecorded(s, t, b[0], a);
      }
    }
    if st.Arrive? {
      ArrivalRecorded(s);
    }
    ClocksAgree(s, st);
  }

  lemma ClocksAgree(s: System, st: Step)
    requires Can(s, st) && s.origin.now == s.target.now
    ensures Do(s, st).origin.now == Do(s, st).target.now >= s.origin.now
  {
  }

  lemma {:induction false} RunsTimed(run: seq<Step>, s: System)
    requires Runs(run, s)
    ensures Timed(s)
    decreases |run|
  {
    if run != [] {
      var last := run[|run| - 1];
      var p :| Runs(run[..|run| - 1], p) && Can(p, last) && s == Do(p, last);
      RunsTimed(run[..|run| - 1], p);
      TimedStep(p, last);
    }
  }

  /** Whatever the target executes it executes before the deadline it set itself, and only once.
      A command that was forwarded to it starts between its arrival and its arrival plus its
      timeout, which is its sending plus its timeout plus the time it travelled. */
  lemma TargetFailsClosed(run: seq<Step>, s: System, i: nat)
    requires Runs(run, s) && Distinct(s.target.log) && i < |s.target.log|
    requires s.target.log[i].Claimed? && s.target.log[i].live
    ensures exists j :: 0 <= j < i && StartsInTime(s.target.log, j, i)
    ensures forall k :: 0 <= k < |s.target.log| && k != i && s.target.log[k].Claimed? ==> s.target.log[k].correl != s.target.log[i].correl
    ensures forall a :: a in s.arrivals && a.c.correl == s.target.log[i].correl ==>
      a.sentAt <= a.at <= s.target.log[i].at < a.at + a.c.timeout == a.sentAt + a.c.timeout + (a.at - a.sentAt)
  {
    var _, atTarget := BothAreNodes(run, s);
    ExecutesFailClosed(atTarget, s.target, i);
    forall k | 0 <= k < |s.target.log| && k != i && s.target.log[k].Claimed?
      ensures s.target.log[k].correl != s.target.log[i].correl
    {
      if s.target.log[k].correl == s.target.log[i].correl {
        ClaimsOnce(atTarget, s.target, i, k);
      }
    }
    RunsTimed(run, s);
    var j :| 0 <= j < i && StartsInTime(s.target.log, j, i);
    forall a | a in s.arrivals && a.c.correl == s.target.log[i].correl
      ensures a.at <= s.target.log[i].at < a.at + a.c.timeout
    {
      StartsAfterArrival(s, a, j, i);
    }
  }

  lemma StartsAfterArrival(s: System, a: Arrival, j: nat, i: nat)
    requires Recorded(s, a) && Distinct(s.target.log) && j < i < |s.target.log| && s.target.log[i].Claimed?
    requires StartsInTime(s.target.log, j, i) && a.c.correl == s.target.log[i].correl
    ensures a.at <= s.target.log[i].at < a.at + a.c.timeout
  {
    assert !(a.pos < j) && !(j < a.pos);
  }

  // ---------------------------------------------------------------- a late command

  function Origin(c: Command, conn: Conn): Entry {
    Entry(c.correl, c.timeout, -1, Some(conn))
  }

  function Target(c: Command): Entry {
    Entry(c.correl, c.timeout + c.timeout, 0, None)
  }

  /** Sent at time 0. */
  function Sent(c: Command, conn: Conn): System {
    Start.(origin := Receipts.Init.(table := [Origin(c, conn)], log := [Registered(Origin(c, conn), false)]),
           wire := [Packet(c, 0)])
  }

  /** The timeout has passed and the origin has answered; the command is still on the wire. */
  function TimedOut(c: Command, conn: Conn): System {
    var e := Origin(c, conn);
    System(Receipts.Init.(now := c.timeout, log := [Registered(e, false)] + [Answered(e, Timeout)]),
           Receipts.Init.(now := c.timeout), [Packet(c, 0)], [])
  }

  /** The command has arrived and waits in the target's queue. */
  function Arrived(c: Command, conn: Conn): System {
    var e := Target(c);
    TimedOut(c, conn).(wire := [], arrivals := [Arrival(c, 0, c.timeout, 0)],
      target := Receipts.Init.(now := c.timeout, table := [e], queue := [c.correl], log := [Registered(e, true)]))
  }

  lemma SendStep(c: Command, conn: Conn)
    ensures Can(Start, Send(c, conn)) && Do(Start, Send(c, conn)) == Sent(c, conn)
  {
  }

  lemma TimeoutSteps(c: Command, conn: Conn)
    ensures var s := Sent(c, conn); Do(Do(s, Pass(c.timeout)), AtOrigin(Reap)) == TimedOut(c, conn)
  {
    var t := Do(Sent(c, conn), Pass(c.timeout));
    assert t.origin.table == [Origin(c, conn)];
    assert Expired(t.origin.table, c.timeout) == t.origin.table && Unexpired(t.origin.table, c.timeout) == [];
  }

  lemma ArriveSteps(c: Command, conn: Conn)
    ensures var s := TimedOut(c, conn);
      Can(s, Arrive) && Can(Do(s, Arrive), AtTarget(Pushed(c.correl)))
      && Do(Do(s, Arrive), AtTarget(Pushed(c.correl))) == Arrived(c, conn)
  {
    var s := Do(TimedOut(c, conn), Arrive);
    assert s.target.submitting == multiset{c.correl};
    assert [Target(c)] + [] == [Target(c)];
  }

  lemma ReachTimedOut(c: Command, conn: Conn) returns (run: seq<Step>)
    ensures Runs(run, TimedOut(c, conn))
  {
    SendStep(c, conn);
    TimeoutSteps(c, conn);
    run := Extended([], Start, Send(c, conn));
    run := ExtendedTwice(run, Sent(c, conn), Pass(c.timeout), AtOrigin(Reap));
  }

  lemma ReachArrived(c: Command, conn: Conn) returns (run: seq<Step>)
    ensures Runs(run, Arrived(c, conn))
  {
    run := ReachTimedOut(c, conn);
    ArriveSteps(c, conn);
    run := ExtendedTwice(run, TimedOut(c, conn), Arrive, AtTarget(Pushed(c.correl)));
  }

  lemma ExtendedTwice(run: seq<Step>, s: System, a: Step, b: Step) returns (longer: seq<Step>)
    requires Runs(run, s) && Can(s, a) && Can(Do(s, a), b)
    ensures Runs(longer, Do(Do(s, a), b))
  {
    longer := Extended(run, s, a);
    longer := Extended(longer, Do(s, a), b);
  }

  lemma Extended(run: seq<Step>, s: System, st: Step) returns (longer: seq<Step>)
    requires Runs(run, s) && Can(s, st)
    ensures Runs(longer, Do(s, st))
  {
    longer := run + [st];
    Extend(run, s, st);
  }

  /** The origin's connection has its TIMEOUT line for `c`, which has arrived at the target and
      is what the target starts next; the target has registered no correlation id twice. */
  ghost predicate StartsLate(c: Command, conn: Conn, run: seq<Step>, s: System) {
    && Runs(run, s) && Distinct(s.target.log)
    && (exists e :: Answered(e, Timeout) in s.origin.log && e.correl == c.correl && e.sink == Some(conn))
    && (exists a :: a in s.arrivals && a.c == c)
    && s.target.queue != [] && s.target.queue[0] == c.correl && Live(s.target.table, c.correl, s.target.now)
  }

  lemma DispatchClaims(n: Node, c: Correl)
    requires n.queue != [] && n.queue[0] == c && Live(n.table, c, n.now) && Distinct(n.log)
    ensures Next(n, Dispatch).log == n.log + [Claimed(c, n.now, true)] && Distinct(Next(n, Dispatch).log)
  {
    assert Emits(n, Dispatch) == [Claimed(c, n.now, true)];
  }

  /** Starting a command is a step, recorded in the target's log. */
  lemma StartStep(c: Command, conn: Conn, run: seq<Step>, s: System)
    requires StartsLate(c, conn, run, s)
    ensures Can(s, AtTarget(Dispatch)) && Runs(run + [AtTarget(Dispatch)], Do(s, AtTarget(Dispatch)))
    ensures Do(s, AtTarget(Dispatch)).target.log == s.target.log + [Claimed(c.correl, s.target.now, true)]
    ensures Distinct(Do(s, AtTarget(Dispatch)).target.log)
  {
    Extend(run, s, AtTarget(Dispatch));
    DispatchClaims(s.target, c.correl);
  }

  lemma LateHasTimeout(c: Command, conn: Conn, run: seq<Step>, s: System)
    requires StartsLate(c, conn, run, s)
    ensures c.timeout > 0
  {
    StartStep(c, conn, run, s);
    TargetFailsClosed(run + [AtTarget(Dispatch)], Do(s, AtTarget(Dispatch)), |s.target.log|);
    var a :| a in s.arrivals && a.c == c;
    assert a in Do(s, AtTarget(Dispatch)).arrivals;
  }

  lemma ForwardedRunsAfterTimeout(c: Command, conn: Conn) returns (run: seq<Step>, s: System)
    requires c.timeout > 0
    ensures StartsLate(c, conn, run, s)
  {
    run := ReachArrived(c, conn);
    s := Arrived(c, conn);
    assert Live(s.target.table, c.correl, c.timeout);
    assert Answered(Origin(c, conn), Timeout) in s.origin.log;
    assert s.arrivals[0].c == c;
  }

  /** A forwarded command may execute after its origin answered TIMEOUT: there is such a run if
      and only if the command's timeout is positive. By how much it may be late is said by
      `TargetFailsClosed`. */
  lemma MayStartLateIff(c: Command, conn: Conn)
    ensures (exists run, s :: StartsLate(c, conn, run, s)) <==> c.timeout > 0
  {
    if c.timeout > 0 {
      var run, s := ForwardedRunsAfterTimeout(c, conn);
    }
    forall run, s | StartsLate(c, conn, run, s)
      ensures c.timeout > 0
    {
      LateHasTimeout(c, conn, run, s);
    }
  }
}
