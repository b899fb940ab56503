/** The receipt table of src/control.c and the endpoint connections it answers.

    One node as a state machine: registrations, pushes that succeed or fail, the reaper, the
    dispatcher with its claim, receipts from this node and from others, and connections that
    close, interleaved in any order while time passes. The log records what the node did; the
    guarantees are read off the log of every run. */
module Receipts {
  import opened Wrappers

  /** A correlation id, chosen by the sender of a command. */
  datatype Correl = Correl(id: string)

  type Conn = nat
  type Time = nat

  /** A pending command: `replyDir` is the way back through the tree, -1 for none; `sink` is
      the endpoint connection that sent it. */
  datatype Entry = Entry(correl: Correl, deadline: Time, replyDir: int, sink: Option<Conn>)

  datatype Code = Result | Timeout | NotFound

  datatype Event =
    | Registered(e: Entry, local: bool)
    | Answered(e: Entry, code: Code)
    | Withdrawn(e: Entry)
    | Refused(correl: Correl)
    | Claimed(correl: Correl, at: Time, live: bool)
    | Unmatched(correl: Correl)
    | Closed(conn: Conn)

  type Log = seq<Event>

  /** Where a receipt for an entry goes: its connection, else its way back, else the host. */
  datatype Outlet = ToConn(conn: Conn) | ToTree(dir: int) | ToHost

  function OutletOf(e: Entry): Outlet {
    if e.sink.Some? then ToConn(e.sink.value) else if e.replyDir >= 0 then ToTree(e.replyDir) else ToHost
  }

  /** A receipt on its way: which command it answers, how, and where it goes. */
  datatype Line = Line(correl: Correl, code: Code)
  datatype Sent = Sent(outlet: Outlet, line: Line)

  // ---------------------------------------------------------------- the table

  type Table = seq<Entry>

  /** Index of the first entry for `c`, or the table's length. */
  function Find(t: Table, c: Correl): (i: nat)
    ensures i <= |t| && (i < |t| ==> t[i].correl == c) && forall k :: 0 <= k < i ==> t[k].correl != c
  {
    if t == [] || t[0].correl == c then 0 else 1 + Find(t[1..], c)
  }

  function Without(t: Table, i: nat): Table
    requires i < |t|
  {
    t[..i] + t[i + 1..]
  }

  function Unregister(t: Table, c: Correl): Table {
    if Find(t, c) < |t| then Without(t, Find(t, c)) else t
  }

  function Expired(t: Table, now: Time): (r: Table)
    ensures forall e :: e in r ==> e in t && e.deadline <= now
  {
    if t == [] then [] else (if t[0].deadline <= now then [t[0]] else []) + Expired(t[1..], now)
  }

  function Unexpired(t: Table, now: Time): (r: Table)
    ensures forall e :: e in r ==> e in t && e.deadline > now
  {
    if t == [] then [] else (if t[0].deadline <= now then [] else [t[0]]) + Unexpired(t[1..], now)
  }

  function Owned(t: Table, c: Conn): (r: Table)
    ensures forall e :: e in r ==> e in t && e.sink == Some(c)
  {
    if t == [] then [] else (if t[0].sink == Some(c) then [t[0]] else []) + Owned(t[1..], c)
  }

  function Disowned(t: Table, c: Conn): (r: Table)
    ensures forall e :: e in r ==> e in t && e.sink != Some(c)
  {
    if t == [] then [] else (if t[0].sink == Some(c) then [] else [t[0]]) + Disowned(t[1..], c)
  }

  function Answers(es: Table, code: Code): (log: Log)
    ensures |log| == |es| && forall i :: 0 <= i < |es| ==> log[i] == Answered(es[i], code)
  {
    seq(|es|, i requires 0 <= i < |es| => Answered(es[i], code))
  }

  function Withdrawals(es: Table): (log: Log)
    ensures |log| == |es| && forall i :: 0 <= i < |es| ==> log[i] == Withdrawn(es[i])
  {
    seq(|es|, i requires 0 <= i < |es| => Withdrawn(es[i]))
  }

  // ---------------------------------------------------------------- the node

  /** `submitting`: registered, push not yet done. `queue`: commands in the inbound queue.
      `running`: claimed, receipt not yet sent. `closed`: connections closed so far. */
  datatype Node = Node(now: Time, table: Table, submitting: multiset<Correl>, queue: seq<Correl>,
                       running: multiset<Correl>, closed: set<Conn>, log: Log)

  const Init := Node(0, [], multiset{}, [], multiset{}, {}, [])

  datatype Action =
    | Tick(d: nat)
    | Submit(e: Entry)          // a command for this node: register, then push
    | Pushed(c: Correl)         // the push succeeded
    | PushFailed(c: Correl)     // the push failed: unregister
    | Forward(e: Entry)         // an endpoint command for another node: register, then forward
    | NoTarget(e: Entry)        // the same, but there is no such child: settled at once
    | Reap                      // collect expired entries
    | Dispatch                  // pop a command and claim it
    | Finish(c: Correl)         // a running command sends its receipt
    | Deliver(c: Correl)        // a receipt arrives from another node
    | Close(conn: Conn)         // an endpoint connection closes

  /** Only an open connection sends commands, and only what was started can finish. */
  predicate Enabled(n: Node, a: Action) {
    match a
    case Submit(e) => e.sink.Some? ==> e.sink.value !in n.closed
    case Forward(e) => e.sink.Some? && e.sink.value !in n.closed && e.replyDir == -1
    case NoTarget(e) => e.sink.Some? && e.sink.value !in n.closed && e.replyDir == -1
    case Pushed(c) => c in n.submitting
    case PushFailed(c) => c in n.submitting
    case Dispatch => n.queue != []
    case Finish(c) => c in n.running
    case _ => true
  }

  /** The receipt of `c` takes its entry out of the table and goes to that entry's outlet. With
      no entry left it goes to the host, whoever sent the command. */
  function ReceiptEvents(t: Table, c: Correl): Log {
    if Find(t, c) < |t| then [Answered(t[Find(t, c)], Result)] else [Unmatched(c)]
  }

  /** Fail closed: a command may run only while its entry is there and has not expired. */
  predicate Live(t: Table, c: Correl, now: Time) {
    Find(t, c) < |t| && t[Find(t, c)].deadline > now
  }

  function ClaimEvents(t: Table, c: Correl, now: Time): Log {
    var i := Find(t, c);
    [Claimed(c, now, Live(t, c, now))] + if i < |t| && t[i].deadline <= now then [Answered(t[i], Timeout)] else []
  }

  function RefusalEvents(t: Table, c: Correl): Log {
    [Refused(c)] + if Find(t, c) < |t| then [Withdrawn(t[Find(t, c)])] else []
  }

  /** The NOT_FOUND line is formatted in a fixed buffer, and not written if it does not fit. */
  const NOT_FOUND_TEXT := 79
  const NOT_FOUND_MAX := 192

  predicate Told(c: Correl) {
    NOT_FOUND_TEXT + |c.id| < NOT_FOUND_MAX
  }

  function MissEvent(e: Entry): Event {
    if Told(e.correl) then Answered(e, NotFound) else Withdrawn(e)
  }

  /** What the node does in one action, in order. */
  function Emits(n: Node, a: Action): Log
    requires Enabled(n, a)
  {
    match a
    case Submit(e) => [Registered(e, true)]
    case PushFailed(c) => RefusalEvents(n.table, c)
    case Forward(e) => [Registered(e, false)]
    case NoTarget(e) => [Registered(e, false), MissEvent(e)]
    case Reap => Answers(Expired(n.table, n.now), Timeout)
    case Dispatch => ClaimEvents(n.table, n.queue[0], n.now)
    case Finish(c) => ReceiptEvents(n.table, c)
    case Deliver(c) => ReceiptEvents(n.table, c)
    case Close(conn) => [Closed(conn)] + Withdrawals(Owned(n.table, conn))
    case _ => []
  }

  function TableAfter(n: Node, a: Action): Table
    requires Enabled(n, a)
  {
    match a
    case Submit(e) => [e] + n.table
    case PushFailed(c) => Unregister(n.table, c)
    case Forward(e) => [e] + n.table
    case NoTarget(e) => Unregister([e] + n.table, e.correl)
    case Reap => Unexpired(n.table, n.now)
    case Dispatch => if Live(n.table, n.queue[0], n.now) then n.table else Unregister(n.table, n.queue[0])
    case Finish(c) => Unregister(n.table, c)
    case Deliver(c) => Unregister(n.table, c)
    case Close(conn) => Disowned(n.table, conn)
    case _ => n.table
  }

  /** The commands on their way to execution after an action. */
  function WorkAfter(n: Node, a: Action): Node
    requires Enabled(n, a)
  {
    match a
    case Tick(d) => n.(now := n.now + d)
    case Submit(e) => n.(submitting := n.submitting + multiset{e.correl})
    case Pushed(c) => n.(submitting := n.submitting - multiset{c}, queue := n.queue + [c])
    case PushFailed(c) => n.(submitting := n.submitting - multiset{c})
    case Dispatch =>
      n.(queue := n.queue[1..],
         running := n.running + if Live(n.table, n.queue[0], n.now) then multiset{n.queue[0]} else multiset{})
    case Finish(c) => n.(running := n.running - multiset{c})
    case Close(conn) => n.(closed := n.closed + {conn})
    case _ => n
  }

  function Next(n: Node, a: Action): Node
    requires Enabled(n, a)
  {
    WorkAfter(n, a).(table := TableAfter(n, a), log := n.log + Emits(n, a))
  }

  ghost predicate Reaches(run: seq<Action>, n: Node)
    decreases |run|
  {
    if run == [] then n == Init else
    var last := run[|run| - 1];
    exists p :: Reaches(run[..|run| - 1], p) && Enabled(p, last) && n == Next(p, last)
  }

  // ---------------------------------------------------------------- reading the log

  function Project<T>(f: Event -> seq<T>, log: Log): seq<T> {
    if log == [] then [] else Project(f, log[..|log| - 1]) + f(log[|log| - 1])
  }

  /** Entries put into the table. */
  function Registrations(ev: Event): seq<Entry> {
    if ev.Registered? then [ev.e] else []
  }

  /** Entries taken out of it: answered with one line, or withdrawn without. */
  function Settlements(ev: Event): seq<Entry> {
    if ev.Answered? || ev.Withdrawn? then [ev.e] else []
  }

  /** Commands accepted for execution here. */
  function Submissions(ev: Event): seq<Correl> {
    if ev.Registered? && ev.local then [ev.e.correl] else []
  }

  /** Submissions that are over: refused by the queue, or claimed by the dispatcher. */
  function Completions(ev: Event): seq<Correl> {
    match ev
    case Refused(c) => [c]
    case Claimed(c, _, _) => [c]
    case _ => []
  }

  /** What an event sends out. A receipt that finds no entry goes to the host. */
  function Emissions(ev: Event): seq<Sent> {
    match ev
    case Answered(e, code) => [Sent(OutletOf(e), Line(e.correl, code))]
    case Unmatched(c) => [Sent(ToHost, Line(c, Result))]
    case _ => []
  }

  lemma {:induction false} ProjectAppend<T>(f: Event -> seq<T>, a: Log, b: Log)
    ensures Project(f, a + b) == Project(f, a) + Project(f, b)
  {
    if b == [] {
      assert a + b == a;
    } else {
      var front := b[..|b| - 1];
      ProjectAppend(f, a, front);
      assert (a + b)[..|a + b| - 1] == a + front;
    }
  }

  lemma {:induction false} ProjectHas<T>(f: Event -> seq<T>, log: Log, i: nat)
    requires i < |log|
    ensures forall x :: x in f(log[i]) ==> x in Project(f, log)
  {
    if i < |log| - 1 {
      ProjectHas(f, log[..|log| - 1], i);
    }
  }

  lemma {:induction false} ProjectFrom<T>(f: Event -> seq<T>, log: Log, x: T) returns (i: nat)
    requires x in Project(f, log)
    ensures i < |log| && x in f(log[i])
  {
    i := |log| - 1;
    if x !in f(log[i]) {
      i := ProjectFrom(f, log[..|log| - 1], x);
    }
  }

  /** Correlation ids are used once. */
  ghost predicate Distinct(log: Log) {
    forall i, j :: 0 <= i < j < |log| && log[i].Registered? && log[j].Registered? ==> log[i].e.correl != log[j].e.correl
  }

  // ---------------------------------------------------------------- removals lose nothing

  lemma WithoutParts(t: Table, i: nat)
    requires i < |t|
    ensures multiset(t) == multiset(Without(t, i)) + multiset{t[i]}
  {
    assert t == t[..i] + [t[i]] + t[i + 1..];
  }

  lemma {:induction false} ExpiredParts(t: Table, now: Time)
    ensures multiset(t) == multiset(Unexpired(t, now)) + multiset(Expired(t, now))
  {
    if t != [] {
      ExpiredParts(t[1..], now);
      assert t == [t[0]] + t[1..];
    }
  }

  lemma {:induction false} OwnedParts(t: Table, c: Conn)
    ensures multiset(t) == multiset(Disowned(t, c)) + multiset(Owned(t, c))
  {
    if t != [] {
      OwnedParts(t[1..], c);
      assert t == [t[0]] + t[1..];
    }
  }

  lemma {:induction false} SettlementsOf(es: Table, log: Log)
    requires |log| == |es| && forall i :: 0 <= i < |es| ==> log[i] in {Withdrawn(es[i]), Answered(es[i], Timeout)}
    ensures Project(Settlements, log) == es && Project(Registrations, log) == []
    ensures Project(Submissions, log) == [] && Project(Completions, log) == []
  {
    if es != [] {
      SettlementsOf(es[..|es| - 1], log[..|log| - 1]);
      assert es == es[..|es| - 1] + [es[|es| - 1]];
    }
  }

  // ---------------------------------------------------------------- the invariant

  /** Every entry registered is in the table or settled, exactly once. */
  ghost predicate Conserved(n: Node) {
    multiset(Project(Registrations, n.log)) == multiset(n.table) + multiset(Project(Settlements, n.log))
  }

  /** Every command submitted here is being pushed, queued, refused or claimed, exactly once. */
  ghost predicate Accounted(n: Node) {
    multiset(Project(Submissions, n.log)) == n.submitting + multiset(n.queue) + multiset(Project(Completions, n.log))
  }

  /** No entry refers to a closed connection. */
  ghost predicate NoDangling(n: Node) {
    && (forall e :: e in n.table && e.sink.Some? ==> e.sink.value !in n.closed)
    && (forall c {:trigger Closed(c)} :: Closed(c) in n.log ==> c in n.closed)
  }

  /** Registered, and not settled as often. */
  ghost predicate Pending(log: Log, e: Entry) {
    multiset(Project(Registrations, log))[e] > multiset(Project(Settlements, log))[e]
  }

  ghost predicate SinkOpen(log: Log, e: Entry) {
    e.sink.Some? ==> Closed(e.sink.value) !in log
  }

  /** A line goes out only for a pending entry whose connection is open. */
  ghost predicate LineOk(log: Log, i: nat)
    requires i < |log|
  {
    log[i].Answered? ==> Pending(log[..i], log[i].e) && SinkOpen(log[..i], log[i].e)
  }

  ghost predicate ClaimedFor(log: Log, i: nat, e: Entry)
    requires i < |log| && log[i].Claimed?
  {
    e.correl == log[i].correl && e.deadline > log[i].at && Pending(log[..i], e) && SinkOpen(log[..i], e)
  }

  /** A command starts only for a pending entry that has not expired and whose connection is
      open; and it was submitted here more often than it was completed. */
  ghost predicate ClaimOk(log: Log, i: nat)
    requires i < |log|
  {
    log[i].Claimed? ==>
      && multiset(Project(Submissions, log[..i]))[log[i].correl] > multiset(Project(Completions, log[..i]))[log[i].correl]
      && (log[i].live ==> exists e :: ClaimedFor(log, i, e))
  }

  ghost predicate EventOk(log: Log, i: nat)
    requires i < |log|
  {
    LineOk(log, i) && ClaimOk(log, i)
  }

  ghost predicate LogOk(log: Log) {
    forall i {:trigger EventOk(log, i)} :: 0 <= i < |log| ==> EventOk(log, i)
  }

  ghost predicate Inv(n: Node) {
    Conserved(n) && Accounted(n) && NoDangling(n) && LogOk(n.log)
  }

  // ---------------------------------------------------------------- every action keeps it

  lemma ProjectTwo<T>(f: Event -> seq<T>, a: Event, b: Event)
    ensures Project(f, [a]) == f(a) && Project(f, [a] + [b]) == f(a) + f(b) && Project(f, []) == []
  {
    ProjectAppend(f, [a], [b]);
    assert Project(f, [b]) == Project(f, []) + f(b);
    assert Project(f, [a]) == Project(f, []) + f(a);
  }

  /** The entry of `c`, if the table has one. */
  function Held(t: Table, c: Correl): seq<Entry> {
    if Find(t, c) < |t| then [t[Find(t, c)]] else []
  }

  function EntriesIn(n: Node, a: Action): seq<Entry> {
    if a.Submit? || a.Forward? || a.NoTarget? then [a.e] else []
  }

  function EntriesOut(n: Node, a: Action): seq<Entry>
    requires Enabled(n, a)
  {
    match a
    case PushFailed(c) => Held(n.table, c)
    case NoTarget(e) => [e]
    case Reap => Expired(n.table, n.now)
    case Dispatch => if Live(n.table, n.queue[0], n.now) then [] else Held(n.table, n.queue[0])
    case Finish(c) => Held(n.table, c)
    case Deliver(c) => Held(n.table, c)
    case Close(conn) => Owned(n.table, conn)
    case _ => []
  }

  /** What a batch of events puts into and takes out of the table. */
  ghost predicate Moves(evs: Log, ins: seq<Entry>, outs: seq<Entry>) {
    Project(Registrations, evs) == ins && Project(Settlements, evs) == outs
  }

  /** What it adds to and removes from the commands on their way to execution. */
  ghost predicate Works(evs: Log, ins: seq<Correl>, outs: seq<Correl>) {
    Project(Submissions, evs) == ins && Project(Completions, evs) == outs
  }

  lemma OneEvent(a: Event)
    ensures Moves([a], Registrations(a), Settlements(a)) && Works([a], Submissions(a), Completions(a))
  {
    ProjectTwo(Registrations, a, a);
    ProjectTwo(Settlements, a, a);
    ProjectTwo(Submissions, a, a);
    ProjectTwo(Completions, a, a);
  }

  lemma TwoEvents(a: Event, b: Event)
    ensures Moves([a] + [b], Registrations(a) + Registrations(b), Settlements(a) + Settlements(b))
    ensures Works([a] + [b], Submissions(a) + Submissions(b), Completions(a) + Completions(b))
  {
    ProjectTwo(Registrations, a, b);
    ProjectTwo(Settlements, a, b);
    ProjectTwo(Submissions, a, b);
    ProjectTwo(Completions, a, b);
  }

  lemma ReceiptMoves(t: Table, c: Correl)
    ensures Moves(ReceiptEvents(t, c), [], Held(t, c)) && Works(ReceiptEvents(t, c), [], [])
  {
    OneEvent(ReceiptEvents(t, c)[0]);
  }

  lemma RefusalMoves(t: Table, c: Correl)
    ensures Moves(RefusalEvents(t, c), [], Held(t, c)) && Works(RefusalEvents(t, c), [], [c])
  {
    OneEvent(Refused(c));
    if Find(t, c) < |t| {
      TwoEvents(Refused(c), Withdrawn(t[Find(t, c)]));
    }
  }

  lemma ClaimMoves(t: Table, c: Correl, now: Time)
    ensures Moves(ClaimEvents(t, c, now), [], if Live(t, c, now) then [] else Held(t, c))
    ensures Works(ClaimEvents(t, c, now), [], [c])
  {
    OneEvent(Claimed(c, now, Live(t, c, now)));
    if Find(t, c) < |t| && !Live(t, c, now) {
      TwoEvents(Claimed(c, now, false), Answered(t[Find(t, c)], Timeout));
    }
  }

  /** Moves after an event that moves nothing. */
  lemma AfterIdle(first: Event, evs: Log, outs: seq<Entry>)
    requires Moves([first], [], []) && Works([first], [], []) && Moves(evs, [], outs) && Works(evs, [], [])
    ensures Moves([first] + evs, [], outs) && Works([first] + evs, [], [])
  {
    ProjectAppend(Registrations, [first], evs);
    ProjectAppend(Settlements, [first], evs);
    ProjectAppend(Submissions, [first], evs);
    ProjectAppend(Completions, [first], evs);
    assert [] + outs == outs;
  }

  lemma CloseMoves(t: Table, conn: Conn)
    ensures var evs := [Closed(conn)] + Withdrawals(Owned(t, conn)); Moves(evs, [], Owned(t, conn)) && Works(evs, [], [])
  {
    var gone := Owned(t, conn);
    OneEvent(Closed(conn));
    SettlementsOf(gone, Withdrawals(gone));
    AfterIdle(Closed(conn), Withdrawals(gone), gone);
  }

  function WorkIn(a: Action): seq<Correl> {
    if a.Submit? then [a.e.correl] else []
  }

  function WorkOut(n: Node, a: Action): seq<Correl>
    requires Enabled(n, a)
  {
    match a
    case PushFailed(c) => [c]
    case Dispatch => [n.queue[0]]
    case _ => []
  }

  /** What an action emits tells what it does to the table and to the work. */
  ghost predicate Tells(n: Node, a: Action)
    requires Enabled(n, a)
  {
    Moves(Emits(n, a), EntriesIn(n, a), EntriesOut(n, a)) && Works(Emits(n, a), WorkIn(a), WorkOut(n, a))
  }

  lemma NoEvents()
    ensures Moves([], [], []) && Works([], [], [])
  {
  }

  lemma NoTargetMoves(n: Node, e: Entry)
    requires Enabled(n, NoTarget(e))
    ensures Tells(n, NoTarget(e))
  {
    assert Emits(n, NoTarget(e)) == [Registered(e, false)] + [MissEvent(e)];
    TwoEvents(Registered(e, false), MissEvent(e));
  }

  lemma RegistrationMoves(n: Node, e: Entry)
    ensures Enabled(n, Submit(e)) ==> Tells(n, Submit(e))
    ensures Enabled(n, Forward(e)) ==> Tells(n, Forward(e))
  {
    OneEvent(Registered(e, true));
    OneEvent(Registered(e, false));
  }

  lemma ReapMoves(n: Node)
    ensures Tells(n, Reap)
  {
    SettlementsOf(Expired(n.table, n.now), Emits(n, Reap));
  }

  lemma EmitsMoves(n: Node, a: Action)
    requires Enabled(n, a)
    ensures Tells(n, a)
  {
    match a
    case Submit(e) => RegistrationMoves(n, e);
    case PushFailed(c) => RefusalMoves(n.table, c);
    case Forward(e) => RegistrationMoves(n, e);
    case NoTarget(e) => NoTargetMoves(n, e);
    case Reap => ReapMoves(n);
    case Dispatch => ClaimMoves(n.table, n.queue[0], n.now);
    case Finish(c) => ReceiptMoves(n.table, c);
    case Deliver(c) => ReceiptMoves(n.table, c);
    case Close(conn) => CloseMoves(n.table, conn);
    case _ => NoEvents();
  }

  /** Entries in equals entries out. */
  ghost predicate Balanced(t: Table, ins: seq<Entry>, t': Table, outs: seq<Entry>) {
    multiset(t) + multiset(ins) == multiset(t') + multiset(outs)
  }

  lemma HeldParts(t: Table, c: Correl)
    ensures Balanced(t, [], Unregister(t, c), Held(t, c))
  {
    if Find(t, c) < |t| {
      WithoutParts(t, Find(t, c));
    }
  }

  lemma NoTargetParts(t: Table, e: Entry)
    ensures Balanced(t, [e], Unregister([e] + t, e.correl), [e])
  {
    assert Find([e] + t, e.correl) == 0;
    assert Without([e] + t, 0) == t;
  }

  lemma PutParts(t: Table, e: Entry)
    ensures Balanced(t, [e], [e] + t, [])
  {
  }

  lemma TableBalance(n: Node, a: Action)
    requires Enabled(n, a)
    ensures Balanced(n.table, EntriesIn(n, a), TableAfter(n, a), EntriesOut(n, a))
  {
    match a
    case Submit(e) => PutParts(n.table, e);
    case PushFailed(c) => HeldParts(n.table, c);
    case Forward(e) => PutParts(n.table, e);
    case NoTarget(e) => NoTargetParts(n.table, e);
    case Reap => ExpiredParts(n.table, n.now);
    case Dispatch => HeldParts(n.table, n.queue[0]);
    case Finish(c) => HeldParts(n.table, c);
    case Deliver(c) => HeldParts(n.table, c);
    case Close(conn) => OwnedParts(n.table, conn);
    case _ =>
  }

  lemma ConservedStep(n: Node, a: Action)
    requires Enabled(n, a) && Conserved(n)
    ensures Conserved(Next(n, a))
  {
    var evs := Emits(n, a);
    EmitsMoves(n, a);
    TableBalance(n, a);
    BalanceBy(Registrations, Settlements, n.log, multiset(n.table), evs, multiset(TableAfter(n, a)));
  }

  lemma DispatchBalance(q: seq<Correl>)
    requires q != []
    ensures multiset(q) == multiset(q[1..]) + multiset([q[0]])
  {
    assert q == [q[0]] + q[1..];
  }

  lemma Swap<T>(a: multiset<T>, b: multiset<T>, c: multiset<T>)
    ensures a + b + c == (a + c) + b
  {
  }

  lemma PushBalance(submitting: multiset<Correl>, q: seq<Correl>, c: Correl)
    requires c in submitting
    ensures submitting + multiset(q) == (submitting - multiset{c}) + multiset(q + [c])
  {
    assert multiset(q + [c]) == multiset(q) + multiset{c};
  }

  lemma TakeBackBalance(submitting: multiset<Correl>, queued: multiset<Correl>, c: Correl)
    requires c in submitting
    ensures submitting + queued == (submitting - multiset{c}) + queued + multiset{c}
  {
  }

  lemma WorkBalance(n: Node, a: Action)
    requires Enabled(n, a)
    ensures n.submitting + multiset(n.queue) + multiset(WorkIn(a))
         == WorkAfter(n, a).submitting + multiset(WorkAfter(n, a).queue) + multiset(WorkOut(n, a))
  {
    match a
    case Submit(e) => Swap(n.submitting, multiset(n.queue), multiset{e.correl});
    case Pushed(c) => PushBalance(n.submitting, n.queue, c);
    case PushFailed(c) => TakeBackBalance(n.submitting, multiset(n.queue), c);
    case Dispatch => DispatchBalance(n.queue);
    case _ =>
  }

  lemma AccountedStep(n: Node, a: Action)
    requires Enabled(n, a) && Accounted(n)
    ensures Accounted(Next(n, a))
  {
    EmitsMoves(n, a);
    WorkBalance(n, a);
    var n' := Next(n, a);
    BalanceBy(Submissions, Completions, n.log, n.submitting + multiset(n.queue), Emits(n, a), n'.submitting + multiset(n'.queue));
  }

  /** What `f` reads off the log is what is still held plus what `g` reads off it, and stays so
      when the new events balance. */
  lemma BalanceBy<T>(f: Event -> seq<T>, g: Event -> seq<T>, log: Log, t: multiset<T>, evs: Log, t': multiset<T>)
    requires multiset(Project(f, log)) == t + multiset(Project(g, log))
    requires t + multiset(Project(f, evs)) == t' + multiset(Project(g, evs))
    ensures multiset(Project(f, log + evs)) == t' + multiset(Project(g, log + evs))
  {
    ProjectAppend(f, log, evs);
    ProjectAppend(g, log, evs);
    Exchange(multiset(Project(f, log)), t, multiset(Project(g, log)), multiset(Project(f, evs)), t', multiset(Project(g, evs)));
    assert multiset(Project(f, log) + Project(f, evs)) == multiset(Project(f, log)) + multiset(Project(f, evs));
    assert multiset(Project(g, log) + Project(g, evs)) == multiset(Project(g, log)) + multiset(Project(g, evs));
  }

  lemma Exchange<T>(regs: multiset<T>, t: multiset<T>, done: multiset<T>, ins: multiset<T>, t': multiset<T>, outs: multiset<T>)
    requires regs == t + done && t + ins == t' + outs
    ensures regs + ins == t' + (done + outs)
  {
    forall x
      ensures (regs + ins)[x] == (t' + (done + outs))[x]
    {
      assert (t + ins)[x] == (t' + outs)[x];
    }
  }

  lemma FromBalance(t: Table, ins: seq<Entry>, t': Table, outs: seq<Entry>)
    requires Balanced(t, ins, t', outs)
    ensures forall e :: e in t' ==> e in t || e in ins
  {
    forall e | e in t'
      ensures e in t || e in ins
    {
      assert e in multiset(t') + multiset(outs);
    }
  }

  lemma TableSinks(n: Node, a: Action)
    requires Enabled(n, a) && forall e :: e in n.table && e.sink.Some? ==> e.sink.value !in n.closed
    ensures forall e :: e in TableAfter(n, a) && e.sink.Some? ==> e.sink.value !in Next(n, a).closed
  {
    TableBalance(n, a);
    FromBalance(n.table, EntriesIn(n, a), TableAfter(n, a), EntriesOut(n, a));
  }

  lemma OnlyCloseCloses(n: Node, a: Action, c: Conn)
    requires Enabled(n, a) && Closed(c) in Emits(n, a)
    ensures a == Close(c)
  {
  }

  lemma NoDanglingStep(n: Node, a: Action)
    requires Enabled(n, a) && NoDangling(n)
    ensures NoDangling(Next(n, a))
  {
    TableSinks(n, a);
    forall c | Closed(c) in n.log + Emits(n, a)
      ensures c in Next(n, a).closed
    {
      if Closed(c) in Emits(n, a) {
        OnlyCloseCloses(n, a, c);
      }
    }
  }

  // ---------------------------------------------------------------- the log stays good

  /** Registrations come first in a batch. */
  lemma RegistrationFirst(n: Node, a: Action, k: nat)
    requires Enabled(n, a) && k < |Emits(n, a)| && Emits(n, a)[k].Answered?
    ensures Project(Registrations, Emits(n, a)[..k]) == EntriesIn(n, a)
    ensures forall c :: Closed(c) !in Emits(n, a)[..k]
  {
    var evs := Emits(n, a);
    if a.Reap? {
      SettlementsOf(Expired(n.table, n.now)[..k], evs[..k]);
    } else if k == 1 {
      assert evs[..k] == [evs[0]];
      OneEvent(evs[0]);
    } else {
      assert evs[..k] == [];
    }
  }

  lemma {:induction false} ProjectUpTo<T>(f: Event -> seq<T>, log: Log, k: nat)
    requires k < |log|
    ensures multiset(Project(f, log[..k])) + multiset(f(log[k])) <= multiset(Project(f, log))
  {
    ProjectAppend(f, log[..k + 1], log[k + 1..]);
    assert log == log[..k + 1] + log[k + 1..];
    assert log[..k + 1][..k] == log[..k];
  }

  /** With what is settled among what is there, a settled entry was pending just before. */
  lemma PendingBy(log: Log, t: multiset<Entry>, evs: Log, ins: multiset<Entry>, outs: multiset<Entry>, k: nat)
    requires multiset(Project(Registrations, log)) == t + multiset(Project(Settlements, log))
    requires multiset(Project(Settlements, evs)) == outs && outs <= t + ins
    requires k < |evs| && evs[k].Answered? && multiset(Project(Registrations, evs[..k])) == ins
    ensures Pending(log + evs[..k], evs[k].e) && evs[k].e in t + ins
  {
    var e, done := evs[k].e, evs[..k];
    ProjectAppend(Registrations, log, done);
    ProjectAppend(Settlements, log, done);
    ProjectUpTo(Settlements, evs, k);
    assert multiset(Project(Settlements, done))[e] < outs[e] <= (t + ins)[e];
    Added(Project(Registrations, log), Project(Registrations, done), e);
    Added(Project(Settlements, log), Project(Settlements, done), e);
  }

  lemma Added<T>(a: seq<T>, b: seq<T>, x: T)
    ensures multiset(a + b)[x] == multiset(a)[x] + multiset(b)[x]
  {
  }

  lemma OutsWithin(t: Table, ins: seq<Entry>, t': Table, outs: seq<Entry>)
    requires Balanced(t, ins, t', outs)
    ensures multiset(outs) <= multiset(t) + multiset(ins)
  {
  }

  /** An entry answered as event `k` of a batch was pending just before. */
  lemma AnsweredWasPending(n: Node, a: Action, k: nat)
    requires Enabled(n, a) && Conserved(n) && k < |Emits(n, a)| && Emits(n, a)[k].Answered?
    ensures Pending(n.log + Emits(n, a)[..k], Emits(n, a)[k].e)
    ensures Emits(n, a)[k].e in n.table || Emits(n, a)[k].e in EntriesIn(n, a)
  {
    RegistrationFirst(n, a, k);
    EmitsMoves(n, a);
    TableBalance(n, a);
    OutsWithin(n.table, EntriesIn(n, a), TableAfter(n, a), EntriesOut(n, a));
    PendingBy(n.log, multiset(n.table), Emits(n, a), multiset(EntriesIn(n, a)), multiset(EntriesOut(n, a)), k);
  }

  /** Event `k` of a batch keeps to `LineOk`. */
  ghost predicate NewLine(before: Log, evs: Log, k: nat)
    requires k < |evs|
  {
    LineOk(before + evs, |before| + k)
  }

  lemma LineOkBy(before: Log, evs: Log, k: nat, e: Entry)
    requires k < |evs| && evs[k].Answered? && evs[k].e == e
    requires Pending(before + evs[..k], e) && SinkOpen(before + evs[..k], e)
    ensures NewLine(before, evs, k)
  {
    UpTo(before, evs, k);
  }

  lemma AnsweredFacts(n: Node, a: Action, k: nat)
    requires Enabled(n, a) && Conserved(n) && NoDangling(n) && k < |Emits(n, a)| && Emits(n, a)[k].Answered?
    ensures Pending(n.log + Emits(n, a)[..k], Emits(n, a)[k].e) && SinkOpen(n.log + Emits(n, a)[..k], Emits(n, a)[k].e)
  {
    AnsweredWasPending(n, a, k);
    AnsweredSinkOpen(n, a, k);
  }

  lemma AnsweredLine(n: Node, a: Action, k: nat, evs: Log)
    requires Enabled(n, a) && Conserved(n) && NoDangling(n) && evs == Emits(n, a) && k < |evs| && evs[k].Answered?
    ensures NewLine(n.log, evs, k)
  {
    AnsweredFacts(n, a, k);
    LineOkBy(n.log, evs, k, evs[k].e);
  }

  lemma OtherLine(before: Log, evs: Log, k: nat)
    requires k < |evs| && !evs[k].Answered?
    ensures NewLine(before, evs, k)
  {
  }

  lemma NewLineOk(n: Node, a: Action, k: nat, evs: Log)
    requires Enabled(n, a) && Conserved(n) && NoDangling(n) && evs == Emits(n, a) && k < |evs|
    ensures NewLine(n.log, evs, k)
  {
    if evs[k].Answered? {
      AnsweredLine(n, a, k, evs);
    } else {
      OtherLine(n.log, evs, k);
    }
  }

  lemma UpTo(a: Log, b: Log, k: nat)
    requires k <= |b|
    ensures (a + b)[..|a| + k] == a + b[..k]
  {
  }

  lemma AnsweredSinkOpen(n: Node, a: Action, k: nat)
    requires Enabled(n, a) && NoDangling(n) && k < |Emits(n, a)| && Emits(n, a)[k].Answered?
    requires Emits(n, a)[k].e in n.table || Emits(n, a)[k].e in EntriesIn(n, a)
    ensures SinkOpen(n.log + Emits(n, a)[..k], Emits(n, a)[k].e)
  {
    RegistrationFirst(n, a, k);
  }

  lemma OnlyDispatchClaims(n: Node, a: Action, k: nat)
    requires Enabled(n, a) && k < |Emits(n, a)| && Emits(n, a)[k].Claimed?
    ensures a.Dispatch? && k == 0 && Emits(n, a)[0] == Claimed(n.queue[0], n.now, Live(n.table, n.queue[0], n.now))
  {
  }

  lemma Queued(n: Node, c: Correl)
    requires Accounted(n) && c in n.queue
    ensures multiset(Project(Submissions, n.log))[c] > multiset(Project(Completions, n.log))[c]
  {
    assert c in multiset(n.queue);
    var held := n.submitting + multiset(n.queue);
    assert held[c] == n.submitting[c] + multiset(n.queue)[c];
    assert (held + multiset(Project(Completions, n.log)))[c] == held[c] + multiset(Project(Completions, n.log))[c];
  }

  lemma InTable(n: Node, e: Entry)
    requires Conserved(n) && NoDangling(n) && e in n.table
    ensures Pending(n.log, e) && SinkOpen(n.log, e)
  {
    assert e in multiset(n.table);
  }

  ghost predicate NewClaim(before: Log, evs: Log, k: nat)
    requires k < |evs|
  {
    ClaimOk(before + evs, |before| + k)
  }

  lemma ClaimOkBy(before: Log, evs: Log, n: Node)
    requires evs != [] && evs[0].Claimed? && evs[0].correl in n.queue && evs[0].at == n.now && before == n.log
    requires evs[0].live ==> Live(n.table, evs[0].correl, n.now)
    requires Accounted(n) && Conserved(n) && NoDangling(n)
    ensures NewClaim(before, evs, 0)
  {
    var log, c := before + evs, evs[0].correl;
    assert log[..|before|] == before && log[|before|] == evs[0];
    Queued(n, c);
    if evs[0].live {
      var e := n.table[Find(n.table, c)];
      InTable(n, e);
      assert ClaimedFor(log, |before|, e);
    }
  }

  lemma OtherClaim(before: Log, evs: Log, k: nat)
    requires k < |evs| && !evs[k].Claimed?
    ensures NewClaim(before, evs, k)
  {
  }

  lemma NewClaimOk(n: Node, a: Action, k: nat, evs: Log)
    requires Enabled(n, a) && Conserved(n) && Accounted(n) && NoDangling(n) && evs == Emits(n, a) && k < |evs|
    ensures NewClaim(n.log, evs, k)
  {
    if evs[k].Claimed? {
      OnlyDispatchClaims(n, a, k);
      ClaimOkBy(n.log, evs, n);
    } else {
      OtherClaim(n.log, evs, k);
    }
  }

  lemma OldEventOk(log: Log, evs: Log, i: nat)
    requires i < |log| && LineOk(log, i) && ClaimOk(log, i)
    ensures LineOk(log + evs, i) && ClaimOk(log + evs, i)
  {
    assert (log + evs)[..i] == log[..i];
    if log[i].Claimed? && log[i].live {
      var e :| ClaimedFor(log, i, e);
      assert ClaimedFor(log + evs, i, e);
    }
  }

  lemma LogOkStep(n: Node, a: Action, evs: Log)
    requires Enabled(n, a) && Conserved(n) && Accounted(n) && NoDangling(n) && LogOk(n.log) && evs == Emits(n, a)
    ensures LogOk(n.log + evs)
  {
    forall k | 0 <= k < |evs|
      ensures NewOk(n.log, evs, k)
    {
      NewLineOk(n, a, k, evs);
      NewClaimOk(n, a, k, evs);
    }
    LogOkBy(n.log, evs);
  }

  ghost predicate NewOk(log: Log, evs: Log, k: nat)
    requires k < |evs|
  {
    NewLine(log, evs, k) && NewClaim(log, evs, k)
  }

  lemma LogOkBy(log: Log, evs: Log)
    requires LogOk(log) && forall k :: 0 <= k < |evs| ==> NewOk(log, evs, k)
    ensures LogOk(log + evs)
  {
    forall i | 0 <= i < |log + evs|
      ensures EventOk(log + evs, i)
    {
      if i < |log| {
        assert EventOk(log, i);
        OldEventOk(log, evs, i);
      } else {
        assert NewOk(log, evs, i - |log|);
      }
    }
  }

  lemma StepInv(n: Node, a: Action)
    requires Enabled(n, a) && Inv(n)
    ensures Inv(Next(n, a))
  {
    ConservedStep(n, a);
    AccountedStep(n, a);
    NoDanglingStep(n, a);
    LogOkStep(n, a, Emits(n, a));
  }

  lemma {:induction false} ReachesInv(run: seq<Action>, n: Node)
    requires Reaches(run, n)
    ensures Inv(n)
    decreases |run|
  {
    if run != [] {
      var last := run[|run| - 1];
      var p :| Reaches(run[..|run| - 1], p) && Enabled(p, last) && n == Next(p, last);
      ReachesInv(run[..|run| - 1], p);
      StepInv(p, last);
    }
  }

  // ---------------------------------------------------------------- what goes out

  function Receipt(e: Entry, code: Code): Sent {
    Sent(OutletOf(e), Line(e.correl, code))
  }

  function ReceiptSent(t: Table, c: Correl): Sent {
    if Find(t, c) < |t| then Receipt(t[Find(t, c)], Result) else Sent(ToHost, Line(c, Result))
  }

  function Timeouts(es: Table): (r: seq<Sent>)
    ensures |r| == |es| && forall i :: 0 <= i < |es| ==> r[i] == Receipt(es[i], Timeout)
  {
    seq(|es|, i requires 0 <= i < |es| => Receipt(es[i], Timeout))
  }

  /** The receipts that leave a node in one action, in order. */
  function SentBy(n: Node, a: Action): seq<Sent>
    requires Enabled(n, a)
  {
    match a
    case NoTarget(e) => if Told(e.correl) then [Receipt(e, NotFound)] else []
    case Reap => Timeouts(Expired(n.table, n.now))
    case Dispatch => if Live(n.table, n.queue[0], n.now) then [] else Timeouts(Held(n.table, n.queue[0]))
    case Finish(c) => [ReceiptSent(n.table, c)]
    case Deliver(c) => [ReceiptSent(n.table, c)]
    case _ => []
  }

  lemma {:induction false} AnswersSend(es: Table)
    ensures Project(Emissions, Answers(es, Timeout)) == Timeouts(es)
  {
    if es != [] {
      var front := es[..|es| - 1];
      AnswersSend(front);
      assert Answers(es, Timeout)[..|es| - 1] == Answers(front, Timeout);
      assert Timeouts(es) == Timeouts(front) + [Receipt(es[|es| - 1], Timeout)];
    }
  }

  lemma {:induction false} WithdrawalsSend(es: Table)
    ensures Project(Emissions, Withdrawals(es)) == []
  {
    if es != [] {
      var front := es[..|es| - 1];
      WithdrawalsSend(front);
      assert Withdrawals(es)[..|es| - 1] == Withdrawals(front);
    }
  }

  lemma DispatchSends(t: Table, c: Correl, now: Time)
    ensures Project(Emissions, ClaimEvents(t, c, now)) == if Live(t, c, now) then [] else Timeouts(Held(t, c))
  {
    var i, first := Find(t, c), Claimed(c, now, Live(t, c, now));
    ProjectTwo(Emissions, first, first);
    if i < |t| && t[i].deadline <= now {
      ProjectTwo(Emissions, first, Answered(t[i], Timeout));
    }
  }

  lemma ReceiptSends(t: Table, c: Correl)
    ensures Project(Emissions, ReceiptEvents(t, c)) == [ReceiptSent(t, c)]
  {
    ProjectTwo(Emissions, ReceiptEvents(t, c)[0], Unmatched(c));
  }

  lemma RefusalSends(t: Table, c: Correl)
    ensures Project(Emissions, RefusalEvents(t, c)) == []
  {
    ProjectTwo(Emissions, Refused(c), Refused(c));
    if Find(t, c) < |t| {
      ProjectTwo(Emissions, Refused(c), Withdrawn(t[Find(t, c)]));
    }
  }

  lemma CloseSends(t: Table, conn: Conn)
    ensures Project(Emissions, [Closed(conn)] + Withdrawals(Owned(t, conn))) == []
  {
    WithdrawalsSend(Owned(t, conn));
    ProjectTwo(Emissions, Closed(conn), Closed(conn));
    ProjectAppend(Emissions, [Closed(conn)], Withdrawals(Owned(t, conn)));
  }

  lemma RegistrationSends(e: Entry, local: bool)
    ensures Project(Emissions, [Registered(e, local)]) == []
    ensures Project(Emissions, [Registered(e, local), MissEvent(e)]) == if Told(e.correl) then [Receipt(e, NotFound)] else []
  {
    ProjectTwo(Emissions, Registered(e, local), MissEvent(e));
    assert [Registered(e, local), MissEvent(e)] == [Registered(e, local)] + [MissEvent(e)];
  }

  /** What the log says was sent is what leaves the node: every receipt once, to the outlet of
      its entry, and nothing else. */
  lemma LogTellsSent(n: Node, a: Action)
    requires Enabled(n, a)
    ensures Project(Emissions, Emits(n, a)) == SentBy(n, a)
  {
    match a
    case Submit(e) => RegistrationSends(e, true);
    case PushFailed(c) => RefusalSends(n.table, c);
    case Forward(e) => RegistrationSends(e, false);
    case NoTarget(e) => RegistrationSends(e, false);
    case Reap => AnswersSend(Expired(n.table, n.now));
    case Dispatch => DispatchSends(n.table, n.queue[0], n.now);
    case Finish(c) => ReceiptSends(n.table, c);
    case Deliver(c) => ReceiptSends(n.table, c);
    case Close(conn) => CloseSends(n.table, conn);
    case _ =>
  }

  // ---------------------------------------------------------------- what every run guarantees

  predicate Settles(ev: Event, c: Correl) {
    (ev.Answered? || ev.Withdrawn?) && ev.e.correl == c
  }

  /** With distinct correlation ids, an entry is registered at most once. */
  lemma {:induction false} RegisteredOnce(log: Log, e: Entry)
    requires Distinct(log)
    ensures multiset(Project(Registrations, log))[e] <= 1
    ensures e in Project(Registrations, log) ==> forall x :: x in Project(Registrations, log) && x.correl == e.correl ==> x == e
  {
    if log != [] {
      var front, last := log[..|log| - 1], log[|log| - 1];
      RegisteredOnce(front, e);
      forall x | x in Project(Registrations, front) && last.Registered?
        ensures x.correl != last.e.correl
      {
        var i := ProjectFrom(Registrations, front, x);
        assert front[i] == log[i];
      }
      if last.Registered? {
        RegisteredOnce(front, last.e);
      }
    }
  }

  /** Conservation: in every reachable state each registered command is either still in the
      table or was answered or withdrawn, and exactly one of these, once. */
  lemma RegisteredIsPendingOrSettled(run: seq<Action>, n: Node, e: Entry)
    requires Reaches(run, n) && Distinct(n.log) && e in Project(Registrations, n.log)
    ensures multiset(n.table)[e] + multiset(Project(Settlements, n.log))[e] == 1
  {
    ReachesInv(run, n);
    RegisteredOnce(n.log, e);
    assert e in multiset(Project(Registrations, n.log));
  }

  lemma SettledTwice(log: Log, i: nat, j: nat)
    requires i < j < |log| && Settlements(log[i]) != [] && Settlements(log[i]) == Settlements(log[j])
    ensures multiset(Project(Settlements, log))[log[i].e] >= 2
  {
    ProjectUpTo(Settlements, log, j);
    ProjectUpTo(Settlements, log[..j], i);
  }

  lemma SettledWasRegistered(n: Node, i: nat)
    requires Conserved(n) && i < |n.log| && Settlements(n.log[i]) != []
    ensures n.log[i].e in Project(Registrations, n.log)
  {
    var e := n.log[i].e;
    ProjectHas(Settlements, n.log, i);
    assert e in Settlements(n.log[i]);
    assert e in multiset(Project(Settlements, n.log));
    assert e in multiset(Project(Registrations, n.log));
  }

  /** At most one answer per command, whatever arrives and in whatever order: never a result
      and a TIMEOUT, never two of a kind, and none after a withdrawal. */
  lemma AtMostOneAnswer(run: seq<Action>, n: Node, i: nat, j: nat, c: Correl)
    requires Reaches(run, n) && Distinct(n.log)
    requires i < |n.log| && j < |n.log| && Settles(n.log[i], c) && Settles(n.log[j], c)
    ensures i == j
  {
    ReachesInv(run, n);
    SettledWasRegistered(n, i);
    SettledWasRegistered(n, j);
    var e := n.log[i].e;
    RegisteredOnce(n.log, e);
    assert n.log[j].e == e;
    if i < j {
      SettledTwice(n.log, i, j);
    } else if j < i {
      SettledTwice(n.log, j, i);
    }
  }

  /** A connection only ever receives lines for its own commands, and none once it closed. */
  lemma LinesGoToOpenOwners(run: seq<Action>, n: Node, i: nat)
    requires Reaches(run, n) && i < |n.log| && n.log[i].Answered?
    ensures exists j :: 0 <= j < i && n.log[j].Registered? && n.log[j].e == n.log[i].e
    ensures OutletOf(n.log[i].e).ToConn? ==> Closed(OutletOf(n.log[i].e).conn) !in n.log[..i]
  {
    ReachesInv(run, n);
    assert EventOk(n.log, i);
    var e := n.log[i].e;
    assert e in multiset(Project(Registrations, n.log[..i]));
    var j := ProjectFrom(Registrations, n.log[..i], e);
    assert n.log[j].e == n.log[i].e;
  }

  /** The lines that one connection receives. */
  function LinesTo(conn: Conn): Event -> seq<Line> {
    (ev: Event) => if ev.Answered? && OutletOf(ev.e) == ToConn(conn) then [Line(ev.e.correl, ev.code)] else []
  }

  lemma {:induction false} LineEvent(log: Log, conn: Conn, line: Line) returns (i: nat)
    requires line in Project(LinesTo(conn), log)
    ensures i < |log| && log[i].Answered? && OutletOf(log[i].e) == ToConn(conn) && line == Line(log[i].e.correl, log[i].code)
  {
    i := ProjectFrom(LinesTo(conn), log, line);
  }

  /** The lines of one connection answer different commands, each of them its own. */
  ghost predicate HearsOnce(n: Node, conn: Conn, lines: seq<Line>) {
    && (forall i, j :: 0 <= i < j < |lines| ==> lines[i].correl != lines[j].correl)
    && (forall i :: 0 <= i < |lines| ==> exists e :: e in Project(Registrations, n.log) && e.correl == lines[i].correl && e.sink == Some(conn))
  }

  lemma HearsMore(n: Node, conn: Conn, before: seq<Line>, line: Line, e: Entry)
    requires HearsOnce(n, conn, before) && forall l :: l in before ==> l.correl != line.correl
    requires e in Project(Registrations, n.log) && e.correl == line.correl && e.sink == Some(conn)
    ensures HearsOnce(n, conn, before + [line])
  {
  }

  lemma NewCommand(run: seq<Action>, n: Node, conn: Conn, k: nat, line: Line)
    requires Reaches(run, n) && Distinct(n.log) && k < |n.log| && n.log[k].Answered?
    requires line in Project(LinesTo(conn), n.log[..k])
    ensures line.correl != n.log[k].e.correl
  {
    var i := LineEvent(n.log[..k], conn, line);
    if line.correl == n.log[k].e.correl {
      AtMostOneAnswer(run, n, i, k, line.correl);
    }
  }

  lemma ProjectStep<T>(f: Event -> seq<T>, log: Log, k: nat)
    requires k < |log|
    ensures Project(f, log[..k + 1]) == Project(f, log[..k]) + f(log[k])
  {
    assert log[..k + 1][..k] == log[..k];
  }

  lemma HearsStep(run: seq<Action>, n: Node, conn: Conn, k: nat, before: seq<Line>)
    requires Reaches(run, n) && Distinct(n.log) && k < |n.log| && before == Project(LinesTo(conn), n.log[..k])
    requires HearsOnce(n, conn, before)
    ensures HearsOnce(n, conn, Project(LinesTo(conn), n.log[..k + 1]))
  {
    ProjectStep(LinesTo(conn), n.log, k);
    var ev := n.log[k];
    if LinesTo(conn)(ev) == [] {
      assert before + [] == before;
    } else {
      forall line | line in before
        ensures line.correl != ev.e.correl
      {
        NewCommand(run, n, conn, k, line);
      }
      ReachesInv(run, n);
      SettledWasRegistered(n, k);
      HearsMore(n, conn, before, Line(ev.e.correl, ev.code), ev.e);
    }
  }

  lemma {:induction false} HearsOnceUpTo(run: seq<Action>, n: Node, conn: Conn, k: nat)
    requires Reaches(run, n) && Distinct(n.log) && k <= |n.log|
    ensures HearsOnce(n, conn, Project(LinesTo(conn), n.log[..k]))
    decreases k
  {
    if k > 0 {
      HearsOnceUpTo(run, n, conn, k - 1);
      HearsStep(run, n, conn, k - 1, Project(LinesTo(conn), n.log[..k - 1]));
    }
  }

  /** One connection receives at most one line for each of its commands and none for others',
      over every run. */
  lemma ConnectionHearsOnce(run: seq<Action>, n: Node, conn: Conn)
    requires Reaches(run, n) && Distinct(n.log)
    ensures HearsOnce(n, conn, Project(LinesTo(conn), n.log))
  {
    HearsOnceUpTo(run, n, conn, |n.log|);
    assert n.log[..|n.log|] == n.log;
  }

  /** No table entry refers to a closed connection. */
  lemma NoEntryDangles(run: seq<Action>, n: Node, e: Entry)
    requires Reaches(run, n) && e in n.table && OutletOf(e).ToConn?
    ensures Closed(OutletOf(e).conn) !in n.log
  {
    ReachesInv(run, n);
  }

  ghost predicate Unsettled(log: Log, c: Correl) {
    forall k :: 0 <= k < |log| ==> !Settles(log[k], c)
  }

  lemma SettledNotPending(log: Log, n: Node, e: Entry, k: nat)
    requires log <= n.log && Conserved(n) && Distinct(n.log) && e in Project(Registrations, log)
    requires k < |log| && Settles(log[k], e.correl)
    ensures !Pending(log, e)
  {
    var at := ProjectFrom(Registrations, log, e);
    ProjectHas(Registrations, n.log, at);
    assert Distinct(log);
    RegisteredOnce(log, e);
    RegisteredOnce(n.log, e);
    assert n.log[k] == log[k];
    SettledWasRegistered(n, k);
    ProjectHas(Settlements, log, k);
    assert e in Settlements(log[k]);
    assert e in multiset(Project(Settlements, log));
  }

  lemma PendingUnsettled(log: Log, n: Node, e: Entry)
    requires log <= n.log && Conserved(n) && Distinct(n.log) && Pending(log, e)
    ensures e in Project(Registrations, log) && Unsettled(log, e.correl)
  {
    Counted(Project(Registrations, log), e, multiset(Project(Settlements, log))[e]);
    forall k | 0 <= k < |log|
      ensures !Settles(log[k], e.correl)
    {
      if Settles(log[k], e.correl) {
        SettledNotPending(log, n, e, k);
      }
    }
  }

  /** Event `j` accepted the command that event `i` starts, for execution on this node; its
      deadline is still ahead, and its connection has not closed in between. */
  ghost predicate StartsInTime(log: Log, j: nat, i: nat)
    requires j < i < |log| && log[i].Claimed?
  {
    log[j].Registered? && log[j].local && log[j].e.correl == log[i].correl && log[j].e.deadline > log[i].at
    && SinkOpen(log[..i], log[j].e)
  }

  /** Fail closed: a command that a node executes was registered there for execution, its
      deadline lies ahead, it has not been answered (no TIMEOUT was sent), it has not been
      withdrawn, and its connection has not closed. */
  lemma ExecutesFailClosed(run: seq<Action>, n: Node, i: nat)
    requires Reaches(run, n) && Distinct(n.log) && i < |n.log| && n.log[i].Claimed? && n.log[i].live
    ensures exists j :: 0 <= j < i && StartsInTime(n.log, j, i)
    ensures Unsettled(n.log[..i], n.log[i].correl)
  {
    ReachesInv(run, n);
    assert EventOk(n.log, i);
    var e :| ClaimedFor(n.log, i, e);
    StartOf(n, i, e);
  }

  lemma StartOf(n: Node, i: nat, e: Entry)
    requires Conserved(n) && Distinct(n.log) && i < |n.log| && n.log[i].Claimed? && ClaimedFor(n.log, i, e)
    requires multiset(Project(Submissions, n.log[..i]))[e.correl] > multiset(Project(Completions, n.log[..i]))[e.correl]
    ensures exists j :: 0 <= j < i && StartsInTime(n.log, j, i)
    ensures Unsettled(n.log[..i], e.correl)
  {
    var log := n.log[..i];
    PendingUnsettled(log, n, e);
    Counted(Project(Submissions, log), e.correl, multiset(Project(Completions, log))[e.correl]);
    DistinctPrefix(n.log, i);
    var j := SubmissionIs(log, e);
    assert n.log[j] == log[j];
    assert StartsInTime(n.log, j, i);
  }

  lemma DistinctPrefix(log: Log, i: nat)
    requires Distinct(log) && i <= |log|
    ensures Distinct(log[..i])
  {
  }

  lemma Counted<T>(s: seq<T>, x: T, k: nat)
    requires multiset(s)[x] > k
    ensures x in s
  {
    assert x in multiset(s);
  }

  lemma SubmissionIs(log: Log, e: Entry) returns (j: nat)
    requires Distinct(log) && e in Project(Registrations, log) && e.correl in Project(Submissions, log)
    ensures j < |log| && log[j] == Registered(e, true)
  {
    j := ProjectFrom(Submissions, log, e.correl);
    var k := ProjectFrom(Registrations, log, e);
    assert !(j < k) && !(k < j);
  }

  lemma {:induction false} SubmittedOnce(log: Log, c: Correl)
    requires Distinct(log)
    ensures multiset(Project(Submissions, log))[c] <= 1
  {
    if log != [] {
      var front, last := log[..|log| - 1], log[|log| - 1];
      SubmittedOnce(front, c);
      var before := Project(Submissions, front);
      assert multiset(before + Submissions(last)) == multiset(before) + multiset(Submissions(last));
      assert c in multiset(before) <==> c in before;
      if c in before {
        var i := ProjectFrom(Submissions, front, c);
        assert front[i] == log[i] && log[i].Registered? && log[i].e.correl == c;
        assert c !in Submissions(last);
        assert c !in multiset(Submissions(last));
      }
    }
  }

  /** A command is claimed at most once. */
  lemma ClaimsOnce(run: seq<Action>, n: Node, i: nat, j: nat)
    requires Reaches(run, n) && Distinct(n.log) && i < |n.log| && j < |n.log|
    requires n.log[i].Claimed? && n.log[j].Claimed? && n.log[i].correl == n.log[j].correl
    ensures i == j
  {
    ReachesInv(run, n);
    if i < j {
      ClaimAgain(n, i, j);
    } else if j < i {
      ClaimAgain(n, j, i);
    }
  }

  lemma ClaimAgain(n: Node, i: nat, j: nat)
    requires LogOk(n.log) && Distinct(n.log) && i < j < |n.log| && n.log[i].Claimed? && n.log[j].Claimed?
    ensures n.log[i].correl != n.log[j].correl
  {
    var log, c := n.log[..j], n.log[j].correl;
    assert EventOk(n.log, j);
    SubmittedOnce(log, c);
    ProjectHas(Completions, log, i);
    assert ClaimOk(n.log, j);
    var d := n.log[i].correl;
    assert d in Completions(log[i]);
    assert d in multiset(Project(Completions, log));
    assert multiset(Project(Completions, log))[c] < 1;
  }

  // ---------------------------------------------------------------- exactly which commands start

  /** With distinct correlation ids, an entry that is unsettled is the one the table holds. */
  lemma UnsettledHeld(n: Node, e: Entry)
    requires Conserved(n) && Distinct(n.log) && e in Project(Registrations, n.log)
    ensures e in n.table <==> Unsettled(n.log, e.correl)
    ensures forall x :: x in n.table && x.correl == e.correl ==> x == e
  {
    RegisteredOnce(n.log, e);
    assert e in multiset(Project(Registrations, n.log));
    assert e in n.table <==> e in multiset(n.table);
    if e in n.table {
      PendingUnsettled(n.log, n, e);
    } else {
      SettledOnceOut(n, e);
      var k := ProjectFrom(Settlements, n.log, e);
      assert Settles(n.log[k], e.correl);
    }
    forall x | x in n.table && x.correl == e.correl
      ensures x == e
    {
      assert x in multiset(n.table);
      assert x in multiset(Project(Registrations, n.log));
    }
  }

  /** The first entry of `c` in the table, said without looking it up. */
  predicate IsFirst(t: Table, c: Correl, i: nat) {
    i < |t| && t[i].correl == c && forall k :: 0 <= k < i ==> t[k].correl != c
  }

  lemma LiveIff(t: Table, e: Entry, now: Time)
    requires forall x :: x in t && x.correl == e.correl ==> x == e
    ensures Live(t, e.correl, now) <==> e in t && e.deadline > now
    ensures Held(t, e.correl) == if e in t then [e] else []
  {
    var i := Find(t, e.correl);
    if i < |t| {
      assert t[i] in t;
    }
  }

  /** A command that is dispatched was registered for execution here. */
  lemma DispatchedWasRegistered(run: seq<Action>, n: Node) returns (e: Entry)
    requires Reaches(run, n) && n.queue != []
    ensures e.correl == n.queue[0] && Registered(e, true) in n.log
  {
    ReachesInv(run, n);
    var c := n.queue[0];
    Queued(n, c);
    Counted(Project(Submissions, n.log), c, multiset(Project(Completions, n.log))[c]);
    var j := ProjectFrom(Submissions, n.log, c);
    e := n.log[j].e;
  }

  /** What a dispatch does with the command that was registered as `e`. It starts if and only if
      nothing has settled it and its deadline lies ahead; if it was not settled and its deadline
      has passed, it is answered TIMEOUT now; otherwise nothing more happens. */
  lemma StartsIff(run: seq<Action>, n: Node, e: Entry)
    requires Reaches(run, n) && Distinct(n.log) && n.queue != [] && Registered(e, true) in n.log && e.correl == n.queue[0]
    ensures var s, starts := Next(n, Dispatch), Unsettled(n.log, e.correl) && e.deadline > n.now;
      && s.log == n.log + [Claimed(e.correl, n.now, starts)]
           + (if Unsettled(n.log, e.correl) && !starts then [Answered(e, Timeout)] else [])
      && s.running == n.running + (if starts then multiset{e.correl} else multiset{})
      && s.queue == n.queue[1..] && (starts ==> s.table == n.table)
  {
    ReachesInv(run, n);
    var k :| 0 <= k < |n.log| && n.log[k] == Registered(e, true);
    ProjectHas(Registrations, n.log, k);
    assert e in Registrations(n.log[k]);
    UnsettledHeld(n, e);
    LiveIff(n.table, e, n.now);
    ClaimEventsAre(n.table, e, n.now);
    var more := if e in n.table && e.deadline <= n.now then [Answered(e, Timeout)] else [];
    Assoc(n.log, [Claimed(e.correl, n.now, Live(n.table, e.correl, n.now))], more);
  }

  lemma ClaimEventsAre(t: Table, e: Entry, now: Time)
    requires forall x :: x in t && x.correl == e.correl ==> x == e
    ensures ClaimEvents(t, e.correl, now) ==
      [Claimed(e.correl, now, e in t && e.deadline > now)] + (if e in t && e.deadline <= now then [Answered(e, Timeout)] else [])
  {
    LiveIff(t, e, now);
    var i := Find(t, e.correl);
    assert i < |t| ==> t[i] in t;
  }

  // ---------------------------------------------------------------- exactly what settles an entry

  /** The actions that end a pending entry. */
  predicate EndsEntry(n: Node, a: Action, e: Entry)
    requires Enabled(n, a)
  {
    match a
    case PushFailed(c) => e.correl == c
    case Reap => e.deadline <= n.now
    case Dispatch => n.queue[0] == e.correl && e.deadline <= n.now
    case Finish(c) => e.correl == c
    case Deliver(c) => e.correl == c
    case Close(conn) => e.sink == Some(conn)
    case _ => false
  }

  /** And how. */
  function EndEvent(a: Action, e: Entry): Event {
    match a
    case Reap => Answered(e, Timeout)
    case Dispatch => Answered(e, Timeout)
    case Finish(_) => Answered(e, Result)
    case Deliver(_) => Answered(e, Result)
    case _ => Withdrawn(e)
  }

  ghost predicate OnlyOne(t: Table, e: Entry) {
    e in t && forall x :: x in t && x.correl == e.correl ==> x == e
  }

  lemma {:induction false} ExpiredHas(t: Table, e: Entry, now: Time)
    requires e in t && e.deadline <= now
    ensures e in Expired(t, now)
  {
    if t[0] != e {
      ExpiredHas(t[1..], e, now);
    }
  }

  lemma {:induction false} OwnedHas(t: Table, e: Entry, conn: Conn)
    requires e in t && e.sink == Some(conn)
    ensures e in Owned(t, conn)
  {
    if t[0] != e {
      OwnedHas(t[1..], e, conn);
    }
  }

  /** A batch that ends `e` by `ev` if `ends` holds, and otherwise leaves it alone. */
  ghost predicate EndsBy(evs: Log, e: Entry, ends: bool, ev: Event) {
    if ends then ev in evs else Unsettled(evs, e.correl)
  }

  lemma FirstEnds(t: Table, c: Correl, e: Entry)
    requires OnlyOne(t, e)
    ensures EndsBy(ReceiptEvents(t, c), e, e.correl == c, Answered(e, Result))
    ensures EndsBy(RefusalEvents(t, c), e, e.correl == c, Withdrawn(e))
  {
    LiveIff(t, e, 0);
  }

  lemma ClaimEnds(t: Table, c: Correl, e: Entry, now: Time)
    requires OnlyOne(t, e)
    ensures EndsBy(ClaimEvents(t, c, now), e, c == e.correl && e.deadline <= now, Answered(e, Timeout))
  {
    LiveIff(t, e, now);
  }

  lemma ReapEndsOne(t: Table, e: Entry, now: Time)
    requires OnlyOne(t, e)
    ensures EndsBy(Answers(Expired(t, now), Timeout), e, e.deadline <= now, Answered(e, Timeout))
  {
    var es := Expired(t, now);
    if e.deadline <= now {
      ExpiredHas(t, e, now);
      var k :| 0 <= k < |es| && es[k] == e;
      assert Answers(es, Timeout)[k] == Answered(e, Timeout);
    } else {
      forall k | 0 <= k < |es|
        ensures es[k].correl != e.correl
      {
        assert es[k] in es;
      }
    }
  }

  lemma CloseEndsOne(t: Table, e: Entry, conn: Conn)
    requires OnlyOne(t, e)
    ensures EndsBy([Closed(conn)] + Withdrawals(Owned(t, conn)), e, e.sink == Some(conn), Withdrawn(e))
  {
    var es := Owned(t, conn);
    if e.sink == Some(conn) {
      OwnedHas(t, e, conn);
      var k :| 0 <= k < |es| && es[k] == e;
      assert Withdrawals(es)[k] == Withdrawn(e);
      assert Withdrawn(e) in Withdrawals(es);
    } else {
      forall k | 0 <= k < |es|
        ensures es[k].correl != e.correl
      {
        assert es[k] in es;
      }
    }
  }

  lemma MissEnds(log: Log, x: Entry, e: Entry)
    requires Distinct(log + [Registered(x, false), MissEvent(x)]) && e in Project(Registrations, log)
    ensures Unsettled([Registered(x, false), MissEvent(x)], e.correl)
  {
    var i := ProjectFrom(Registrations, log, e);
    var all := log + [Registered(x, false), MissEvent(x)];
    assert all[i] == log[i] && all[|log|] == Registered(x, false);
  }

  /** Exactly when an action settles a pending command, and how: it is answered by its receipt,
      or TIMEOUT by the reaper or the dispatcher once its deadline has passed, or withdrawn when
      its push fails or its connection closes. Nothing else touches it. */
  lemma SettlesIff(run: seq<Action>, n: Node, a: Action, e: Entry)
    requires Reaches(run, n) && Enabled(n, a) && Distinct(n.log + Emits(n, a))
    requires e in Project(Registrations, n.log) && Unsettled(n.log, e.correl)
    ensures if EndsEntry(n, a, e) then EndEvent(a, e) in Emits(n, a) else Unsettled(Emits(n, a), e.correl)
  {
    ReachesInv(run, n);
    DistinctFront(n.log, Emits(n, a));
    UnsettledHeld(n, e);
    ActionEnds(n, a, e);
  }

  lemma DistinctFront(log: Log, evs: Log)
    requires Distinct(log + evs)
    ensures Distinct(log)
  {
    assert (log + evs)[..|log|] == log;
    DistinctPrefix(log + evs, |log|);
  }

  lemma ActionEnds(n: Node, a: Action, e: Entry)
    requires Enabled(n, a) && OnlyOne(n.table, e) && Distinct(n.log + Emits(n, a)) && e in Project(Registrations, n.log)
    ensures EndsBy(Emits(n, a), e, EndsEntry(n, a, e), EndEvent(a, e))
  {
    match a
    case PushFailed(c) => FirstEnds(n.table, c, e);
    case NoTarget(x) => MissEnds(n.log, x, e);
    case Reap => ReapEndsOne(n.table, e, n.now);
    case Dispatch => ClaimEnds(n.table, n.queue[0], e, n.now);
    case Finish(c) => FirstEnds(n.table, c, e);
    case Deliver(c) => FirstEnds(n.table, c, e);
    case Close(conn) => CloseEndsOne(n.table, e, conn);
    case _ =>
  }

  lemma ReceiptSentIs(t: Table, e: Entry)
    requires forall x :: x in t && x.correl == e.correl ==> x == e
    ensures ReceiptSent(t, e.correl) == if e in t then Receipt(e, Result) else Sent(ToHost, Line(e.correl, Result))
  {
    LiveIff(t, e, 0);
    assert Find(t, e.correl) < |t| ==> t[Find(t, e.correl)] in t;
  }

  lemma OutletIs(e: Entry)
    ensures e.sink.Some? ==> OutletOf(e) == ToConn(e.sink.value)
    ensures e.sink.None? && e.replyDir >= 0 ==> OutletOf(e) == ToTree(e.replyDir)
    ensures e.sink.None? && e.replyDir < 0 ==> OutletOf(e) == ToHost
  {
  }

  /** The receipt of a pending command goes to its connection, else its way back, else the host;
      one for a command that is not pending goes to the host. */
  ghost predicate WayBack(e: Entry, pending: bool, sent: seq<Sent>) {
    && (pending && e.sink.Some? ==> sent == [Sent(ToConn(e.sink.value), Line(e.correl, Result))])
    && (pending && e.sink.None? && e.replyDir >= 0 ==> sent == [Sent(ToTree(e.replyDir), Line(e.correl, Result))])
    && (pending && e.sink.None? && e.replyDir < 0 ==> sent == [Sent(ToHost, Line(e.correl, Result))])
    && (!pending ==> sent == [Sent(ToHost, Line(e.correl, Result))])
  }

  lemma SentBack(t: Table, e: Entry)
    requires forall x :: x in t && x.correl == e.correl ==> x == e
    ensures WayBack(e, e in t, [ReceiptSent(t, e.correl)])
  {
    ReceiptSentIs(t, e);
    OutletIs(e);
  }

  lemma HeldIffUnsettled(run: seq<Action>, n: Node, e: Entry)
    requires Reaches(run, n) && Distinct(n.log) && e in Project(Registrations, n.log)
    ensures e in n.table <==> Unsettled(n.log, e.correl)
    ensures forall x :: x in n.table && x.correl == e.correl ==> x == e
  {
    ReachesInv(run, n);
    UnsettledHeld(n, e);
  }

  lemma ReceiptGoesTo(run: seq<Action>, n: Node, e: Entry)
    requires Reaches(run, n) && Distinct(n.log) && e in Project(Registrations, n.log)
    ensures WayBack(e, Unsettled(n.log, e.correl), SentBy(n, Deliver(e.correl)))
  {
    HeldIffUnsettled(run, n, e);
    DeliverSends(n, e, Unsettled(n.log, e.correl));
  }

  lemma DeliverSends(n: Node, e: Entry, pending: bool)
    requires (e in n.table <==> pending) && forall x :: x in n.table && x.correl == e.correl ==> x == e
    ensures WayBack(e, pending, SentBy(n, Deliver(e.correl)))
  {
    SentBack(n.table, e);
  }

  // ---------------------------------------------------------------- no early TIMEOUT

  ghost predicate TimeoutsDue(n: Node) {
    forall e {:trigger Answered(e, Timeout)} :: Answered(e, Timeout) in n.log ==> e.deadline <= n.now
  }

  lemma TimeoutDue(n: Node, a: Action, e: Entry)
    requires Enabled(n, a) && Answered(e, Timeout) in Emits(n, a)
    ensures e.deadline <= n.now
  {
    match a
    case Reap => {
      var k :| 0 <= k < |Emits(n, a)| && Emits(n, a)[k] == Answered(e, Timeout);
      assert Expired(n.table, n.now)[k] in Expired(n.table, n.now);
    }
    case _ =>
  }

  lemma TimeKept(n: Node, a: Action)
    requires Enabled(n, a)
    ensures Next(n, a).now >= n.now && Next(n, a).log == n.log + Emits(n, a)
  {
  }

  lemma TimeoutsDueStep(n: Node, a: Action)
    requires Enabled(n, a) && TimeoutsDue(n)
    ensures TimeoutsDue(Next(n, a))
  {
    TimeKept(n, a);
    forall e | Answered(e, Timeout) in n.log + Emits(n, a)
      ensures e.deadline <= Next(n, a).now
    {
      if Answered(e, Timeout) in Emits(n, a) {
        TimeoutDue(n, a, e);
      }
    }
  }

  /** TIMEOUT waits for the deadline: in every run, whenever a TIMEOUT is in the log, and so from
      the moment it is logged, its entry's deadline has passed. */
  lemma {:induction false} TimeoutAfterDeadline(run: seq<Action>, n: Node, e: Entry)
    requires Reaches(run, n) && Answered(e, Timeout) in n.log
    ensures e.deadline <= n.now
  {
    AllTimeoutsDue(run, n);
  }

  lemma {:induction false} AllTimeoutsDue(run: seq<Action>, n: Node)
    requires Reaches(run, n)
    ensures TimeoutsDue(n)
    decreases |run|
  {
    if run != [] {
      var last := run[|run| - 1];
      var p :| Reaches(run[..|run| - 1], p) && Enabled(p, last) && n == Next(p, last);
      AllTimeoutsDue(run[..|run| - 1], p);
      TimeoutsDueStep(p, last);
    }
  }

  /** Once its deadline has passed and the reaper has run, no command is left unanswered. */
  lemma ReapAnswersExpired(run: seq<Action>, n: Node, e: Entry)
    requires Reaches(run, n) && Distinct(n.log) && e in Project(Registrations, n.log) && e.deadline <= n.now
    ensures exists i :: 0 <= i < |Next(n, Reap).log| && Settles(Next(n, Reap).log[i], e.correl)
  {
    ReachesInv(run, n);
    var n' := Next(n, Reap);
    StepInv(n, Reap);
    ProjectAppend(Registrations, n.log, Emits(n, Reap));
    SettledOnceOut(n', e);
    var i := ProjectFrom(Settlements, n'.log, e);
    assert Settles(n'.log[i], e.correl);
  }

  lemma SettledOnceOut(n: Node, e: Entry)
    requires Conserved(n) && e in Project(Registrations, n.log) && e !in n.table
    ensures e in Project(Settlements, n.log)
  {
    assert e in multiset(Project(Registrations, n.log));
    assert e in multiset(Project(Settlements, n.log));
  }
}
