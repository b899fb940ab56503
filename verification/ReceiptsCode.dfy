/** The receipt-table functions of src/control.c on the node's own fields: walks over the list
    of pending entries that unlink as they go. Each method refines actions of `Receipts`. */
module ReceiptsCode {
  import opened Receipts
  import opened Wrappers
  import Routing

  /** A slot of the process table: the channel to a child, if it is live. */
  datatype Handle = Handle(live: bool, id: int)

  /** The live channels of the node at `path` lead to its children in the tree. */
  ghost predicate Placed(nodes: set<Routing.Path>, path: Routing.Path, handles: seq<Handle>) {
    forall s :: Handle(true, s) in handles <==> path + [s] in nodes
  }

  /** Unlinking entry `i` keeps what stands before and after it. */
  lemma Unlinked(t: Table, i: nat)
    requires i < |t|
    ensures Without(t, i)[..i] == t[..i] && Without(t, i)[i..] == t[i + 1..] && t[..i + 1] == t[..i] + [t[i]]
  {
  }

  lemma ReapHead(t: Table, i: nat, now: Time)
    requires i < |t|
    ensures Unexpired(t[i..], now) == (if t[i].deadline <= now then [] else [t[i]]) + Unexpired(t[i + 1..], now)
    ensures Expired(t[i..], now) == (if t[i].deadline <= now then [t[i]] else []) + Expired(t[i + 1..], now)
  {
    assert t[i..][1..] == t[i + 1..];
  }

  lemma DropHead(t: Table, i: nat, c: Conn)
    requires i < |t|
    ensures Disowned(t[i..], c) == (if t[i].sink == Some(c) then [] else [t[i]]) + Disowned(t[i + 1..], c)
    ensures Owned(t[i..], c) == (if t[i].sink == Some(c) then [t[i]] else []) + Owned(t[i + 1..], c)
  {
    assert t[i..][1..] == t[i + 1..];
  }

  /** A walk over a list that moves some entries to `out`: `kept` and `taken` are what it will
      have kept and taken of the part from `i` on. */
  ghost predicate Walking(t: Table, i: nat, out: Table, kept: Table, taken: Table, allKept: Table, allTaken: Table) {
    i <= |t| && t[..i] + kept == allKept && out + taken == allTaken
  }

  lemma WalkTake(t: Table, i: nat, out: Table, kept: Table, taken: Table, allKept: Table, allTaken: Table)
    requires i < |t| && Walking(t, i, out, [] + kept, [t[i]] + taken, allKept, allTaken)
    ensures Walking(Without(t, i), i, out + [t[i]], kept, taken, allKept, allTaken)
  {
    Unlinked(t, i);
    Assoc(out, [t[i]], taken);
    assert [] + kept == kept;
  }

  lemma WalkKeep(t: Table, i: nat, out: Table, kept: Table, taken: Table, allKept: Table, allTaken: Table)
    requires i < |t| && Walking(t, i, out, [t[i]] + kept, [] + taken, allKept, allTaken)
    ensures Walking(t, i + 1, out, kept, taken, allKept, allTaken)
  {
    Unlinked(t, i);
    Assoc(t[..i], [t[i]], kept);
    assert [] + taken == taken;
  }

  /** The reaper's walk over `was` stands at index `i` of what is left in `t`. */
  ghost predicate Reaping(was: Table, t: Table, i: nat, dead: Table, now: Time) {
    i <= |t| && Walking(t, i, dead, Unexpired(t[i..], now), Expired(t[i..], now), Unexpired(was, now), Expired(was, now))
  }

  lemma ReapOne(was: Table, t: Table, i: nat, dead: Table, now: Time)
    requires Reaping(was, t, i, dead, now) && i < |t|
    ensures t[i].deadline <= now ==> Reaping(was, Without(t, i), i, dead + [t[i]], now)
    ensures t[i].deadline > now ==> Reaping(was, t, i + 1, dead, now)
  {
    ReapHead(t, i, now);
    var kept, taken := Unexpired(t[i + 1..], now), Expired(t[i + 1..], now);
    if t[i].deadline <= now {
      WalkTake(t, i, dead, kept, taken, Unexpired(was, now), Expired(was, now));
      Unlinked(t, i);
    } else {
      WalkKeep(t, i, dead, kept, taken, Unexpired(was, now), Expired(was, now));
    }
  }

  lemma ReapEnds(was: Table, t: Table, dead: Table, now: Time)
    ensures Reaping(was, was, 0, [], now)
    ensures Reaping(was, t, |t|, dead, now) ==> t == Unexpired(was, now) && dead == Expired(was, now)
  {
    assert was[0..] == was && t[..|t|] == t;
  }

  /** The walk that drops a connection's entries. */
  ghost predicate Dropping(was: Table, t: Table, i: nat, gone: Table, c: Conn) {
    i <= |t| && Walking(t, i, gone, Disowned(t[i..], c), Owned(t[i..], c), Disowned(was, c), Owned(was, c))
  }

  lemma DropOne(was: Table, t: Table, i: nat, gone: Table, c: Conn)
    requires Dropping(was, t, i, gone, c) && i < |t|
    ensures t[i].sink == Some(c) ==> Dropping(was, Without(t, i), i, gone + [t[i]], c)
    ensures t[i].sink != Some(c) ==> Dropping(was, t, i + 1, gone, c)
  {
    DropHead(t, i, c);
    var kept, taken := Disowned(t[i + 1..], c), Owned(t[i + 1..], c);
    if t[i].sink == Some(c) {
      WalkTake(t, i, gone, kept, taken, Disowned(was, c), Owned(was, c));
      Unlinked(t, i);
    } else {
      WalkKeep(t, i, gone, kept, taken, Disowned(was, c), Owned(was, c));
    }
  }

  lemma DropEnds(was: Table, t: Table, gone: Table, c: Conn)
    ensures Dropping(was, was, 0, [], c)
    ensures Dropping(was, t, |t|, gone, c) ==> t == Disowned(was, c) && gone == Owned(was, c)
  {
    assert was[0..] == was && t[..|t|] == t;
  }

  lemma {:induction false} FindIs(t: Table, c: Correl, i: nat)
    requires i <= |t| && (i < |t| ==> t[i].correl == c) && forall k :: 0 <= k < i ==> t[k].correl != c
    ensures Find(t, c) == i
  {
    if t != [] && t[0].correl != c {
      FindIs(t[1..], c, i - 1);
    }
  }

  /** A command that an endpoint could not send along its path is answered by the reaper, once
      its timeout has passed, unless a receipt came or the connection closed. */
  lemma UnsentTimesOut(n: Node, e: Entry)
    requires e in n.table && e.deadline <= n.now
    ensures Receipt(e, Timeout) in SentBy(n, Reap)
  {
    ExpiredHas(n.table, e, n.now);
    var i :| 0 <= i < |Expired(n.table, n.now)| && Expired(n.table, n.now)[i] == e;
    assert SentBy(n, Reap)[i] == Receipt(e, Timeout);
  }

  lemma FirstIsOne(t: Table, c: Correl)
    ensures forall i: nat :: IsFirst(t, c, i) ==> i == Find(t, c)
  {
    forall i: nat | IsFirst(t, c, i)
      ensures i == Find(t, c)
    {
      FindIs(t, c, i);
    }
  }

  class ControlNode {
    var now: Time
    var pending: Table
    var queue: seq<Correl>
    var closed: set<Conn>
    var sent: seq<Sent>      // receipts that left the node, oldest first
    const path: Routing.Path // the node's own path
    ghost var submitting: multiset<Correl>
    ghost var running: multiset<Correl>
    ghost var log: Log

    ghost function State(): Node
      reads this
    {
      Node(now, pending, submitting, queue, running, closed, log)
    }

    /** No pending entry belongs to a closed connection; every action keeps it so
        (`Receipts.TableSinks`). */
    ghost predicate Attached()
      reads this
    {
      forall e :: e in pending && e.sink.Some? ==> e.sink.value !in closed
    }

    constructor (path: Routing.Path)
      ensures State() == Init && sent == [] && this.path == path
    {
      this.path := path;
      now, pending, queue, closed, sent := 0, [], [], {}, [];
      submitting, running, log := multiset{}, multiset{}, [];
    }

    /** `qz_ctl_conn_write`: nothing is written to a closed connection. */
    method ConnWrite(conn: Conn, line: Line)
      modifies this`sent
      ensures sent == if conn in closed then old(sent) else old(sent) + [Sent(ToConn(conn), line)]
    {
      if conn !in closed {
        sent := sent + [Sent(ToConn(conn), line)];
      }
    }

    /** `ctl_emit_obj`: the connection first, then the tree, then the host. */
    method EmitObj(line: Line, dir: int, sink: Option<Conn>)
      requires sink.Some? ==> sink.value !in closed
      modifies this`sent
      ensures sent == old(sent) + [Sent(OutletOf(Entry(line.correl, 0, dir, sink)), line)]
      ensures sink.Some? ==> sent == old(sent) + [Sent(ToConn(sink.value), line)]
      ensures sink.None? && dir >= 0 ==> sent == old(sent) + [Sent(ToTree(dir), line)]
      ensures sink.None? && dir < 0 ==> sent == old(sent) + [Sent(ToHost, line)]
    {
      if sink.Some? {
        ConnWrite(sink.value, line);
      } else if dir >= 0 {
        sent := sent + [Sent(ToTree(dir), line)];
      } else {
        sent := sent + [Sent(ToHost, line)];
      }
    }

    /** The walk that every lookup makes: the first entry with this correlation id. */
    method Lookup(c: Correl) returns (i: nat)
      ensures i == Find(pending, c)
    {
      i := 0;
      while i < |pending| && pending[i].correl != c
        invariant i <= |pending| && forall k :: 0 <= k < i ==> pending[k].correl != c
      {
        i := i + 1;
      }
      FindIs(pending, c, i);
    }

    /** `ctl_take_reply`: unlink the entry and tell where its receipt goes; -1 and no
        connection when there is none. */
    method TakeReply(c: Correl) returns (found: Option<Entry>, dir: int, sink: Option<Conn>)
      modifies this`pending
      ensures pending == Unregister(old(pending), c)
      ensures found.Some? <==> Find(old(pending), c) < |old(pending)|
      ensures found.Some? ==> found.value == old(pending)[Find(old(pending), c)]
      ensures dir == (if found.Some? then found.value.replyDir else -1)
      ensures sink == if found.Some? then found.value.sink else None
    {
      found, dir, sink := None, -1, None;
      var i := Lookup(c);
      if i < |pending| {
        found, dir, sink := Some(pending[i]), pending[i].replyDir, pending[i].sink;
        pending := Without(pending, i);
      }
    }

    /** `ctl_send_receipt` and `qz_ctl_deliver_receipt`: consume the entry, then emit. */
    method SendReceipt(c: Correl)
      requires Attached()
      modifies this`pending, this`log, this`sent
      ensures pending == Unregister(old(pending), c) && log == old(log) + ReceiptEvents(old(pending), c)
      ensures sent == old(sent) + [ReceiptSent(old(pending), c)]
    {
      var found, dir, sink := TakeReply(c);
      EmitObj(Line(c, Result), dir, sink);
      log := log + [if found.Some? then Answered(found.value, Result) else Unmatched(c)];
    }

    method Finish(c: Correl)
      requires c in running && Attached()
      modifies this
      ensures State() == Next(old(State()), Receipts.Finish(c))
      ensures sent == old(sent) + SentBy(old(State()), Receipts.Finish(c))
    {
      running := running - multiset{c};
      SendReceipt(c);
    }

    method DeliverReceipt(c: Correl)
      requires Attached()
      modifies this
      ensures State() == Next(old(State()), Deliver(c)) && sent == old(sent) + SentBy(old(State()), Deliver(c))
    {
      SendReceipt(c);
    }

    /** `qz_ctl_register` for a command that is pushed next. */
    method RegisterLocal(e: Entry)
      requires Enabled(State(), Submit(e))
      modifies this`pending, this`submitting, this`log
      ensures State() == Next(old(State()), Submit(e))
    {
      pending, submitting, log := [e] + pending, submitting + multiset{e.correl}, log + [Registered(e, true)];
    }

    method EndPush(c: Correl)
      requires c in submitting
      modifies this`queue, this`submitting
      ensures State() == Next(old(State()), Pushed(c))
    {
      queue, submitting := queue + [c], submitting - multiset{c};
      assert log + [] == log;
    }

    /** `ctl_unregister` after a failed push. */
    method TakeBack(c: Correl)
      requires c in submitting
      modifies this`pending, this`submitting, this`log
      ensures State() == Next(old(State()), PushFailed(c))
    {
      var found, _, _ := TakeReply(c);
      submitting, log := submitting - multiset{c}, log + ([Refused(c)] + match found { case Some(x) => [Withdrawn(x)] case None => [] });
    }

    /** `ctl_local_command` and `qz_control_sink`: register before the push, so that dispatch
        finds the entry; a failed push takes it back. */
    method LocalCommand(e: Entry, pushed: bool)
      requires Enabled(State(), Submit(e))
      modifies this
      ensures var registered := Next(old(State()), Submit(e));
        State() == Next(registered, if pushed then Pushed(e.correl) else PushFailed(e.correl))
      ensures sent == old(sent)
    {
      RegisterLocal(e);
      if pushed {
        EndPush(e.correl);
      } else {
        TakeBack(e.correl);
      }
    }

    /** The last branch of `qz_control_endpoint_cmd`: the entry stays here until the receipt
        comes back; without such a child the connection hears so at once. */
    method RemoteCommand(e: Entry, forwarded: bool)
      requires Enabled(State(), Forward(e))
      modifies this
      ensures State() == Next(old(State()), if forwarded then Forward(e) else NoTarget(e))
      ensures sent == old(sent) + if !forwarded && Told(e.correl) then [Receipt(e, NotFound)] else []
    {
      pending, log := [e] + pending, log + [Registered(e, false)];
      if !forwarded {
        Miss(e);
        assert log == old(log) + ([Registered(e, false)] + [MissEvent(e)]);
      }
    }

    method Miss(e: Entry)
      requires e.sink.Some? && e.sink.value !in closed
      modifies this`pending, this`log, this`sent
      ensures pending == Unregister(old(pending), e.correl) && log == old(log) + [MissEvent(e)]
      ensures sent == old(sent) + if Told(e.correl) then [Receipt(e, NotFound)] else []
    {
      var _, _, _ := TakeReply(e.correl);
      if NOT_FOUND_TEXT + |e.correl.id| < NOT_FOUND_MAX {
        ConnWrite(e.sink.value, Line(e.correl, NotFound));
      }
      log := log + [MissEvent(e)];
    }

    /** The branch for a path that goes on below this node. */
    method PathCommand(ghost nodes: set<Routing.Path>, handles: seq<Handle>, e: Entry, slot: int) returns (ok: bool)
      requires Placed(nodes, path, handles) && Enabled(State(), Forward(e))
      modifies this`pending, this`log
      ensures State() == Next(old(State()), Forward(e))
      ensures ok <==> !Routing.Forward(nodes, path, slot).Dropped?
    {
      pending, log := [e] + pending, log + [Registered(e, false)];
      ok := ForwardTo(nodes, handles, slot);
    }

    /** `ctl_forward`, which fails when it looks for a child that is not there. */
    method ForwardTo(ghost nodes: set<Routing.Path>, handles: seq<Handle>, slot: int) returns (ok: bool)
      requires Placed(nodes, path, handles)
      ensures ok <==> !Routing.Forward(nodes, path, slot).Dropped?
    {
      if slot > 1 {
        var i := 0;
        while i < |handles|
          invariant i <= |handles| && forall k :: 0 <= k < i ==> handles[k] != Handle(true, slot)
        {
          if handles[i].live && handles[i].id == slot {
            return true;
          }
          i := i + 1;
        }
        return false;
      }
      return true;
    }

    /** `qz_control_endpoint_cmd`: a command of connection `conn` with path `p` and relative
        target `target`. When the path cannot be followed the command fails, but its entry
        stays; `UnsentTimesOut` says what becomes of it. The connection hears NOT_FOUND at once
        exactly when it names a child that does not exist by its id alone: a target above 1 other
        than the node's own id, and no path longer than the node's own. */
    method EndpointCommand(ghost nodes: set<Routing.Path>, handles: seq<Handle>,
                           c: Correl, timeout: nat, conn: Conn, p: Routing.Path, target: int, pushed: bool)
      returns (rc: int)
      requires Placed(nodes, path, handles) && conn !in closed
      modifies this
      ensures var e := Entry(c, old(now) + timeout, -1, Some(conn));
        match Routing.EndpointHop(nodes, path, p, target)
        case Local => State() == Next(Next(old(State()), Submit(e)), if pushed then Pushed(c) else PushFailed(c))
        case Sent(_) => State() == Next(old(State()), Forward(e))
        case Unsent => State() == Next(old(State()), Forward(e))
        case NotFound => State() == Next(old(State()), NoTarget(e))
      ensures rc == 0 <==>
        match Routing.EndpointHop(nodes, path, p, target) { case Local => pushed case Sent(_) => true case _ => false }
      ensures rc == 0 <==>
        if |p| > |path| then p[|path|] <= 1 || Handle(true, p[|path|]) in handles
        else if target == Routing.LocalId(path) then pushed
        else target <= 1 || Handle(true, target) in handles
      ensures sent == old(sent) +
        if |p| <= |path| && target > 1 && target != Routing.LocalId(path) && Handle(true, target) !in handles && Told(c)
        then [Sent(ToConn(conn), Line(c, NotFound))] else []
    {
      var e := Entry(c, now + timeout, -1, Some(conn));
      if |p| > |path| {
        var ok := PathCommand(nodes, handles, e, p[|path|]);
        return if ok then 0 else -1;
      }
      var local := if path == [] then Routing.ROOT_ID else path[|path| - 1];
      if target == local {
        LocalCommand(e, pushed);
        return if pushed then 0 else -1;
      }
      var ok := RelativeCommand(nodes, handles, e, target);
      return if ok then 0 else -1;
    }

    /** The branch for a relative target elsewhere. */
    method RelativeCommand(ghost nodes: set<Routing.Path>, handles: seq<Handle>, e: Entry, target: int) returns (ok: bool)
      requires Placed(nodes, path, handles) && Enabled(State(), Forward(e))
      modifies this
      ensures ok <==> !Routing.Forward(nodes, path, target).Dropped?
      ensures ok <==> target <= 1 || Handle(true, target) in handles
      ensures State() == Next(old(State()), if ok then Forward(e) else NoTarget(e))
      ensures sent == old(sent) + if !ok && Told(e.correl) then [Receipt(e, NotFound)] else []
    {
      ok := ForwardTo(nodes, handles, target);
      RemoteCommand(e, ok);
    }

    /** `ctl_claim`. */
    method Claim(c: Correl) returns (live: bool)
      requires Attached()
      modifies this`pending, this`log, this`sent
      ensures live <==> exists i: nat :: IsFirst(old(pending), c, i) && old(pending)[i].deadline > now
      ensures pending == old(pending) || exists i: nat :: IsFirst(old(pending), c, i) && old(pending)[i].deadline <= now
      ensures live == Live(old(pending), c, now)
      ensures pending == if live then old(pending) else Unregister(old(pending), c)
      ensures log == old(log) + ClaimEvents(old(pending), c, now)
      ensures sent == old(sent) + if live then [] else Timeouts(Held(old(pending), c))
    {
      var i := Lookup(c);
      assert i < |pending| ==> IsFirst(pending, c, i);
      FirstIsOne(pending, c);
      live := i < |pending| && pending[i].deadline > now;
      ghost var evs := [Claimed(c, now, live)];
      if !live && i < |pending| {
        var dead := pending[i];
        evs := evs + [Answered(dead, Timeout)];
        pending := Without(pending, i);
        EmitObj(Line(dead.correl, Timeout), dead.replyDir, dead.sink);
      }
      log := log + evs;
    }

    /** The head of `qz_control_dispatch`. */
    method Dispatch() returns (live: bool)
      requires queue != [] && Attached()
      modifies this
      ensures live == Live(old(pending), old(queue)[0], now)
      ensures State() == Next(old(State()), Receipts.Dispatch) && sent == old(sent) + SentBy(old(State()), Receipts.Dispatch)
    {
      var c := queue[0];
      queue := queue[1..];
      live := Claim(c);
      running := running + if live then multiset{c} else multiset{};
    }

    /** `qz_ctl_reap_timeouts`: unlink all expired entries in one walk, then answer them in the
        order they stood. */
    method ReapTimeouts()
      requires Attached()
      modifies this
      ensures State() == Next(old(State()), Reap) && sent == old(sent) + SentBy(old(State()), Reap)
    {
      var dead := Unlink();
      AnswerAll(dead);
      log := log + Answers(dead, Timeout);
    }

    /** The second loop of the reaper. */
    method AnswerAll(dead: Table)
      requires forall e :: e in dead && e.sink.Some? ==> e.sink.value !in closed
      modifies this`sent
      ensures sent == old(sent) + Timeouts(dead)
    {
      var i := 0;
      while i < |dead|
        invariant 0 <= i <= |dead| && sent == old(sent) + Timeouts(dead[..i])
      {
        EmitObj(Line(dead[i].correl, Timeout), dead[i].replyDir, dead[i].sink);
        assert Timeouts(dead[..i + 1]) == Timeouts(dead[..i]) + [Receipt(dead[i], Timeout)];
        i := i + 1;
      }
      assert dead[..i] == dead;
    }

    method Unlink() returns (dead: Table)
      modifies this`pending
      ensures pending == Unexpired(old(pending), now) && dead == Expired(old(pending), now)
    {
      dead := [];
      var i := 0;
      ReapEnds(pending, pending, [], now);
      while i < |pending|
        invariant i <= |pending| && Reaping(old(pending), pending, i, dead, now)
        decreases |pending| - i
      {
        ReapOne(old(pending), pending, i, dead, now);
        if pending[i].deadline <= now {
          dead := dead + [pending[i]];
          pending := Without(pending, i);
        } else {
          i := i + 1;
        }
      }
      ReapEnds(old(pending), pending, dead, now);
    }

    /** `conn_close` with `qz_ctl_conn_drop`. */
    method CloseConnection(conn: Conn)
      modifies this
      ensures State() == Next(old(State()), Close(conn)) && sent == old(sent)
    {
      closed := closed + {conn};
      var gone := Drop(conn);
      log := log + ([Closed(conn)] + Withdrawals(gone));
    }

    method Drop(conn: Conn) returns (gone: Table)
      modifies this`pending
      ensures pending == Disowned(old(pending), conn) && gone == Owned(old(pending), conn)
    {
      gone := [];
      var i := 0;
      DropEnds(pending, pending, [], conn);
      while i < |pending|
        invariant i <= |pending| && Dropping(old(pending), pending, i, gone, conn)
        decreases |pending| - i
      {
        DropOne(old(pending), pending, i, gone, conn);
        if pending[i].sink == Some(conn) {
          gone := gone + [pending[i]];
          pending := Without(pending, i);
        } else {
          i := i + 1;
        }
      }
      DropEnds(old(pending), pending, gone, conn);
    }
  }
}
