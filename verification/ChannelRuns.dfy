/** Both ends of a channel with their arrays, and what one end sends and the other reads: every
    call of `ChannelBuffers` is a run of `Protocol`, so what `Protocol` proves of all runs holds
    of the arrays. */
module ChannelRuns {
  import opened ChannelBuffers
  import opened Framing
  import opened LittleEndian
  import opened Protocol
  import opened Reader
  import opened Wrappers

  lemma Extend(ch: Channel, run: seq<Step>, s: State, st: Step)
    requires Reaches(ch, run, s) && Enabled(s, st)
    ensures Reaches(ch, run + [st], Next(ch, s, st))
  {
    var r := run + [st];
    assert r[..|r| - 1] == run;
    assert Reaches(ch, r[..|r| - 1], s) && r[|r| - 1] == st;
  }

  /** `emit_sync`: it has begun, and a flush has taken `k` bytes of what was queued before. */
  function Drained(s: State, body: Bytes, k: nat): State
    requires |body| < 0x1_0000_0000 && k <= |s.spill|
  {
    s.(posted := s.posted + [body], sync := Draining(Frame(body)), spill := s.spill[k..], pipe := s.pipe + s.spill[..k])
  }

  lemma DrainRun(ch: Channel, run: seq<Step>, s: State, body: Bytes, k: nat)
    requires Reaches(ch, run, s) && s.sync.Idle? && |body| < 0x1_0000_0000 && k <= |s.spill|
    ensures Reaches(ch, run + [SyncBegin(body)] + [Step.Send(k)], Drained(s, body, k))
  {
    Extend(ch, run, s, SyncBegin(body));
    Extend(ch, run + [SyncBegin(body)], Next(ch, s, SyncBegin(body)), Step.Send(k));
  }

  /** Then `k` bytes of its own frame. */
  function Emitted(s: State, body: Bytes, k: nat): State
    requires |body| < 0x1_0000_0000 && k <= |Frame(body)|
  {
    s.(posted := s.posted + [body], sync := Sending(Frame(body)[k..]), spill := [], pipe := s.pipe + s.spill + Frame(body)[..k])
  }

  lemma EmitRun(ch: Channel, run: seq<Step>, s: State, body: Bytes, k: nat)
    requires Reaches(ch, run, s) && s.sync.Idle? && |body| < 0x1_0000_0000 && k <= |Frame(body)|
    ensures Reaches(ch, run + [SyncBegin(body)] + [Step.Send(|s.spill|)] + [SyncDrained] + [SyncSend(k)], Emitted(s, body, k))
  {
    DrainRun(ch, run, s, body, |s.spill|);
    var d := Drained(s, body, |s.spill|);
    assert d.spill == [] && s.spill[..|s.spill|] == s.spill;
    var r := run + [SyncBegin(body)] + [Step.Send(|s.spill|)];
    Extend(ch, r, d, SyncDrained);
    Extend(ch, r + [SyncDrained], Next(ch, d, SyncDrained), SyncSend(k));
  }

  /** What is on the wire and what is left, after a flush took an initial part. */
  lemma SplitFlush(wire: Bytes, spill: Bytes, wire': Bytes, spill': Bytes) returns (k: nat)
    requires wire <= wire' && wire' + spill' == wire + spill
    ensures k <= |spill| && wire' == wire + spill[..k] && spill' == spill[k..]
  {
    k := |wire'| - |wire|;
    var all := wire + spill;
    assert wire' == all[..|wire'|] && spill' == all[|wire'|..];
  }

  lemma SplitFrame(before: Bytes, frame: Bytes, wire': Bytes) returns (k: nat)
    requires before <= wire' <= before + frame
    ensures k <= |frame| && wire' == before + frame[..k]
  {
    k := |wire'| - |before|;
    assert wire' == (before + frame)[..|wire'|];
  }

  lemma Unread(wire: Bytes, more: Bytes, read: nat)
    requires read <= |wire|
    ensures (wire + more)[read..] == wire[read..] + more
  {
  }

  /** State `s` after a run, as seen on the wire. */
  ghost predicate Seen(ch: Channel, run: seq<Step>, s: State, read: nat, wire: Bytes, spill: Bytes) {
    Reaches(ch, run, s) && read <= |wire| && s.spill == spill && s.pipe == wire[read..]
  }

  ghost predicate SameReceiver(s: State, t: State, body: Bytes) {
    t.posted == s.posted + [body] && t.rx == s.rx && t.log == s.log
  }

  lemma FlushRun(ch: Channel, run: seq<Step>, s: State, read: nat, wire: Bytes, spill: Bytes, wire': Bytes, spill': Bytes)
      returns (run': seq<Step>, s': State)
    requires Seen(ch, run, s, read, wire, spill) && s.sync.Idle? && wire <= wire' && wire' + spill' == wire + spill
    ensures Seen(ch, run', s', read, wire', spill') && s'.sync.Idle?
    ensures s'.posted == s.posted && s'.rx == s.rx && s'.log == s.log
  {
    var k := SplitFlush(wire, spill, wire', spill');
    Extend(ch, run, s, Step.Send(k));
    Unread(wire, spill[..k], read);
    run', s' := run + [Step.Send(k)], Next(ch, s, Step.Send(k));
  }

  lemma SendRun(ch: Channel, run: seq<Step>, s: State, read: nat, body: Bytes, wire: Bytes, spill: Bytes, wire': Bytes, spill': Bytes)
      returns (run': seq<Step>, s': State)
    requires Seen(ch, run, s, read, wire, spill) && s.sync.Idle? && |body| < 0x1_0000_0000
    requires wire <= wire' && wire' + spill' == wire + spill + Frame(body)
    ensures Seen(ch, run', s', read, wire', spill') && s'.sync.Idle? && SameReceiver(s, s', body)
  {
    Extend(ch, run, s, Post(body));
    var p := Next(ch, s, Post(body));
    Assoc(wire, spill, Frame(body));
    run', s' := FlushRun(ch, run + [Post(body)], p, read, wire, spill + Frame(body), wire', spill');
  }

  /** What a read does at the receiver. */
  ghost predicate Takes(ch: Channel, rx: Rx, log: seq<Consumed>, a: Action, rx': Rx, log': seq<Consumed>) {
    var p := Act(ch, rx, a);
    rx' == p.rest && log' == log + Tag(p.bodies, a.PingRead?)
  }

  lemma ReadRun(ch: Channel, run: seq<Step>, s: State, read: nat, n: nat, a: Action, wire: Bytes, spill: Bytes)
      returns (run': seq<Step>, s': State)
    requires Seen(ch, run, s, read, wire, spill) && s.sync.Idle? && 0 < n <= |wire| - read && a.chunk == wire[read..read + n]
    ensures Seen(ch, run', s', read + n, wire, spill) && s'.sync.Idle? && s'.posted == s.posted
    ensures Takes(ch, s.rx, s.log, a, s'.rx, s'.log)
  {
    assert wire[read..][..n] == wire[read..read + n] && wire[read..][n..] == wire[read + n..];
    var st := if a.PingRead? then PingRecv(n) else Recv(n);
    Extend(ch, run, s, st);
    run', s' := run + [st], Next(ch, s, st);
  }

  lemma DrainingRun(ch: Channel, run: seq<Step>, s: State, read: nat, body: Bytes, wire: Bytes, spill: Bytes, wire': Bytes, spill': Bytes)
      returns (run': seq<Step>, s': State)
    requires Seen(ch, run, s, read, wire, spill) && s.sync.Idle? && |body| < 0x1_0000_0000
    requires wire <= wire' && wire' + spill' == wire + spill
    ensures Seen(ch, run', s', read, wire', spill') && SameReceiver(s, s', body)
  {
    var k := SplitFlush(wire, spill, wire', spill');
    DrainRun(ch, run, s, body, k);
    Unread(wire, spill[..k], read);
    run', s' := run + [SyncBegin(body)] + [Step.Send(k)], Drained(s, body, k);
  }

  lemma SendingRun(ch: Channel, run: seq<Step>, s: State, read: nat, body: Bytes, wire: Bytes, spill: Bytes, wire': Bytes)
      returns (run': seq<Step>, s': State)
    requires Seen(ch, run, s, read, wire, spill) && s.sync.Idle? && |body| < 0x1_0000_0000
    requires wire + spill <= wire' <= wire + spill + Frame(body)
    ensures Seen(ch, run', s', read, wire', []) && SameReceiver(s, s', body)
    ensures s'.sync.Sending? && (wire' == wire + spill + Frame(body) ==> s'.sync.rest == [])
  {
    var k := SplitFrame(wire + spill, Frame(body), wire');
    EmitRun(ch, run, s, body, k);
    Unread(wire, spill + Frame(body)[..k], read);
    Assoc(wire, spill, Frame(body)[..k]);
    Assoc(s.pipe, spill, Frame(body)[..k]);
    run' := run + [SyncBegin(body)] + [Step.Send(|s.spill|)] + [SyncDrained] + [SyncSend(k)];
    s' := Emitted(s, body, k);
  }

  lemma SyncRun(ch: Channel, run: seq<Step>, s: State, read: nat, body: Bytes, wire: Bytes, spill: Bytes, wire': Bytes, spill': Bytes, ok: bool)
      returns (run': seq<Step>, s': State)
    requires Seen(ch, run, s, read, wire, spill) && s.sync.Idle? && |body| < 0x1_0000_0000
    requires wire <= wire' <= wire + spill + Frame(body)
    requires if spill' == [] then wire + spill <= wire' else wire' + spill' == wire + spill
    requires ok ==> spill' == [] && wire' == wire + spill + Frame(body)
    ensures Seen(ch, run', s', read, wire', spill') && SameReceiver(s, s', body) && (ok ==> s'.sync.Idle?)
  {
    if spill' == [] {
      run', s' := SendingRun(ch, run, s, read, body, wire, spill, wire');
      if ok {
        Extend(ch, run', s', SyncEnd);
        run', s' := run' + [SyncEnd], Next(ch, s', SyncEnd);
      }
    } else {
      run', s' := DrainingRun(ch, run, s, read, body, wire, spill, wire', spill');
    }
  }

  class Link {
    const ch: Channel
    const tx: TxBuffer
    const rx: RxBuffer
    var read: nat               // bytes of the wire that the receiver has read
    ghost var run: seq<Step>
    ghost var s: State

    /** The arrays hold what state `s` of a run of the protocol says. */
    ghost predicate Shows()
      reads this, tx, tx.buf, rx, rx.rbuf
    {
      && tx.Valid() && rx.Valid() && tx.buf != rx.rbuf
      && Seen(ch, run, s, read, tx.wire, tx.Spill()) && s.rx == rx.Abs() && s.log == rx.log
    }

    ghost predicate Valid()
      reads this, tx, tx.buf, rx, rx.rbuf
    {
      Shows() && s.sync.Idle?
    }

    constructor (ch: Channel)
      ensures Valid() && fresh(tx) && fresh(rx) && fresh(tx.buf) && fresh(rx.rbuf) && s == Protocol.Init && this.ch == ch
    {
      this.ch := ch;
      var t := new TxBuffer();
      var r := new RxBuffer();
      tx, rx, read, run, s := t, r, 0, [], Protocol.Init;
    }

    method Post(body: Bytes, os: seq<Outcome>)
      requires Valid() && |body| < 0x1_0000_0000
      modifies this`run, this`s, tx, tx.buf
      ensures Valid() && s.posted == old(s).posted + [body] && (tx.buf == old(tx.buf) || fresh(tx.buf))
    {
      ghost var wire, spill := tx.wire, tx.Spill();
      tx.Send(Frame(body), os);
      run, s := SendRun(ch, run, s, read, body, wire, spill, tx.wire, tx.Spill());
    }

    method Tick(os: seq<Outcome>)
      requires Valid()
      modifies this`run, this`s, tx, tx.buf
      ensures Valid() && s.posted == old(s).posted && tx.buf == old(tx.buf)
    {
      ghost var wire, spill := tx.wire, tx.Spill();
      tx.Tick(os);
      run, s := FlushRun(ch, run, s, read, wire, spill, tx.wire, tx.Spill());
    }

    /** It succeeds if and only if the rounds and then the calls have room for all older bytes
        and the frame; a failure leaves the call where it stood, because the peer has hung up. */
    method EmitSync(body: Bytes, rounds: seq<seq<Outcome>>, sends: seq<Outcome>) returns (ok: bool)
      requires Valid() && |body| < 0x1_0000_0000
      modifies this`run, this`s, tx, tx.buf
      ensures Shows() && s.posted == old(s).posted + [body] && tx.buf == old(tx.buf)
      ensures ok ==> Valid() && s.spill == []
      ensures ok <==> rounds != [] && Rooms(rounds) >= old(tx.len) && Room(sends) >= |Frame(body)|
      ensures if rounds != [] && Rooms(rounds) >= old(tx.len)
        then tx.Spill() == [] && tx.wire == old(tx.wire + tx.Spill()) + Frame(body)[..Min(|Frame(body)|, Room(sends))]
        else Flushed(old(tx.wire), old(tx.Spill()), tx.wire, tx.Spill(), Min(old(tx.len), Rooms(rounds)))
    {
      ghost var wire, spill := tx.wire, tx.Spill();
      ok := tx.EmitSync(Frame(body), rounds, sends);
      run, s := SyncRun(ch, run, s, read, body, wire, spill, tx.wire, tx.Spill(), ok);
    }

    method Take(a: Action, ghost t: State)
      requires rx.Valid() && Takes(ch, rx.Abs(), rx.log, a, t.rx, t.log)
      modifies rx, rx.rbuf
      ensures rx.Valid() && rx.Abs() == t.rx && rx.log == t.log && (rx.rbuf == old(rx.rbuf) || fresh(rx.rbuf))
    {
      rx.OnRead(ch, a);
    }

    /** The receiver reads `n` of the bytes that are there, in its pump or in a ping. */
    method Receive(n: nat, byPing: bool)
      requires Valid() && 0 < n <= |tx.wire| - read
      modifies this`read, this`run, this`s, rx, rx.rbuf
      ensures Valid() && s.posted == old(s).posted && (rx.rbuf == old(rx.rbuf) || fresh(rx.rbuf))
    {
      var chunk := tx.wire[read..read + n];
      var a := if byPing then PingRead(chunk) else Read(chunk);
      ghost var spill := tx.Spill();
      ghost var run', s' := ReadRun(ch, run, s, read, n, a, tx.wire, spill);
      Take(a, s');
      assert tx.Spill() == spill;
      read, run, s := read + n, run', s';
    }
  }

  /** At every moment the receiver's handler has got a prefix of the frames posted, whole and in
      order, and the bytes in its accumulator, on the wire and in the sender's spill buffer are
      those of all the others. */
  lemma ArraysLossless(l: Link)
    requires l.Valid()
    ensures Bodies(l.rx.log) <= l.s.posted && Sized(l.s.posted)
    ensures Held(l.rx.Abs()) + l.tx.wire[l.read..] + l.tx.Spill() == Serialize(l.s.posted[|l.rx.log|..])
  {
    LosslessFifo(l.ch, l.run, l.s);
    assert InFlight(l.s) == Held(l.s.rx) + l.s.pipe + l.s.spill;
  }
}
