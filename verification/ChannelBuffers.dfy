/** The two buffers of a channel end as src/ipc_process.c keeps them: the spill buffer with
    its flush timer, and the read accumulator, both updated in place in growing arrays.
    Their methods refine the byte-sequence steps of `Framing`, `Reader` and `Protocol`. */
module ChannelBuffers {
  import opened LittleEndian
  import opened Envelope
  import opened Framing
  import opened Reader

  /** What one `send(2)` call answers. */
  datatype Outcome = Took(n: nat) | Interrupted | WouldBlock

  /** Bytes taken by a flush of `len` bytes: interrupted calls are retried, the first
      would-block (or the end of the socket's room) stops it. */
  function Taken(os: seq<Outcome>, len: nat): (n: nat)
    ensures n <= len
  {
    if os == [] || len == 0 || os[0].WouldBlock? then 0
    else if os[0].Interrupted? then Taken(os[1..], len)
    else var k := if os[0].n <= len then os[0].n else len; k + Taken(os[1..], len - k)
  }

  // ---------------------------------------------------------------- what the socket takes

  function Min(a: nat, b: nat): nat {
    if a < b then a else b
  }

  /** The bytes that calls with these answers have room for; refused calls have none. */
  function Room(os: seq<Outcome>): nat {
    if os == [] then 0 else (if os[0].Took? then os[0].n else 0) + Room(os[1..])
  }

  /** The answers before the first would-block. */
  function Unblocked(os: seq<Outcome>): seq<Outcome> {
    if os == [] || os[0].WouldBlock? then [] else [os[0]] + Unblocked(os[1..])
  }

  /** The same for one flush after another. */
  function Rooms(rounds: seq<seq<Outcome>>): nat {
    if rounds == [] then 0 else Rooms(rounds[..|rounds| - 1]) + Room(Unblocked(rounds[|rounds| - 1]))
  }

  /** A flush takes what there is, or what there is room for before the first would-block. */
  lemma {:induction false} TakenIs(os: seq<Outcome>, len: nat)
    ensures Taken(os, len) == Min(len, Room(Unblocked(os)))
  {
    if os != [] && !os[0].WouldBlock? {
      var k := if os[0].Interrupted? then 0 else Min(os[0].n, len);
      TakenIs(os[1..], len - k);
      assert Unblocked(os)[0] == os[0] && Unblocked(os)[1..] == Unblocked(os[1..]);
    }
  }

  lemma {:induction false} RoomSnoc(os: seq<Outcome>, o: Outcome)
    ensures Room(os + [o]) == Room(os) + if o.Took? then o.n else 0
  {
    if os == [] {
      assert ([o])[1..] == [] && [] + [o] == [o];
    } else {
      RoomSnoc(os[1..], o);
      assert (os + [o])[0] == os[0] && (os + [o])[1..] == os[1..] + [o];
    }
  }

  lemma {:induction false} RoomPrefix(os: seq<Outcome>, i: nat)
    requires i <= |os|
    ensures Room(os[..i]) <= Room(os)
    decreases |os| - i
  {
    if i == |os| {
      assert os[..i] == os;
    } else {
      RoomNext(os, i);
      RoomPrefix(os, i + 1);
    }
  }

  lemma RoomNext(os: seq<Outcome>, i: nat)
    requires i < |os|
    ensures Room(os[..i + 1]) == Room(os[..i]) + if os[i].Took? then os[i].n else 0
  {
    assert os[..i + 1] == os[..i] + [os[i]];
    RoomSnoc(os[..i], os[i]);
  }

  lemma RoomsNext(rounds: seq<seq<Outcome>>, i: nat)
    requires i < |rounds|
    ensures Rooms(rounds[..i + 1]) == Rooms(rounds[..i]) + Room(Unblocked(rounds[i]))
  {
    assert rounds[..i + 1][..i] == rounds[..i];
  }

  lemma {:induction false} RoomsPrefix(rounds: seq<seq<Outcome>>, i: nat)
    requires i <= |rounds|
    ensures Rooms(rounds[..i]) <= Rooms(rounds)
    decreases |rounds| - i
  {
    if i == |rounds| {
      assert rounds[..i] == rounds;
    } else {
      RoomsNext(rounds, i);
      RoomsPrefix(rounds, i + 1);
    }
  }

  /** From one moment to a later one the first `d` queued bytes moved to the wire. */
  ghost predicate Flushed(wire: Bytes, spill: Bytes, wire': Bytes, spill': Bytes, d: nat) {
    d <= |spill| && wire' == wire + spill[..d] && spill' == spill[d..]
  }

  lemma FlushedKeeps(wire: Bytes, spill: Bytes, wire': Bytes, spill': Bytes, d: nat)
    requires Flushed(wire, spill, wire', spill', d)
    ensures wire' + spill' == wire + spill && wire <= wire'
  {
    assert spill == spill[..d] + spill[d..];
  }

  lemma FrameOut(before: Bytes, frame: Bytes, off: nat)
    requires off <= |frame|
    ensures before <= before + frame[..off] <= before + frame && (off == |frame| ==> frame[..off] == frame)
  {
    assert frame == frame[..off] + frame[off..];
    assert before + frame == before + frame[..off] + frame[off..];
  }

  lemma FlushedMore(wire: Bytes, spill: Bytes, wire1: Bytes, spill1: Bytes, d: nat, wire2: Bytes, spill2: Bytes, n: nat)
    requires Flushed(wire, spill, wire1, spill1, d) && Flushed(wire1, spill1, wire2, spill2, n)
    ensures Flushed(wire, spill, wire2, spill2, d + n)
  {
    assert spill[..d + n] == spill[..d] + spill1[..n];
  }

  /** After the first `i` rounds of the drain. */
  ghost predicate DrainedFor(wire: Bytes, spill: Bytes, rounds: seq<seq<Outcome>>, i: nat, wire': Bytes, spill': Bytes) {
    i <= |rounds| && Flushed(wire, spill, wire', spill', Min(|spill|, Rooms(rounds[..i])))
  }

  lemma DrainRound(wire: Bytes, spill: Bytes, rounds: seq<seq<Outcome>>, i: nat, wire1: Bytes, spill1: Bytes, wire2: Bytes, spill2: Bytes)
    requires i < |rounds| && DrainedFor(wire, spill, rounds, i, wire1, spill1)
    requires Flushed(wire1, spill1, wire2, spill2, Taken(rounds[i], |spill1|))
    ensures DrainedFor(wire, spill, rounds, i + 1, wire2, spill2)
  {
    var n := Taken(rounds[i], |spill1|);
    TakenIs(rounds[i], |spill1|);
    RoomsNext(rounds, i);
    FlushedMore(wire, spill, wire1, spill1, Min(|spill|, Rooms(rounds[..i])), wire2, spill2, n);
  }

  /** How the drain ends: with an empty buffer after some round, or when the rounds are over. */
  lemma DrainEnds(wire: Bytes, spill: Bytes, rounds: seq<seq<Outcome>>, i: nat, wire': Bytes, spill': Bytes, drained: bool)
    requires DrainedFor(wire, spill, rounds, i, wire', spill') && (drained <==> i > 0 && spill' == []) && (drained || i == |rounds|)
    ensures drained <==> rounds != [] && Rooms(rounds) >= |spill|
    ensures Flushed(wire, spill, wire', spill', Min(|spill|, Rooms(rounds)))
  {
    RoomsPrefix(rounds, i);
    assert rounds[..|rounds|] == rounds;
  }

  lemma TakenStep(os: seq<Outcome>, i: nat, len: nat)
    requires i < |os| && 0 < len && !os[i].WouldBlock?
    ensures var k := if os[i].Interrupted? then 0 else if os[i].n <= len then os[i].n else len;
            Taken(os[i..], len) == k + Taken(os[i + 1..], len - k)
  {
    assert os[i..][1..] == os[i + 1..];
  }

  lemma SplitWire(wire: Bytes, spill: Bytes, frame: Bytes, n: nat)
    requires n <= |spill| + |frame|
    ensures wire + (spill + frame)[..n] + (spill + frame)[n..] == wire + spill + frame
  {
  }

  class TxBuffer {
    var buf: array<byte>
    var len: nat
    var timerActive: bool
    var wire: Bytes          // everything the socket has taken, in order

    ghost predicate Valid()
      reads this
    {
      len <= buf.Length && (timerActive <==> len > 0)
    }

    ghost function Spill(): Bytes
      reads this, buf
      requires len <= buf.Length
    {
      buf[..len]
    }

    constructor ()
      ensures Valid() && fresh(buf) && Spill() == [] && wire == []
    {
      buf := new byte[0];
      len := 0;
      timerActive := false;
      wire := [];
    }

    /** The send loop: retry interrupted calls, stop at the first would-block. */
    method SendLoop(os: seq<Outcome>) returns (off: nat)
      requires len <= buf.Length
      modifies this`wire
      ensures off == Taken(os, len) && wire == old(wire) + buf[..off]
    {
      off := 0;
      var i := 0;
      while off < len && i < |os| && !os[i].WouldBlock?
        invariant 0 <= off <= len && 0 <= i <= |os|
        invariant Taken(os, len) == off + Taken(os[i..], len - off)
        invariant wire == old(wire) + buf[..off]
        decreases |os| - i
      {
        TakenStep(os, i, len - off);
        if os[i].Took? {
          var n := if os[i].n <= len - off then os[i].n else len - off;
          assert buf[..off + n] == buf[..off] + buf[off..off + n];
          wire := wire + buf[off..off + n];
          off := off + n;
        }
        i := i + 1;
      }
    }

    /** `qz_tx_flush`: some prefix of the spill buffer moves to the socket, the rest stays,
        in order; the timer stops exactly when nothing is left. */
    method Flush(os: seq<Outcome>)
      requires len <= buf.Length && (timerActive ==> len > 0)
      modifies this`len, this`timerActive, this`wire, buf
      ensures len <= buf.Length && len == old(len) - Taken(os, old(len))
      ensures wire == old(wire + buf[..Taken(os, len)]) && Spill() == old(buf[Taken(os, len)..len])
      ensures timerActive == (old(timerActive) && len > 0)
    {
      if len == 0 {
        return;
      }
      var off := SendLoop(os);
      if off > 0 {
        len := len - off;
        if len > 0 {
          Move(buf, 0, off, len);
        }
      }
      assert buf[..len] == old(buf[Taken(os, len)..len]);
      if len == 0 && timerActive {
        timerActive := false;
      }
    }

    method Append(frame: Bytes)
      requires Valid()
      modifies this`buf, this`len, buf
      ensures len == old(len) + |frame| <= buf.Length && (buf == old(buf) || fresh(buf))
      ensures Spill() == old(Spill()) + frame
    {
      var nb := Grown(buf, len, len + |frame|);
      buf := nb;
      Copy(buf, len, frame);
      len := len + |frame|;
      assert buf[..len] == old(buf[..len]) + frame;
    }

    /** `qz_tx_send`: append, flush, and keep the timer running exactly while bytes remain,
        so that no spilled byte waits without a flush to come. */
    method Send(frame: Bytes, os: seq<Outcome>)
      requires Valid()
      modifies this, buf
      ensures Valid() && (buf == old(buf) || fresh(buf))
      ensures var n := Taken(os, old(len) + |frame|);
              wire == old(wire) + (old(Spill()) + frame)[..n] && Spill() == (old(Spill()) + frame)[n..]
      ensures wire + Spill() == old(wire + Spill()) + frame && old(wire) <= wire
    {
      SplitWire(wire, Spill(), frame, Taken(os, len + |frame|));
      Append(frame);
      ghost var n := Taken(os, len);
      assert buf[..n] == Spill()[..n] && buf[n..len] == Spill()[n..];
      Flush(os);
      if len > 0 && !timerActive {
        timerActive := true;
      }
    }

    /** The send loop of `emit_sync` for its own frame: every refusal is retried, and the
        loop ends early only when the peer hangs up (`os` runs out). */
    method SendFrame(frame: Bytes, os: seq<Outcome>) returns (off: nat)
      modifies this`wire
      ensures off == Min(|frame|, Room(os)) && wire == old(wire) + frame[..off]
    {
      off := 0;
      var i := 0;
      while off < |frame| && i < |os|
        invariant 0 <= i <= |os| && off == Min(|frame|, Room(os[..i]))
        invariant wire == old(wire) + frame[..off]
        decreases |os| - i
      {
        RoomNext(os, i);
        if os[i].Took? {
          var n := if os[i].n <= |frame| - off then os[i].n else |frame| - off;
          assert frame[..off + n] == frame[..off] + frame[off..off + n];
          wire := wire + frame[off..off + n];
          off := off + n;
        }
        i := i + 1;
      }
      RoomPrefix(os, i);
      assert os[..|os|] == os;
    }

    /** `qz_ipc_child_emit_sync`: drain the spill buffer first (one flush per writable poll in
        `rounds`; the list ends when the peer hangs up), then block until the frame is out,
        retrying refused calls. It succeeds if and only if the rounds have room for all older
        bytes, at least one of them happened, and the calls after them have room for the frame;
        either way what went out is exactly what there was room for, older bytes first. */
    method EmitSync(frame: Bytes, rounds: seq<seq<Outcome>>, sends: seq<Outcome>) returns (ok: bool)
      requires Valid()
      modifies this, buf
      ensures Valid() && buf == old(buf)
      ensures ok ==> Spill() == [] && wire == old(wire + Spill()) + frame
      ensures !ok ==> wire <= old(wire + Spill()) + frame
      ensures Spill() != [] ==> wire + Spill() == old(wire + Spill())
      ensures old(wire) <= wire && (Spill() == [] ==> old(wire + Spill()) <= wire)
      ensures ok <==> rounds != [] && Rooms(rounds) >= old(len) && Room(sends) >= |frame|
      ensures if rounds != [] && Rooms(rounds) >= old(len)
        then Spill() == [] && wire == old(wire + Spill()) + frame[..Min(|frame|, Room(sends))]
        else Flushed(old(wire), old(Spill()), wire, Spill(), Min(old(len), Rooms(rounds)))
    {
      ghost var wire0, spill0 := wire, Spill();
      var drained := DrainAll(rounds);
      FlushedKeeps(wire0, spill0, wire, Spill(), Min(|spill0|, Rooms(rounds)));
      if !drained {
        FrameOut(wire0 + spill0, frame, 0);
        return false;
      }
      assert wire == wire0 + spill0;
      var off := SendFrame(frame, sends);
      FrameOut(wire0 + spill0, frame, off);
      ok := off == |frame|;
    }

    /** The first loop of `qz_ipc_child_emit_sync`. */
    method DrainAll(rounds: seq<seq<Outcome>>) returns (drained: bool)
      requires Valid()
      modifies this`len, this`timerActive, this`wire, buf
      ensures Valid() && (drained <==> rounds != [] && Rooms(rounds) >= old(len))
      ensures Flushed(old(wire), old(Spill()), wire, Spill(), Min(old(len), Rooms(rounds)))
    {
      ghost var wire0, spill0 := wire, Spill();
      var i := 0;
      drained := false;
      assert spill0[..0] == [] && spill0[0..] == spill0 && wire0 + [] == wire0;
      while i < |rounds| && !drained
        invariant 0 <= i <= |rounds| && Valid() && DrainedFor(wire0, spill0, rounds, i, wire, Spill())
        invariant drained <==> i > 0 && Spill() == []
        decreases |rounds| - i
      {
        ghost var wire1, spill1 := wire, Spill();
        Flush(rounds[i]);
        DrainRound(wire0, spill0, rounds, i, wire1, spill1, wire, Spill());
        drained := len == 0;
        i := i + 1;
      }
      DrainEnds(wire0, spill0, rounds, i, wire, Spill(), drained);
    }

    /** A timer tick. */
    method Tick(os: seq<Outcome>)
      requires Valid()
      modifies this, buf
      ensures Valid() && buf == old(buf)
      ensures wire + Spill() == old(wire + Spill()) && old(wire) <= wire
      ensures Flushed(old(wire), old(Spill()), wire, Spill(), Min(old(len), Room(Unblocked(os))))
    {
      ghost var wire0, spill0, n := wire, Spill(), Taken(os, len);
      TakenIs(os, len);
      Flush(os);
      assert Spill() == spill0[n..];
      FlushedKeeps(wire0, spill0, wire, Spill(), n);
    }
  }

  class RxBuffer {
    var rbuf: array<byte>
    var rbufLen: nat
    var frameLen: uint32
    var dead: bool
    var log: seq<Consumed>   // frames handed to the handler, oldest first

    ghost predicate Valid()
      reads this
    {
      rbufLen <= rbuf.Length
    }

    ghost function Abs(): Rx
      reads this, rbuf
      requires Valid()
    {
      Rx(rbuf[..rbufLen], frameLen, dead)
    }

    constructor ()
      ensures Valid() && fresh(rbuf) && Abs() == RxInit && log == []
    {
      rbuf := new byte[0];
      rbufLen, frameLen, dead, log := 0, 0, false, [];
    }

    /** Drop the first `n` accumulated bytes by moving the rest down. */
    method Consume(n: nat)
      requires Valid() && n <= rbufLen
      modifies this`rbufLen, rbuf
      ensures Valid() && Abs() == old(Abs()).(acc := old(Abs()).acc[n..])
    {
      rbufLen := rbufLen - n;
      if rbufLen > 0 {
        Move(rbuf, 0, n, rbufLen);
      }
      assert rbuf[..rbufLen] == old(rbuf[..rbufLen])[n..];
    }

    /** The header half of an iteration; `ready` says that a whole body is there. */
    method Header() returns (ready: bool)
      requires Valid()
      modifies this`rbufLen, this`frameLen, this`dead, rbuf
      ensures Valid() && TakeHeader(old(Abs())) == if ready then Body(Abs()) else Wait(Abs())
    {
      if dead {
        return false;
      }
      if frameLen == 0 {
        if rbufLen < 4 {
          return false;
        }
        frameLen := Rd32(rbuf[..rbufLen], 0);
        Consume(4);
        if frameLen > MAX_FRAME {
          dead := true;
          return false;
        }
      }
      return rbufLen >= frameLen;
    }

    /** Hand a complete frame to the handler and remove it from the accumulator. */
    method HandOver(byPing: bool)
      requires Valid() && frameLen <= rbufLen
      modifies this`rbufLen, this`frameLen, this`log, rbuf
      ensures Valid() && Abs() == DropBody(old(Abs()))
      ensures log == old(log) + [Consumed(BodyOf(old(Abs())), byPing)]
    {
      var body := rbuf[..frameLen];
      assert body == BodyOf(Abs());
      log := log + [Consumed(body, byPing)];
      Consume(frameLen);
      frameLen := 0;
    }

    /** One turn of the loop of `proc_process_rx`. */
    method Turn(ghost start: Rx, ghost done: seq<Bytes>, ghost base: seq<Consumed>) returns (ready: bool, ghost more: seq<Bytes>)
      requires Valid() && frameLen <= rbufLen && log == base + Tag(done, false)
      requires AfterTurn(done, true, Abs()) == Parse(start)
      modifies this`rbufLen, this`frameLen, this`dead, this`log, rbuf
      ensures Valid() && (ready ==> frameLen <= rbufLen && rbufLen - frameLen < old(rbufLen - frameLen))
      ensures AfterTurn(more, ready, Abs()) == Parse(start)
      ensures log == base + Tag(more, false)
    {
      more := done + [BodyOf(Abs())];
      TagSnoc(done, BodyOf(Abs()), false);
      HandOver(false);
      StepParse(start, more, Abs());
      ready := Header();
    }

    /** `proc_process_rx`. */
    method ProcessRx()
      requires Valid()
      modifies this`rbufLen, this`frameLen, this`dead, this`log, rbuf
      ensures Valid()
      ensures var p := Parse(old(Abs())); Abs() == p.rest && log == old(log) + Tag(p.bodies, false)
    {
      ghost var done: seq<Bytes> := [];
      ghost var start := Abs();
      ThenThen([], [], Parse(start));
      StepParse(start, [], start);
      var ready := Header();
      while ready
        invariant Valid() && (ready ==> frameLen <= rbufLen)
        invariant AfterTurn(done, ready, Abs()) == Parse(start)
        invariant log == old(log) + Tag(done, false)
        decreases ready, rbufLen - frameLen
      {
        ready, done := Turn(start, done, old(log));
      }
    }

    /** The header half of an iteration inside `qz_proc_ping`; stops before a non-PONG. */
    method PingHeader(ch: Channel) returns (ready: bool)
      requires Valid()
      modifies this`rbufLen, this`frameLen, this`dead, rbuf
      ensures Valid() && Abs() == TakeHeader(old(Abs())).rx && ready == Swallows(PongTest(ch), TakeHeader(old(Abs())))
    {
      ready := Header();
      if ready && frameLen > 0 {
        assert rbuf[..frameLen] == BodyOf(Abs());
        ready := IsPong(ch, rbuf[..frameLen]);
      }
    }

    /** One turn of the parse loop inside `qz_proc_ping`. */
    method PingTurn(ch: Channel, ghost start: Rx, ghost done: seq<Bytes>, ghost base: seq<Consumed>) returns (ready: bool, ghost more: seq<Bytes>)
      requires Valid() && frameLen <= rbufLen && log == base + Tag(done, true)
      requires AfterPingTurn(PongTest(ch), done, true, Abs()) == PingParse(PongTest(ch), start)
      modifies this`rbufLen, this`frameLen, this`dead, this`log, rbuf
      ensures Valid() && (ready ==> frameLen <= rbufLen && rbufLen - frameLen < old(rbufLen - frameLen))
      ensures AfterPingTurn(PongTest(ch), more, ready, Abs()) == PingParse(PongTest(ch), start)
      ensures log == base + Tag(more, true)
    {
      more := done + [BodyOf(Abs())];
      TagSnoc(done, BodyOf(Abs()), true);
      HandOver(true);
      StepPing(PongTest(ch), start, more, Abs());
      ready := PingHeader(ch);
    }

    /** The parse loop inside `qz_proc_ping`. */
    method PingProcess(ch: Channel)
      requires Valid()
      modifies this`rbufLen, this`frameLen, this`dead, this`log, rbuf
      ensures Valid()
      ensures var p := PingParse(PongTest(ch), old(Abs())); Abs() == p.rest && log == old(log) + Tag(p.bodies, true)
    {
      ghost var done: seq<Bytes> := [];
      ghost var start := Abs();
      ThenThen([], [], PingParse(PongTest(ch), start));
      StepPing(PongTest(ch), start, [], start);
      var ready := PingHeader(ch);
      while ready
        invariant Valid() && (ready ==> frameLen <= rbufLen)
        invariant AfterPingTurn(PongTest(ch), done, ready, Abs()) == PingParse(PongTest(ch), start)
        invariant log == old(log) + Tag(done, true)
        decreases ready, rbufLen - frameLen
      {
        ready, done := PingTurn(ch, start, done, old(log));
      }
    }

    method Append(chunk: Bytes)
      requires Valid()
      modifies this`rbuf, this`rbufLen, rbuf
      ensures Valid() && (rbuf == old(rbuf) || fresh(rbuf))
      ensures Abs() == Framing.Append(old(Abs()), chunk)
    {
      var nb := Grown(rbuf, rbufLen, rbufLen + |chunk|);
      rbuf := nb;
      Copy(rbuf, rbufLen, chunk);
      rbufLen := rbufLen + |chunk|;
      assert rbuf[..rbufLen] == old(rbuf[..rbufLen]) + chunk;
    }

    /** `proc_read_cb`, or one read inside `qz_proc_ping`. */
    method OnRead(ch: Channel, a: Action)
      requires Valid()
      modifies this, rbuf
      ensures Valid() && (rbuf == old(rbuf) || fresh(rbuf))
      ensures var p := Act(ch, old(Abs()), a); Abs() == p.rest && log == old(log) + Tag(p.bodies, a.PingRead?)
    {
      Append(a.chunk);
      if a.PingRead? {
        PingProcess(ch);
      } else {
        ProcessRx();
      }
    }
  }

  /** The encoding half of `proc_frame_send`: a fresh buffer whose padding is whatever was
      there, and the length in front. */
  method MakeFrame(env: Env) returns (ok: bool, frame: Bytes, ghost body: Bytes)
    requires Encodable(env)
    ensures ok <==> FIXED_SIZE + |env.payload| <= 0xFFFF_FFFB
    ensures ok ==> Canonical(body, env) && frame == Frame(body)
  {
    frame, body := [], [];
    var cap := FIXED_SIZE + |env.payload|;
    var envBuf := new byte[cap];
    var n := Encode(envBuf, cap, env);
    if n == 0 || n > 0xFFFF_FFFF - 4 {
      return false, frame, body;
    }
    body := envBuf[..n];
    var out := new byte[n + 4];
    Wr32(out, 0, n);
    Copy(out, 4, envBuf[..n]);
    FrameAt(out[..], body);
    return true, out[..], body;
  }

  lemma FrameAt(b: Bytes, body: Bytes)
    requires |body| < 0x1_0000_0000 && |b| == 4 + |body| && At(b, 0, Le32(|body|)) && At(b, 4, body)
    ensures b == Frame(body)
  {
  }

  /** `proc_frame_send`: the frame of a canonical encoding goes into the spill queue. */
  method FrameSend(tx: TxBuffer, env: Env, os: seq<Outcome>) returns (ok: bool, ghost body: Bytes)
    requires tx.Valid() && Encodable(env)
    modifies tx, tx.buf
    ensures tx.Valid() && (tx.buf == old(tx.buf) || fresh(tx.buf))
    ensures ok <==> FIXED_SIZE + |env.payload| <= 0xFFFF_FFFB
    ensures ok ==> Canonical(body, env) && tx.wire + tx.Spill() == old(tx.wire + tx.Spill()) + Frame(body)
    ensures !ok ==> tx.wire + tx.Spill() == old(tx.wire + tx.Spill())
  {
    var frame;
    ok, frame, body := MakeFrame(env);
    if ok {
      tx.Send(frame, os);
    }
  }

  /** What a loop will have handed over, given `done` so far and whether a body is ready. */
  ghost function AfterTurn(done: seq<Bytes>, ready: bool, rx: Rx): Parsed
    requires ready ==> rx.frameLen <= |rx.acc|
  {
    if ready then Then(done + [BodyOf(rx)], Parse(DropBody(rx))) else Parsed(done, rx)
  }

  ghost function AfterPingTurn(pong: Bytes -> bool, done: seq<Bytes>, ready: bool, rx: Rx): Parsed
    requires ready ==> rx.frameLen <= |rx.acc|
  {
    if ready then Then(done + [BodyOf(rx)], PingParse(pong, DropBody(rx))) else Parsed(done, rx)
  }

  lemma TagSnoc(done: seq<Bytes>, body: Bytes, byPing: bool)
    ensures Tag(done + [body], byPing) == Tag(done, byPing) + [Consumed(body, byPing)]
  {
  }

  lemma StepParse(start: Rx, done: seq<Bytes>, rx: Rx)
    requires Parse(start) == Then(done, Parse(rx))
    ensures var t := TakeHeader(rx); AfterTurn(done, t.Body?, t.rx) == Parse(start)
  {
    var t := TakeHeader(rx);
    if t.Body? {
      ParseBody(rx);
      ThenThen(done, [BodyOf(t.rx)], Parse(DropBody(t.rx)));
    }
  }

  lemma StepPing(pong: Bytes -> bool, start: Rx, done: seq<Bytes>, rx: Rx)
    requires PingParse(pong, start) == Then(done, PingParse(pong, rx))
    ensures var t := TakeHeader(rx); AfterPingTurn(pong, done, Swallows(pong, t), t.rx) == PingParse(pong, start)
  {
    var t := TakeHeader(rx);
    if Swallows(pong, t) {
      PingBody(pong, rx);
      ThenThen(done, [BodyOf(t.rx)], PingParse(pong, DropBody(t.rx)));
    }
  }
}
