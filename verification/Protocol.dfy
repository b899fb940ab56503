/** The inter-process channel of src/ipc_process.c as a transition system: posts into the
    spill buffer, partial sends, the blocking `emit_sync`, reads of any size and ping
    windows, in every interleaving the two single-threaded ends allow. */
module Protocol {
  import opened LittleEndian
  import opened Envelope
  import opened Framing
  import opened Reader
  import opened Wrappers

  /** `qz_ipc_child_emit_sync` in progress: first it drains the spill buffer, then it sends
      its own frame. Nothing else runs on the sending thread meanwhile. */
  datatype Sync = Idle | Draining(frame: Bytes) | Sending(rest: Bytes)

  /** posted: every envelope given to the channel, in call order.  spill: `tx->buf[off..len]`.
      pipe: bytes the socket holds.  log: frames the receiver consumed. */
  datatype State = State(
    posted: seq<Bytes>, spill: Bytes, sync: Sync, pipe: Bytes, rx: Rx, log: seq<Consumed>)

  datatype Step =
    | Post(body: Bytes)        // qz_tx_send appends the frame
    | Send(n: nat)             // one send(2) in qz_tx_flush took n bytes (0 = EINTR or EAGAIN)
    | SyncBegin(body: Bytes)
    | SyncDrained
    | SyncSend(n: nat)         // one send(2) in emit_sync
    | SyncEnd
    | Recv(n: nat)             // proc_read_cb got n bytes
    | PingRecv(n: nat)         // a read inside qz_proc_ping got n bytes

  const Init := State([], [], Idle, [], RxInit, [])

  predicate Enabled(s: State, st: Step) {
    match st
    case Post(body) => s.sync.Idle? && |body| < 0x1_0000_0000
    case Send(n) => !s.sync.Sending? && n <= |s.spill|
    case SyncBegin(body) => s.sync.Idle? && |body| < 0x1_0000_0000
    case SyncDrained => s.sync.Draining? && s.spill == []
    case SyncSend(n) => s.sync.Sending? && n <= |s.sync.rest|
    case SyncEnd => s.sync.Sending? && s.sync.rest == []
    case Recv(n) => 0 < n <= |s.pipe|
    case PingRecv(n) => 0 < n <= |s.pipe|
  }

  function Receive(ch: Channel, s: State, n: nat, byPing: bool): State
    requires n <= |s.pipe|
  {
    var p := Act(ch, s.rx, if byPing then PingRead(s.pipe[..n]) else Read(s.pipe[..n]));
    s.(pipe := s.pipe[n..], rx := p.rest, log := s.log + Tag(p.bodies, byPing))
  }

  function Next(ch: Channel, s: State, st: Step): State
    requires Enabled(s, st)
  {
    match st
    case Post(body) => s.(posted := s.posted + [body], spill := s.spill + Frame(body))
    case Send(n) => s.(spill := s.spill[n..], pipe := s.pipe + s.spill[..n])
    case SyncBegin(body) => s.(posted := s.posted + [body], sync := Draining(Frame(body)))
    case SyncDrained => s.(sync := Sending(s.sync.frame))
    case SyncSend(n) => s.(sync := Sending(s.sync.rest[n..]), pipe := s.pipe + s.sync.rest[..n])
    case SyncEnd => s.(sync := Idle)
    case Recv(n) => Receive(ch, s, n, false)
    case PingRecv(n) => Receive(ch, s, n, true)
  }

  /** `s` is reached from the initial state by the steps `run`, each enabled in its turn. */
  ghost predicate Reaches(ch: Channel, run: seq<Step>, s: State)
    decreases |run|
  {
    if run == [] then s == Init else
    var last := run[|run| - 1];
    exists p :: Reaches(ch, run[..|run| - 1], p) && Enabled(p, last) && s == Next(ch, p, last)
  }

  // ---------------------------------------------------------------- the invariant

  function SyncBytes(s: Sync): Bytes {
    match s
    case Idle => []
    case Draining(frame) => frame
    case Sending(rest) => rest
  }

  /** Every byte in flight, from the receiver's end back to the sender. */
  function InFlight(s: State): Bytes {
    Held(s.rx) + s.pipe + s.spill + SyncBytes(s.sync)
  }

  predicate Inv(s: State) {
    && Sized(s.posted) && Sized(Bodies(s.log))
    && Serialize(Bodies(s.log)) + InFlight(s) == Serialize(s.posted)
    && (s.sync.Sending? ==> s.spill == [])
    && (s.rx.dead <==> s.rx.frameLen > MAX_FRAME)
  }

  lemma {:induction false} ParseDead(rx: Rx)
    requires rx.dead <==> rx.frameLen > MAX_FRAME
    ensures var r := Parse(rx).rest; r.dead <==> r.frameLen > MAX_FRAME
    decreases |rx.acc|
  {
    var t := TakeHeader(rx);
    if t.Body? {
      ParseDead(DropBody(t.rx));
    }
  }

  lemma {:induction false} PingDead(pong: Bytes -> bool, rx: Rx)
    requires rx.dead <==> rx.frameLen > MAX_FRAME
    ensures var r := PingParse(pong, rx).rest; r.dead <==> r.frameLen > MAX_FRAME
    decreases |rx.acc|
  {
    var t := TakeHeader(rx);
    if Swallows(pong, t) {
      PingDead(pong, DropBody(t.rx));
    }
  }

  /** A ping window conserves bytes just as the pump does. */
  lemma {:induction false} PingHeld(pong: Bytes -> bool, rx: Rx)
    ensures Sized(PingParse(pong, rx).bodies)
    ensures Held(rx) == Serialize(PingParse(pong, rx).bodies) + Held(PingParse(pong, rx).rest)
    decreases |rx.acc|
  {
    TakeHeaderHeld(rx);
    var t := TakeHeader(rx);
    if Swallows(pong, t) {
      PingHeld(pong, DropBody(t.rx));
      PingBody(pong, rx);
      SerializeCons(BodyOf(t.rx), PingParse(pong, DropBody(t.rx)).bodies);
      var p := PingParse(pong, DropBody(t.rx));
      Assoc(Frame(BodyOf(t.rx)), Serialize(p.bodies), Held(p.rest));
    }
  }

  lemma SerializeCons(body: Bytes, rest: seq<Bytes>)
    requires |body| < 0x1_0000_0000 && Sized(rest)
    ensures Sized([body] + rest) && Serialize([body] + rest) == Frame(body) + Serialize(rest)
  {
    assert ([body] + rest)[1..] == rest;
  }

  lemma ActHeld(ch: Channel, rx: Rx, a: Action)
    ensures var p := Act(ch, rx, a);
            Sized(p.bodies) && Held(rx) + a.chunk == Serialize(p.bodies) + Held(p.rest)
  {
    assert Held(Append(rx, a.chunk)) == Held(rx) + a.chunk;
    if a.PingRead? { PingHeld(PongTest(ch), Append(rx, a.chunk)); } else { ParseHeld(Append(rx, a.chunk)); }
  }

  lemma ActDead(ch: Channel, rx: Rx, a: Action)
    requires rx.dead <==> rx.frameLen > MAX_FRAME
    ensures var r := Act(ch, rx, a).rest; r.dead <==> r.frameLen > MAX_FRAME
  {
    if a.PingRead? { PingDead(PongTest(ch), Append(rx, a.chunk)); } else { ParseDead(Append(rx, a.chunk)); }
  }

  lemma ReceiveBytes(ch: Channel, s: State, n: nat, byPing: bool)
    requires n <= |s.pipe| && Sized(Bodies(s.log))
    ensures var s' := Receive(ch, s, n, byPing);
            Sized(Bodies(s'.log)) && Serialize(Bodies(s'.log)) + InFlight(s') == Serialize(Bodies(s.log)) + InFlight(s)
  {
    var a := if byPing then PingRead(s.pipe[..n]) else Read(s.pipe[..n]);
    var p := Act(ch, s.rx, a);
    ActHeld(ch, s.rx, a);
    BodiesAppend(s.log, p.bodies, byPing);
    SerializeConcat(Bodies(s.log), p.bodies);
    var tail := s.spill + SyncBytes(s.sync);
    Regroup(Serialize(Bodies(s.log)), Held(s.rx), s.pipe, n, Serialize(p.bodies), Held(p.rest), tail);
    Assoc(Held(s.rx) + s.pipe, s.spill, SyncBytes(s.sync));
    Assoc(Held(p.rest) + s.pipe[n..], s.spill, SyncBytes(s.sync));
  }

  lemma ReceiveInv(ch: Channel, s: State, n: nat, byPing: bool)
    requires Inv(s) && n <= |s.pipe|
    ensures Inv(Receive(ch, s, n, byPing))
  {
    ReceiveBytes(ch, s, n, byPing);
    ActDead(ch, s.rx, if byPing then PingRead(s.pipe[..n]) else Read(s.pipe[..n]));
  }

  lemma Regroup(done: Bytes, held: Bytes, pipe: Bytes, n: nat, out: Bytes, held': Bytes, tail: Bytes)
    requires n <= |pipe| && held + pipe[..n] == out + held'
    ensures done + (held + pipe + tail) == done + out + (held' + pipe[n..] + tail)
  {
    assert pipe == pipe[..n] + pipe[n..];
    assert held + pipe + tail == (held + pipe[..n]) + pipe[n..] + tail;
    assert (out + held') + pipe[n..] + tail == out + (held' + pipe[n..] + tail);
  }

  lemma BodiesAppend(log: seq<Consumed>, bodies: seq<Bytes>, byPing: bool)
    ensures Bodies(log + Tag(bodies, byPing)) == Bodies(log) + bodies
  {
  }

  lemma PostedInv(posted: seq<Bytes>, body: Bytes)
    requires Sized(posted) && |body| < 0x1_0000_0000
    ensures Sized(posted + [body]) && Serialize(posted + [body]) == Serialize(posted) + Frame(body)
  {
    SerializeConcat(posted, [body]);
    assert Serialize([body]) == Frame(body) + [];
  }

  lemma AppendInv(s: State, s': State, body: Bytes)
    requires Inv(s) && |body| < 0x1_0000_0000
    requires s'.posted == s.posted + [body] && s'.rx == s.rx && s'.log == s.log && !s'.sync.Sending?
    requires InFlight(s') == InFlight(s) + Frame(body)
    ensures Inv(s')
  {
    PostedInv(s.posted, body);
    Assoc(Serialize(Bodies(s.log)), InFlight(s), Frame(body));
  }

  /** Moving the first `n` bytes of one buffer to the end of the one before it. */
  lemma Shift(a: Bytes, b: Bytes, n: nat)
    requires n <= |b|
    ensures (a + b[..n]) + b[n..] == a + b
  {
  }

  lemma PostFlight(ch: Channel, s: State, body: Bytes)
    requires s.sync.Idle? && |body| < 0x1_0000_0000
    ensures InFlight(Next(ch, s, Post(body))) == InFlight(s) + Frame(body)
    ensures InFlight(Next(ch, s, SyncBegin(body))) == InFlight(s) + Frame(body)
  {
    Assoc(Held(s.rx) + s.pipe, s.spill, Frame(body));
  }

  lemma SendFlight(ch: Channel, s: State, n: nat)
    requires !s.sync.Sending? && n <= |s.spill|
    ensures InFlight(Next(ch, s, Send(n))) == InFlight(s)
  {
    Assoc(Held(s.rx), s.pipe, s.spill[..n]);
    Shift(Held(s.rx) + s.pipe, s.spill, n);
  }

  lemma SyncSendFlight(ch: Channel, s: State, n: nat)
    requires s.sync.Sending? && s.spill == [] && n <= |s.sync.rest|
    ensures InFlight(Next(ch, s, SyncSend(n))) == InFlight(s)
  {
    Assoc(Held(s.rx), s.pipe, s.sync.rest[..n]);
    Shift(Held(s.rx) + s.pipe, s.sync.rest, n);
    assert forall x: Bytes :: x + s.spill == x;
  }

  /** Every step of either end keeps the invariant. */
  lemma StepInv(ch: Channel, s: State, st: Step)
    requires Inv(s) && Enabled(s, st)
    ensures Inv(Next(ch, s, st))
  {
    match st
    case Post(body) =>
      PostFlight(ch, s, body);
      AppendInv(s, Next(ch, s, st), body);
    case SyncBegin(body) =>
      PostFlight(ch, s, body);
      AppendInv(s, Next(ch, s, st), body);
    case Send(n) => SendFlight(ch, s, n);
    case SyncSend(n) => SyncSendFlight(ch, s, n);
    case Recv(n) => ReceiveInv(ch, s, n, false);
    case PingRecv(n) => ReceiveInv(ch, s, n, true);
    case SyncDrained =>
    case SyncEnd =>
  }

  lemma {:induction false} ReachesInv(ch: Channel, run: seq<Step>, s: State)
    requires Reaches(ch, run, s)
    ensures Inv(s)
    decreases |run|
  {
    if run != [] {
      var last := run[|run| - 1];
      var p :| Reaches(ch, run[..|run| - 1], p) && Enabled(p, last) && s == Next(ch, p, last);
      ReachesInv(ch, run[..|run| - 1], p);
      StepInv(ch, p, last);
    }
  }

  // ---------------------------------------------------------------- safety over runs

  /** Lossless FIFO: in every reachable state the frames consumed are a prefix of the frames
      posted, whole and in order, and everything else posted is still in flight. */
  lemma LosslessFifo(ch: Channel, run: seq<Step>, s: State)
    requires Reaches(ch, run, s)
    ensures Bodies(s.log) <= s.posted && Sized(s.posted)
    ensures InFlight(s) == Serialize(s.posted[|s.log|..])
  {
    ReachesInv(ch, run, s);
    PrefixCode(Bodies(s.log), InFlight(s), s.posted);
  }

  /** End to end: when the posted frames are canonical encodings of `envs`, the receiver has
      decoded exactly a prefix of `envs`, field for field and byte for byte. */
  lemma EnvelopesArrive(ch: Channel, run: seq<Step>, s: State, envs: seq<Env>)
    requires Reaches(ch, run, s) && |envs| == |s.posted|
    requires forall i :: 0 <= i < |envs| ==> Canonical(s.posted[i], envs[i])
    ensures |s.log| <= |envs|
    ensures forall i :: 0 <= i < |s.log| ==> DecodesTo(s.log[i].body, envs[i])
  {
    LosslessFifo(ch, run, s);
    forall i | 0 <= i < |s.log|
      ensures DecodesTo(s.log[i].body, envs[i])
    {
      assert s.log[i].body == Bodies(s.log)[i] == s.posted[i];
      DecodeEncode(s.posted[i], envs[i]);
    }
  }

  /** What the receiver has done is what a prefix of the posted envelopes asks for, one by one and
      in order; of those that a ping read, each was a PONG, and answered that ping. */
  lemma EnvelopesHandled(ch: Channel, run: seq<Step>, s: State, envs: seq<Env>)
    requires Reaches(ch, run, s) && |envs| == |s.posted|
    requires forall i :: 0 <= i < |envs| ==> Canonical(s.posted[i], envs[i])
    ensures |Effects(ch, s.log)| == |s.log| <= |envs|
    ensures forall i :: 0 <= i < |s.log| && !s.log[i].byPing ==> Handles(ch, envs[i], Effects(ch, s.log)[i])
    ensures forall i :: 0 <= i < |s.log| && s.log[i].byPing ==>
      envs[i].kind == KIND_CONTROL && ch.classify(envs[i].payload).Pong? && Effects(ch, s.log)[i] == Answer(envs[i].corr)
  {
    EnvelopesArrive(ch, run, s, envs);
    PingsTookPongs(ch, run, s);
    LosslessFifo(ch, run, s);
    forall i | 0 <= i < |s.log|
      ensures if s.log[i].byPing
        then envs[i].kind == KIND_CONTROL && ch.classify(envs[i].payload).Pong? && Effects(ch, s.log)[i] == Answer(envs[i].corr)
        else Handles(ch, envs[i], Effects(ch, s.log)[i])
    {
      assert s.log[i].body == Bodies(s.log)[i] == s.posted[i];
      EnvelopeHandled(ch, s.log[i], envs[i]);
    }
  }

  lemma EnvelopeHandled(ch: Channel, c: Consumed, env: Env)
    requires DecodesTo(c.body, env) && c.body != [] && (c.byPing ==> c.body == [] || IsPong(ch, c.body))
    ensures !c.byPing ==> Handles(ch, env, Effect(ch, c))
    ensures c.byPing ==> env.kind == KIND_CONTROL && ch.classify(env.payload).Pong? && Effect(ch, c) == Answer(env.corr)
  {
    ReactHandles(ch, c.body);
    assert EnvOf(c.body) == env;
  }

  /** Whatever a ping consumed was a PONG or empty. */
  lemma {:induction false} PingsTookPongs(ch: Channel, run: seq<Step>, s: State)
    requires Reaches(ch, run, s)
    ensures OnlyPongs(PongTest(ch), s.log)
    decreases |run|
  {
    if run != [] {
      var last := run[|run| - 1];
      var p :| Reaches(ch, run[..|run| - 1], p) && Enabled(p, last) && s == Next(ch, p, last);
      PingsTookPongs(ch, run[..|run| - 1], p);
      if last.PingRecv? {
        PingTakesLeadingPongs(PongTest(ch), Append(p.rx, p.pipe[..last.n]));
      }
    }
  }

  /** A channel dies of nothing but an oversized frame: the first frame not consumed. */
  lemma DeadMeansOversized(ch: Channel, run: seq<Step>, s: State)
    requires Reaches(ch, run, s) && s.rx.dead
    ensures |s.log| < |s.posted| && |s.posted[|s.log|]| > MAX_FRAME
  {
    ReachesInv(ch, run, s);
    LosslessFifo(ch, run, s);
    var rest := s.posted[|s.log|..];
    var w := InFlight(s);
    assert At(w, 0, Le32(s.rx.frameLen));
    assert rest != [];
    assert At(w, 0, Le32(|rest[0]|));
    Rd32At(w, 0, s.rx.frameLen);
    Rd32At(w, 0, |rest[0]|);
  }

  /** Nothing gets stuck: once the sender's buffers and the pipe are empty, the frames
      consumed plus those a pump pass hands over from the accumulator are all the frames
      posted, and that pass leaves nothing behind. (A ping may have left whole frames.) */
  lemma DrainedIsComplete(ch: Channel, run: seq<Step>, s: State)
    requires Reaches(ch, run, s) && s.pipe == [] && s.spill == [] && SyncBytes(s.sync) == []
    requires forall b :: b in s.posted ==> |b| <= MAX_FRAME
    ensures Parse(s.rx).rest == RxInit && Bodies(s.log) + Parse(s.rx).bodies == s.posted
  {
    ReachesInv(ch, run, s);
    LosslessFifo(ch, run, s);
    if s.rx.dead {
      DeadMeansOversized(ch, run, s);
      assert false;
    }
    HeldIsRest(s.rx, s.log, s.posted);
  }

  lemma HeldIsRest(rx: Rx, log: seq<Consumed>, posted: seq<Bytes>)
    requires !rx.dead && rx.frameLen <= MAX_FRAME && forall b :: b in posted ==> |b| <= MAX_FRAME
    requires Bodies(log) <= posted && Held(rx) == Serialize(posted[|log|..])
    ensures Parse(rx).rest == RxInit && Bodies(log) + Parse(rx).bodies == posted
  {
    var rest := posted[|log|..];
    assert Bodies(log) + rest == posted;
    HeldParse(rx);
    ParseSerialize(rest);
  }

  lemma HeldWord(w: Bytes, len: uint32, acc: Bytes)
    requires w == Le32(len) + acc
    ensures |w| >= 4 && Rd32(w, 0) == len && w[4..] == acc
  {
    assert At(w, 0, Le32(len));
    Rd32At(w, 0, len);
  }

  /** A consumed header is only a cursor: parsing resumes as from the bytes held. */
  lemma HeldParse(rx: Rx)
    requires !rx.dead && rx.frameLen <= MAX_FRAME
    ensures Parse(rx) == Parse(Rx(Held(rx), 0, false))
  {
    if rx.frameLen != 0 {
      var w := Held(rx);
      HeldWord(w, rx.frameLen, rx.acc);
      assert TakeHeader(Rx(w, 0, false)) == TakeHeader(rx);
      ParseTurn(rx, Rx(w, 0, false));
    } else {
      assert Held(rx) == rx.acc;
    }
  }
}
