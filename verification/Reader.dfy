/** What a reader does with a frame, and the ping window of src/ipc_process.c: a blocking
    ping reads from the same stream through the same accumulator and consumes only leading
    PONG frames. JSON payloads are abstract: a classifier names what a payload is. */
module Reader {
  import opened LittleEndian
  import opened Envelope
  import opened Framing
  import opened Wrappers

  /** `qz_ipc_ctl_classify`, plus whether a PONG carries the transit chain `tp`. */
  datatype CtlClass = NotProtocol | Pong(transit: bool) | Pfail | System

  /** A channel end: its payload classifier and `ctl_route_id` (0 = do not route). */
  datatype Channel = Channel(classify: Bytes -> CtlClass, routeId: nat)

  datatype Event =
    | Ignored                                                  // empty or undecodable frame
    | Deliver(env: Env)                                        // msg_cb, or the message queue
    | ForwardUp(corr: int32, payload: Bytes)                   // PONG/pfail in transit
    | Answer(corr: int32)                                      // pong_seq := corr
    | RouteCmd(source: int32, target: int32, payload: Bytes)   // qz_control_route

  function EnvOf(b: Bytes): Env
    requires Decode(b).ok
  {
    PayloadInBounds(b);
    var v := Decode(b).view;
    Env(v.source, v.target, v.kind, v.corr, PayloadOf(b, v))
  }

  predicate IsCtl(b: Bytes) {
    Decode(b).ok && EnvOf(b).kind == KIND_CONTROL && EnvOf(b).payload != []
  }

  predicate IsPong(ch: Channel, b: Bytes) {
    IsCtl(b) && ch.classify(EnvOf(b).payload).Pong?
  }

  /** The frame handler inside `proc_process_rx`. */
  function React(ch: Channel, b: Bytes): Event {
    if !Decode(b).ok then Ignored else
    var e := EnvOf(b);
    if !IsCtl(b) || ch.routeId == 0 then Deliver(e) else
    match ch.classify(e.payload)
    case Pfail => ForwardUp(e.corr, e.payload)
    case Pong(transit) => if transit then ForwardUp(e.corr, e.payload) else Answer(e.corr)
    case NotProtocol => RouteCmd(e.source, e.target, e.payload)
    case System => Deliver(e)
  }

  /** A frame that the channel looks into: a control envelope with a payload, where the channel
      routes. */
  predicate Routed(ch: Channel, env: Env) {
    env.kind == KIND_CONTROL && env.payload != [] && ch.routeId > 0
  }

  /** What an envelope asks of the reader, case by case. */
  ghost predicate Handles(ch: Channel, env: Env, e: Event) {
    && (env.kind != KIND_CONTROL ==> e == Deliver(env))
    && (env.payload == [] ==> e == Deliver(env))
    && (ch.routeId == 0 ==> e == Deliver(env))
    && (Routed(ch, env) && ch.classify(env.payload).NotProtocol? ==> e == RouteCmd(env.source, env.target, env.payload))
    && (Routed(ch, env) && ch.classify(env.payload) == Pong(true) ==> e == ForwardUp(env.corr, env.payload))
    && (Routed(ch, env) && ch.classify(env.payload) == Pong(false) ==> e == Answer(env.corr))
    && (Routed(ch, env) && ch.classify(env.payload).Pfail? ==> e == ForwardUp(env.corr, env.payload))
    && (Routed(ch, env) && ch.classify(env.payload).System? ==> e == Deliver(env))
  }

  /** Messages and everything else that is not routed are delivered whole, commands are routed
      with their source and target, PONGs and failures in transit go up with their number, and a
      PONG for this node answers its ping. What cannot be decoded is ignored, and so is the empty
      frame. */
  lemma ReactHandles(ch: Channel, b: Bytes)
    ensures forall env :: DecodesTo(b, env) ==> Handles(ch, env, React(ch, b))
    ensures !Decode(b).ok ==> React(ch, b) == Ignored
    ensures React(ch, []) == Ignored
  {
    forall env | DecodesTo(b, env)
      ensures Handles(ch, env, React(ch, b))
    {
      assert EnvOf(b) == env;
    }
  }

  /** The cases leave nothing open. */
  lemma HandledOneWay(ch: Channel, env: Env, e: Event, f: Event)
    requires Handles(ch, env, e) && Handles(ch, env, f)
    ensures e == f
  {
    if Routed(ch, env) {
      match ch.classify(env.payload)
      case Pong(transit) => assert ch.classify(env.payload) == Pong(transit);
      case _ =>
    }
  }

  function PongTest(ch: Channel): Bytes -> bool {
    b => IsPong(ch, b)
  }

  /** The ping loop goes past a body: a PONG, or the empty frame. */
  predicate Swallows(pong: Bytes -> bool, t: Turn) {
    t.Body? && t.rx.frameLen <= |t.rx.acc| && (t.rx.frameLen == 0 || pong(BodyOf(t.rx)))
  }

  /** The parse loop of `qz_proc_ping`: stop, keeping the frame, at the first non-PONG. */
  function PingParse(pong: Bytes -> bool, rx: Rx): Parsed
    decreases |rx.acc|
  {
    var t := TakeHeader(rx);
    if Swallows(pong, t) then Then([BodyOf(t.rx)], PingParse(pong, DropBody(t.rx))) else Parsed([], t.rx)
  }

  /** A read by the normal pump or by a ping in progress. */
  datatype Action = Read(chunk: Bytes) | PingRead(chunk: Bytes)

  /** A consumed frame and which of the two loops consumed it. */
  datatype Consumed = Consumed(body: Bytes, byPing: bool)

  function Tag(bodies: seq<Bytes>, byPing: bool): (log: seq<Consumed>)
    ensures |log| == |bodies| && forall i :: 0 <= i < |log| ==> log[i] == Consumed(bodies[i], byPing)
  {
    seq(|bodies|, i requires 0 <= i < |bodies| => Consumed(bodies[i], byPing))
  }

  function Bodies(log: seq<Consumed>): (bodies: seq<Bytes>)
    ensures |bodies| == |log| && forall i :: 0 <= i < |log| ==> bodies[i] == log[i].body
  {
    seq(|log|, i requires 0 <= i < |log| => log[i].body)
  }

  function Act(ch: Channel, rx: Rx, a: Action): Parsed {
    match a
    case Read(c) => Feed(rx, c)
    case PingRead(c) => PingParse(PongTest(ch), Append(rx, c))
  }

  datatype Session = Session(log: seq<Consumed>, rest: Rx)

  function RunSession(ch: Channel, rx: Rx, actions: seq<Action>): Session
    decreases |actions|
  {
    if actions == [] then Session([], rx) else
    var p := Act(ch, rx, actions[0]);
    var s := RunSession(ch, p.rest, actions[1..]);
    Session(Tag(p.bodies, actions[0].PingRead?) + s.log, s.rest)
  }

  function Chunks(actions: seq<Action>): Bytes {
    if actions == [] then [] else actions[0].chunk + Chunks(actions[1..])
  }

  // ---------------------------------------------------------------- the window

  lemma {:induction false} PingIsPrefix(pong: Bytes -> bool, rx: Rx)
    ensures var p := PingParse(pong, rx);
            Parse(rx) == Then(p.bodies, Parse(p.rest))
    decreases |rx.acc|
  {
    var t := TakeHeader(rx);
    if Swallows(pong, t) {
      PingIsPrefix(pong, DropBody(t.rx));
      PingBody(pong, rx);
      ParseBody(rx);
      var p := PingParse(pong, DropBody(t.rx));
      ThenThen([BodyOf(t.rx)], p.bodies, Parse(p.rest));
    } else {
      PingStop(pong, rx);
      ThenThen([], [], Parse(t.rx));
    }
  }

  lemma PingBody(pong: Bytes -> bool, rx: Rx)
    requires Swallows(pong, TakeHeader(rx))
    ensures var h := TakeHeader(rx).rx;
            PingParse(pong, rx) == Then([BodyOf(h)], PingParse(pong, DropBody(h)))
  {
  }

  lemma PingStop(pong: Bytes -> bool, rx: Rx)
    requires !Swallows(pong, TakeHeader(rx))
    ensures PingParse(pong, rx) == Parsed([], TakeHeader(rx).rx)
    ensures Parse(rx) == Parse(TakeHeader(rx).rx)
  {
    TakeHeaderTwice(rx);
    ParseTurn(rx, TakeHeader(rx).rx);
  }

  lemma TakeHeaderTwice(rx: Rx)
    ensures TakeHeader(TakeHeader(rx).rx) == TakeHeader(rx) || (TakeHeader(rx).Body? && TakeHeader(rx).rx.frameLen == 0)
  {
  }

  /** The window consumes exactly the leading run of PONG (and empty) frames: all it took
      were such frames, and the next whole frame it left behind is not one. */
  lemma {:induction false} PingTakesLeadingPongs(pong: Bytes -> bool, rx: Rx)
    ensures var p := PingParse(pong, rx);
            (forall b :: b in p.bodies ==> b == [] || pong(b))
            && (var rest := Parse(p.rest).bodies; rest != [] ==> rest[0] != [] && !pong(rest[0]))
    decreases |rx.acc|
  {
    var t := TakeHeader(rx);
    if Swallows(pong, t) {
      PingTakesLeadingPongs(pong, DropBody(t.rx));
    } else {
      TakeHeaderTwice(rx);
    }
  }

  /** For every interleaving of pump reads and ping reads over any bytes, the frames
      consumed so far followed by those a pump pass would now hand over are the frames of
      the whole byte stream, in order, as if no ping had read from it. */
  lemma {:induction false} SessionIsParse(ch: Channel, rx: Rx, actions: seq<Action>)
    ensures var s := RunSession(ch, rx, actions);
            Parse(Append(rx, Chunks(actions))) == Then(Bodies(s.log), Parse(s.rest))
    decreases |actions|
  {
    if actions == [] {
      assert Append(rx, []) == rx;
      ThenThen([], [], Parse(rx));
    } else {
      var a, tail := actions[0], Chunks(actions[1..]);
      var p := Act(ch, rx, a);
      var s := RunSession(ch, p.rest, actions[1..]);
      ActIsPrefix(ch, rx, a, tail);
      SessionIsParse(ch, p.rest, actions[1..]);
      BodiesTag(p.bodies, a.PingRead?, s.log);
      ThenThen(p.bodies, Bodies(s.log), Parse(s.rest));
    }
  }

  lemma BodiesTag(bodies: seq<Bytes>, byPing: bool, log: seq<Consumed>)
    ensures Bodies(Tag(bodies, byPing) + log) == bodies + Bodies(log)
  {
  }

  lemma ActIsPrefix(ch: Channel, rx: Rx, a: Action, tail: Bytes)
    ensures var p := Act(ch, rx, a);
            Parse(Append(rx, a.chunk + tail)) == Then(p.bodies, Parse(Append(p.rest, tail)))
  {
    var x := Append(rx, a.chunk);
    assert Append(x, tail) == Append(rx, a.chunk + tail);
    ParseAppend(x, tail);
    if a.PingRead? {
      var p := PingParse(PongTest(ch), x);
      PingIsPrefix(PongTest(ch), x);
      ParseAppend(p.rest, tail);
      ThenThen(p.bodies, Parse(p.rest).bodies, Parse(Append(Parse(p.rest).rest, tail)));
    }
  }

  // ---------------------------------------------------------------- effects

  /** What consuming a frame did: a frame swallowed by the window only sets `pong_seq`. */
  function Effect(ch: Channel, c: Consumed): Event {
    if c.byPing && IsPong(ch, c.body) then Answer(EnvOf(c.body).corr) else React(ch, c.body)
  }

  function Effects(ch: Channel, log: seq<Consumed>): (r: seq<Event>)
    ensures |r| == |log| && forall i :: 0 <= i < |log| ==> r[i] == Effect(ch, log[i])
  {
    seq(|log|, i requires 0 <= i < |log| => Effect(ch, log[i]))
  }

  /** What the pump does with frames. */
  function Reactions(ch: Channel, bodies: seq<Bytes>): (r: seq<Event>)
    ensures |r| == |bodies| && forall i :: 0 <= i < |bodies| ==> r[i] == React(ch, bodies[i])
  {
    seq(|bodies|, i requires 0 <= i < |bodies| => React(ch, bodies[i]))
  }

  /** A PONG in transit: the pump passes it on, where a ping only notes its number. */
  predicate InTransit(ch: Channel, b: Bytes) {
    IsPong(ch, b) && ch.classify(EnvOf(b).payload).transit
  }

  /** The PONG and empty frames at the head of a list of frames. */
  function LeadingRun(pong: Bytes -> bool, bodies: seq<Bytes>): seq<Bytes> {
    if bodies == [] || (bodies[0] != [] && !pong(bodies[0])) then [] else [bodies[0]] + LeadingRun(pong, bodies[1..])
  }

  lemma {:induction false} RunIs(pong: Bytes -> bool, run: seq<Bytes>, rest: seq<Bytes>)
    requires forall b :: b in run ==> b == [] || pong(b)
    requires rest != [] ==> rest[0] != [] && !pong(rest[0])
    ensures LeadingRun(pong, run + rest) == run
  {
    if run == [] {
      assert run + rest == rest;
    } else {
      RunIs(pong, run[1..], rest);
      assert (run + rest)[1..] == run[1..] + rest;
    }
  }

  /** A ping consumes exactly the leading run of what the pump would. */
  lemma PingTakesRun(pong: Bytes -> bool, rx: Rx)
    ensures PingParse(pong, rx).bodies == LeadingRun(pong, Parse(rx).bodies)
  {
    var p := PingParse(pong, rx);
    PingIsPrefix(pong, rx);
    PingTakesLeadingPongs(pong, rx);
    RunIs(pong, p.bodies, Parse(p.rest).bodies);
  }

  /** One ping read has the effects that the pump gives the frames it consumed if and only if
      none of the frames at the head of the bytes is in transit. Pings run only on channels
      that route. */
  lemma PingReadTransparent(ch: Channel, rx: Rx, chunk: Bytes)
    requires ch.routeId > 0
    ensures var p, run := Act(ch, rx, PingRead(chunk)), LeadingRun(PongTest(ch), Feed(rx, chunk).bodies);
      && p.bodies == run
      && (Effects(ch, Tag(p.bodies, true)) == Reactions(ch, run) <==> forall b :: b in run ==> !InTransit(ch, b))
  {
    var x := Append(rx, chunk);
    var p := PingParse(PongTest(ch), x);
    PingTakesRun(PongTest(ch), x);
    PingTakesLeadingPongs(PongTest(ch), x);
    TagTransparent(ch, p.bodies);
  }

  lemma TagTransparent(ch: Channel, run: seq<Bytes>)
    requires ch.routeId > 0 && forall b :: b in run ==> b == [] || IsPong(ch, b)
    ensures Effects(ch, Tag(run, true)) == Reactions(ch, run) <==> forall b :: b in run ==> !InTransit(ch, b)
  {
    var log := Tag(run, true);
    forall i | 0 <= i < |run|
      ensures Effects(ch, log)[i] == Reactions(ch, run)[i] <==> !InTransit(ch, run[i])
    {
      assert log[i] == Consumed(run[i], true);
    }
    if b :| b in run && InTransit(ch, b) {
      var i :| 0 <= i < |run| && run[i] == b;
      assert Effects(ch, log)[i] != Reactions(ch, run)[i];
    }
  }

  // ---------------------------------------------------------------- whole sessions

  /** No ping read of the session finds a PONG in transit at the head of what it reads. */
  predicate NoneLost(ch: Channel, rx: Rx, actions: seq<Action>)
    decreases |actions|
  {
    actions != [] ==>
      && (actions[0].PingRead? ==> forall b :: b in LeadingRun(PongTest(ch), Feed(rx, actions[0].chunk).bodies) ==> !InTransit(ch, b))
      && NoneLost(ch, Act(ch, rx, actions[0]).rest, actions[1..])
  }

  lemma ReactionsAppend(ch: Channel, a: seq<Bytes>, b: seq<Bytes>)
    ensures Reactions(ch, a + b) == Reactions(ch, a) + Reactions(ch, b)
  {
  }

  lemma EffectsAppend(ch: Channel, a: seq<Consumed>, b: seq<Consumed>)
    ensures Effects(ch, a + b) == Effects(ch, a) + Effects(ch, b)
  {
  }

  lemma PumpEffects(ch: Channel, bodies: seq<Bytes>)
    ensures Effects(ch, Tag(bodies, false)) == Reactions(ch, bodies)
  {
  }

  lemma Cancel<T>(a: seq<T>, b: seq<T>, c: seq<T>, d: seq<T>)
    requires |a| == |c|
    ensures a + b == c + d <==> a == c && b == d
  {
    if a + b == c + d {
      assert a == (a + b)[..|a|] && b == (a + b)[|a|..];
    }
  }

  lemma ActTransparent(ch: Channel, rx: Rx, a: Action)
    requires ch.routeId > 0
    ensures var p := Act(ch, rx, a);
      Effects(ch, Tag(p.bodies, a.PingRead?)) == Reactions(ch, p.bodies)
      <==> (a.PingRead? ==> forall b :: b in LeadingRun(PongTest(ch), Feed(rx, a.chunk).bodies) ==> !InTransit(ch, b))
  {
    match a
    case Read(c) => PumpEffects(ch, Act(ch, rx, a).bodies);
    case PingRead(c) => PingReadTransparent(ch, rx, c);
  }

  lemma {:induction false} LogTransparent(ch: Channel, rx: Rx, actions: seq<Action>)
    requires ch.routeId > 0
    ensures var log := RunSession(ch, rx, actions).log;
      Effects(ch, log) == Reactions(ch, Bodies(log)) <==> NoneLost(ch, rx, actions)
    decreases |actions|
  {
    if actions != [] {
      var a, p := actions[0], Act(ch, rx, actions[0]);
      var s := RunSession(ch, p.rest, actions[1..]);
      var tag := Tag(p.bodies, a.PingRead?);
      ActTransparent(ch, rx, a);
      LogTransparent(ch, p.rest, actions[1..]);
      EffectsAppend(ch, tag, s.log);
      BodiesTag(p.bodies, a.PingRead?, s.log);
      ReactionsAppend(ch, p.bodies, Bodies(s.log));
      Cancel(Effects(ch, tag), Effects(ch, s.log), Reactions(ch, p.bodies), Reactions(ch, Bodies(s.log)));
    }
  }

  /** A session, with a pump pass at its end, does what the pump would do with the whole stream
      alone, in the same order, if and only if no ping read found a PONG in transit at the head
      of what it read. */
  lemma PingTransparent(ch: Channel, rx: Rx, actions: seq<Action>)
    requires ch.routeId > 0
    ensures var s := RunSession(ch, rx, actions);
      Effects(ch, s.log) + Reactions(ch, Parse(s.rest).bodies) == Reactions(ch, Parse(Append(rx, Chunks(actions))).bodies)
      <==> NoneLost(ch, rx, actions)
  {
    var s := RunSession(ch, rx, actions);
    var left := Parse(s.rest).bodies;
    SessionIsParse(ch, rx, actions);
    ReactionsAppend(ch, Bodies(s.log), left);
    LogTransparent(ch, rx, actions);
    Cancel(Effects(ch, s.log), Reactions(ch, left), Reactions(ch, Bodies(s.log)), Reactions(ch, left));
  }

  // ---------------------------------------------------------------- all other frames

  function Other(pong: Bytes -> bool, b: Bytes): seq<Bytes> {
    if b == [] || pong(b) then [] else [b]
  }

  /** Frames that are neither empty nor PONGs. */
  function Others(pong: Bytes -> bool, bodies: seq<Bytes>): seq<Bytes> {
    if bodies == [] then [] else Other(pong, bodies[0]) + Others(pong, bodies[1..])
  }

  /** What the pump consumed. */
  function Pumped(log: seq<Consumed>): seq<Bytes> {
    if log == [] then [] else (if log[0].byPing then [] else [log[0].body]) + Pumped(log[1..])
  }

  predicate OnlyPongs(pong: Bytes -> bool, log: seq<Consumed>) {
    forall i :: 0 <= i < |log| && log[i].byPing ==> log[i].body == [] || pong(log[i].body)
  }

  /** Whatever a ping consumed in a session was a PONG or empty. */
  lemma {:induction false} PingsTakeOnlyPongs(ch: Channel, rx: Rx, actions: seq<Action>)
    ensures OnlyPongs(PongTest(ch), RunSession(ch, rx, actions).log)
    decreases |actions|
  {
    if actions != [] {
      PingsTakeOnlyPongs(ch, Act(ch, rx, actions[0]).rest, actions[1..]);
      if actions[0].PingRead? {
        PingTakesLeadingPongs(PongTest(ch), Append(rx, actions[0].chunk));
      }
    }
  }

  lemma {:induction false} OthersAppend(pong: Bytes -> bool, a: seq<Bytes>, b: seq<Bytes>)
    ensures Others(pong, a + b) == Others(pong, a) + Others(pong, b)
  {
    if a == [] {
      assert a + b == b;
    } else {
      OthersAppend(pong, a[1..], b);
      assert (a + b)[0] == a[0] && (a + b)[1..] == a[1..] + b;
      Assoc(Other(pong, a[0]), Others(pong, a[1..]), Others(pong, b));
    }
  }

  lemma {:induction false} OthersPumped(pong: Bytes -> bool, log: seq<Consumed>)
    requires OnlyPongs(pong, log)
    ensures Others(pong, Bodies(log)) == Others(pong, Pumped(log))
  {
    if log != [] {
      OthersPumped(pong, log[1..]);
      assert Bodies(log)[1..] == Bodies(log[1..]);
      assert Others(pong, Bodies(log)) == Other(pong, log[0].body) + Others(pong, Pumped(log[1..]));
      if log[0].byPing {
        assert Pumped(log) == Pumped(log[1..]);
      } else {
        assert Pumped(log)[0] == log[0].body && Pumped(log)[1..] == Pumped(log[1..]);
      }
    }
  }

  /** Pings never touch other frames: those that the pump consumed in a session, followed by
      those it consumes next, are all the others of the stream, in order. */
  lemma PingsLeaveOthers(ch: Channel, rx: Rx, actions: seq<Action>)
    ensures var s, pong := RunSession(ch, rx, actions), PongTest(ch);
      Others(pong, Pumped(s.log) + Parse(s.rest).bodies) == Others(pong, Parse(Append(rx, Chunks(actions))).bodies)
  {
    var s, pong := RunSession(ch, rx, actions), PongTest(ch);
    SessionIsParse(ch, rx, actions);
    PingsTakeOnlyPongs(ch, rx, actions);
    OthersPumped(pong, s.log);
    OthersAppend(pong, Bodies(s.log), Parse(s.rest).bodies);
    OthersAppend(pong, Pumped(s.log), Parse(s.rest).bodies);
  }

  // ---------------------------------------------------------------- a PONG that is lost

  lemma TransitPong(ch: Channel, b: Bytes, env: Env)
    requires ch.routeId > 0 && Canonical(b, env)
    requires env.kind == KIND_CONTROL && env.payload != [] && ch.classify(env.payload) == Pong(true)
    ensures InTransit(ch, b) && React(ch, b) == ForwardUp(env.corr, env.payload)
    ensures Effect(ch, Consumed(b, true)) == Answer(env.corr)
  {
    DecodeEncode(b, env);
    assert EnvOf(b) == env;
  }

  lemma ParseOne(b: Bytes)
    requires |b| <= MAX_FRAME
    ensures Append(RxInit, Frame(b)) == Rx(Frame(b), 0, false) && Parse(Rx(Frame(b), 0, false)) == Parsed([b], RxInit)
  {
    ParseSerialize([b]);
    assert Serialize([b]) == Frame(b) + [] == Frame(b);
    assert [] + Frame(b) == Frame(b);
  }

  /** A stream where it happens: a single PONG in transit, in any encoding. The pump sends it
      up; read by a ping it ends here. */
  lemma TransitLost(ch: Channel, b: Bytes, env: Env)
    requires ch.routeId > 0 && |b| <= MAX_FRAME && Canonical(b, env)
    requires env.kind == KIND_CONTROL && env.payload != [] && ch.classify(env.payload) == Pong(true)
    ensures var s := RunSession(ch, RxInit, [PingRead(Frame(b))]);
      && Effects(ch, s.log) == [Answer(env.corr)] && s.rest == RxInit
      && Reactions(ch, Parse(Append(RxInit, Frame(b))).bodies) == [ForwardUp(env.corr, env.payload)]
      && !NoneLost(ch, RxInit, [PingRead(Frame(b))])
  {
    TransitPong(ch, b, env);
    ParseOne(b);
    PingTakesOne(PongTest(ch), b);
    OneAction(ch, RxInit, PingRead(Frame(b)));
    OneRun(PongTest(ch), b);
  }

  lemma OneRun(pong: Bytes -> bool, b: Bytes)
    requires pong(b)
    ensures LeadingRun(pong, [b]) == [b]
  {
    assert [b][1..] == [] && [b] + [] == [b];
  }

  lemma OneAction(ch: Channel, rx: Rx, a: Action)
    ensures RunSession(ch, rx, [a]) == Session(Tag(Act(ch, rx, a).bodies, a.PingRead?), Act(ch, rx, a).rest)
  {
    var p := Act(ch, rx, a);
    assert [a][1..] == [] && RunSession(ch, p.rest, []) == Session([], p.rest);
    assert Tag(p.bodies, a.PingRead?) + [] == Tag(p.bodies, a.PingRead?);
  }

  lemma PingTakesOne(pong: Bytes -> bool, b: Bytes)
    requires |b| <= MAX_FRAME && pong(b)
    ensures PingParse(pong, Rx(Frame(b), 0, false)) == Parsed([b], RxInit)
  {
    TakeHeaderFrame(b, []);
    assert Frame(b) + [] == Frame(b);
    PingBody(pong, Rx(Frame(b), 0, false));
    assert TakeHeader(RxInit) == Wait(RxInit);
    PingStop(pong, RxInit);
    assert [b] + [] == [b];
  }

  /** The text {"qzjs":1,"pong":1,"tp":[2]}. */
  const TRANSIT_PONG: Bytes := [123, 34, 113, 122, 106, 115, 34, 58, 49, 44, 34, 112, 111, 110, 103, 34, 58, 49, 44, 34, 116, 112, 34, 58, 91, 50, 93, 125]

  /** In bytes: the PONG of a node behind this one, with number 7, never reaches the host. */
  lemma TransitLostExample(ch: Channel)
    requires ch.routeId == 1 && ch.classify(TRANSIT_PONG) == Pong(true)
    ensures var stream := Frame(Encoded(Env(0, 0, KIND_CONTROL, 7, TRANSIT_PONG)));
      && Effects(ch, RunSession(ch, RxInit, [PingRead(stream)]).log) == [Answer(7)]
      && Effects(ch, RunSession(ch, RxInit, [Read(stream)]).log) == [ForwardUp(7, TRANSIT_PONG)]
  {
    var env := Env(0, 0, KIND_CONTROL, 7, TRANSIT_PONG);
    EncodedCanonical(env);
    TransitLost(ch, Encoded(env), env);
    var a := Read(Frame(Encoded(env)));
    OneAction(ch, RxInit, a);
    PumpEffects(ch, Act(ch, RxInit, a).bodies);
  }
}
