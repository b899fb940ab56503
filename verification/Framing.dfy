/** The length-prefixed frame stream of src/ipc_process.c, as values: what a reader holds
    and what its reassembly loop hands over. */
module Framing {
  import opened LittleEndian
  import opened Wrappers

  type Bytes = seq<byte>

  const MAX_FRAME := 16 * 1024 * 1024

  predicate Sized(bodies: seq<Bytes>) {
    forall b :: b in bodies ==> |b| < 0x1_0000_0000
  }

  /** Bytes on the wire for one frame: length word, then the envelope. */
  function Frame(body: Bytes): Bytes
    requires |body| < 0x1_0000_0000
  {
    Le32(|body|) + body
  }

  function Serialize(bodies: seq<Bytes>): Bytes
    requires Sized(bodies)
  {
    if bodies == [] then [] else Frame(bodies[0]) + Serialize(bodies[1..])
  }

  // ---------------------------------------------------------------- reassembly

  /** The read accumulator: `rbuf[..rbuf_len]`, `frame_len` (0 = the next four bytes are a
      header) and whether an oversized header ended the run. */
  datatype Rx = Rx(acc: Bytes, frameLen: uint32, dead: bool)

  const RxInit := Rx([], 0, false)

  /** Everything received and not yet handed over, including a header already consumed. */
  function Held(rx: Rx): Bytes {
    (if rx.frameLen == 0 then [] else Le32(rx.frameLen)) + rx.acc
  }

  /** One turn of the loop up to the point where a whole body is known to be there. */
  datatype Turn = Wait(rx: Rx) | Body(rx: Rx)

  function TakeHeader(rx: Rx): (t: Turn)
    ensures t.Body? ==> t.rx.frameLen <= |t.rx.acc| && |t.rx.acc| - t.rx.frameLen < |rx.acc| && !t.rx.dead
  {
    if rx.dead then Wait(rx)
    else if rx.frameLen == 0 && |rx.acc| < 4 then Wait(rx)
    else
      var h := if rx.frameLen != 0 then rx else var n := Rd32(rx.acc, 0); Rx(rx.acc[4..], n, n > MAX_FRAME);
      if h.dead || |h.acc| < h.frameLen then Wait(h) else Body(h)
  }

  function BodyOf(h: Rx): Bytes
    requires h.frameLen <= |h.acc|
  {
    h.acc[..h.frameLen]
  }

  function DropBody(h: Rx): Rx
    requires h.frameLen <= |h.acc|
  {
    Rx(h.acc[h.frameLen..], 0, h.dead)
  }

  datatype Parsed = Parsed(bodies: seq<Bytes>, rest: Rx)

  /** Frames handed over earlier, put in front of a later result. */
  function Then(bodies: seq<Bytes>, p: Parsed): Parsed {
    Parsed(bodies + p.bodies, p.rest)
  }

  lemma ThenThen(a: seq<Bytes>, b: seq<Bytes>, p: Parsed)
    ensures Then(a, Then(b, p)) == Then(a + b, p) && Then([], p) == p
  {
    assert a + (b + p.bodies) == a + b + p.bodies;
  }

  /** `proc_process_rx`: hand over every complete frame body, in order. */
  function Parse(rx: Rx): Parsed
    decreases |rx.acc|
  {
    var t := TakeHeader(rx);
    if t.Wait? then Parsed([], t.rx) else
    Then([BodyOf(t.rx)], Parse(DropBody(t.rx)))
  }

  function Append(rx: Rx, chunk: Bytes): Rx {
    rx.(acc := rx.acc + chunk)
  }

  /** `proc_read_cb`: append a chunk, then process. */
  function Feed(rx: Rx, chunk: Bytes): Parsed {
    Parse(Append(rx, chunk))
  }

  function FeedAll(rx: Rx, chunks: seq<Bytes>): Parsed
    decreases |chunks|
  {
    if chunks == [] then Parsed([], rx) else
    var p := Feed(rx, chunks[0]);
    Then(p.bodies, FeedAll(p.rest, chunks[1..]))
  }

  function Concat(chunks: seq<Bytes>): Bytes {
    if chunks == [] then [] else chunks[0] + Concat(chunks[1..])
  }

  // ---------------------------------------------------------------- chunk independence

  lemma {:induction false} ParseAppend(rx: Rx, c: Bytes)
    ensures var p := Parse(rx);
            Parse(Append(rx, c)) == Then(p.bodies, Parse(Append(p.rest, c)))
    decreases |rx.acc|
  {
    var t := TakeHeader(rx);
    TakeHeaderAppend(rx, c);
    if t.Wait? {
      ParseTurn(Append(rx, c), Append(t.rx, c));
      ThenThen([], [], Parse(Append(t.rx, c)));
    } else {
      ParseAppend(DropBody(t.rx), c);
      AppendBody(rx, c);
      var p := Parse(DropBody(t.rx));
      ThenThen([BodyOf(t.rx)], p.bodies, Parse(Append(p.rest, c)));
    }
  }

  lemma AppendBody(rx: Rx, c: Bytes)
    requires TakeHeader(rx).Body? && TakeHeader(Append(rx, c)) == Body(Append(TakeHeader(rx).rx, c))
    ensures var h := TakeHeader(rx).rx;
            Parse(rx) == Then([BodyOf(h)], Parse(DropBody(h)))
            && Parse(Append(rx, c)) == Then([BodyOf(h)], Parse(Append(DropBody(h), c)))
  {
    ParseBody(rx);
    ParseBody(Append(rx, c));
    DropAppend(TakeHeader(rx).rx, c);
  }

  lemma DropAppend(h: Rx, c: Bytes)
    requires h.frameLen <= |h.acc|
    ensures BodyOf(Append(h, c)) == BodyOf(h) && DropBody(Append(h, c)) == Append(DropBody(h), c)
  {
  }

  lemma ParseTurn(a: Rx, b: Rx)
    requires TakeHeader(a) == TakeHeader(b)
    ensures Parse(a) == Parse(b)
  {
  }

  lemma ParseBody(rx: Rx)
    requires TakeHeader(rx).Body?
    ensures var h := TakeHeader(rx).rx;
            Parse(rx) == Then([BodyOf(h)], Parse(DropBody(h)))
  {
  }

  lemma TakeHeaderAppend(rx: Rx, c: Bytes)
    ensures var t := TakeHeader(rx);
            TakeHeader(Append(rx, c)) == if t.Body? then Body(Append(t.rx, c)) else TakeHeader(Append(t.rx, c))
  {
    if rx.frameLen == 0 && 4 <= |rx.acc| {
      assert (rx.acc + c)[0..4] == rx.acc[0..4];
      assert (rx.acc + c)[4..] == rx.acc[4..] + c;
    }
  }

  /** However the bytes are cut into reads, the reader hands over the same frames and ends
      holding the same bytes as if they had arrived at once. */
  lemma {:induction false} ChunkIndependence(rx: Rx, chunks: seq<Bytes>)
    requires rx == Parse(rx).rest && Parse(rx).bodies == []
    ensures FeedAll(rx, chunks) == Feed(rx, Concat(chunks))
    decreases |chunks|
  {
    if chunks == [] {
      assert Append(rx, []) == rx;
    } else {
      var a, rest := chunks[0], Concat(chunks[1..]);
      var p := Feed(rx, a);
      ParseRest(Append(rx, a));
      ChunkIndependence(p.rest, chunks[1..]);
      ParseAppend(Append(rx, a), rest);
      assert Append(Append(rx, a), rest) == Append(rx, a + rest);
    }
  }

  /** A reader that has just processed has nothing more to hand over. */
  lemma {:induction false} ParseRest(rx: Rx)
    ensures Parse(Parse(rx).rest) == Parsed([], Parse(rx).rest)
    decreases |rx.acc|
  {
    var t := TakeHeader(rx);
    if t.Body? {
      ParseRest(DropBody(t.rx));
    }
  }

  // ---------------------------------------------------------------- conservation

  lemma TakeHeaderHeld(rx: Rx)
    ensures var t := TakeHeader(rx);
            Held(rx) == if t.Wait? then Held(t.rx) else Frame(BodyOf(t.rx)) + Held(DropBody(t.rx))
  {
    var t := TakeHeader(rx);
    if rx.frameLen == 0 && 4 <= |rx.acc| {
      LeRd32(rx.acc, 0);
      assert rx.acc == rx.acc[0..4] + rx.acc[4..];
    }
    if t.Body? {
      assert t.rx.acc == BodyOf(t.rx) + DropBody(t.rx).acc;
      assert Held(rx) == Le32(t.rx.frameLen) + t.rx.acc;
    }
  }

  /** Conservation: the frames handed over, serialised, followed by what is still held are
      exactly the bytes held before. Nothing is lost, added or reordered, on any bytes. */
  lemma {:induction false} ParseHeld(rx: Rx)
    ensures Sized(Parse(rx).bodies)
    ensures Held(rx) == Serialize(Parse(rx).bodies) + Held(Parse(rx).rest)
    decreases |rx.acc|
  {
    TakeHeaderHeld(rx);
    var t := TakeHeader(rx);
    if t.Body? {
      ParseHeld(DropBody(t.rx));
      var p := Parse(rx);
      assert p.bodies[1..] == Parse(DropBody(t.rx)).bodies;
    }
  }

  lemma {:induction false} SerializeConcat(a: seq<Bytes>, b: seq<Bytes>)
    requires Sized(a) && Sized(b)
    ensures Serialize(a + b) == Serialize(a) + Serialize(b)
  {
    if a == [] {
      assert a + b == b;
    } else {
      SerializeConcat(a[1..], b);
      assert (a + b)[0] == a[0] && (a + b)[1..] == a[1..] + b;
      Assoc(Frame(a[0]), Serialize(a[1..]), Serialize(b));
    }
  }

  /** The wire format is uniquely decodable: a stream that starts with the frames `a` can
      only be the serialisation of frames that start with `a`. */
  lemma {:induction false} PrefixCode(a: seq<Bytes>, tail: Bytes, b: seq<Bytes>)
    requires Sized(a) && Sized(b) && Serialize(a) + tail == Serialize(b)
    ensures a <= b && tail == Serialize(b[|a|..])
  {
    if a == [] {
      assert b[0..] == b;
    } else {
      var s := Serialize(b);
      assert b != [];
      FrameHead(a[0], Serialize(a[1..]) + tail, b[0], Serialize(b[1..]));
      PrefixCode(a[1..], tail, b[1..]);
      assert b[|a|..] == b[1..][|a| - 1..];
    }
  }

  lemma FrameHead(x: Bytes, s: Bytes, y: Bytes, t: Bytes)
    requires |x| < 0x1_0000_0000 && |y| < 0x1_0000_0000 && Frame(x) + s == Frame(y) + t
    ensures x == y && s == t
  {
    var w := Frame(x) + s;
    assert At(w, 0, Le32(|x|)) && At(w, 0, Le32(|y|));
    Rd32At(w, 0, |x|);
    Rd32At(w, 0, |y|);
    assert x == w[4..4 + |x|] == y;
    assert s == w[4 + |x|..] == t;
  }

  // ---------------------------------------------------------------- completeness

  /** No frame is held back: once every body fits and all bytes are in, the reader has
      handed over every frame and holds nothing. */
  lemma {:induction false} ParseSerialize(bodies: seq<Bytes>)
    requires forall b :: b in bodies ==> |b| <= MAX_FRAME
    ensures Parse(Rx(Serialize(bodies), 0, false)) == Parsed(bodies, RxInit)
  {
    if bodies != [] {
      var x, rest := bodies[0], Serialize(bodies[1..]);
      TakeHeaderFrame(x, rest);
      ParseBody(Rx(Frame(x) + rest, 0, false));
      ParseSerialize(bodies[1..]);
      assert [x] + bodies[1..] == bodies;
    }
  }

  lemma TakeHeaderFrame(x: Bytes, rest: Bytes)
    requires |x| <= MAX_FRAME
    ensures var t := TakeHeader(Rx(Frame(x) + rest, 0, false));
            t.Body? && BodyOf(t.rx) == x && DropBody(t.rx) == Rx(rest, 0, false)
  {
    var s := Frame(x) + rest;
    assert At(s, 0, Le32(|x|));
    Rd32At(s, 0, |x|);
    assert s[4..] == x + rest;
  }

  /** Exactly the oversized frames kill the channel: feeding a serialised list hands over
      the frames before the first one above 16 MiB, and the reader is dead from there on. */
  lemma {:induction false} OversizedStops(good: seq<Bytes>, big: Bytes, rest: Bytes)
    requires forall b :: b in good ==> |b| <= MAX_FRAME
    requires MAX_FRAME < |big| < 0x1_0000_0000
    ensures var p := Parse(Rx(Serialize(good) + Frame(big) + rest, 0, false));
            p.bodies == good && p.rest.dead
  {
    var w := Frame(big) + rest;
    ParseSerialize(good);
    ParseAppend(Rx(Serialize(good), 0, false), w);
    assert Serialize(good) + w == Serialize(good) + Frame(big) + rest;
    assert Append(RxInit, w) == Rx(w, 0, false);
    OversizedHeader(big, rest);
  }

  lemma OversizedHeader(big: Bytes, rest: Bytes)
    requires MAX_FRAME < |big| < 0x1_0000_0000
    ensures var p := Parse(Rx(Frame(big) + rest, 0, false));
            p.bodies == [] && p.rest.dead
  {
    var w := Frame(big) + rest;
    assert At(w, 0, Le32(|big|));
    Rd32At(w, 0, |big|);
  }
}
