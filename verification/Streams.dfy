/** The queue of ReadableStream in polyfill.js with its default controller and readers, as a
    state machine over calls of the controller, the stream and its readers. The source's pull
    callback may throw but does not call back into the stream. */
module Streams {
  import opened Wrappers

  /** A chunk of any kind; an error value; the n-th call of `read`; the n-th reader. */
  datatype Chunk = Chunk(value: string)
  datatype Failure = Failure(message: string)
  datatype ReadId = ReadId(n: nat)
  type ReaderId = nat

  datatype Phase = Readable | Closed | Errored(e: Failure)

  /** How the promise of a read settles. `released` marks a reader that had given up the stream
      before it read. */
  datatype Settled = Fulfilled(read: ReadId, chunk: Chunk) | Done(read: ReadId, released: bool) | Rejected(read: ReadId, e: Failure)

  /** The `closed` promise of a reader. */
  datatype ClosedPromise = Waiting | Resolved | RejectedWith(e: Failure)

  /** `released` is history: whether the reader was closed by releasing its lock. */
  datatype Reader = Reader(isClosed: bool, released: bool, closed: ClosedPromise)

  /** `accepted`, `dropped`, `log` and `issued` are history: chunks that entered the queue, chunks
      a cancel threw away, reads in the order they settled, and the number of reads so far. */
  datatype Stream = Stream(
    phase: Phase, queue: seq<Chunk>, pending: seq<ReadId>, hwm: int, closeRequested: bool,
    readers: seq<Reader>, current: Option<ReaderId>,
    accepted: seq<Chunk>, dropped: seq<Chunk>, log: seq<Settled>, issued: nat)

  function Init(hwm: int): Stream {
    Stream(Readable, [], [], hwm, false, [], None, [], [], [], 0)
  }

  datatype Pull = Returns | Throws(e: Failure)

  // ---------------------------------------------------------------- _notifyReaders

  /** The loop over pending reads: chunks while there are any, then the end of the stream. */
  function Serve(s: Stream): Stream
    decreases |s.pending|
  {
    if s.pending == [] then s
    else if s.queue != [] then
      Serve(s.(pending := s.pending[1..], queue := s.queue[1..], log := s.log + [Fulfilled(s.pending[0], s.queue[0])]))
    else match s.phase
      case Closed => Serve(s.(pending := s.pending[1..], log := s.log + [Done(s.pending[0], false)]))
      case Errored(e) => Serve(s.(pending := s.pending[1..], log := s.log + [Rejected(s.pending[0], e)]))
      case Readable => s
  }

  /** The `closed` promise of the reader that holds the stream settles once. */
  function SettleClosed(s: Stream): Stream {
    if s.current.Some? && s.current.value < |s.readers| && s.readers[s.current.value].closed.Waiting? && !s.phase.Readable? then
      var r := s.readers[s.current.value];
      var p := if s.phase.Closed? then Resolved else RejectedWith(s.phase.e);
      s.(readers := s.readers[s.current.value := r.(closed := p)])
    else s
  }

  function ServeAll(s: Stream): Stream {
    SettleClosed(Serve(s))
  }

  /** Serving, then one call of pull while the stream is readable and below its mark; a pull
      that throws is an error of the controller. */
  function Notify(s: Stream, pull: Pull): Stream {
    var t := ServeAll(s);
    if t.phase.Readable? && |t.queue| < t.hwm && pull.Throws? then ServeAll(t.(phase := Errored(pull.e))) else t
  }

  // ---------------------------------------------------------------- calls

  datatype Call =
    | Enqueue(chunk: Chunk, pull: Pull)
    | Close
    | Error(e: Failure)
    | Cancel
    | GetReader
    | Read(reader: ReaderId)
    | Release(reader: ReaderId)

  /** Readers that exist can be used. */
  predicate Can(s: Stream, c: Call) {
    match c
    case Read(r) => r < |s.readers|
    case Release(r) => r < |s.readers|
    case _ => true
  }

  function Add(s: Stream, chunk: Chunk): Stream {
    s.(queue := s.queue + [chunk], accepted := s.accepted + [chunk])
  }

  function CallEnqueue(s: Stream, chunk: Chunk, pull: Pull): Stream {
    if s.phase.Readable? then Notify(Add(s, chunk), pull) else s
  }

  function CallClose(s: Stream): Stream {
    if s.closeRequested then s else
    var t := s.(closeRequested := true);
    if s.phase.Readable? then Notify(t.(phase := Closed), Returns) else t
  }

  function CallError(s: Stream, e: Failure): Stream {
    if s.phase.Readable? then Notify(s.(phase := Errored(e)), Returns) else s
  }

  function Drop(s: Stream): Stream {
    s.(phase := Closed, queue := [], dropped := s.dropped + s.queue)
  }

  function CallCancel(s: Stream): Stream {
    if s.phase.Readable? then Notify(Drop(s), Returns) else s
  }

  /** `None` when it throws: the stream is locked, or errored. */
  function NewReader(s: Stream): Option<Reader> {
    if s.current.Some? || s.phase.Errored? then None
    else Some(Reader(false, false, if s.phase.Closed? then Resolved else Waiting))
  }

  function CallGetReader(s: Stream): Stream {
    match NewReader(s)
    case None => s
    case Some(r) => s.(readers := s.readers + [r], current := Some(|s.readers|))
  }

  /** The next read settles at once. */
  function Now(s: Stream, e: Settled): Stream {
    s.(issued := s.issued + 1, log := s.log + [e])
  }

  /** The next read waits. */
  function Wait(s: Stream): Stream {
    s.(issued := s.issued + 1, pending := s.pending + [ReadId(s.issued)])
  }

  function CloseReader(s: Stream, r: ReaderId): Stream
    requires r < |s.readers|
  {
    s.(readers := s.readers[r := s.readers[r].(isClosed := true)])
  }

  function CallRead(s: Stream, r: ReaderId): Stream
    requires r < |s.readers|
  {
    var id := ReadId(s.issued);
    if s.readers[r].isClosed then Now(s, Done(id, s.readers[r].released))
    else if s.phase.Errored? then Now(s, Rejected(id, s.phase.e))
    else if s.queue != [] then Now(s.(queue := s.queue[1..]), Fulfilled(id, s.queue[0]))
    else if s.phase.Closed? then Now(CloseReader(s, r), Done(id, false))
    else Wait(s)
  }

  function CallRelease(s: Stream, r: ReaderId): Stream
    requires r < |s.readers|
  {
    if s.current != Some(r) then s
    else s.(current := None, readers := s.readers[r := s.readers[r].(isClosed := true, released := true)])
  }

  function Do(s: Stream, c: Call): Stream
    requires Can(s, c)
  {
    match c
    case Enqueue(chunk, pull) => CallEnqueue(s, chunk, pull)
    case Close => CallClose(s)
    case Error(e) => CallError(s, e)
    case Cancel => CallCancel(s)
    case GetReader => CallGetReader(s)
    case Read(r) => CallRead(s, r)
    case Release(r) => CallRelease(s, r)
  }

  ghost predicate Reaches(hwm: int, run: seq<Call>, s: Stream)
    decreases |run|
  {
    if run == [] then s == Init(hwm) else
    var last := run[|run| - 1];
    exists p :: Reaches(hwm, run[..|run| - 1], p) && Can(p, last) && s == Do(p, last)
  }

  // ---------------------------------------------------------------- reading the log

  function ChunksOf(e: Settled): seq<Chunk> {
    if e.Fulfilled? then [e.chunk] else []
  }

  /** Chunks delivered, in order. */
  function Delivered(log: seq<Settled>): seq<Chunk> {
    if log == [] then [] else Delivered(log[..|log| - 1]) + ChunksOf(log[|log| - 1])
  }

  function Reads(log: seq<Settled>): (r: seq<ReadId>)
    ensures |r| == |log| && forall i :: 0 <= i < |log| ==> r[i] == log[i].read
  {
    seq(|log|, i requires 0 <= i < |log| => log[i].read)
  }

  /** The first `n` reads. */
  function Issued(n: nat): (r: multiset<ReadId>)
    ensures forall id: ReadId :: r[id] == if id.n < n then 1 else 0
  {
    if n == 0 then multiset{} else Issued(n - 1) + multiset{ReadId(n - 1)}
  }

  lemma DeliveredSnoc(log: seq<Settled>, e: Settled)
    ensures Delivered(log + [e]) == Delivered(log) + ChunksOf(e)
  {
    assert (log + [e])[..|log + [e]| - 1] == log;
  }

  lemma ReadsSnoc(log: seq<Settled>, e: Settled)
    ensures multiset(Reads(log + [e])) == multiset(Reads(log)) + multiset{e.read}
  {
    assert Reads(log + [e]) == Reads(log) + [e.read];
  }

  // ---------------------------------------------------------------- the invariant

  /** Nothing is lost or reordered. */
  ghost predicate Conserved(s: Stream) {
    s.accepted == Delivered(s.log) + s.queue + s.dropped
  }

  /** Every read so far has settled or waits, exactly once. */
  ghost predicate Accounted(s: Stream) {
    multiset(Reads(s.log)) + multiset(s.pending) == Issued(s.issued)
  }

  /** Reads wait in the order they were made, after every read that got a chunk. */
  ghost predicate InOrder(s: Stream) {
    && (forall i, j :: 0 <= i < j < |s.pending| ==> s.pending[i].n < s.pending[j].n)
    && (forall i :: 0 <= i < |s.pending| ==> s.pending[i].n < s.issued)
    && (forall i :: 0 <= i < |s.log| && s.log[i].Fulfilled? ==> s.log[i].read.n < s.issued)
    && (forall i, j :: 0 <= i < |s.log| && s.log[i].Fulfilled? && 0 <= j < |s.pending| ==> s.log[i].read.n < s.pending[j].n)
    && (forall i, j :: 0 <= i < j < |s.log| && s.log[i].Fulfilled? && s.log[j].Fulfilled? ==> s.log[i].read.n < s.log[j].read.n)
  }

  /** What a settled read says about the stream. */
  ghost predicate Final(s: Stream, e: Settled) {
    && (e.Done? && !e.released ==> s.phase.Closed? && s.queue == [])
    && (e.Rejected? ==> s.phase == Errored(e.e))
  }

  ghost predicate Ended(s: Stream) {
    forall i :: 0 <= i < |s.log| ==> Final(s, s.log[i])
  }

  /** The end of the stream comes after every chunk. */
  ghost predicate DoneLast(log: seq<Settled>) {
    forall i, j :: 0 <= i < j < |log| && log[i].Done? && !log[i].released ==> !log[j].Fulfilled?
  }

  ghost predicate Shape(s: Stream) {
    && (s.dropped != [] ==> s.phase.Closed? && s.queue == [])
    && (s.current.Some? ==> s.current.value < |s.readers|)
    && (forall r :: 0 <= r < |s.readers| && s.readers[r].released ==> s.readers[r].isClosed)
    && (forall r :: 0 <= r < |s.readers| && s.readers[r].isClosed && !s.readers[r].released ==> s.phase.Closed? && s.queue == [])
  }

  /** Reads wait only for a readable stream with an empty queue. */
  ghost predicate WaitsOnlyEmpty(s: Stream) {
    s.pending != [] ==> s.phase.Readable? && s.queue == []
  }

  /** The holder's `closed` promise tells the phase. */
  ghost predicate HolderTold(s: Stream) {
    s.current.Some? && s.current.value < |s.readers| ==>
      s.readers[s.current.value].closed ==
        match s.phase { case Readable => Waiting case Closed => Resolved case Errored(e) => RejectedWith(e) }
  }

  /** What holds at every moment inside a call, and, with the last two, between calls. */
  ghost predicate Busy(s: Stream) {
    Conserved(s) && Accounted(s) && InOrder(s) && Ended(s) && DoneLast(s.log) && Shape(s)
  }

  ghost predicate Inv(s: Stream) {
    Busy(s) && WaitsOnlyEmpty(s) && HolderTold(s)
  }

  // ---------------------------------------------------------------- one read settles

  /** The first waiting read settles. */
  ghost predicate HeadSettles(s: Stream, t: Stream, e: Settled) {
    s.pending != [] && t.pending == s.pending[1..] && t.log == s.log + [e] && e.read == s.pending[0] && t.issued == s.issued
  }

  /** A new read settles at once. */
  ghost predicate NewSettles(s: Stream, t: Stream, e: Settled) {
    t.pending == s.pending && t.log == s.log + [e] && e.read == ReadId(s.issued) && t.issued == s.issued + 1
  }

  lemma HeadAccounted(s: Stream, t: Stream, e: Settled)
    requires Accounted(s) && HeadSettles(s, t, e)
    ensures Accounted(t)
  {
    ReadsSnoc(s.log, e);
    assert s.pending == [s.pending[0]] + t.pending;
  }

  lemma NewAccounted(s: Stream, t: Stream, e: Settled)
    requires Accounted(s) && NewSettles(s, t, e)
    ensures Accounted(t)
  {
    ReadsSnoc(s.log, e);
    assert Issued(t.issued) == Issued(s.issued) + multiset{ReadId(s.issued)};
  }

  lemma HeadInOrder(s: Stream, t: Stream, e: Settled)
    requires InOrder(s) && HeadSettles(s, t, e)
    ensures InOrder(t)
  {
    assert forall i :: 0 <= i < |t.pending| ==> t.pending[i] == s.pending[i + 1];
  }

  lemma NewInOrder(s: Stream, t: Stream, e: Settled)
    requires InOrder(s) && NewSettles(s, t, e) && (e.Fulfilled? ==> s.pending == [])
    ensures InOrder(t)
  {
  }

  /** No read has seen the end of the stream. */
  ghost predicate NoneDone(log: seq<Settled>) {
    forall i :: 0 <= i < |log| ==> !(log[i].Done? && !log[i].released)
  }

  lemma DoneLastSnoc(log: seq<Settled>, e: Settled)
    requires DoneLast(log) && (e.Fulfilled? ==> NoneDone(log))
    ensures DoneLast(log + [e])
  {
  }

  lemma EndedSnoc(s: Stream, t: Stream, e: Settled)
    requires Ended(s) && t.log == s.log + [e] && Final(t, e)
    requires s.phase == t.phase && (s.queue == [] ==> t.queue == [])
    ensures Ended(t)
  {
    forall i | 0 <= i < |t.log|
      ensures Final(t, t.log[i])
    {
      if i < |s.log| {
        assert Final(s, s.log[i]);
      }
    }
  }

  /** A chunk is at hand, so no read has seen the end. */
  lemma QueuedNoneDone(s: Stream)
    requires Ended(s) && (s.queue != [] || !s.phase.Closed?)
    ensures NoneDone(s.log)
  {
    forall i | 0 <= i < |s.log|
      ensures !(s.log[i].Done? && !s.log[i].released)
    {
      assert Final(s, s.log[i]);
    }
  }

  lemma FulfilKeeps(s: Stream)
    requires Busy(s) && s.pending != [] && s.queue != []
    ensures Busy(s.(pending := s.pending[1..], queue := s.queue[1..], log := s.log + [Fulfilled(s.pending[0], s.queue[0])]))
  {
    var e := Fulfilled(s.pending[0], s.queue[0]);
    var t := s.(pending := s.pending[1..], queue := s.queue[1..], log := s.log + [e]);
    QueuedNoneDone(s);
    HeadAccounted(s, t, e);
    HeadInOrder(s, t, e);
    DoneLastSnoc(s.log, e);
    EndedSnoc(s, t, e);
    FulfilConserves(s, t, e.read);
  }

  lemma FulfilConserves(s: Stream, t: Stream, id: ReadId)
    requires Conserved(s) && s.queue != [] && t.queue == s.queue[1..] && t.log == s.log + [Fulfilled(id, s.queue[0])]
    requires t.accepted == s.accepted && t.dropped == s.dropped
    ensures Conserved(t)
  {
    DeliveredSnoc(s.log, Fulfilled(id, s.queue[0]));
    assert s.queue == [s.queue[0]] + t.queue;
    assert Delivered(s.log) + ([s.queue[0]] + t.queue) + s.dropped == Delivered(s.log) + [s.queue[0]] + t.queue + s.dropped;
  }

  /** The first waiting read settles without a chunk, because the stream has ended. */
  lemma EndKeeps(s: Stream, e: Settled)
    requires Busy(s) && s.pending != [] && e.read == s.pending[0] && !e.Fulfilled? && Final(s, e)
    ensures Busy(s.(pending := s.pending[1..], log := s.log + [e]))
  {
    var t := s.(pending := s.pending[1..], log := s.log + [e]);
    HeadAccounted(s, t, e);
    HeadInOrder(s, t, e);
    DoneLastSnoc(s.log, e);
    EndedSnoc(s, t, e);
    DeliveredSnoc(s.log, e);
    assert Delivered(t.log) == Delivered(s.log) + [] == Delivered(s.log);
  }

  /** Serving keeps the invariant, and leaves reads waiting only where they may. */
  lemma {:induction false} ServeKeeps(s: Stream)
    requires Busy(s)
    ensures Busy(Serve(s)) && WaitsOnlyEmpty(Serve(s))
    ensures Serve(s).phase == s.phase && Serve(s).readers == s.readers && Serve(s).current == s.current
    decreases |s.pending|
  {
    if s.pending != [] {
      if s.queue != [] {
        FulfilKeeps(s);
        ServeKeeps(s.(pending := s.pending[1..], queue := s.queue[1..], log := s.log + [Fulfilled(s.pending[0], s.queue[0])]));
      } else if s.phase.Closed? {
        EndKeeps(s, Done(s.pending[0], false));
        ServeKeeps(s.(pending := s.pending[1..], log := s.log + [Done(s.pending[0], false)]));
      } else if s.phase.Errored? {
        EndKeeps(s, Rejected(s.pending[0], s.phase.e));
        ServeKeeps(s.(pending := s.pending[1..], log := s.log + [Rejected(s.pending[0], s.phase.e)]));
      }
    }
  }

  // ---------------------------------------------------------------- every call keeps it

  ghost predicate HolderWaiting(s: Stream) {
    s.current.Some? && s.current.value < |s.readers| ==> s.readers[s.current.value].closed.Waiting?
  }

  lemma SettleClosedKeeps(s: Stream)
    requires Busy(s) && WaitsOnlyEmpty(s) && HolderWaiting(s)
    ensures Inv(SettleClosed(s)) && SettleClosed(s).phase == s.phase && SettleClosed(s).queue == s.queue
  {
    ReadersKeepBusy(s, SettleClosed(s));
  }

  lemma ReadersKeepBusy(s: Stream, t: Stream)
    requires Busy(s) && t == s.(readers := t.readers, current := t.current) && Shape(t)
    ensures Busy(t)
  {
    assert forall i :: 0 <= i < |s.log| ==> (Final(s, s.log[i]) <==> Final(t, s.log[i]));
  }

  /** No read of a readable stream has seen its end. */
  lemma ReadableEnded(s: Stream, t: Stream)
    requires Ended(s) && s.phase.Readable? && t.log == s.log
    ensures Ended(t)
  {
    forall i | 0 <= i < |t.log|
      ensures Final(t, t.log[i])
    {
      assert Final(s, s.log[i]);
    }
  }

  lemma AddConserves(s: Stream, chunk: Chunk)
    requires Conserved(s) && s.dropped == []
    ensures Conserved(Add(s, chunk))
  {
    assert s.accepted + [chunk] == Delivered(s.log) + (s.queue + [chunk]) + s.dropped;
  }

  lemma DropConserves(s: Stream)
    requires Conserved(s) && s.dropped == []
    ensures Conserved(Drop(s))
  {
    assert s.accepted == Delivered(s.log) + [] + ([] + s.queue);
  }

  /** A readable stream ends. */
  lemma PhaseKeeps(s: Stream, phase: Phase)
    requires Busy(s) && s.phase.Readable?
    ensures Busy(s.(phase := phase))
  {
    ReadableEnded(s, s.(phase := phase));
  }

  lemma ServeAllKeeps(s: Stream)
    requires Busy(s) && HolderWaiting(s)
    ensures Inv(ServeAll(s)) && ServeAll(s).phase == s.phase
  {
    ServeKeeps(s);
    SettleClosedKeeps(Serve(s));
  }

  lemma PullThrows(t: Stream, e: Failure)
    requires Inv(t) && t.phase.Readable?
    ensures Inv(ServeAll(t.(phase := Errored(e))))
  {
    PhaseKeeps(t, Errored(e));
    ServeAllKeeps(t.(phase := Errored(e)));
  }

  lemma NotifyKeeps(s: Stream, pull: Pull)
    requires Busy(s) && HolderWaiting(s)
    ensures Inv(Notify(s, pull))
  {
    ServeAllKeeps(s);
    var t := ServeAll(s);
    if t.phase.Readable? && |t.queue| < t.hwm && pull.Throws? {
      PullThrows(t, pull.e);
      assert Notify(s, pull) == ServeAll(t.(phase := Errored(pull.e)));
    } else {
      assert Notify(s, pull) == t;
    }
  }

  lemma AddKeeps(s: Stream, chunk: Chunk)
    requires Inv(s) && s.phase.Readable?
    ensures Busy(Add(s, chunk)) && HolderWaiting(Add(s, chunk))
  {
    AddConserves(s, chunk);
    ReadableEnded(s, Add(s, chunk));
  }

  lemma EnqueueKeeps(s: Stream, chunk: Chunk, pull: Pull)
    requires Inv(s)
    ensures Inv(CallEnqueue(s, chunk, pull))
  {
    if s.phase.Readable? {
      AddKeeps(s, chunk);
      NotifyKeeps(Add(s, chunk), pull);
    }
  }

  lemma CloseKeeps(s: Stream)
    requires Inv(s)
    ensures Inv(CallClose(s))
  {
    if !s.closeRequested {
      var t := s.(closeRequested := true);
      forall i | 0 <= i < |t.log|
        ensures Final(t, t.log[i])
      {
        assert Final(s, s.log[i]);
      }
      assert Inv(t);
      if s.phase.Readable? {
        PhaseKeeps(t, Closed);
        NotifyKeeps(t.(phase := Closed), Returns);
      }
    }
  }

  lemma ErrorKeeps(s: Stream, e: Failure)
    requires Inv(s)
    ensures Inv(CallError(s, e))
  {
    if s.phase.Readable? {
      PhaseKeeps(s, Errored(e));
      NotifyKeeps(s.(phase := Errored(e)), Returns);
    }
  }

  lemma DropKeeps(s: Stream)
    requires Inv(s) && s.phase.Readable?
    ensures Busy(Drop(s)) && HolderWaiting(Drop(s))
  {
    DropConserves(s);
    ReadableEnded(s, Drop(s));
  }

  lemma CancelKeeps(s: Stream)
    requires Inv(s)
    ensures Inv(CallCancel(s))
  {
    if s.phase.Readable? {
      DropKeeps(s);
      NotifyKeeps(Drop(s), Returns);
    }
  }

  lemma ReadersKeep(s: Stream, t: Stream)
    requires Inv(s) && t == s.(readers := t.readers, current := t.current) && Shape(t) && HolderTold(t)
    ensures Inv(t)
  {
    ReadersKeepBusy(s, t);
  }

  lemma GetReaderShape(s: Stream)
    requires Shape(s) && HolderTold(s)
    ensures var t := CallGetReader(s); Shape(t) && HolderTold(t) && t == s.(readers := t.readers, current := t.current)
  {
  }

  lemma ReleaseShape(s: Stream, r: ReaderId)
    requires Shape(s) && HolderTold(s) && r < |s.readers|
    ensures var t := CallRelease(s, r); Shape(t) && HolderTold(t) && t == s.(readers := t.readers, current := t.current)
  {
  }

  lemma GetReaderKeeps(s: Stream)
    requires Inv(s)
    ensures Inv(CallGetReader(s))
  {
    GetReaderShape(s);
    ReadersKeep(s, CallGetReader(s));
  }

  lemma ReleaseKeeps(s: Stream, r: ReaderId)
    requires Inv(s) && r < |s.readers|
    ensures Inv(CallRelease(s, r))
  {
    ReleaseShape(s, r);
    ReadersKeep(s, CallRelease(s, r));
  }

  /** A read that settles at once without a chunk. */
  lemma ReadEnds(s: Stream, t: Stream, e: Settled)
    requires Inv(s) && NewSettles(s, t, e) && !e.Fulfilled? && Final(s, e)
    requires t == s.(issued := t.issued, log := t.log, readers := t.readers) && Shape(t) && HolderTold(t)
    ensures Inv(t)
  {
    NewAccounted(s, t, e);
    NewInOrder(s, t, e);
    DoneLastSnoc(s.log, e);
    EndedSnoc(s, t, e);
    DeliveredSnoc(s.log, e);
    assert Delivered(t.log) == Delivered(s.log) + [] == Delivered(s.log);
  }

  lemma ReadFulfils(s: Stream)
    requires Inv(s) && s.queue != []
    ensures Inv(Now(s.(queue := s.queue[1..]), Fulfilled(ReadId(s.issued), s.queue[0])))
  {
    var e := Fulfilled(ReadId(s.issued), s.queue[0]);
    var t := Now(s.(queue := s.queue[1..]), e);
    QueuedNoneDone(s);
    NewAccounted(s, t, e);
    NewInOrder(s, t, e);
    DoneLastSnoc(s.log, e);
    EndedSnoc(s, t, e);
    FulfilConserves(s, t, e.read);
  }

  lemma ReadWaits(s: Stream)
    requires Inv(s) && s.queue == [] && s.phase.Readable?
    ensures Inv(Wait(s))
  {
    var t := Wait(s);
    assert Issued(t.issued) == Issued(s.issued) + multiset{ReadId(s.issued)};
    forall i | 0 <= i < |t.log|
      ensures Final(t, t.log[i])
    {
      assert Final(s, s.log[i]);
    }
    WaitingInOrder(s, t);
  }

  lemma WaitingInOrder(s: Stream, t: Stream)
    requires InOrder(s) && t.pending == s.pending + [ReadId(s.issued)] && t.issued == s.issued + 1 && t.log == s.log
    ensures InOrder(t)
  {
  }

  lemma ReadAfterEnd(s: Stream, e: Settled)
    requires Inv(s) && !e.Fulfilled? && e.read == ReadId(s.issued) && Final(s, e)
    ensures Inv(Now(s, e))
  {
    ReadEnds(s, Now(s, e), e);
  }

  lemma ReadSeesEnd(s: Stream, r: ReaderId)
    requires Inv(s) && r < |s.readers| && s.phase.Closed? && s.queue == []
    ensures Inv(Now(CloseReader(s, r), Done(ReadId(s.issued), false)))
  {
    var e := Done(ReadId(s.issued), false);
    ReadEnds(s, Now(CloseReader(s, r), e), e);
  }

  lemma ReadKeeps(s: Stream, r: ReaderId)
    requires Inv(s) && r < |s.readers|
    ensures Inv(CallRead(s, r))
  {
    var id, t := ReadId(s.issued), CallRead(s, r);
    if s.readers[r].isClosed {
      assert t == Now(s, Done(id, s.readers[r].released));
      ReadAfterEnd(s, Done(id, s.readers[r].released));
    } else if s.phase.Errored? {
      assert t == Now(s, Rejected(id, s.phase.e));
      ReadAfterEnd(s, Rejected(id, s.phase.e));
    } else if s.queue != [] {
      assert t == Now(s.(queue := s.queue[1..]), Fulfilled(id, s.queue[0]));
      ReadFulfils(s);
    } else if s.phase.Closed? {
      assert t == Now(CloseReader(s, r), Done(id, false));
      ReadSeesEnd(s, r);
    } else {
      assert t == Wait(s);
      ReadWaits(s);
    }
  }

  lemma CallKeeps(s: Stream, c: Call)
    requires Inv(s) && Can(s, c)
    ensures Inv(Do(s, c))
  {
    match c
    case Enqueue(chunk, pull) => EnqueueKeeps(s, chunk, pull);
    case Close => CloseKeeps(s);
    case Error(e) => ErrorKeeps(s, e);
    case Cancel => CancelKeeps(s);
    case GetReader => GetReaderKeeps(s);
    case Read(r) => ReadKeeps(s, r);
    case Release(r) => ReleaseKeeps(s, r);
  }

  lemma {:induction false} ReachesInv(hwm: int, run: seq<Call>, s: Stream)
    requires Reaches(hwm, run, s)
    ensures Inv(s)
    decreases |run|
  {
    if run != [] {
      var last := run[|run| - 1];
      var p :| Reaches(hwm, run[..|run| - 1], p) && Can(p, last) && s == Do(p, last);
      ReachesInv(hwm, run[..|run| - 1], p);
      CallKeeps(p, last);
    }
  }

  // ---------------------------------------------------------------- what each call does

  function Dones(ids: seq<ReadId>): (es: seq<Settled>)
    ensures |es| == |ids| && forall i :: 0 <= i < |es| ==> es[i] == Done(ids[i], false)
  {
    seq(|ids|, i requires 0 <= i < |ids| => Done(ids[i], false))
  }

  function Rejects(ids: seq<ReadId>, e: Failure): (es: seq<Settled>)
    ensures |es| == |ids| && forall i :: 0 <= i < |es| ==> es[i] == Rejected(ids[i], e)
  {
    seq(|ids|, i requires 0 <= i < |ids| => Rejected(ids[i], e))
  }

  /** Every waiting read has settled, in order, as `es`; the holder's `closed` promise has become
      `p`, and that of no other reader has changed. */
  ghost predicate AllSettled(s: Stream, t: Stream, es: seq<Settled>, p: ClosedPromise) {
    && t.pending == [] && t.log == s.log + es && t.issued == s.issued
    && t.current == s.current && |t.readers| == |s.readers|
    && (forall r :: 0 <= r < |s.readers| ==>
          t.readers[r] == if s.current == Some(r) then s.readers[r].(closed := p) else s.readers[r])
  }

  /** A cancel closes a readable stream and throws its queue away. */
  ghost predicate Cancelled(s: Stream, t: Stream) {
    if s.phase.Readable? then
      && t.phase.Closed? && t.queue == [] && t.dropped == s.dropped + s.queue && t.accepted == s.accepted
      && t.hwm == s.hwm && t.closeRequested == s.closeRequested && AllSettled(s, t, Dones(s.pending), Resolved)
    else t == s
  }

  /** A first close closes a readable stream, and what is queued can still be read. */
  ghost predicate ClosedNow(s: Stream, t: Stream) {
    if s.closeRequested then t == s
    else if s.phase.Readable? then
      && t.phase.Closed? && t.queue == s.queue && t.dropped == s.dropped && t.accepted == s.accepted
      && t.hwm == s.hwm && t.closeRequested && AllSettled(s, t, Dones(s.pending), Resolved)
    else t == s.(closeRequested := true)
  }

  /** An error ends a readable stream; its queue stays, but no read gets at it. */
  ghost predicate ErroredNow(s: Stream, t: Stream, e: Failure) {
    if s.phase.Readable? then
      && t.phase == Errored(e) && t.queue == s.queue && t.dropped == s.dropped && t.accepted == s.accepted
      && t.hwm == s.hwm && t.closeRequested == s.closeRequested && AllSettled(s, t, Rejects(s.pending, e), RejectedWith(e))
    else t == s
  }

  /** The chunk goes to the first waiting read, or to the end of the queue. */
  function Accepted(s: Stream, chunk: Chunk): Stream {
    if s.pending == [] then s.(accepted := s.accepted + [chunk], queue := s.queue + [chunk])
    else s.(accepted := s.accepted + [chunk], pending := s.pending[1..], log := s.log + [Fulfilled(s.pending[0], chunk)])
  }

  /** Then the source is asked for more if the queue is below its mark; if that throws, the
      stream fails. */
  ghost predicate Enqueued(s: Stream, t: Stream, chunk: Chunk, pull: Pull) {
    if !s.phase.Readable? then t == s
    else if |Accepted(s, chunk).queue| < s.hwm && pull.Throws? then ErroredNow(Accepted(s, chunk), t, pull.e)
    else t == Accepted(s, chunk)
  }

  /** How a read answers when nothing is queued. */
  ghost predicate ReadEmpty(s: Stream, t: Stream, r: ReaderId)
    requires r < |s.readers|
  {
    var id := ReadId(s.issued);
    && t == s.(issued := s.issued + 1, pending := t.pending, log := t.log, readers := t.readers)
    && |t.readers| == |s.readers| && t.readers[r].(isClosed := s.readers[r].isClosed) == s.readers[r]
    && (forall q :: 0 <= q < |s.readers| && q != r ==> t.readers[q] == s.readers[q])
    && (t.readers[r].isClosed <==> s.readers[r].released || s.phase.Closed?)
    && (t.pending, t.log) ==
         (if s.readers[r].released then (s.pending, s.log + [Done(id, true)])
          else match s.phase
            case Closed => (s.pending, s.log + [Done(id, false)])
            case Errored(e) => (s.pending, s.log + [Rejected(id, e)])
            case Readable => (s.pending + [id], s.log))
  }

  /** A lock is given on a stream that is free and has not failed, to a new reader that can read
      and whose `closed` promise tells the phase. */
  ghost predicate GotReader(s: Stream, t: Stream) {
    if s.current.Some? || s.phase.Errored? then t == s
    else
      && t == s.(readers := t.readers, current := Some(|s.readers|))
      && |t.readers| == |s.readers| + 1 && t.readers[..|s.readers|] == s.readers
      && !t.readers[|s.readers|].isClosed && !t.readers[|s.readers|].released
      && t.readers[|s.readers|].closed == (if s.phase.Readable? then Waiting else Resolved)
  }

  /** Only the holder's release counts: it frees the stream, and ends that reader alone. */
  ghost predicate ReleasedBy(s: Stream, t: Stream, r: ReaderId)
    requires r < |s.readers|
  {
    if s.current != Some(r) then t == s
    else
      && t == s.(readers := t.readers, current := None) && |t.readers| == |s.readers|
      && t.readers[r] == s.readers[r].(isClosed := true, released := true)
      && (forall q :: 0 <= q < |s.readers| && q != r ==> t.readers[q] == s.readers[q])
  }

  lemma {:induction false} ServeDones(s: Stream)
    requires s.queue == [] && s.phase.Closed?
    ensures Serve(s) == s.(pending := [], log := s.log + Dones(s.pending))
    decreases |s.pending|
  {
    if s.pending == [] {
      assert s.log + Dones([]) == s.log;
    } else {
      var e := Done(s.pending[0], false);
      ServeDones(s.(pending := s.pending[1..], log := s.log + [e]));
      assert Dones(s.pending) == [e] + Dones(s.pending[1..]);
      Assoc(s.log, [e], Dones(s.pending[1..]));
    }
  }

  lemma {:induction false} ServeRejects(s: Stream)
    requires s.queue == [] && s.phase.Errored?
    ensures Serve(s) == s.(pending := [], log := s.log + Rejects(s.pending, s.phase.e))
    decreases |s.pending|
  {
    if s.pending == [] {
      assert s.log + Rejects([], s.phase.e) == s.log;
    } else {
      var e := Rejected(s.pending[0], s.phase.e);
      ServeRejects(s.(pending := s.pending[1..], log := s.log + [e]));
      assert Rejects(s.pending, s.phase.e) == [e] + Rejects(s.pending[1..], s.phase.e);
      Assoc(s.log, [e], Rejects(s.pending[1..], s.phase.e));
    }
  }

  /** Serving a stream that has ended, whether chunks are left or reads wait. */
  lemma ServeEnded(s: Stream)
    requires !s.phase.Readable? && (s.pending == [] || s.queue == [])
    ensures Serve(s) == s.(pending := [], log := s.log + if s.phase.Closed? then Dones(s.pending) else Rejects(s.pending, s.phase.e))
  {
    if s.pending == [] {
      assert s.log + [] == s.log;
      assert Dones([]) == [] && (s.phase.Errored? ==> Rejects([], s.phase.e) == []);
    } else if s.phase.Closed? {
      ServeDones(s);
    } else {
      ServeRejects(s);
    }
  }

  lemma EndSettles(s: Stream, u: Stream)
    requires Shape(s) && HolderTold(s) && s.phase.Readable? && !u.phase.Readable? && (u.pending == [] || u.queue == [])
    requires u.pending == s.pending && u.log == s.log && u.issued == s.issued && u.current == s.current && u.readers == s.readers
    ensures var t := Notify(u, Returns);
      && t == u.(pending := t.pending, log := t.log, readers := t.readers)
      && AllSettled(s, t, if u.phase.Closed? then Dones(s.pending) else Rejects(s.pending, u.phase.e),
                    if u.phase.Closed? then Resolved else RejectedWith(u.phase.e))
  {
    ServeEnded(u);
  }

  lemma CancelActs(s: Stream)
    requires Inv(s)
    ensures Cancelled(s, CallCancel(s))
  {
    if s.phase.Readable? {
      EndSettles(s, Drop(s));
    }
  }

  lemma CloseActs(s: Stream)
    requires Inv(s)
    ensures ClosedNow(s, CallClose(s))
  {
    if !s.closeRequested && s.phase.Readable? {
      EndSettles(s, s.(closeRequested := true, phase := Closed));
    }
  }

  lemma ErrorActs(s: Stream, e: Failure)
    requires Inv(s)
    ensures ErroredNow(s, CallError(s, e), e)
  {
    ErrorDoes(s, e);
  }

  lemma ErrorDoes(s: Stream, e: Failure)
    requires Shape(s) && HolderTold(s) && (s.pending == [] || s.queue == [])
    ensures ErroredNow(s, CallError(s, e), e)
  {
    if s.phase.Readable? {
      EndSettles(s, s.(phase := Errored(e)));
    }
  }

  /** Serving a readable stream in which one chunk has just arrived. */
  lemma ServeAccepted(s: Stream, chunk: Chunk)
    requires s.phase.Readable? && (s.pending == [] || s.queue == [])
    ensures ServeAll(Add(s, chunk)) == Accepted(s, chunk)
  {
    if s.pending != [] {
      assert Add(s, chunk).queue == [chunk] && [chunk][1..] == [];
      assert Serve(Accepted(s, chunk)) == Accepted(s, chunk);
    }
  }

  lemma EnqueueActs(s: Stream, chunk: Chunk, pull: Pull)
    requires Inv(s)
    ensures Enqueued(s, CallEnqueue(s, chunk, pull), chunk, pull)
  {
    if s.phase.Readable? {
      ServeAccepted(s, chunk);
      var u := Accepted(s, chunk);
      if |u.queue| < s.hwm && pull.Throws? {
        ErrorDoes(u, pull.e);
        assert CallEnqueue(s, chunk, pull) == ServeAll(u.(phase := Errored(pull.e)));
      }
    }
  }

  /** What each call does. For a read of a queued chunk see `ReadWithChunkQueued`. */
  ghost predicate Acts(s: Stream, c: Call, t: Stream)
    requires Can(s, c)
  {
    match c
    case Enqueue(chunk, pull) => Enqueued(s, t, chunk, pull)
    case Close => ClosedNow(s, t)
    case Error(e) => ErroredNow(s, t, e)
    case Cancel => Cancelled(s, t)
    case GetReader => GotReader(s, t)
    case Read(r) => s.queue == [] ==> ReadEmpty(s, t, r)
    case Release(r) => ReleasedBy(s, t, r)
  }

  /** In any reachable state every call does what `Acts` says of it. */
  lemma CallActs(hwm: int, run: seq<Call>, s: Stream, c: Call)
    requires Reaches(hwm, run, s) && Can(s, c)
    ensures Acts(s, c, Do(s, c))
  {
    ReachesInv(hwm, run, s);
    InvActs(s, c);
  }

  lemma InvActs(s: Stream, c: Call)
    requires Inv(s) && Can(s, c)
    ensures Acts(s, c, Do(s, c))
  {
    match c
    case Enqueue(chunk, pull) => EnqueueActs(s, chunk, pull);
    case Close => CloseActs(s);
    case Error(e) => ErrorActs(s, e);
    case Cancel => CancelActs(s);
    case GetReader => GetReaderActs(s);
    case Read(r) => ReadEmptyActs(s, r);
    case Release(r) => ReleaseActs(s, r);
  }

  lemma GetReaderActs(s: Stream)
    requires Inv(s)
    ensures GotReader(s, CallGetReader(s))
  {
  }

  lemma ReleaseActs(s: Stream, r: ReaderId)
    requires r < |s.readers|
    ensures ReleasedBy(s, CallRelease(s, r), r)
  {
  }

  lemma ReadEmptyActs(s: Stream, r: ReaderId)
    requires Inv(s) && r < |s.readers|
    ensures s.queue == [] ==> ReadEmpty(s, CallRead(s, r), r)
  {
    assert Shape(s);
  }

  // ---------------------------------------------------------------- what every run guarantees

  /** Queueing: chunks come out in the order they went in, none lost and none twice; those
      still queued and those a cancel dropped are the rest. Reads wait only when there is
      nothing to read and more may come. */
  lemma ChunksInOrder(hwm: int, run: seq<Call>, s: Stream)
    requires Reaches(hwm, run, s)
    ensures s.accepted == Delivered(s.log) + s.queue + s.dropped
    ensures s.dropped != [] ==> s.queue == [] && s.phase.Closed?
    ensures s.pending != [] ==> s.queue == [] && s.phase.Readable?
  {
    ReachesInv(hwm, run, s);
  }

  /** The reads that got chunks got them in the order of the calls. */
  lemma FulfilledInOrder(hwm: int, run: seq<Call>, s: Stream, i: nat, j: nat)
    requires Reaches(hwm, run, s) && i < j < |s.log| && s.log[i].Fulfilled? && s.log[j].Fulfilled?
    ensures s.log[i].read.n < s.log[j].read.n
  {
    ReachesInv(hwm, run, s);
  }

  /** Every read settles at most once, and every read that has not settled is waiting. */
  lemma EachReadOnce(hwm: int, run: seq<Call>, s: Stream, id: ReadId)
    requires Reaches(hwm, run, s)
    ensures multiset(Reads(s.log))[id] + multiset(s.pending)[id] == if id.n < s.issued then 1 else 0
  {
    ReachesInv(hwm, run, s);
    var settled := multiset(Reads(s.log));
    assert (settled + multiset(s.pending))[id] == Issued(s.issued)[id];
  }

  lemma EmptyQueue(s: Stream)
    requires Conserved(s) && s.queue == []
    ensures s.accepted == Delivered(s.log) + s.dropped
  {
    assert Delivered(s.log) + [] == Delivered(s.log);
  }

  /** A reader that has not given up the stream hears of its end only when every chunk was
      delivered, or dropped by a cancel; no chunk comes out afterwards. */
  lemma DoneAfterAllChunks(hwm: int, run: seq<Call>, s: Stream, i: nat)
    requires Reaches(hwm, run, s) && i < |s.log| && s.log[i].Done? && !s.log[i].released
    ensures s.phase.Closed? && s.accepted == Delivered(s.log) + s.dropped
    ensures forall j :: i < j < |s.log| ==> !s.log[j].Fulfilled?
  {
    ReachesInv(hwm, run, s);
    assert Final(s, s.log[i]);
    EmptyQueue(s);
  }

  /** The `closed` promise of the reader that holds the stream: waiting while it is readable,
      resolved once closed, rejected with the stored error. */
  lemma HolderLearnsEnd(hwm: int, run: seq<Call>, s: Stream)
    requires Reaches(hwm, run, s) && s.current.Some?
    ensures s.current.value < |s.readers|
    ensures s.readers[s.current.value].closed ==
      match s.phase { case Readable => Waiting case Closed => Resolved case Errored(e) => RejectedWith(e) }
  {
    ReachesInv(hwm, run, s);
  }

  /** What a read gets while a chunk is queued, in any reachable state: "done" if and only if
      its reader has given up the stream; otherwise the first chunk, or the error of a stream
      that has failed. Only a chunk that is handed out leaves the queue. */
  lemma ReadWithChunkQueued(hwm: int, run: seq<Call>, s: Stream, r: ReaderId)
    requires Reaches(hwm, run, s) && r < |s.readers| && s.queue != []
    ensures var t := Do(s, Read(r));
      && |t.log| == |s.log| + 1 && t.log[..|s.log|] == s.log && t.log[|s.log|].read == ReadId(s.issued)
      && (t.log[|s.log|].Done? <==> s.readers[r].released)
      && (t.log[|s.log|].Fulfilled? <==> !s.readers[r].released && !s.phase.Errored?)
      && (t.log[|s.log|].Fulfilled? ==> t.log[|s.log|].chunk == s.queue[0])
      && (t.log[|s.log|].Rejected? ==> s.phase == Errored(t.log[|s.log|].e))
      && t.queue == (if t.log[|s.log|].Fulfilled? then s.queue[1..] else s.queue)
      && t == s.(issued := s.issued + 1, log := t.log, queue := t.queue)
  {
    ReachesInv(hwm, run, s);
    assert s.readers[r].isClosed <==> s.readers[r].released;
  }

  /** Such a reader: for any chunk, lock, enqueue, release, read. */
  lemma ReleasedReaderReadsDone(chunk: Chunk)
    ensures var s := Do(Do(Do(Do(Init(1), GetReader), Enqueue(chunk, Returns)), Release(0)), Read(0));
      s.log == [Done(ReadId(0), true)] && s.queue == [chunk] && s.phase.Readable?
  {
    var s1 := Do(Init(1), GetReader);
    var s2 := Do(s1, Enqueue(chunk, Returns));
    assert s2.queue == [chunk] && s2.phase.Readable? && s2.log == [] && s2.current == Some(0) && |s2.readers| == 1;
    var s3 := Do(s2, Release(0));
    assert s3.readers[0].isClosed && s3.readers[0].released;
  }
}
