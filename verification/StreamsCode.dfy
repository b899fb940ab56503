/** ReadableStream, its default controller and its readers as polyfill.js writes them: fields
    that every method updates in place, and the serving loop. Each method refines the call of
    the same name in `Streams`. */
module StreamsCode {
  import opened Streams
  import opened Wrappers

  class ReadableStream {
    var phase: Phase
    var queue: seq<Chunk>
    var pendingReads: seq<ReadId>
    const hwm: int
    var closeRequested: bool
    var readers: seq<Reader>
    var reader: Option<ReaderId>
    var log: seq<Settled>
    var issued: nat
    ghost var accepted: seq<Chunk>
    ghost var dropped: seq<Chunk>

    ghost function State(): Stream
      reads this
    {
      Stream(phase, queue, pendingReads, hwm, closeRequested, readers, reader, accepted, dropped, log, issued)
    }

    constructor (highWaterMark: int)
      ensures State() == Init(highWaterMark)
    {
      phase, queue, pendingReads, hwm, closeRequested := Readable, [], [], highWaterMark, false;
      readers, reader, log, issued, accepted, dropped := [], None, [], 0, [], [];
    }

    /** The loop of `_notifyReaders`. */
    method ServeReads()
      modifies this`queue, this`pendingReads, this`log
      ensures State() == Serve(old(State()))
    {
      while pendingReads != []
        invariant Serve(State()) == Serve(old(State()))
        decreases |pendingReads|
      {
        if queue != [] {
          log := log + [Fulfilled(pendingReads[0], queue[0])];
          pendingReads, queue := pendingReads[1..], queue[1..];
        } else if phase.Closed? {
          log := log + [Done(pendingReads[0], false)];
          pendingReads := pendingReads[1..];
        } else if phase.Errored? {
          log := log + [Rejected(pendingReads[0], phase.e)];
          pendingReads := pendingReads[1..];
        } else {
          break;
        }
      }
    }

    /** The part of `_notifyReaders` that settles the holder's `closed` promise. */
    method TellHolder()
      modifies this`readers
      ensures State() == SettleClosed(old(State()))
    {
      if reader.Some? && reader.value < |readers| && readers[reader.value].closed.Waiting? {
        var r := readers[reader.value];
        if phase.Closed? {
          readers := readers[reader.value := r.(closed := Resolved)];
        } else if phase.Errored? {
          readers := readers[reader.value := r.(closed := RejectedWith(phase.e))];
        }
      }
    }

    /** `_notifyReaders`; a pull that throws goes to the controller's `error`. */
    method NotifyReaders(pull: Pull)
      modifies this`queue, this`pendingReads, this`log, this`readers, this`phase
      ensures State() == Notify(old(State()), pull)
    {
      ServeReads();
      TellHolder();
      if phase.Readable? && |queue| < hwm && pull.Throws? {
        phase := Errored(pull.e);
        ServeReads();
        TellHolder();
      }
    }

    method Enqueue(chunk: Chunk, pull: Pull)
      modifies this
      ensures State() == CallEnqueue(old(State()), chunk, pull)
      ensures old(Inv(State())) ==> Inv(State()) && Enqueued(old(State()), State(), chunk, pull)
    {
      ghost var was := State();
      if Inv(was) {
        EnqueueKeeps(was, chunk, pull);
        EnqueueActs(was, chunk, pull);
      }
      if phase.Readable? {
        queue := queue + [chunk];
        accepted := accepted + [chunk];
        NotifyReaders(pull);
      }
    }

    method Close()
      modifies this
      ensures State() == CallClose(old(State()))
      ensures old(Inv(State())) ==> Inv(State()) && ClosedNow(old(State()), State())
    {
      ghost var was := State();
      if Inv(was) {
        CloseKeeps(was);
        CloseActs(was);
      }
      if closeRequested {
        return;
      }
      closeRequested := true;
      if phase.Readable? {
        phase := Closed;
        NotifyReaders(Returns);
      }
    }

    method Error(e: Failure)
      modifies this
      ensures State() == CallError(old(State()), e)
      ensures old(Inv(State())) ==> Inv(State()) && ErroredNow(old(State()), State(), e)
    {
      ghost var was := State();
      if Inv(was) {
        ErrorKeeps(was, e);
        ErrorActs(was, e);
      }
      if phase.Readable? {
        phase := Errored(e);
        NotifyReaders(Returns);
      }
    }

    method Cancel()
      modifies this
      ensures State() == CallCancel(old(State()))
      ensures old(Inv(State())) ==> Inv(State()) && Cancelled(old(State()), State())
    {
      ghost var was := State();
      if Inv(was) {
        CancelKeeps(was);
        CancelActs(was);
      }
      if phase.Readable? {
        phase := Closed;
        dropped := dropped + queue;
        queue := [];
        NotifyReaders(Returns);
      }
    }

    /** `getReader`; `None` when it throws. */
    method GetReader() returns (r: Option<ReaderId>)
      modifies this
      ensures State() == CallGetReader(old(State()))
      ensures r == if NewReader(old(State())).Some? then Some(old(|readers|)) else None
    {
      if reader.Some? || phase.Errored? {
        return None;
      }
      r := Some(|readers|);
      readers := readers + [Reader(false, false, if phase.Closed? then Resolved else Waiting)];
      reader := r;
    }

    method Read(r: ReaderId)
      requires r < |readers|
      modifies this
      ensures State() == CallRead(old(State()), r)
    {
      var id := ReadId(issued);
      issued := issued + 1;
      if readers[r].isClosed {
        log := log + [Done(id, readers[r].released)];
      } else if phase.Errored? {
        log := log + [Rejected(id, phase.e)];
      } else if queue != [] {
        log := log + [Fulfilled(id, queue[0])];
        queue := queue[1..];
      } else if phase.Closed? {
        readers := readers[r := readers[r].(isClosed := true)];
        log := log + [Done(id, false)];
      } else {
        pendingReads := pendingReads + [id];
      }
    }

    method ReleaseLock(r: ReaderId)
      requires r < |readers|
      modifies this
      ensures State() == CallRelease(old(State()), r)
    {
      if reader != Some(r) {
        return;
      }
      reader := None;
      readers := readers[r := readers[r].(isClosed := true, released := true)];
    }
  }
}
