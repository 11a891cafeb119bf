/**
 The optimization-event pipeline: emitters push to a bounded channel without blocking, and one task collects what it
 receives into batches, sent when full, on a timer, or when all senders are gone. A batch is cleared whether or not
 sending it succeeds, so `sent` lists the batches handed to the HTTP client.
 */
module EventBatcher {
  import opened Wrappers

  datatype EventRecord = EventRecord(eventType: string, host: string, url: string, decision: string,
                                     origSize: Option<nat>, outSize: Option<nat>, rangeHeader: Option<string>,
                                     contentType: Option<string>, elapsedMs: nat)

  /** What happens around the flush task: an emit, a wake-up of its receive or timer branch, the last sender gone. */
  datatype Happening =
    | Emit(event: EventRecord)
    | RecvReady
    | TimerReady
    | SendersGone

  /** `accepted`, `emitted` and `dropped` are history. */
  datatype Pipeline = Pipeline(channel: seq<EventRecord>, capacity: nat, batchSize: nat, closed: bool,
                               buffer: seq<EventRecord>, sent: seq<seq<EventRecord>>, finished: bool,
                               accepted: seq<EventRecord>, emitted: nat, dropped: nat)

  function Start(capacity: nat, batchSize: nat): Pipeline {
    Pipeline([], capacity, batchSize, false, [], [], false, [], 0, 0)
  }

  function Flatten(batches: seq<seq<EventRecord>>): seq<EventRecord> {
    if batches == [] then [] else Flatten(batches[..|batches| - 1]) + batches[|batches| - 1]
  }

  /** The largest batch: a batch size of zero still sends single events. */
  function Limit(p: Pipeline): nat { if p.batchSize < 1 then 1 else p.batchSize }

  /** flush_once, guarded by its caller: hand the buffer over and clear it. */
  function Flush(p: Pipeline): Pipeline {
    if p.buffer == [] then p else p.(sent := p.sent + [p.buffer], buffer := [])
  }

  /** The receive branch takes the oldest queued event. */
  function Take(p: Pipeline): Pipeline
    requires p.channel != []
  {
    p.(channel := p.channel[1..], buffer := p.buffer + [p.channel[0]])
  }

  function Step(p: Pipeline, h: Happening): Pipeline {
    match h
    case Emit(ev) =>
      var q := p.(emitted := p.emitted + 1);
      if p.closed then p   // there is no sender left to emit through
      else if |p.channel| < p.capacity && !p.finished then
        q.(channel := p.channel + [ev], accepted := p.accepted + [ev])
      else q.(dropped := p.dropped + 1)
    case RecvReady =>
      if p.finished then p
      else if p.channel != [] then
        if |Take(p).buffer| >= p.batchSize then Flush(Take(p)) else Take(p)
      else if p.closed then Flush(p).(finished := true)
      else p
    case TimerReady => if p.finished then p else Flush(p)
    case SendersGone => p.(closed := true)
  }

  function RunFrom(p: Pipeline, hs: seq<Happening>): Pipeline
    decreases |hs|
  {
    if hs == [] then p else RunFrom(Step(p, hs[0]), hs[1..])
  }

  /** The events the task has received, in order. */
  function Received(p: Pipeline): seq<EventRecord> { Flatten(p.sent) + p.buffer }

  ghost predicate BatchesFit(p: Pipeline) {
    forall i :: 0 <= i < |p.sent| ==> 1 <= |p.sent[i]| <= Limit(p)
  }

  /** Nothing accepted is lost, repeated or reordered; batches are never empty nor too large; the buffer always has
      room; the task ends only with nothing left to send. */
  ghost predicate Inv(p: Pipeline) {
    && Received(p) + p.channel == p.accepted && BatchesFit(p)
    && |p.buffer| < Limit(p)
    && p.emitted == |p.accepted| + p.dropped
    && |p.channel| <= p.capacity
    && (p.finished ==> p.closed && p.buffer == [] && p.channel == [])
  }

  lemma FlushKeeps(p: Pipeline)
    requires |p.buffer| <= Limit(p) && BatchesFit(p)
    ensures var q := Flush(p);
            && Received(q) == Received(p) && q.buffer == [] && BatchesFit(q)
            && q == p.(sent := q.sent, buffer := [])
  {
    if p.buffer != [] {
      assert (p.sent + [p.buffer])[..|p.sent|] == p.sent;
      assert Flatten(Flush(p).sent) + [] == Flatten(p.sent) + p.buffer;
    }
  }

  lemma TakeKeeps(p: Pipeline)
    requires p.channel != []
    ensures Received(Take(p)) + Take(p).channel == Received(p) + p.channel
  {
    assert p.channel == [p.channel[0]] + p.channel[1..];
  }

  /** A flush keeps the invariant of a pipeline whose buffer has at most filled up. */
  lemma FlushKeepsInv(p: Pipeline)
    requires Received(p) + p.channel == p.accepted && BatchesFit(p) && |p.buffer| <= Limit(p)
    requires p.emitted == |p.accepted| + p.dropped && |p.channel| <= p.capacity && !p.finished
    ensures Inv(Flush(p))
  {
    FlushKeeps(p);
  }

  lemma TakeKeepsInv(p: Pipeline)
    requires Inv(p) && !p.finished && p.channel != []
    ensures |Take(p).buffer| < p.batchSize ==> Inv(Take(p))
    ensures |Take(p).buffer| >= p.batchSize ==> Inv(Flush(Take(p)))
  {
    TakeKeeps(p);
    if |Take(p).buffer| >= p.batchSize { FlushKeepsInv(Take(p)); }
  }

  lemma RecvKeepsInv(p: Pipeline)
    requires Inv(p)
    ensures Inv(Step(p, RecvReady))
  {
    if !p.finished && p.channel != [] {
      TakeKeepsInv(p);
    } else if !p.finished && p.closed {
      FlushKeepsInv(p);
    }
  }

  lemma EmitKeepsInv(p: Pipeline, ev: EventRecord)
    requires Inv(p)
    ensures Inv(Step(p, Emit(ev)))
  {
    assert Received(p) + (p.channel + [ev]) == Received(p) + p.channel + [ev];
  }

  lemma StepKeepsInv(p: Pipeline, h: Happening)
    requires Inv(p)
    ensures Inv(Step(p, h))
  {
    match h {
      case Emit(ev) => EmitKeepsInv(p, ev);
      case RecvReady => RecvKeepsInv(p);
      case TimerReady => if !p.finished { FlushKeepsInv(p); }
      case SendersGone =>
    }
  }

  lemma {:induction false} RunKeepsInv(p: Pipeline, hs: seq<Happening>)
    requires Inv(p)
    ensures Inv(RunFrom(p, hs))
    decreases |hs|
  {
    if hs != [] {
      StepKeepsInv(p, hs[0]);
      RunKeepsInv(Step(p, hs[0]), hs[1..]);
    }
  }

  lemma {:induction false} SettingsStay(p: Pipeline, hs: seq<Happening>)
    ensures RunFrom(p, hs).capacity == p.capacity && RunFrom(p, hs).batchSize == p.batchSize
    decreases |hs|
  {
    if hs != [] { SettingsStay(Step(p, hs[0]), hs[1..]); }
  }

  /** In every run: the batches sent, then the buffer, then the channel are the accepted events in order; every batch
      is non-empty and at most the batch size (or one, if that is zero); emitted = accepted + dropped; and once the task
      has ended every accepted event is in some batch. */
  lemma BatchesAreTheAcceptedEvents(capacity: nat, batchSize: nat, hs: seq<Happening>)
    ensures var p := RunFrom(Start(capacity, batchSize), hs);
            && p.batchSize == batchSize && p.capacity == capacity
            && Flatten(p.sent) + p.buffer + p.channel == p.accepted
            && (forall i :: 0 <= i < |p.sent| ==> 1 <= |p.sent[i]| <= Limit(p)) && |p.buffer| < Limit(p)
            && p.emitted == |p.accepted| + p.dropped
            && (p.finished ==> Flatten(p.sent) == p.accepted)
  {
    RunKeepsInv(Start(capacity, batchSize), hs);
    SettingsStay(Start(capacity, batchSize), hs);
  }

  /** After the last sender is gone, as many receives as there are queued events and one more end the task. */
  lemma {:induction false} ClosedPipelineDrains(p: Pipeline)
    requires Inv(p) && p.closed
    ensures RunFrom(p, seq(|p.channel| + 1, i => RecvReady)).finished
    decreases |p.channel|
  {
    var hs := seq(|p.channel| + 1, i => RecvReady);
    var p' := Step(p, RecvReady);
    StepKeepsInv(p, RecvReady);
    if p.finished {
      assert p.channel == [] && hs[1..] == [];
    } else if p.channel == [] {
      assert hs[1..] == [];
    } else {
      assert hs[1..] == seq(|p'.channel| + 1, i => RecvReady);
      ClosedPipelineDrains(p');
    }
  }

  // ---- The task and its channel ----

  class EventsPipeline {
    var channel: seq<EventRecord>
    var closed: bool
    var finished: bool
    var buffer: seq<EventRecord>
    var sent: seq<seq<EventRecord>>
    ghost var accepted: seq<EventRecord>
    ghost var emitted: nat
    ghost var dropped: nat
    const capacity: nat
    const batchSize: nat

    ghost function View(): Pipeline reads this {
      Pipeline(channel, capacity, batchSize, closed, buffer, sent, finished, accepted, emitted, dropped)
    }

    constructor (capacity: nat, batchSize: nat)
      ensures View() == Start(capacity, batchSize) && Inv(View())
    {
      channel, closed, finished, buffer, sent := [], false, false, [], [];
      accepted, emitted, dropped := [], 0, 0;
      this.capacity, this.batchSize := capacity, batchSize;
    }

    /** EventsSender::emit: never blocks, drops when the channel is full or the task has ended. */
    method TryEmit(ev: EventRecord) returns (ok: bool)
      requires Inv(View()) && !closed
      modifies this
      ensures Inv(View()) && View() == Step(old(View()), Emit(ev))
      ensures ok <==> |old(channel)| < capacity && !finished
      ensures channel == (if ok then old(channel) + [ev] else old(channel))
      ensures accepted == (if ok then old(accepted) + [ev] else old(accepted))
      ensures dropped == (if ok then old(dropped) else old(dropped) + 1) && emitted == old(emitted) + 1
      ensures buffer == old(buffer) && sent == old(sent)
    {
      StepKeepsInv(View(), Emit(ev));
      emitted := emitted + 1;
      ok := |channel| < capacity && !finished;
      if ok {
        channel := channel + [ev];
        accepted := accepted + [ev];
      } else {
        dropped := dropped + 1;
      }
    }

    method FlushOnce()
      requires buffer != []
      modifies this`buffer, this`sent
      ensures View() == Flush(old(View())) && buffer == [] && sent == old(sent) + [old(buffer)]
    {
      sent := sent + [buffer];
      buffer := [];
    }

    /** The receive branch of the select loop. */
    method OnRecv()
      requires Inv(View())
      modifies this
      ensures View() == Step(old(View()), RecvReady)
      ensures !old(finished) && old(channel) != [] ==>
                var filled := old(buffer) + [old(channel)[0]];
                && channel == old(channel)[1..] && !finished
                && (|filled| < batchSize ==> buffer == filled && sent == old(sent))
                && (|filled| >= batchSize ==> buffer == [] && sent == old(sent) + [filled])
      ensures !old(finished) && old(channel) == [] && closed ==>
                finished && buffer == [] && sent == old(sent) + (if old(buffer) == [] then [] else [old(buffer)])
      ensures old(finished) || (old(channel) == [] && !closed) ==> View() == old(View())
    {
      if finished { return; }
      if channel != [] {
        buffer := buffer + [channel[0]];
        channel := channel[1..];
        if |buffer| >= batchSize { FlushOnce(); }
      } else if closed {
        if buffer != [] { FlushOnce(); }
        finished := true;
      }
    }

    /** The timer branch. */
    method OnTimer()
      requires Inv(View())
      modifies this
      ensures View() == Step(old(View()), TimerReady) && channel == old(channel)
      ensures !finished ==> buffer == []
      ensures sent == old(sent) + (if old(buffer) == [] then [] else [old(buffer)])
    {
      if !finished && buffer != [] { FlushOnce(); }
    }

    /** One wake-up of the select loop, or one thing that happens beside it. */
    method Turn(h: Happening)
      requires Inv(View())
      modifies this
      ensures Inv(View()) && View() == Step(old(View()), h)
    {
      StepKeepsInv(View(), h);
      match h {
        case Emit(ev) => if !closed { var _ := TryEmit(ev); }
        case RecvReady => OnRecv();
        case TimerReady => OnTimer();
        case SendersGone => closed := true;
      }
    }

    /** flush_loop, under a schedule of wake-ups and of what others do meanwhile. */
    method FlushLoop(schedule: seq<Happening>)
      requires Inv(View())
      modifies this
      ensures Inv(View()) && View() == RunFrom(old(View()), schedule)
    {
      for i := 0 to |schedule|
        invariant Inv(View()) && RunFrom(View(), schedule[i..]) == RunFrom(old(View()), schedule)
      {
        assert schedule[i..][0] == schedule[i] && schedule[i..][1..] == schedule[i + 1..];
        Turn(schedule[i]);
      }
      assert schedule[|schedule|..] == [];
    }
  }
}
