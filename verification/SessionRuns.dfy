/**
 The backpressure state machine of one log session, as a step function over the
 segments the event loop runs without interruption. `flush` suspends only while a
 batch waits for its acknowledgement, so a run is a sequence of: a line arrives, a
 batch is acknowledged, an acknowledgement times out, the source ends, the session
 is cancelled, a source is attached.

 A `World` is the session's fields plus everything observable from outside: the
 lines accepted, the batches emitted, the calls made on sources, the number of
 times `onClose` ran.
 */
module SessionRuns {
  import opened Basics
  import opened LogTypes

  datatype OptionValues = OptionValues(
    container: string,
    batchSize: nat,
    maxQueue: nat,
    highWater: nat,
    lowWater: nat
  )

  predicate Usable(o: OptionValues) {
    1 <= o.batchSize && 1 <= o.maxQueue && o.lowWater < o.highWater
  }

  type Options = o: OptionValues | Usable(o) witness OptionValues("", 100, 2_000, 1_000, 200)

  type SourceId = nat

  datatype CallKind = Pause | Resume | Destroy
  datatype SourceCall = SourceCall(kind: CallKind, src: SourceId)

  datatype World = World(
    // the session's fields
    queue: seq<LogLine>,
    dropped: nat,
    paused: bool,
    sending: bool,
    closed: bool,
    ending: bool,
    source: Option<SourceId>,
    // what the outside has seen
    pushed: seq<LogLine>,
    batches: seq<LogsBatch>,
    calls: seq<SourceCall>,
    closings: nat
  )

  const NEW_SESSION := World([], 0, false, false, false, false, None, [], [], [], 0)

  datatype Event =
    | Line(line: LogLine)
    | Acked
    | TimedOut
    | SourceEnded
    | Cancelled
    | Attached(src: SourceId)

  // ----- the code's segments

  /** `this.source?.pause()` and its siblings. */
  function Tell(w: World, kind: CallKind): World {
    match w.source
    case None => w
    case Some(src) => w.(calls := w.calls + [SourceCall(kind, src)])
  }

  function Close(w: World): World {
    if w.closed then w
    else
      var told := Tell(w.(closed := true, queue := []), Destroy);
      told.(closings := told.closings + 1)
  }

  function MaybeFinishEnding(w: World): World {
    if w.ending && !w.sending && w.queue == [] && !w.closed then Close(w) else w
  }

  /** Takes the next batch off the queue and emits it. */
  function SendBatch(o: Options, w: World): World {
    var n := Min(o.batchSize, |w.queue|);
    var batch := LogsBatch(o.container, w.queue[..n], w.dropped);
    var sent := w.(queue := w.queue[n..], dropped := 0, batches := w.batches + [batch]);
    if sent.paused && |sent.queue| <= o.lowWater then Tell(sent.(paused := false), Resume) else sent
  }

  /** One turn of flush's loop: from the loop test to the next suspension, or to the end of flush. */
  function Turn(o: Options, w: World): World {
    if w.queue != [] && !w.closed then SendBatch(o, w)
    else MaybeFinishEnding(w.(sending := false))
  }

  function Flush(o: Options, w: World): World {
    if w.sending || w.closed then w else Turn(o, w.(sending := true))
  }

  /** The queue after the line is in and the oldest one is out if there was no room. */
  function Enqueue(o: Options, w: World, line: LogLine): World {
    var full := |w.queue| >= o.maxQueue;
    w.(queue := (if full then w.queue[1..] else w.queue) + [line],
       dropped := if full then w.dropped + 1 else w.dropped,
       pushed := w.pushed + [line])
  }

  function PauseIfHigh(o: Options, w: World): World {
    if !w.paused && |w.queue| >= o.highWater then Tell(w.(paused := true), Pause) else w
  }

  function Push(o: Options, w: World, line: LogLine): World {
    if w.closed then w else Flush(o, PauseIfHigh(o, Enqueue(o, w, line)))
  }

  function End(w: World): World {
    if w.closed || w.ending then w else MaybeFinishEnding(w.(ending := true, source := None))
  }

  function Attach(w: World, src: SourceId): World {
    if w.closed then w.(calls := w.calls + [SourceCall(Destroy, src)]) else w.(source := Some(src))
  }

  /** Acknowledgements and timeouts only happen to a batch in flight. */
  function Step(o: Options, w: World, e: Event): World {
    match e
    case Line(line) => Push(o, w, line)
    case Acked => if w.sending then Turn(o, w) else w
    case TimedOut => if w.sending then MaybeFinishEnding(Close(w).(sending := false)) else w
    case SourceEnded => End(w)
    case Cancelled => Close(w)
    case Attached(src) => Attach(w, src)
  }

  function Run(o: Options, w: World, events: seq<Event>): World
    decreases |events|
  {
    if events == [] then w else Step(o, Run(o, w, events[..|events| - 1]), events[|events| - 1])
  }

  // ----- accounting

  /** Lines accounted for by the batches: delivered, or reported as dropped. */
  function Covered(batches: seq<LogsBatch>): nat {
    if batches == [] then 0
    else
      var b := batches[|batches| - 1];
      Covered(batches[..|batches| - 1]) + b.dropped + |b.lines|
  }

  /** The lines of all batches, in order. */
  function Delivered(batches: seq<LogsBatch>): seq<LogLine> {
    if batches == [] then []
    else Delivered(batches[..|batches| - 1]) + batches[|batches| - 1].lines
  }

  /** The lines among the events. */
  function LinesOf(events: seq<Event>): seq<LogLine> {
    if events == [] then []
    else
      var e := events[|events| - 1];
      LinesOf(events[..|events| - 1]) + if e.Line? then [e.line] else []
  }

  /**
   Every batch is the block of pushed lines that starts right after the previous
   batch's block plus the lines it reports as dropped.
   */
  ghost predicate GapExact(pushed: seq<LogLine>, batches: seq<LogsBatch>)
    decreases |batches|
  {
    batches == [] ||
    var init, b := batches[..|batches| - 1], batches[|batches| - 1];
    && GapExact(pushed, init)
    && Covered(batches) <= |pushed|
    && b.lines == pushed[Covered(init) + b.dropped..Covered(batches)]
  }

  /** What an open session owes: the queue is the tail of the pushed lines not yet accounted for. */
  ghost predicate Ledger(pushed: seq<LogLine>, batches: seq<LogsBatch>, dropped: nat, queue: seq<LogLine>) {
    && GapExact(pushed, batches)
    && |pushed| == Covered(batches) + dropped + |queue|
    && queue == pushed[Covered(batches) + dropped..]
  }

  ghost predicate Accounted(w: World) {
    && GapExact(w.pushed, w.batches)
    && Covered(w.batches) <= |w.pushed|
    && (!w.closed ==> Ledger(w.pushed, w.batches, w.dropped, w.queue))
  }

  /** The control invariants. */
  ghost predicate Controlled(o: Options, w: World) {
    && |w.queue| <= o.maxQueue
    && w.closings == (if w.closed then 1 else 0)
    && (w.closed ==> w.queue == [])
    && (!w.closed ==>
          && (w.sending || (w.queue == [] && !w.paused && !w.ending))
          && (if w.paused then o.lowWater < |w.queue| else |w.queue| < o.highWater)
          && (0 < w.dropped ==> |w.queue| == o.maxQueue))
  }

  ghost predicate Sound(o: Options, w: World) {
    Controlled(o, w) && Accounted(w)
  }

  // ----- the ledger, one bookkeeping move at a time

  lemma {:induction false} GapExactAfterMoreLines(pushed: seq<LogLine>, line: LogLine, batches: seq<LogsBatch>)
    requires GapExact(pushed, batches)
    ensures GapExact(pushed + [line], batches)
    decreases |batches|
  {
    if batches != [] {
      GapExactAfterMoreLines(pushed, line, batches[..|batches| - 1]);
    }
  }

  lemma LedgerAfterPush(pushed: seq<LogLine>, batches: seq<LogsBatch>, dropped: nat, queue: seq<LogLine>, line: LogLine)
    requires Ledger(pushed, batches, dropped, queue)
    ensures Ledger(pushed + [line], batches, dropped, queue + [line])
    ensures queue != [] ==> Ledger(pushed + [line], batches, dropped + 1, queue[1..] + [line])
  {
    GapExactAfterMoreLines(pushed, line, batches);
  }

  lemma LedgerAfterSend(pushed: seq<LogLine>, batches: seq<LogsBatch>, dropped: nat, queue: seq<LogLine>,
                        container: string, n: nat)
    requires Ledger(pushed, batches, dropped, queue) && n <= |queue|
    ensures Ledger(pushed, batches + [LogsBatch(container, queue[..n], dropped)], 0, queue[n..])
  {
    var batch := LogsBatch(container, queue[..n], dropped);
    var more := batches + [batch];
    assert more[..|more| - 1] == batches && more[|more| - 1] == batch;
    assert Covered(more) == Covered(batches) + dropped + n;
  }

  // ----- every step keeps it

  lemma {:induction false} TurnAccounted(o: Options, w: World)
    requires Accounted(w)
    ensures Accounted(Turn(o, w))
  {
    if w.queue != [] && !w.closed {
      LedgerAfterSend(w.pushed, w.batches, w.dropped, w.queue, o.container, Min(o.batchSize, |w.queue|));
    }
  }

  lemma {:induction false} EnqueueAccounted(o: Options, w: World, line: LogLine)
    requires Accounted(w) && !w.closed
    ensures Accounted(PauseIfHigh(o, Enqueue(o, w, line)))
  {
    LedgerAfterPush(w.pushed, w.batches, w.dropped, w.queue, line);
    var q := Enqueue(o, w, line);
    assert Ledger(q.pushed, q.batches, q.dropped, q.queue);
  }

  lemma {:induction false} PushAccounted(o: Options, w: World, line: LogLine)
    requires Accounted(w)
    ensures Accounted(Push(o, w, line))
  {
    if !w.closed {
      EnqueueAccounted(o, w, line);
      TurnAccounted(o, PauseIfHigh(o, Enqueue(o, w, line)).(sending := true));
    }
  }

  lemma {:induction false} StepAccounted(o: Options, w: World, e: Event)
    requires Accounted(w)
    ensures Accounted(Step(o, w, e))
  {
    match e
    case Line(line) => PushAccounted(o, w, line);
    case Acked => TurnAccounted(o, w);
    case _ =>
  }

  lemma PushControlled(o: Options, w: World, line: LogLine)
    requires Controlled(o, w)
    ensures Controlled(o, Push(o, w, line))
  {
    if !w.closed {
      var t := PauseIfHigh(o, Enqueue(o, w, line));
      assert t.paused ==> w.paused || |t.queue| >= o.highWater;
    }
  }

  lemma StepControlled(o: Options, w: World, e: Event)
    requires Controlled(o, w)
    ensures Controlled(o, Step(o, w, e))
  {
    match e
    case Line(line) => PushControlled(o, w, line);
    case _ =>
  }

  lemma {:induction false} RunSound(o: Options, events: seq<Event>)
    ensures Sound(o, Run(o, NEW_SESSION, events))
    decreases |events|
  {
    if events != [] {
      var before := Run(o, NEW_SESSION, events[..|events| - 1]);
      RunSound(o, events[..|events| - 1]);
      StepAccounted(o, before, events[|events| - 1]);
      StepControlled(o, before, events[|events| - 1]);
    }
  }
}
