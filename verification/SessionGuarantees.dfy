/** What every run of a log session guarantees. */
module SessionGuarantees {
  import opened Basics
  import opened LogTypes
  import opened SessionRuns

  function Acks(n: nat): seq<Event> {
    seq(n, _ => Acked)
  }

  function Lines(lines: seq<LogLine>): seq<Event> {
    seq(|lines|, i requires 0 <= i < |lines| => Line(lines[i]))
  }

  /** Batches answered so far, by an acknowledgement or by a timeout. */
  function Answers(o: Options, events: seq<Event>): nat {
    if events == [] then 0
    else
      var init, e := events[..|events| - 1], events[|events| - 1];
      Answers(o, init) + if Run(o, NEW_SESSION, init).sending && (e.Acked? || e.TimedOut?) then 1 else 0
  }

  lemma {:induction false} RunSplit(o: Options, w: World, a: seq<Event>, b: seq<Event>)
    ensures Run(o, w, a + b) == Run(o, Run(o, w, a), b)
    decreases |b|
  {
    if b == [] {
      assert a + b == a;
    } else {
      assert (a + b)[..|a + b| - 1] == a + b[..|b| - 1];
      RunSplit(o, w, a, b[..|b| - 1]);
    }
  }

  // ----- gap-exact delivery

  lemma {:induction false} GapExactAt(pushed: seq<LogLine>, batches: seq<LogsBatch>, k: nat)
    requires GapExact(pushed, batches) && k < |batches|
    ensures Covered(batches[..k]) + batches[k].dropped <= Covered(batches[..k + 1]) <= |pushed|
    ensures batches[k].lines == pushed[Covered(batches[..k]) + batches[k].dropped..Covered(batches[..k + 1])]
    decreases |batches|
  {
    var init := batches[..|batches| - 1];
    if k == |init| {
      assert batches[..k] == init && batches[..k + 1] == batches;
    } else {
      assert batches[..k] == init[..k] && batches[..k + 1] == init[..k + 1] && batches[k] == init[k];
      GapExactAt(pushed, init, k);
    }
  }

  /**
   In every run, batch `k` is a contiguous block of the accepted lines, `dropped` is
   exactly the gap before it, and while the session is open what the batches, the
   pending count and the queue account for is everything that was accepted.
   */
  lemma {:induction false} GapExactDelivery(o: Options, events: seq<Event>, k: nat)
    requires k < |Run(o, NEW_SESSION, events).batches|
    ensures var w := Run(o, NEW_SESSION, events);
            var start := Covered(w.batches[..k]);
            var b := w.batches[k];
            && start + b.dropped + |b.lines| == Covered(w.batches[..k + 1]) <= |w.pushed|
            && b.lines == w.pushed[start + b.dropped..start + b.dropped + |b.lines|]
            && (!w.closed ==>
                  && Covered(w.batches) + w.dropped + |w.queue| == |w.pushed|
                  && w.queue == w.pushed[|w.pushed| - |w.queue|..])
  {
    RunSound(o, events);
    var w := Run(o, NEW_SESSION, events);
    GapExactAt(w.pushed, w.batches, k);
  }

  /** The accepted lines are the arriving lines, up to the moment the session closes. */
  lemma {:induction false} AcceptedLines(o: Options, events: seq<Event>)
    ensures var w := Run(o, NEW_SESSION, events);
            && w.pushed <= LinesOf(events)
            && (!w.closed ==> w.pushed == LinesOf(events))
    decreases |events|
  {
    if events != [] {
      AcceptedLines(o, events[..|events| - 1]);
      StepAccepts(o, Run(o, NEW_SESSION, events[..|events| - 1]), events[|events| - 1]);
    }
  }

  lemma TurnAccepts(o: Options, w: World)
    ensures Turn(o, w).pushed == w.pushed && (w.closed ==> Turn(o, w).closed)
  {
  }

  lemma StepAccepts(o: Options, w: World, e: Event)
    ensures var w' := Step(o, w, e);
            && w'.pushed == (if e.Line? && !w.closed then w.pushed + [e.line] else w.pushed)
            && (w.closed ==> w'.closed)
  {
    match e
    case Line(line) => TurnAccepts(o, PauseIfHigh(o, Enqueue(o, w, line)).(sending := true));
    case Acked => TurnAccepts(o, w);
    case _ =>
  }

  /** One batch in flight at a time: all but the one in flight, if any, have been answered. */
  lemma {:induction false} OneBatchInFlight(o: Options, events: seq<Event>)
    ensures var w := Run(o, NEW_SESSION, events);
            |w.batches| == Answers(o, events) + if w.sending then 1 else 0
    decreases |events|
  {
    if events != [] {
      OneBatchInFlight(o, events[..|events| - 1]);
      StepSends(o, Run(o, NEW_SESSION, events[..|events| - 1]), events[|events| - 1]);
    }
  }

  /** A batch holds at least one line and at most `batchSize`, for the session's container. */
  predicate Proper(o: Options, b: LogsBatch) {
    1 <= |b.lines| <= o.batchSize && b.container == o.container
  }

  lemma {:induction false} BatchesAreProper(o: Options, events: seq<Event>)
    ensures forall b <- Run(o, NEW_SESSION, events).batches :: Proper(o, b)
    decreases |events|
  {
    if events != [] {
      BatchesAreProper(o, events[..|events| - 1]);
      StepSends(o, Run(o, NEW_SESSION, events[..|events| - 1]), events[|events| - 1]);
    }
  }

  /** `w'` has emitted nothing more than `w` and sends nothing, or one proper batch that is now in flight. */
  ghost predicate EmitsOneIfSending(o: Options, w: World, w': World) {
    if w'.sending then exists b | Proper(o, b) :: w'.batches == w.batches + [b]
    else w'.batches == w.batches
  }

  lemma TurnSends(o: Options, w: World)
    requires w.sending
    ensures EmitsOneIfSending(o, w, Turn(o, w))
  {
    if w.queue != [] && !w.closed {
      var n := Min(o.batchSize, |w.queue|);
      var b := LogsBatch(o.container, w.queue[..n], w.dropped);
      assert Proper(o, b) && Turn(o, w).batches == w.batches + [b];
    }
  }

  /** A batch leaves only when none is in flight, or as the answer to the one in flight. */
  lemma StepSends(o: Options, w: World, e: Event)
    ensures var w' := Step(o, w, e);
            if (w.sending && (e.Acked? || e.TimedOut?)) || !w.sending then EmitsOneIfSending(o, w, w')
            else w'.sending && w'.batches == w.batches
  {
    match e
    case Line(line) =>
      if !w.closed && !w.sending {
        TurnSends(o, PauseIfHigh(o, Enqueue(o, w, line)).(sending := true));
      }
    case Acked =>
      if w.sending {
        TurnSends(o, w);
      }
    case _ =>
  }

  /**
   No lost wakeup: an open session that is not sending has nothing queued and has not
   paused its source; a paused one has a batch in flight and more than `lowWater`
   lines to send; an unpaused one is below `highWater`.
   */
  lemma {:induction false} NeverStalls(o: Options, events: seq<Event>)
    ensures var w := Run(o, NEW_SESSION, events);
            && |w.queue| <= o.maxQueue
            && (!w.closed && !w.sending ==> w.queue == [] && !w.paused && !w.ending)
            && (!w.closed && w.paused ==> w.sending && o.lowWater < |w.queue|)
            && (!w.closed && !w.paused ==> |w.queue| < o.highWater)
            && w.closings == (if w.closed then 1 else 0)
  {
    RunSound(o, events);
  }

  lemma ClosedStep(o: Options, w: World, e: Event)
    requires w.closed && w.queue == []
    ensures var w' := Step(o, w, e);
            && w'.closed && w'.queue == [] && w'.closings == w.closings
            && w'.batches == w.batches && w'.pushed == w.pushed
  {
  }

  /** A closed session accepts nothing, emits nothing and never calls onClose again. */
  lemma {:induction false} ClosedIsSilent(o: Options, w: World, events: seq<Event>)
    requires w.closed && w.queue == []
    ensures var after := Run(o, w, events);
            && after.closed && after.queue == [] && after.closings == w.closings
            && after.batches == w.batches && after.pushed == w.pushed
    decreases |events|
  {
    if events != [] {
      ClosedIsSilent(o, w, events[..|events| - 1]);
      ClosedStep(o, Run(o, w, events[..|events| - 1]), events[|events| - 1]);
    }
  }

  /** The destruction of the source the session holds, if it holds one. */
  function Destruction(w: World): seq<SourceCall> {
    match w.source
    case None => []
    case Some(src) => [SourceCall(Destroy, src)]
  }

  /** From `w` on the session is cut: onClose has run once, the source is gone, and nothing follows. */
  ghost predicate CutFrom(w: World, now: World) {
    now.closed && now.closings == 1 && now.batches == w.batches && now.pushed == w.pushed
  }

  lemma RunOneMore(o: Options, events: seq<Event>, e: Event)
    ensures Run(o, NEW_SESSION, events + [e]) == Step(o, Run(o, NEW_SESSION, events), e)
  {
    assert (events + [e])[..|events|] == events;
  }

  lemma CutStays(o: Options, w: World, cut: seq<Event>, after: seq<Event>)
    requires CutFrom(w, Run(o, NEW_SESSION, cut)) && Run(o, NEW_SESSION, cut).queue == []
    ensures CutFrom(w, Run(o, NEW_SESSION, cut + after))
  {
    RunSplit(o, NEW_SESSION, cut, after);
    ClosedIsSilent(o, Run(o, NEW_SESSION, cut), after);
  }

  /**
   An acknowledgement that expires cuts an open session for good: its source is destroyed,
   onClose runs once, and nothing is accepted or emitted again.
   */
  lemma TimeoutCuts(o: Options, before: seq<Event>, after: seq<Event>)
    requires var w := Run(o, NEW_SESSION, before); w.sending && !w.closed
    ensures var w := Run(o, NEW_SESSION, before);
            && Run(o, NEW_SESSION, before + [TimedOut]).calls == w.calls + Destruction(w)
            && CutFrom(w, Run(o, NEW_SESSION, before + [TimedOut] + after))
  {
    RunOneMore(o, before, TimedOut);
    RunSound(o, before);
    CutStays(o, Run(o, NEW_SESSION, before), before + [TimedOut], after);
  }

  /** So does a cancellation, whenever it comes. */
  lemma CancellationCuts(o: Options, before: seq<Event>, after: seq<Event>)
    requires !Run(o, NEW_SESSION, before).closed
    ensures var w := Run(o, NEW_SESSION, before);
            && Run(o, NEW_SESSION, before + [Cancelled]).calls == w.calls + Destruction(w)
            && CutFrom(w, Run(o, NEW_SESSION, before + [Cancelled] + after))
  {
    RunOneMore(o, before, Cancelled);
    RunSound(o, before);
    CutStays(o, Run(o, NEW_SESSION, before), before + [Cancelled], after);
  }

  /** What ends an open session: a cancellation, a timeout, or its source's end once everything is sent and answered. */
  predicate Closes(w: World, ended: bool, e: Event) {
    match e
    case Cancelled => true
    case TimedOut => w.sending
    case SourceEnded => !w.sending
    case Acked => w.sending && w.queue == [] && ended
    case _ => false
  }

  lemma StepCloses(o: Options, w: World, e: Event)
    requires Controlled(o, w) && !w.closed
    ensures Step(o, w, e).closed <==> Closes(w, w.ending, e)
    ensures !Step(o, w, e).closed ==> (Step(o, w, e).ending <==> w.ending || e.SourceEnded?)
  {
    if e.Line? {
      PushStaysOpen(o, w, e.line);
    }
  }

  lemma {:induction false} EndingIsEnded(o: Options, events: seq<Event>)
    requires !Run(o, NEW_SESSION, events).closed
    ensures Run(o, NEW_SESSION, events).ending <==> SourceEnded in events
    decreases |events|
  {
    if events != [] {
      var init, e := events[..|events| - 1], events[|events| - 1];
      assert events == init + [e];
      RunSound(o, init);
      if Run(o, NEW_SESSION, init).closed {
        assert Run(o, NEW_SESSION, init).queue == [];
        ClosedStep(o, Run(o, NEW_SESSION, init), e);
      } else {
        EndingIsEnded(o, init);
        StepCloses(o, Run(o, NEW_SESSION, init), e);
      }
    }
  }

  /** An open session closes at an event exactly when that event ends it. */
  lemma ClosesExactlyWhen(o: Options, before: seq<Event>, e: Event)
    requires !Run(o, NEW_SESSION, before).closed
    ensures Run(o, NEW_SESSION, before + [e]).closed <==>
              Closes(Run(o, NEW_SESSION, before), SourceEnded in before, e)
  {
    RunOneMore(o, before, e);
    RunSound(o, before);
    EndingIsEnded(o, before);
    StepCloses(o, Run(o, NEW_SESSION, before), e);
  }

  // ----- pause and resume

  function Resuming(yes: bool, src: SourceId): seq<SourceCall> {
    if yes then [SourceCall(Resume, src)] else []
  }

  function Pausing(yes: bool, src: SourceId): seq<SourceCall> {
    if yes then [SourceCall(Pause, src)] else []
  }

  /** A batch leaves a paused session with `lowWater` lines or fewer. */
  predicate DrainsLow(o: Options, w: World, paused: bool, now: World) {
    |w.batches| < |now.batches| && paused && |now.queue| <= o.lowWater
  }

  /** A line brings the queue of a session that is not paused to `highWater`. */
  predicate FillsHigh(o: Options, w: World) {
    !w.paused && Min(|w.queue| + 1, o.maxQueue) >= o.highWater
  }

  lemma TurnCalls(o: Options, w: World, src: SourceId)
    requires w.source == Some(src) && !w.closed && w.sending && !w.ending
    ensures Turn(o, w).calls == w.calls + Resuming(DrainsLow(o, w, w.paused, Turn(o, w)), src)
  {
  }

  lemma PauseCalls(o: Options, w: World, src: SourceId, line: LogLine)
    requires w.source == Some(src) && |w.queue| <= o.maxQueue
    ensures var t := PauseIfHigh(o, Enqueue(o, w, line));
            && t.calls == w.calls + Pausing(FillsHigh(o, w), src)
            && t.paused == (w.paused || FillsHigh(o, w))
            && t.source == w.source && t.batches == w.batches
            && t.closed == w.closed && t.sending == w.sending && t.ending == w.ending
  {
  }

  lemma LineCalls(o: Options, w: World, src: SourceId, line: LogLine)
    requires Controlled(o, w) && w.source == Some(src) && !w.closed && !w.ending
    ensures var now := Step(o, w, Line(line));
            var pauses := FillsHigh(o, w);
            now.calls == w.calls + Pausing(pauses, src) + Resuming(DrainsLow(o, w, w.paused || pauses, now), src)
  {
    var t := PauseIfHigh(o, Enqueue(o, w, line));
    PauseCalls(o, w, src, line);
    if !w.sending {
      TurnCalls(o, t.(sending := true), src);
    }
  }

  /**
   The watermarks decide: while the session is open, the source is paused exactly when
   a line brings the queue to `highWater`, and resumed exactly when a batch leaves a paused
   session with `lowWater` lines or fewer.
   */
  lemma WatermarksDecide(o: Options, before: seq<Event>, src: SourceId, e: Event)
    requires var w := Run(o, NEW_SESSION, before); !w.closed && w.source == Some(src) && !w.ending
    requires e.Line? || e.Acked?
    ensures var w, now := Run(o, NEW_SESSION, before), Run(o, NEW_SESSION, before + [e]);
            var pauses := e.Line? && FillsHigh(o, w);
            now.calls == w.calls + Pausing(pauses, src) + Resuming(DrainsLow(o, w, w.paused || pauses, now), src)
  {
    RunOneMore(o, before, e);
    RunSound(o, before);
    var w := Run(o, NEW_SESSION, before);
    match e
    case Line(line) => LineCalls(o, w, src, line);
    case Acked =>
      if w.sending {
        TurnCalls(o, w, src);
      }
  }

  /** A paused session takes lines and acknowledgements: a full batch per acknowledgement, until it resumes. */
  lemma PausedStep(o: Options, w: World, src: SourceId, e: Event)
    requires Controlled(o, w) && !w.closed && w.paused && w.source == Some(src)
    requires e.Line? || e.Acked?
    ensures var w' := Step(o, w, e);
            if e.Line? then
              !w'.closed && w'.paused && w'.source == w.source && w'.calls == w.calls && |w'.queue| <= |w.queue| + 1
            else
              && !w'.closed && w'.source == w.source
              && (if w'.paused then w'.calls == w.calls && |w'.queue| + o.batchSize == |w.queue|
                  else w'.calls == w.calls + [SourceCall(Resume, src)])
  {
  }

  predicate LinesAndAcks(events: seq<Event>) {
    forall e <- events :: e.Line? || e.Acked?
  }

  function CountAcks(events: seq<Event>): nat {
    if events == [] then 0
    else CountAcks(events[..|events| - 1]) + if events[|events| - 1].Acked? then 1 else 0
  }

  /** The first call after `w` is the one that resumes the source. */
  ghost predicate ResumedSince(w: World, now: World, src: SourceId) {
    w.calls < now.calls && now.calls[|w.calls|] == SourceCall(Resume, src)
  }

  lemma TurnKeepsCalls(o: Options, w: World)
    ensures w.calls <= Turn(o, w).calls
  {
  }

  lemma StepKeepsCalls(o: Options, w: World, e: Event)
    ensures w.calls <= Step(o, w, e).calls
  {
    match e
    case Line(line) => TurnKeepsCalls(o, PauseIfHigh(o, Enqueue(o, w, line)).(sending := true));
    case Acked => TurnKeepsCalls(o, w);
    case _ =>
  }

  /** Still paused, an open session has sent a full batch for every acknowledgement. */
  ghost predicate StillPaused(o: Options, w: World, now: World, src: SourceId, lines: nat, acks: nat) {
    && Controlled(o, now) && !now.closed && now.paused && now.source == Some(src) && now.calls == w.calls
    && |now.queue| + acks * o.batchSize <= |w.queue| + lines
  }

  lemma StillPausedStep(o: Options, w: World, now: World, src: SourceId, lines: nat, acks: nat, e: Event)
    requires StillPaused(o, w, now, src, lines, acks) && (e.Line? || e.Acked?)
    ensures var next := Step(o, now, e);
            || ResumedSince(w, next, src)
            || StillPaused(o, w, next, src, if e.Line? then lines + 1 else lines, if e.Acked? then acks + 1 else acks)
  {
    PausedStep(o, now, src, e);
    StepControlled(o, now, e);
    assert (acks + 1) * o.batchSize == acks * o.batchSize + o.batchSize;
  }

  lemma {:induction false} PausedUntilResumed(o: Options, w: World, src: SourceId, events: seq<Event>)
    requires Controlled(o, w) && !w.closed && w.paused && w.source == Some(src)
    requires LinesAndAcks(events)
    ensures var now := Run(o, w, events);
            || ResumedSince(w, now, src)
            || StillPaused(o, w, now, src, |LinesOf(events)|, CountAcks(events))
    decreases |events|
  {
    if events != [] {
      var init, e := events[..|events| - 1], events[|events| - 1];
      var now := Run(o, w, init);
      PausedUntilResumed(o, w, src, init);
      if ResumedSince(w, now, src) {
        StepKeepsCalls(o, now, e);
      } else {
        StillPausedStep(o, w, now, src, |LinesOf(init)|, CountAcks(init), e);
      }
    }
  }

  /**
   A paused source is always resumed. In every run, once the session is paused, and
   however further lines and acknowledgements interleave: when the acknowledged batches
   could carry what was queued and what has come since, `resume()` has been called.
   */
  lemma PausedIsResumed(o: Options, before: seq<Event>, src: SourceId, events: seq<Event>)
    requires var w := Run(o, NEW_SESSION, before); !w.closed && w.paused && w.source == Some(src)
    requires LinesAndAcks(events)
    requires CountAcks(events) * o.batchSize >= |Run(o, NEW_SESSION, before).queue| + |LinesOf(events)|
    ensures ResumedSince(Run(o, NEW_SESSION, before), Run(o, NEW_SESSION, before + events), src)
  {
    RunSound(o, before);
    RunSplit(o, NEW_SESSION, before, events);
    PausedUntilResumed(o, Run(o, NEW_SESSION, before), src, events);
  }

  // ----- overload

  lemma LastAfterPush(s: seq<LogLine>, max: nat, line: LogLine)
    requires 1 <= max
    ensures var q := Last(s, max);
            (if |q| >= max then q[1..] else q) + [line] == Last(s + [line], max)
  {
  }

  lemma PushInFlight(o: Options, w: World, line: LogLine)
    requires !w.closed && w.sending
    ensures var w' := Push(o, w, line);
            var full := |w.queue| >= o.maxQueue;
            && !w'.closed && w'.sending && w'.batches == w.batches
            && w'.queue == (if full then w.queue[1..] else w.queue) + [line]
            && w'.dropped == w.dropped + if full then 1 else 0
  {
  }

  /**
   While a batch is in flight, a burst leaves the newest `maxQueue` lines in the queue
   and counts exactly the others as dropped: it loses lines iff they do not fit.
   */
  lemma {:induction false} BurstKeepsNewest(o: Options, w: World, lines: seq<LogLine>)
    requires !w.closed && w.sending && |w.queue| <= o.maxQueue
    ensures var w' := Run(o, w, Lines(lines));
            && !w'.closed && w'.sending && w'.batches == w.batches
            && w'.queue == Last(w.queue + lines, o.maxQueue)
            && w'.dropped + |w'.queue| == w.dropped + |w.queue| + |lines|
            && (w'.dropped > w.dropped <==> |w.queue| + |lines| > o.maxQueue)
    decreases |lines|
  {
    if lines == [] {
      assert w.queue + lines == w.queue;
    } else {
      var init, line := lines[..|lines| - 1], lines[|lines| - 1];
      assert Lines(lines)[..|lines| - 1] == Lines(init);
      assert w.queue + lines == w.queue + init + [line];
      BurstKeepsNewest(o, w, init);
      PushInFlight(o, Run(o, w, Lines(init)), line);
      LastAfterPush(w.queue + init, o.maxQueue, line);
    }
  }

  // ----- a source that respects pause()

  predicate Halted(w: World) {
    w.calls != [] && w.calls[|w.calls| - 1].kind.Pause?
  }

  /** Lines the source delivered since its last `pause()`, 0 when it is not paused. */
  function Surplus(o: Options, w: World, events: seq<Event>): nat
    decreases |events|
  {
    if events == [] then 0
    else
      var init := events[..|events| - 1];
      if Halted(Run(o, w, init)) && Halted(Run(o, w, events)) then
        Surplus(o, w, init) + if events[|events| - 1].Line? then 1 else 0
      else 0
  }

  /**
   After `pause()` the source delivers at most `headroom` more lines before `resume()`,
   and none after its end.
   */
  predicate Respectful(o: Options, w: World, events: seq<Event>, headroom: nat)
    decreases |events|
  {
    events == [] ||
    var init, e := events[..|events| - 1], events[|events| - 1];
    && Respectful(o, w, init, headroom)
    && !e.Attached?
    && (e.Line? ==> SourceEnded !in init && (Halted(Run(o, w, init)) ==> Surplus(o, w, init) < headroom))
  }

  ghost predicate Lossless(w: World) {
    w.dropped == 0 && forall b <- w.batches :: b.dropped == 0
  }

  /** What a respectful source keeps, while it has not ended. */
  ghost predicate InStep(o: Options, w: World, surplus: nat) {
    !w.closed ==>
      && w.source.Some?
      && (w.paused <==> Halted(w))
      && (w.paused ==> |w.queue| <= o.highWater + surplus)
  }

  /** A line finds room when its source is in step and below its headroom. */
  lemma LineFindsRoom(o: Options, w: World, surplus: nat)
    requires o.highWater <= o.maxQueue
    requires Controlled(o, w) && !w.closed && InStep(o, w, surplus)
    requires Halted(w) ==> surplus < o.maxQueue - o.highWater
    ensures |w.queue| < o.maxQueue
  {
  }

  lemma LosslessTurn(o: Options, w: World)
    requires Lossless(w)
    ensures Lossless(Turn(o, w))
  {
  }

  lemma LosslessStep(o: Options, w: World, surplus: nat, e: Event)
    requires o.highWater <= o.maxQueue
    requires Controlled(o, w) && Lossless(w)
    requires e.Line? ==> InStep(o, w, surplus) && (Halted(w) ==> surplus < o.maxQueue - o.highWater)
    ensures Lossless(Step(o, w, e))
  {
    match e
    case Line(line) =>
      if !w.closed {
        LineFindsRoom(o, w, surplus);
        LosslessTurn(o, PauseIfHigh(o, Enqueue(o, w, line)).(sending := true));
      }
    case Acked => LosslessTurn(o, w);
    case _ =>
  }

  lemma RespectfulStep(o: Options, w: World, surplus: nat, e: Event)
    requires Controlled(o, w) && InStep(o, w, surplus)
    requires !e.Attached? && !e.SourceEnded?
    ensures var w' := Step(o, w, e);
            InStep(o, w', if Halted(w) && Halted(w') then surplus + (if e.Line? then 1 else 0) else 0)
  {
  }

  /**
   No loss with a well-behaved source: attached before its first line, it delivers at
   most `maxQueue - highWater` lines after each `pause()`. Then nothing is ever dropped,
   whatever the acknowledgements, timeouts and cancellations.
   */
  lemma {:induction false} NoLossIfPauseIsRespected(o: Options, src: SourceId, events: seq<Event>)
    requires o.highWater <= o.maxQueue
    requires Respectful(o, Attach(NEW_SESSION, src), events, o.maxQueue - o.highWater)
    ensures var w := Run(o, Attach(NEW_SESSION, src), events);
            && Controlled(o, w)
            && Lossless(w)
            && (SourceEnded !in events ==> InStep(o, w, Surplus(o, Attach(NEW_SESSION, src), events)))
    decreases |events|
  {
    if events != [] {
      var init, e := events[..|events| - 1], events[|events| - 1];
      assert events == init + [e];
      var attached := Attach(NEW_SESSION, src);
      NoLossIfPauseIsRespected(o, src, init);
      StepControlled(o, Run(o, attached, init), e);
      LosslessStep(o, Run(o, attached, init), Surplus(o, attached, init), e);
      if SourceEnded !in events {
        RespectfulStep(o, Run(o, attached, init), Surplus(o, attached, init), e);
      }
    }
  }

  lemma {:induction false} DeliveredIsCovered(pushed: seq<LogLine>, batches: seq<LogsBatch>)
    requires GapExact(pushed, batches) && forall b <- batches :: b.dropped == 0
    ensures Covered(batches) <= |pushed| && Delivered(batches) == pushed[..Covered(batches)]
    decreases |batches|
  {
    if batches != [] {
      DeliveredIsCovered(pushed, batches[..|batches| - 1]);
    }
  }

  lemma LosslessDelivers(w: World)
    requires Accounted(w) && Lossless(w)
    ensures Delivered(w.batches) <= w.pushed
    ensures !w.closed ==> Delivered(w.batches) + w.queue == w.pushed
  {
    DeliveredIsCovered(w.pushed, w.batches);
  }

  lemma AttachFirst(o: Options, src: SourceId, events: seq<Event>)
    ensures Run(o, NEW_SESSION, [Attached(src)] + events) == Run(o, Attach(NEW_SESSION, src), events)
  {
    assert [Attached(src)][..0] == [];
    RunSplit(o, NEW_SESSION, [Attached(src)], events);
  }

  /**
   So the client of a well-behaved source gets every line: while the session is open,
   what was delivered and what is queued are what arrived, in order.
   */
  lemma {:induction false} EverythingIsDelivered(o: Options, src: SourceId, events: seq<Event>)
    requires o.highWater <= o.maxQueue
    requires Respectful(o, Attach(NEW_SESSION, src), events, o.maxQueue - o.highWater)
    ensures var w := Run(o, NEW_SESSION, [Attached(src)] + events);
            && Lossless(w)
            && Delivered(w.batches) <= w.pushed
            && (!w.closed ==> Delivered(w.batches) + w.queue == w.pushed == LinesOf([Attached(src)] + events))
  {
    AttachFirst(o, src, events);
    NoLossIfPauseIsRespected(o, src, events);
    RunSound(o, [Attached(src)] + events);
    AcceptedLines(o, [Attached(src)] + events);
    LosslessDelivers(Run(o, NEW_SESSION, [Attached(src)] + events));
  }

  // ----- what a source sees

  /**
   The calls one source receives: pause and resume take turns, starting with resume if
   the session was already paused when the source was attached and with pause if not,
   and destroy can only be the last one.
   */
  ghost predicate Alternate(calls: seq<SourceCall>, src: SourceId, pausedBefore: bool) {
    forall k: nat | k < |calls| ::
      && calls[k].src == src
      && match calls[k].kind
         case Pause => (k % 2 == 0) == !pausedBefore
         case Resume => (k % 2 == 0) == pausedBefore
         case Destroy => k == |calls| - 1
  }

  /** The session still has the source, or the source ended by itself, or it was destroyed. */
  ghost predicate Owned(w: World, src: SourceId, ended: bool) {
    if w.closed then ended || (w.calls != [] && w.calls[|w.calls| - 1] == SourceCall(Destroy, src))
    else w.source == (if ended then None else Some(src))
  }

  ghost predicate SourceView(w: World, src: SourceId, pausedBefore: bool, ended: bool) {
    && Alternate(w.calls, src, pausedBefore)
    && Owned(w, src, ended)
    && (!ended && !w.closed ==> !w.ending)
    && (w.source.Some? && !w.closed ==>
          && w.paused == ((|w.calls| % 2 == 0) == pausedBefore)
          && (w.calls != [] ==> !w.calls[|w.calls| - 1].kind.Destroy?))
  }

  lemma TellView(w: World, src: SourceId, pausedBefore: bool, kind: CallKind)
    requires SourceView(w, src, pausedBefore, w.source.None?) && !w.closed
    requires kind.Pause? || kind.Resume?
    requires w.paused == kind.Resume?
    ensures SourceView(Tell(w.(paused := kind.Pause?), kind), src, pausedBefore, w.source.None?)
  {
  }

  lemma CloseView(w: World, src: SourceId, pausedBefore: bool, ended: bool)
    requires SourceView(w, src, pausedBefore, ended)
    ensures SourceView(Close(w), src, pausedBefore, ended)
  {
  }

  lemma TurnView(o: Options, w: World, src: SourceId, pausedBefore: bool, ended: bool)
    requires SourceView(w, src, pausedBefore, ended)
    ensures SourceView(Turn(o, w), src, pausedBefore, ended)
  {
    if w.queue != [] && !w.closed {
      var n := Min(o.batchSize, |w.queue|);
      var batch := LogsBatch(o.container, w.queue[..n], w.dropped);
      var sent := w.(queue := w.queue[n..], dropped := 0, batches := w.batches + [batch]);
      if sent.paused && |sent.queue| <= o.lowWater {
        TellView(sent, src, pausedBefore, Resume);
      }
    } else {
      CloseView(w.(sending := false), src, pausedBefore, ended);
    }
  }

  lemma PauseView(o: Options, w: World, src: SourceId, pausedBefore: bool, ended: bool, line: LogLine)
    requires SourceView(w, src, pausedBefore, ended) && !w.closed
    ensures SourceView(PauseIfHigh(o, Enqueue(o, w, line)), src, pausedBefore, ended)
  {
    var q := Enqueue(o, w, line);
    if !q.paused && |q.queue| >= o.highWater {
      TellView(q, src, pausedBefore, Pause);
    }
  }

  lemma {:induction false} StepView(o: Options, w: World, src: SourceId, pausedBefore: bool, ended: bool, e: Event)
    requires SourceView(w, src, pausedBefore, ended)
    requires !e.Attached?
    ensures SourceView(Step(o, w, e), src, pausedBefore, ended || e.SourceEnded?)
  {
    match e
    case Line(line) =>
      if !w.closed {
        PauseView(o, w, src, pausedBefore, ended, line);
        TurnView(o, PauseIfHigh(o, Enqueue(o, w, line)).(sending := true), src, pausedBefore, ended);
      }
    case Acked => TurnView(o, w, src, pausedBefore, ended);
    case TimedOut => CloseView(w, src, pausedBefore, ended);
    case Cancelled => CloseView(w, src, pausedBefore, ended);
    case SourceEnded =>
      if !w.closed && !w.ending {
        CloseView(w.(ending := true, source := None), src, pausedBefore, true);
      }
  }

  /** Without a source nothing is told to anybody. */
  ghost predicate Untold(w: World) {
    w.calls == [] && w.source == None && !w.ending
  }

  lemma TurnUntold(o: Options, w: World)
    requires Untold(w)
    ensures Untold(Turn(o, w))
  {
  }

  lemma StepUntold(o: Options, w: World, e: Event)
    requires Untold(w) && !e.Attached? && !e.SourceEnded?
    ensures Untold(Step(o, w, e))
  {
    match e
    case Line(line) => TurnUntold(o, PauseIfHigh(o, Enqueue(o, w, line)).(sending := true));
    case Acked => TurnUntold(o, w);
    case _ =>
  }

  lemma {:induction false} UntilAttached(o: Options, events: seq<Event>)
    requires forall e <- events :: !e.Attached? && !e.SourceEnded?
    ensures Untold(Run(o, NEW_SESSION, events))
    decreases |events|
  {
    if events != [] {
      UntilAttached(o, events[..|events| - 1]);
      StepUntold(o, Run(o, NEW_SESSION, events[..|events| - 1]), events[|events| - 1]);
    }
  }

  lemma {:induction false} ViewAfter(o: Options, w: World, src: SourceId, after: seq<Event>)
    requires SourceView(w, src, w.paused, false)
    requires forall e <- after :: !e.Attached?
    ensures SourceView(Run(o, w, after), src, w.paused, SourceEnded in after)
    decreases |after|
  {
    if after != [] {
      var init, e := after[..|after| - 1], after[|after| - 1];
      assert after == init + [e];
      ViewAfter(o, w, src, init);
      StepView(o, Run(o, w, init), src, w.paused, SourceEnded in init, e);
    }
  }

  /**
   In every run that attaches one source, at any moment: pause and resume reach it in
   strict alternation, and it is never left behind (held by the session, ended, or destroyed).
   */
  lemma {:induction false} PauseAndResumeAlternate(o: Options, before: seq<Event>, src: SourceId, after: seq<Event>)
    requires forall e <- before :: !e.Attached? && !e.SourceEnded?
    requires forall e <- after :: !e.Attached?
    ensures var w := Run(o, NEW_SESSION, before + [Attached(src)] + after);
            && Alternate(w.calls, src, Run(o, NEW_SESSION, before).paused)
            && Owned(w, src, SourceEnded in after)
  {
    UntilAttached(o, before);
    var attached := before + [Attached(src)];
    assert attached[..|attached| - 1] == before;
    ViewAfter(o, Run(o, NEW_SESSION, attached), src, after);
    RunSplit(o, NEW_SESSION, attached, after);
  }

  // ----- graceful end

  /** Closing by itself, at the end of a drained queue, is the only way left. */
  predicate Graceful(events: seq<Event>) {
    forall e <- events :: !e.TimedOut? && !e.Cancelled?
  }

  lemma QuietIsCovered(o: Options, w: World)
    requires Sound(o, w) && !w.closed && w.queue == []
    ensures |w.pushed| == Covered(w.batches)
  {
  }

  lemma TurnCloses(o: Options, w: World)
    requires !w.closed && Turn(o, w).closed
    ensures w.queue == [] && Turn(o, w).pushed == w.pushed && Turn(o, w).batches == w.batches
  {
  }

  lemma PushStaysOpen(o: Options, w: World, line: LogLine)
    requires !w.closed
    ensures !Push(o, w, line).closed
  {
  }

  lemma StepGraceful(o: Options, w: World, e: Event)
    requires Sound(o, w) && !w.closed && Step(o, w, e).closed
    requires !e.TimedOut? && !e.Cancelled?
    ensures Step(o, w, e).pushed == w.pushed && Step(o, w, e).batches == w.batches
    ensures |w.pushed| == Covered(w.batches)
  {
    if e.Line? {
      PushStaysOpen(o, w, e.line);
    }
    if e.Acked? {
      TurnCloses(o, w);
    }
    assert w.queue == [];
    QuietIsCovered(o, w);
  }

  /**
   A session that was neither cut nor cancelled closes only with every accepted line
   delivered or reported.
   */
  lemma {:induction false} GracefulCloseLosesNothing(o: Options, events: seq<Event>)
    requires Graceful(events)
    ensures var w := Run(o, NEW_SESSION, events);
            w.closed ==> Covered(w.batches) == |w.pushed|
    decreases |events|
  {
    if events != [] {
      var init, e := events[..|events| - 1], events[|events| - 1];
      var before := Run(o, NEW_SESSION, init);
      RunSound(o, init);
      GracefulCloseLosesNothing(o, init);
      if !before.closed && Step(o, before, e).closed {
        StepGraceful(o, before, e);
      }
    }
  }

  /** Batches that a queue of `q` lines still takes. */
  function Rounds(q: nat, batchSize: nat): nat
    requires 1 <= batchSize
  {
    if q == 0 then 0 else 1 + Rounds(q - Min(batchSize, q), batchSize)
  }

  /** It is `q / batchSize`, rounded up. */
  lemma {:induction false} RoundsIsCeiling(q: nat, batchSize: nat)
    requires 1 <= batchSize
    ensures q <= Rounds(q, batchSize) * batchSize < q + batchSize
  {
    if q != 0 {
      var rest := q - Min(batchSize, q);
      RoundsIsCeiling(rest, batchSize);
      if rest == 0 {
        assert Rounds(q, batchSize) == 1;
      } else {
        assert Rounds(q, batchSize) * batchSize == Rounds(rest, batchSize) * batchSize + batchSize;
      }
    }
  }

  /** Acknowledgements an ending session still needs: the batch in flight, then the queue in batches. */
  function AcksLeft(o: Options, w: World): nat {
    if w.sending then 1 + Rounds(|w.queue|, o.batchSize) else 0
  }

  /** An ending session `left` acknowledgements away from closing. */
  ghost predicate Draining(o: Options, w: World, pushed: seq<LogLine>, left: nat) {
    && Controlled(o, w)
    && w.pushed == pushed
    && (if left == 0 then w.closed else !w.closed && w.ending && AcksLeft(o, w) == left)
  }

  lemma AckAdvances(o: Options, w: World, pushed: seq<LogLine>, left: nat)
    requires 1 <= left && Draining(o, w, pushed, left)
    ensures Draining(o, Step(o, w, Acked), pushed, left - 1)
  {
    StepControlled(o, w, Acked);
  }

  lemma {:induction false} DrainsFrom(o: Options, w: World, pushed: seq<LogLine>, left: nat, m: nat)
    requires m <= left && Draining(o, w, pushed, left)
    ensures Draining(o, Run(o, w, Acks(m)), pushed, left - m)
    decreases m
  {
    if m > 0 {
      DrainsFrom(o, w, pushed, left, m - 1);
      assert Acks(m)[..m - 1] == Acks(m - 1);
      AckAdvances(o, Run(o, w, Acks(m - 1)), pushed, left - m + 1);
    }
  }

  lemma EndStartsDraining(o: Options, w: World)
    requires Controlled(o, w) && !w.closed
    ensures Draining(o, End(w), w.pushed, AcksLeft(o, w))
  {
    StepControlled(o, w, SourceEnded);
  }

  /**
   After the source ends, an open session closes with exactly the acknowledgement of
   the batch in flight plus one per remaining batch, not before, and calls onClose once.
   If nothing cut it earlier, every arrived line is then delivered or reported.
   */
  lemma {:induction false} EndDrainsEverything(o: Options, events: seq<Event>, m: nat)
    requires !Run(o, NEW_SESSION, events).closed
    requires m <= AcksLeft(o, Run(o, NEW_SESSION, events))
    ensures var acks := AcksLeft(o, Run(o, NEW_SESSION, events));
            var w := Run(o, NEW_SESSION, events + [SourceEnded] + Acks(m));
            && (w.closed <==> m == acks)
            && w.closings == (if m == acks then 1 else 0)
            && (m == acks && Graceful(events) ==> Covered(w.batches) == |LinesOf(events)|)
  {
    var open := Run(o, NEW_SESSION, events);
    var ended := events + [SourceEnded];
    assert ended[..|ended| - 1] == events;
    RunSound(o, events);
    EndStartsDraining(o, open);
    DrainsFrom(o, End(open), open.pushed, AcksLeft(o, open), m);
    RunSplit(o, NEW_SESSION, ended, Acks(m));
    AcceptedLines(o, events);
    if Graceful(events) {
      GracefulCloseLosesNothing(o, ended + Acks(m));
    }
  }
}
