/**
 Rollup ticks as they run: one tick asks for each metric in turn and writes its rows,
 suspended at every query and every write, so ticks overlap each other and purges. A
 failure ends its tick; a write that fails has written nothing.
 */
module RollupTicks {
  import opened Basics
  import opened MetricTypes
  import R = RollupRuns

  datatype Stage = Querying | Writing | Returned | Threw

  /** One call of runRollup: the metrics it is done with, the responses it got, the rows it counted. */
  datatype TickRecord = TickRecord(startedAt: nat, done: nat, answers: seq<seq<R.Sample>>, inserted: int, stage: Stage)

  type Tick = t: TickRecord |
    && t.done <= |t.answers| <= |R.KINDS|
    && (t.stage.Querying? ==> |t.answers| == t.done < |R.KINDS|)
    && (t.stage.Writing? ==> |t.answers| == t.done + 1)
    && (t.stage.Returned? ==> t.done == |R.KINDS|)
    witness TickRecord(0, 0, [], 0, Querying)

  datatype Event =
    | Starts(at: nat)
    | Answers(tick: nat, samples: seq<R.Sample>)
    | Writes(tick: nat, at: nat)
    | Fails(tick: nat)
    | Purges(at: nat)

  datatype State = State(
    table: R.Table,
    ticks: seq<Tick>,
    // rows that purges reported as deleted, and what the table went through
    purged: int,
    history: seq<R.Event>
  )

  const START := State(map[], [], 0, [])

  /** The rows of the tick's `k`-th metric. */
  function RowsOf(t: Tick, k: nat): seq<R.Row>
    requires k < |t.answers|
  {
    R.RowsOf(t.answers[k], R.KINDS[k], R.BucketStart(t.startedAt))
  }

  /** The end of the loop's body. */
  function Advance(t: TickRecord): Tick
    requires |t.answers| == t.done + 1 <= |R.KINDS|
  {
    t.(done := t.done + 1, stage := if t.done + 1 == |R.KINDS| then Returned else Querying)
  }

  function Answer(t: Tick, samples: seq<R.Sample>): Tick
    requires t.stage.Querying?
  {
    var got := t.(answers := t.answers + [samples], stage := Writing);
    if RowsOf(got, t.done) == [] then Advance(got) else got
  }

  function Insertion(t: Tick, at: nat): R.Event
    requires t.stage.Writing?
  {
    R.Inserts(R.KINDS[t.done], t.startedAt, t.answers[t.done], at)
  }

  function Write(s: State, i: nat, at: nat): State
    requires i < |s.ticks| && s.ticks[i].stage.Writing?
  {
    var t := s.ticks[i];
    var table := R.InsertAll(s.table, RowsOf(t, t.done));
    s.(table := table,
       ticks := s.ticks[i := Advance(t.(inserted := t.inserted + |table| - |s.table|))],
       history := s.history + [Insertion(t, at)])
  }

  function Purge(s: State, at: nat): State {
    var table := R.Purge(s.table, at);
    s.(table := table, purged := s.purged + |s.table| - |table|, history := s.history + [R.Purges(at)])
  }

  function Step(s: State, e: Event): State {
    match e
    case Starts(at) => s.(ticks := s.ticks + [TickRecord(at, 0, [], 0, Querying)])
    case Answers(i, samples) =>
      if i < |s.ticks| && s.ticks[i].stage.Querying? then s.(ticks := s.ticks[i := Answer(s.ticks[i], samples)]) else s
    case Writes(i, at) => if i < |s.ticks| && s.ticks[i].stage.Writing? then Write(s, i, at) else s
    case Fails(i) =>
      if i < |s.ticks| && !s.ticks[i].stage.Returned? then s.(ticks := s.ticks[i := s.ticks[i].(stage := Threw)]) else s
    case Purges(at) => Purge(s, at)
  }

  function Run(events: seq<Event>): State {
    if events == [] then START else Step(Run(events[..|events| - 1]), events[|events| - 1])
  }

  /** When the event happened, if the model tells, or else `now`. */
  function TimeOf(e: Event, now: int): int {
    if e.Answers? || e.Fails? then now else e.at
  }

  /** The clock does not go back, up to `now`. */
  predicate Clocked(events: seq<Event>, now: int) {
    events == [] ||
    var at := TimeOf(events[|events| - 1], now);
    at <= now && Clocked(events[..|events| - 1], at)
  }

  // ----- the table of any interleaving of ticks is that of its insertions and purges

  lemma OneMore(history: seq<R.Event>, e: R.Event)
    ensures (history + [e])[..|history + [e]| - 1] == history && (history + [e])[|history + [e]| - 1] == e
  {
  }

  lemma OneInsertion(history: seq<R.Event>, t: Tick, at: nat, purging: bool)
    requires t.stage.Writing?
    ensures R.Run(history + [Insertion(t, at)], purging)
         == R.InsertAll(R.Run(history, purging), RowsOf(t, t.done))
  {
    OneMore(history, Insertion(t, at));
  }

  lemma OnePurge(history: seq<R.Event>, at: nat)
    ensures R.Run(history + [R.Purges(at)], true) == R.Purge(R.Run(history, true), at)
    ensures R.Run(history + [R.Purges(at)], false) == R.Run(history, false)
  {
    OneMore(history, R.Purges(at));
  }

  ghost predicate IsOfHistory(s: State) {
    s.table == R.Run(s.history, true)
  }

  lemma {:induction false} StepIsOfHistory(s: State, e: Event)
    requires IsOfHistory(s)
    ensures IsOfHistory(Step(s, e))
  {
    match e
    case Writes(i, at) =>
      if i < |s.ticks| && s.ticks[i].stage.Writing? {
        OneInsertion(s.history, s.ticks[i], at, true);
      }
    case Purges(at) => OnePurge(s.history, at);
    case _ =>
  }

  lemma {:induction false} RunIsOfHistory(events: seq<Event>)
    ensures IsOfHistory(Run(events))
    decreases |events|
  {
    if events != [] {
      RunIsOfHistory(events[..|events| - 1]);
      StepIsOfHistory(Run(events[..|events| - 1]), events[|events| - 1]);
    }
  }

  ghost predicate ClockedState(s: State, now: int) {
    R.Clocked(s.history, now) && forall t <- s.ticks :: t.startedAt <= now
  }

  lemma LaterClock(s: State, at: int, now: int)
    requires ClockedState(s, at) && at <= now
    ensures ClockedState(s, now)
  {
  }

  lemma {:induction false} StepIsClocked(s: State, e: Event, now: int)
    requires ClockedState(s, now) && TimeOf(e, now) == now
    ensures ClockedState(Step(s, e), now)
  {
    if e.Purges? {
      OneMore(s.history, R.Purges(e.at));
    } else if e.Writes? && Step(s, e) != s {
      assert s.ticks[e.tick] in s.ticks;
      OneMore(s.history, Insertion(s.ticks[e.tick], e.at));
    } else if e.Answers? || e.Fails? {
      assert e.tick < |s.ticks| ==> s.ticks[e.tick] in s.ticks;
    }
  }

  lemma {:induction false} HistoryIsClocked(events: seq<Event>, now: int)
    requires Clocked(events, now)
    ensures ClockedState(Run(events), now)
    decreases |events|
  {
    if events != [] {
      var init, e := events[..|events| - 1], events[|events| - 1];
      var at := TimeOf(e, now);
      HistoryIsClocked(init, at);
      StepIsClocked(Run(init), e, at);
      LaterClock(Run(events), at, now);
    }
  }

  /**
   Purging is invisible however ticks and purges overlap: any history of at most 720 hours
   is the one the same insertions would have left had nothing been deleted.
   */
  lemma PurgeIsInvisible(events: seq<Event>, container: string, kind: MetricKind, now: int, hours: nat)
    requires Clocked(events, now) && hours <= R.MAX_HISTORY_HOURS
    ensures R.GetHistory(Run(events).table, container, kind, now, hours)
         == R.GetHistory(R.Run(Run(events).history, false), container, kind, now, hours)
  {
    RunIsOfHistory(events);
    HistoryIsClocked(events, now);
    R.PurgeIsInvisible(Run(events).history, container, kind, now, hours);
  }

  // ----- what a tick has written

  /** The rows of every metric the tick is done with were inserted. */
  ghost predicate HasWritten(t: Tick, table: R.Table) {
    forall k: nat | k < t.done :: forall r <- RowsOf(t, k) :: r.key in table
  }

  ghost predicate AllHaveWritten(s: State) {
    forall t <- s.ticks :: HasWritten(t, R.Run(s.history, false))
  }

  lemma InsertionWrites(table: R.Table, rows: seq<R.Row>)
    ensures table.Keys <= R.InsertAll(table, rows).Keys
    ensures forall r <- rows :: r.key in R.InsertAll(table, rows)
  {
    forall key | key in table ensures key in R.InsertAll(table, rows) {
      R.InsertionKeeps(table, rows, key);
    }
    forall r | r in rows ensures r.key in R.InsertAll(table, rows) {
      R.InsertionKeeps(table, rows, r.key);
    }
  }

  lemma MoreIsWritten(ticks: seq<Tick>, table: R.Table, more: R.Table)
    requires forall t <- ticks :: HasWritten(t, table)
    requires table.Keys <= more.Keys
    ensures forall t <- ticks :: HasWritten(t, more)
  {
  }

  lemma AnswerHasWritten(t: Tick, samples: seq<R.Sample>, table: R.Table)
    requires t.stage.Querying? && HasWritten(t, table)
    ensures HasWritten(Answer(t, samples), table)
  {
    var after := Answer(t, samples);
    forall k: nat | k < after.done ensures forall r <- RowsOf(after, k) :: r.key in table {
      if k < t.done {
        assert RowsOf(after, k) == RowsOf(t, k);
      }
    }
  }

  lemma WriteHasWritten(t: Tick, counted: int, table: R.Table)
    requires t.stage.Writing? && HasWritten(t, table)
    ensures HasWritten(Advance(t.(inserted := counted)), R.InsertAll(table, RowsOf(t, t.done)))
  {
    var after := Advance(t.(inserted := counted));
    InsertionWrites(table, RowsOf(t, t.done));
    forall k: nat | k < after.done
      ensures forall r <- RowsOf(after, k) :: r.key in R.InsertAll(table, RowsOf(t, t.done))
    {
      assert RowsOf(after, k) == RowsOf(t, k);
    }
  }

  lemma FailureHasWritten(t: Tick, table: R.Table)
    requires HasWritten(t, table) && !t.stage.Returned?
    ensures HasWritten(t.(stage := Threw), table)
  {
    assert forall k: nat | k < t.done :: RowsOf(t.(stage := Threw), k) == RowsOf(t, k);
  }

  lemma {:induction false} StepHasWritten(s: State, e: Event)
    requires AllHaveWritten(s)
    ensures AllHaveWritten(Step(s, e))
  {
    var after, table := Step(s, e), R.Run(s.history, false);
    if after != s {
      match e
      case Starts(_) =>
      case Answers(i, samples) => AnswerHasWritten(s.ticks[i], samples, table);
      case Writes(i, at) =>
        var t := s.ticks[i];
        OneInsertion(s.history, t, at, false);
        InsertionWrites(table, RowsOf(t, t.done));
        MoreIsWritten(s.ticks, table, R.Run(after.history, false));
        WriteHasWritten(t, after.ticks[i].inserted, table);
      case Fails(i) => FailureHasWritten(s.ticks[i], table);
      case Purges(at) => OnePurge(s.history, at);
    }
  }

  lemma {:induction false} RunHasWritten(events: seq<Event>)
    ensures AllHaveWritten(Run(events))
    decreases |events|
  {
    if events != [] {
      RunHasWritten(events[..|events| - 1]);
      StepHasWritten(Run(events[..|events| - 1]), events[|events| - 1]);
    }
  }

  /**
   Whatever overlaps and wherever a tick stops, a row of a metric that it is done with is in
   the table until it is thirty days old; a tick that returned is done with all four.
   */
  lemma TickHasWritten(events: seq<Event>, i: nat, k: nat, row: R.Row, now: int)
    requires Clocked(events, now) && i < |Run(events).ticks|
    requires var t := Run(events).ticks[i]; k < t.done && row in RowsOf(t, k)
    ensures row.key.bucketStart >= now - R.RETENTION_MS ==> row.key in Run(events).table
    ensures Run(events).ticks[i].stage.Returned? ==> Run(events).ticks[i].done == |R.KINDS|
  {
    var s := Run(events);
    RunHasWritten(events);
    assert s.ticks[i] in s.ticks;
    RunIsOfHistory(events);
    HistoryIsClocked(events, now);
    R.PurgesStayBehind(s.history, now);
  }

  // ----- what the events say of a tick

  /** When the ticks were started, in order. */
  function StartTimes(events: seq<Event>): seq<nat> {
    if events == [] then []
    else
      var e := events[|events| - 1];
      StartTimes(events[..|events| - 1]) + if e.Starts? then [e.at] else []
  }

  /** The event answers a query that tick `i` is waiting for. */
  predicate AnswersQuery(s: State, e: Event, i: nat) {
    e.Answers? && e.tick == i && i < |s.ticks| && s.ticks[i].stage.Querying?
  }

  /** The responses that tick `i` was waiting for, in order. */
  function Responses(events: seq<Event>, i: nat): seq<seq<R.Sample>> {
    if events == [] then []
    else
      var init, e := events[..|events| - 1], events[|events| - 1];
      Responses(init, i) + if AnswersQuery(Run(init), e, i) then [e.samples] else []
  }

  /** Ticks know when they started and what they were answered. */
  ghost predicate Follows(ticks: seq<Tick>, events: seq<Event>) {
    && |ticks| == |StartTimes(events)|
    && forall i: nat | i < |ticks| ::
         ticks[i].startedAt == StartTimes(events)[i] && ticks[i].answers == Responses(events, i)
  }

  lemma {:induction false} NoResponsesYet(events: seq<Event>, i: nat)
    requires i >= |Run(events).ticks|
    ensures Responses(events, i) == []
    decreases |events|
  {
    if events != [] {
      TicksOnlyGrow(Run(events[..|events| - 1]), events[|events| - 1]);
      NoResponsesYet(events[..|events| - 1], i);
    }
  }

  lemma {:induction false} TicksOnlyGrow(s: State, e: Event)
    ensures |Step(s, e).ticks| == |s.ticks| + if e.Starts? then 1 else 0
  {
  }

  lemma {:induction false} StepFollows(s: State, e: Event, i: nat)
    requires i < |s.ticks|
    ensures i < |Step(s, e).ticks|
    ensures var t, after := s.ticks[i], Step(s, e).ticks[i];
            && after.startedAt == t.startedAt
            && after.answers == t.answers + if AnswersQuery(s, e, i) then [e.samples] else []
  {
  }

  lemma {:induction false} TicksFollow(events: seq<Event>)
    ensures Follows(Run(events).ticks, events)
    decreases |events|
  {
    if events != [] {
      var init, e := events[..|events| - 1], events[|events| - 1];
      var s, after := Run(init), Run(events);
      TicksFollow(init);
      TicksOnlyGrow(s, e);
      forall i: nat | i < |after.ticks|
        ensures after.ticks[i].startedAt == StartTimes(events)[i] && after.ticks[i].answers == Responses(events, i)
      {
        if i < |s.ticks| {
          StepFollows(s, e, i);
        } else {
          NoResponsesYet(init, i);
        }
      }
    }
  }

  lemma {:induction false} ResponseIsKept(events: seq<Event>, n: nat, i: nat)
    requires n < |events| && AnswersQuery(Run(events[..n]), events[n], i)
    ensures var k := |Responses(events[..n], i)|;
            k < |Responses(events, i)| && Responses(events, i)[k] == events[n].samples
    decreases |events|
  {
    var init := events[..|events| - 1];
    if n < |init| {
      assert init[..n] == events[..n];
      ResponseIsKept(init, n, i);
    } else {
      assert init == events[..n];
    }
  }

  /**
   Every sample is written: when the response to a tick's query names a container with a
   value, the row of that container, that metric and the tick's bucket is in the table from
   the moment the tick is done with the metric until it is thirty days old.
   */
  lemma SampledIsWritten(events: seq<Event>, n: nat, i: nat, container: string, now: int)
    requires Clocked(events, now)
    requires n < |events| && AnswersQuery(Run(events[..n]), events[n], i)
    requires exists sample <- events[n].samples :: R.Samples(sample, container)
    requires i < |Run(events).ticks| && |Responses(events[..n], i)| < Run(events).ticks[i].done
    ensures i < |StartTimes(events)|
    ensures var k := |Responses(events[..n], i)|;
            var key := R.RowKey(container, R.KINDS[k], R.BucketStart(StartTimes(events)[i]));
            key.bucketStart >= now - R.RETENTION_MS ==> key in Run(events).table
  {
    var t, k := Run(events).ticks[i], |Responses(events[..n], i)|;
    var key := R.RowKey(container, R.KINDS[k], R.BucketStart(t.startedAt));
    TicksFollow(events);
    ResponseIsKept(events, n, i);
    R.RowsOfSampled(t.answers[k], R.KINDS[k], R.BucketStart(t.startedAt), container);
    var row :| row in RowsOf(t, k) && row.key == key;
    TickHasWritten(events, i, k, row, now);
  }

  /** Response `k` of tick `i` samples the row's container, metric and bucket with this value. */
  ghost predicate RespondedWith(events: seq<Event>, i: nat, k: nat, key: R.RowKey, v: real) {
    && i < |StartTimes(events)| && R.BucketStart(StartTimes(events)[i]) == key.bucketStart
    && k < |Responses(events, i)| && k < |R.KINDS| && R.KINDS[k] == key.kind
    && exists sample <- Responses(events, i)[k] :: R.Samples(sample, key.container) && sample.value == Some(v)
  }

  /** The insertion wrote response `k` of tick `i`. */
  ghost predicate IsInsertion(ticks: seq<Tick>, e: R.Event, i: nat, k: nat) {
    && i < |ticks| && k < |ticks[i].answers|
    && e.Inserts? && e.kind == R.KINDS[k] && e.tickAt == ticks[i].startedAt && e.samples == ticks[i].answers[k]
  }

  ghost predicate HistoryIsOfTicks(s: State) {
    forall e <- s.history | e.Inserts? :: exists i: nat, k: nat :: IsInsertion(s.ticks, e, i, k)
  }

  lemma {:induction false} InsertionStays(s: State, e: Event, h: R.Event, i: nat, k: nat)
    requires IsInsertion(s.ticks, h, i, k)
    ensures IsInsertion(Step(s, e).ticks, h, i, k)
  {
    StepFollows(s, e, i);
  }

  lemma {:induction false} StepHistoryIsOfTicks(s: State, e: Event)
    requires HistoryIsOfTicks(s)
    ensures HistoryIsOfTicks(Step(s, e))
  {
    var after := Step(s, e);
    forall h | h in after.history && h.Inserts? ensures exists i: nat, k: nat :: IsInsertion(after.ticks, h, i, k) {
      if h in s.history {
        var i: nat, k: nat :| IsInsertion(s.ticks, h, i, k);
        InsertionStays(s, e, h, i, k);
      } else {
        StepFollows(s, e, e.tick);
        assert IsInsertion(after.ticks, h, e.tick, s.ticks[e.tick].done);
      }
    }
  }

  lemma {:induction false} RunHistoryIsOfTicks(events: seq<Event>)
    ensures HistoryIsOfTicks(Run(events))
    decreases |events|
  {
    if events != [] {
      RunHistoryIsOfTicks(events[..|events| - 1]);
      StepHistoryIsOfTicks(Run(events[..|events| - 1]), events[|events| - 1]);
    }
  }

  lemma InsertionResponded(events: seq<Event>, h: R.Event, i: nat, k: nat, key: R.RowKey, v: real)
    requires IsInsertion(Run(events).ticks, h, i, k)
    requires h.kind == key.kind && R.BucketStart(h.tickAt) == key.bucketStart
    requires exists sample <- h.samples :: R.Samples(sample, key.container) && sample.value == Some(v)
    ensures RespondedWith(events, i, k, key, v)
  {
    TicksFollow(events);
  }

  /**
   And only samples are written: every row has the value that a response to the query of its
   metric by a tick of its bucket gave.
   */
  lemma RowsComeFromResponses(events: seq<Event>, key: R.RowKey)
    requires key in Run(events).table
    ensures exists i: nat, k: nat :: RespondedWith(events, i, k, key, Run(events).table[key])
  {
    var history, v := Run(events).history, Run(events).table[key];
    RunIsOfHistory(events);
    RunHistoryIsOfTicks(events);
    R.RowsComeFromSamples(history, true, key);
    var j: nat :| R.Sampled(history, j, key, v);
    assert history[j] in history;
    var i: nat, k: nat :| IsInsertion(Run(events).ticks, history[j], i, k);
    InsertionResponded(events, history[j], i, k, key, v);
  }

  ghost predicate WritesHaveRows(s: State) {
    && (forall t <- s.ticks | t.stage.Writing? :: RowsOf(t, t.done) != [])
    && (forall h <- s.history | h.Inserts? :: R.RowsOf(h.samples, h.kind, R.BucketStart(h.tickAt)) != [])
  }

  lemma {:induction false} StepWritesHaveRows(s: State, e: Event)
    requires WritesHaveRows(s)
    ensures WritesHaveRows(Step(s, e))
  {
    var after := Step(s, e);
    if e.Writes? && e.tick < |s.ticks| {
      assert s.ticks[e.tick] in s.ticks;
    }
    forall t | t in after.ticks && t.stage.Writing? ensures RowsOf(t, t.done) != [] {
      assert t in s.ticks || (e.Answers? && t == Answer(s.ticks[e.tick], e.samples));
    }
  }

  /** The database is never asked to write nothing. */
  lemma {:induction false} NoEmptyWrite(events: seq<Event>)
    ensures WritesHaveRows(Run(events))
    decreases |events|
  {
    if events != [] {
      NoEmptyWrite(events[..|events| - 1]);
      StepWritesHaveRows(Run(events[..|events| - 1]), events[|events| - 1]);
    }
  }

  // ----- how a tick goes on and how it ends

  lemma RunOneMore(events: seq<Event>, e: Event)
    ensures Run(events + [e]) == Step(Run(events), e)
  {
    assert (events + [e])[..|events|] == events;
  }

  predicate IsOver(s: State, i: nat) {
    i < |s.ticks| && (s.ticks[i].stage.Returned? || s.ticks[i].stage.Threw?)
  }

  lemma {:induction false} OverStays(s: State, e: Event, i: nat)
    requires IsOver(s, i)
    ensures IsOver(Step(s, e), i) && Step(s, e).ticks[i] == s.ticks[i]
  {
  }

  lemma {:induction false} OverForGood(before: seq<Event>, after: seq<Event>, i: nat)
    requires IsOver(Run(before), i)
    ensures IsOver(Run(before + after), i) && Run(before + after).ticks[i] == Run(before).ticks[i]
    decreases |after|
  {
    if after == [] {
      assert before + after == before;
    } else {
      var init, e := after[..|after| - 1], after[|after| - 1];
      OverForGood(before, init, i);
      OverStays(Run(before + init), e, i);
      RunOneMore(before + init, e);
      assert before + after == before + init + [e];
    }
  }

  /** A failed query or write ends its tick for good, and changes nothing else. */
  lemma FailureEndsTick(before: seq<Event>, i: nat, after: seq<Event>)
    requires i < |Run(before).ticks| && !Run(before).ticks[i].stage.Returned?
    ensures var s := Run(before);
            var failed := s.ticks[i].(stage := Threw);
            && Run(before + [Fails(i)]) == s.(ticks := s.ticks[i := failed])
            && i < |Run(before + [Fails(i)] + after).ticks|
            && Run(before + [Fails(i)] + after).ticks[i] == failed
  {
    RunOneMore(before, Fails(i));
    OverForGood(before + [Fails(i)], after, i);
  }

  /** A response and the write that may follow it. */
  function Metric(i: nat, samples: seq<R.Sample>, at: nat): seq<Event> {
    [Answers(i, samples)] + [Writes(i, at)]
  }

  function Metrics(i: nat, responses: seq<seq<R.Sample>>, at: nat): seq<Event> {
    if responses == [] then []
    else
      Metrics(i, responses[..|responses| - 1], at) + Metric(i, responses[|responses| - 1], at)
  }

  /** The rows of the first metrics, in order. */
  function TickRows(startedAt: nat, responses: seq<seq<R.Sample>>): seq<R.Row>
    requires |responses| <= |R.KINDS|
  {
    if responses == [] then []
    else
      var last := |responses| - 1;
      TickRows(startedAt, responses[..last]) + R.RowsOf(responses[last], R.KINDS[last], R.BucketStart(startedAt))
  }

  /** The tick got these responses, wrote their rows into what was `table`, and goes on or returns. */
  ghost predicate HasDone(s: State, i: nat, table: R.Table, startedAt: nat, responses: seq<seq<R.Sample>>) {
    && i < |s.ticks| && |responses| <= |R.KINDS|
    && s.table == R.InsertAll(table, TickRows(startedAt, responses))
    && s.ticks[i].startedAt == startedAt && s.ticks[i].answers == responses && s.ticks[i].done == |responses|
    && s.ticks[i].inserted == |s.table| - |table|
    && s.ticks[i].stage == if |responses| == |R.KINDS| then Returned else Querying
  }

  lemma {:induction false} MetricIsDone(s: State, i: nat, table: R.Table, startedAt: nat,
                                        responses: seq<seq<R.Sample>>, samples: seq<R.Sample>, at: nat)
    requires HasDone(s, i, table, startedAt, responses) && |responses| < |R.KINDS|
    ensures HasDone(Step(Step(s, Answers(i, samples)), Writes(i, at)), i, table, startedAt, responses + [samples])
  {
    var k := |responses|;
    var more := responses + [samples];
    var rows := R.RowsOf(samples, R.KINDS[k], R.BucketStart(startedAt));
    assert more[..k] == responses;
    assert TickRows(startedAt, more) == TickRows(startedAt, responses) + rows;
    R.InsertConcat(table, TickRows(startedAt, responses), rows);
  }

  lemma RunTwoMore(events: seq<Event>, a: Event, b: Event)
    ensures Run(events + ([a] + [b])) == Step(Step(Run(events), a), b)
  {
    Associative(events, [a], [b]);
    RunOneMore(events, a);
    RunOneMore(events + [a], b);
  }

  lemma {:induction false} MetricRuns(events: seq<Event>, i: nat, table: R.Table, startedAt: nat,
                                      responses: seq<seq<R.Sample>>, samples: seq<R.Sample>, at: nat)
    requires HasDone(Run(events), i, table, startedAt, responses) && |responses| < |R.KINDS|
    ensures HasDone(Run(events + Metric(i, samples, at)), i, table, startedAt, responses + [samples])
  {
    MetricIsDone(Run(events), i, table, startedAt, responses, samples, at);
    RunTwoMore(events, Answers(i, samples), Writes(i, at));
  }

  lemma {:induction false} MetricsRun(started: seq<Event>, i: nat, table: R.Table, startedAt: nat,
                                      responses: seq<seq<R.Sample>>, at: nat)
    requires HasDone(Run(started), i, table, startedAt, []) && |responses| <= |R.KINDS|
    ensures HasDone(Run(started + Metrics(i, responses, at)), i, table, startedAt, responses)
    decreases |responses|
  {
    if responses == [] {
      assert started + Metrics(i, responses, at) == started;
    } else {
      var init, samples := responses[..|responses| - 1], responses[|responses| - 1];
      assert responses == init + [samples];
      MetricsRun(started, i, table, startedAt, init, at);
      MetricRuns(started + Metrics(i, init, at), i, table, startedAt, init, samples, at);
      Associative(started, Metrics(i, init, at), Metric(i, samples, at));
    }
  }

  /** A tick that nothing interrupts asks for the four metrics, writes all their rows, and returns their number. */
  lemma {:induction false} LoneTick(before: seq<Event>, startedAt: nat, responses: seq<seq<R.Sample>>, at: nat)
    requires |responses| <= |R.KINDS|
    ensures var i := |Run(before).ticks|;
            HasDone(Run(before + [Starts(startedAt)] + Metrics(i, responses, at)),
                    i, Run(before).table, startedAt, responses)
  {
    RunOneMore(before, Starts(startedAt));
    MetricsRun(before + [Starts(startedAt)], |Run(before).ticks|, Run(before).table, startedAt, responses, at);
  }

  // ----- what ticks and purges report

  function Reported(ticks: seq<Tick>): int {
    if ticks == [] then 0 else Reported(ticks[..|ticks| - 1]) + ticks[|ticks| - 1].inserted
  }

  lemma {:induction false} ReportedAfter(ticks: seq<Tick>, i: nat, t: Tick)
    requires i < |ticks|
    ensures Reported(ticks[i := t]) == Reported(ticks) - ticks[i].inserted + t.inserted
    decreases |ticks|
  {
    var init := ticks[..|ticks| - 1];
    if i < |init| {
      ReportedAfter(init, i, t);
      assert ticks[i := t][..|ticks| - 1] == init[i := t];
    } else {
      assert ticks[i := t][..|ticks| - 1] == init;
    }
  }

  /** At every moment, what all ticks counted is what is in the table and what purges counted. */
  lemma {:induction false} CountsBalance(events: seq<Event>)
    ensures Reported(Run(events).ticks) == |Run(events).table| + Run(events).purged
    decreases |events|
  {
    if events != [] {
      var s, e := Run(events[..|events| - 1]), events[|events| - 1];
      var after := Step(s, e);
      CountsBalance(events[..|events| - 1]);
      if e.Starts? {
        assert after.ticks[..|s.ticks|] == s.ticks;
      } else if !e.Purges? && after != s {
        ReportedAfter(s.ticks, e.tick, after.ticks[e.tick]);
      }
    }
  }
}

/** The service object over its table, with the calls of runRollup that are under way. */
module MetricsServices {
  import R = RollupRuns
  import opened RollupTicks

  class MetricsService {
    var table: R.Table
    var ticks: seq<Tick>
    ghost var purged: int
    ghost var history: seq<R.Event>

    ghost function State(): RollupTicks.State
      reads this
    {
      RollupTicks.State(table, ticks, purged, history)
    }

    constructor ()
      ensures State() == START
    {
      table, ticks, purged, history := map[], [], 0, [];
    }

    /** The database's createMany with skipDuplicates; the count is of the rows that were new. */
    method CreateMany(rows: seq<R.Row>) returns (count: nat)
      modifies this`table
      ensures table == R.InsertAll(old(table), rows)
      ensures count == |table| - |old(table)|
    {
      count := 0;
      for i := 0 to |rows|
        invariant table == R.InsertAll(old(table), rows[..i])
        invariant count == |table| - |old(table)|
      {
        assert rows[..i + 1][..i] == rows[..i];
        if rows[i].key !in table {
          table := table[rows[i].key := rows[i].avgValue];
          count := count + 1;
        }
      }
      assert rows[..|rows|] == rows;
    }

    /** runRollup up to its first query. */
    method StartRollup(now: nat)
      modifies this
      ensures State() == Step(old(State()), Starts(now))
    {
      ticks := ticks + [TickRecord(now, 0, [], 0, Querying)];
    }

    /** From the response for a metric to its write, or to the next query or the end. */
    method SamplesArrived(i: nat, samples: seq<R.Sample>)
      requires i < |ticks| && ticks[i].stage.Querying?
      modifies this
      ensures State() == Step(old(State()), Answers(i, samples))
    {
      var t := ticks[i];
      var kind := R.KINDS[t.done];
      var rows := R.RowsOf(samples, kind, R.BucketStart(t.startedAt));
      var got := t.(answers := t.answers + [samples], stage := Writing);
      ticks := ticks[i := if |rows| > 0 then got else Advance(got)];
    }

    /** The write, and from its answer to the next query or the end. */
    method RowsWritten(i: nat, now: nat)
      requires i < |ticks| && ticks[i].stage.Writing?
      modifies this
      ensures State() == Step(old(State()), Writes(i, now))
    {
      var t := ticks[i];
      history := history + [Insertion(t, now)];
      var count := CreateMany(RowsOf(t, t.done));
      ticks := ticks[i := Advance(t.(inserted := t.inserted + count))];
    }

    /** A query or a write fails, and with it the call. */
    method RollupFailed(i: nat)
      requires i < |ticks| && (ticks[i].stage.Querying? || ticks[i].stage.Writing?)
      modifies this
      ensures State() == Step(old(State()), Fails(i))
    {
      ticks := ticks[i := ticks[i].(stage := Threw)];
    }

    method PurgeOldRollups(now: nat) returns (count: nat)
      modifies this
      ensures State() == Step(old(State()), Purges(now))
      ensures count == |old(table)| - |table|
    {
      var cutoff := now - R.RETENTION_MS;
      var expired := set key | key in table && key.bucketStart < cutoff;
      RemovedCount(table, expired);
      assert table - expired == R.Purge(table, now);
      table := table - expired;
      count := |expired|;
      purged := purged + count;
      history := history + [R.Purges(now)];
    }
  }

  lemma RemovedCount(table: R.Table, keys: set<R.RowKey>)
    requires keys <= table.Keys
    ensures |table - keys| == |table| - |keys|
  {
    assert (table - keys).Keys == table.Keys - keys;
    assert |(table - keys).Keys| == |table.Keys| - |keys|;
  }
}
