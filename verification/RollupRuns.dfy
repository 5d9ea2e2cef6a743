/**
 Five-minute metric rollups: insertion that skips what is there, purge after thirty days,
 and the history read back. The table is a map on its unique key (container, metric,
 start of the bucket); times are milliseconds; a sample's value is absent when it is not
 a finite number.
 */
module RollupRuns {
  import opened Basics
  import opened MetricTypes

  const BUCKET_MS := 300 * 1000
  const RETENTION_MS := 30 * 24 * 3_600_000
  const HOUR_MS := 3_600_000
  const MAX_HISTORY_HOURS := 720

  const KINDS := [Cpu, Memory, NetworkRx, NetworkTx]

  /** Each metric is asked for once. */
  lemma EveryMetricOnce(kind: MetricKind)
    ensures exists k | 0 <= k < |KINDS| :: KINDS[k] == kind
    ensures forall j, k | 0 <= j < k < |KINDS| :: KINDS[j] != KINDS[k]
  {
    assert KINDS[0] == Cpu && KINDS[1] == Memory && KINDS[2] == NetworkRx && KINDS[3] == NetworkTx;
  }

  datatype Sample = Sample(name: Option<string>, value: Option<real>)

  datatype RowKey = RowKey(container: string, kind: MetricKind, bucketStart: int)
  datatype Row = Row(key: RowKey, avgValue: real)
  type Table = map<RowKey, real>

  /** Start of the bucket that closed last. */
  function BucketStart(now: nat): int {
    now / BUCKET_MS * BUCKET_MS - BUCKET_MS
  }

  function RowsOf(samples: seq<Sample>, kind: MetricKind, bucketStart: int): seq<Row> {
    if samples == [] then []
    else
      var s := samples[|samples| - 1];
      RowsOf(samples[..|samples| - 1], kind, bucketStart) +
      if s.name.Some? && |s.name.value| > 0 && s.value.Some?
      then [Row(RowKey(s.name.value, kind, bucketStart), s.value.value)] else []
  }

  function Insert(table: Table, row: Row): Table {
    if row.key in table then table else table[row.key := row.avgValue]
  }

  /** createMany with skipDuplicates. */
  function InsertAll(table: Table, rows: seq<Row>): Table {
    if rows == [] then table else Insert(InsertAll(table, rows[..|rows| - 1]), rows[|rows| - 1])
  }

  function Purge(table: Table, now: int): Table {
    map key | key in table && key.bucketStart >= now - RETENTION_MS :: table[key]
  }

  /**
   A tick that started at `tickAt` inserts one metric's rows, or deletes old rows. Ticks may
   overlap, and end anywhere.
   */
  datatype Event =
    | Inserts(kind: MetricKind, tickAt: nat, samples: seq<Sample>, at: int)
    | Purges(at: int)

  /** Without purges, the table of the same run had rows never been deleted. */
  function Run(events: seq<Event>, purging: bool): Table {
    if events == [] then map[]
    else
      var before := Run(events[..|events| - 1], purging);
      match events[|events| - 1]
      case Inserts(kind, tickAt, samples, _) => InsertAll(before, RowsOf(samples, kind, BucketStart(tickAt)))
      case Purges(at) => if purging then Purge(before, at) else before
  }

  /** The clock does not go back, up to `now`, and a tick inserts after it started. */
  predicate Clocked(events: seq<Event>, now: int) {
    events == [] ||
    var e := events[|events| - 1];
    e.at <= now && (e.Inserts? ==> e.tickAt <= e.at) && Clocked(events[..|events| - 1], e.at)
  }

  // ----- insertion

  /** Insertion only adds: what was there keeps its value. */
  lemma {:induction false} InsertionKeeps(table: Table, rows: seq<Row>, key: RowKey)
    ensures key in table ==> key in InsertAll(table, rows) && InsertAll(table, rows)[key] == table[key]
    ensures key in InsertAll(table, rows) && key !in table ==> exists r <- rows :: r.key == key
    ensures (exists r <- rows :: r.key == key) ==> key in InsertAll(table, rows)
    decreases |rows|
  {
    if rows != [] {
      InsertionKeeps(table, rows[..|rows| - 1], key);
    }
  }

  /** A key's value after insertion depends on its value before and on nothing else in the table. */
  lemma {:induction false} InsertionIsLocal(a: Table, b: Table, rows: seq<Row>, key: RowKey)
    requires key in a <==> key in b
    requires key in a ==> a[key] == b[key]
    ensures key in InsertAll(a, rows) <==> key in InsertAll(b, rows)
    ensures key in InsertAll(a, rows) ==> InsertAll(a, rows)[key] == InsertAll(b, rows)[key]
    decreases |rows|
  {
    if rows != [] {
      InsertionIsLocal(a, b, rows[..|rows| - 1], key);
    }
  }

  lemma {:induction false} InsertConcat(table: Table, a: seq<Row>, b: seq<Row>)
    ensures InsertAll(table, a + b) == InsertAll(InsertAll(table, a), b)
    decreases |b|
  {
    if b == [] {
      assert a + b == a;
    } else {
      assert (a + b)[..|a + b| - 1] == a + b[..|b| - 1];
      InsertConcat(table, a, b[..|b| - 1]);
    }
  }

  /** Rolling a bucket up again changes nothing, whatever the values now. */
  lemma InsertionIsIdempotent(table: Table, rows: seq<Row>, again: seq<Row>)
    requires forall r <- again :: exists q <- rows :: q.key == r.key
    ensures InsertAll(InsertAll(table, rows), again) == InsertAll(table, rows)
  {
    var once := InsertAll(table, rows);
    var twice := InsertAll(once, again);
    forall key: RowKey
      ensures key in twice <==> key in once
      ensures key in once ==> twice[key] == once[key]
    {
      InsertionKeeps(once, again, key);
      InsertionKeeps(table, rows, key);
    }
  }

  lemma {:induction false} RowsOfBucket(samples: seq<Sample>, kind: MetricKind, bucketStart: int)
    ensures forall r <- RowsOf(samples, kind, bucketStart) :: r.key.kind == kind && r.key.bucketStart == bucketStart
    decreases |samples|
  {
    if samples != [] {
      RowsOfBucket(samples[..|samples| - 1], kind, bucketStart);
    }
  }

  /** The sample names the container and has a value. */
  predicate Samples(s: Sample, container: string) {
    s.name == Some(container) && container != "" && s.value.Some?
  }

  lemma {:induction false} RowsOfSampled(samples: seq<Sample>, kind: MetricKind, bucketStart: int, container: string)
    requires exists s <- samples :: Samples(s, container)
    ensures exists r <- RowsOf(samples, kind, bucketStart) :: r.key == RowKey(container, kind, bucketStart)
    decreases |samples|
  {
    var init, last := samples[..|samples| - 1], samples[|samples| - 1];
    var rows := RowsOf(samples, kind, bucketStart);
    if Samples(last, container) {
      assert rows[|rows| - 1].key == RowKey(container, kind, bucketStart);
    } else {
      var s :| s in samples && Samples(s, container);
      assert s in init;
      RowsOfSampled(init, kind, bucketStart, container);
      var r :| r in RowsOf(init, kind, bucketStart) && r.key == RowKey(container, kind, bucketStart);
      assert r in rows;
    }
  }

  lemma {:induction false} RowsAreSampled(samples: seq<Sample>, kind: MetricKind, bucketStart: int, row: Row)
    requires row in RowsOf(samples, kind, bucketStart)
    ensures exists s <- samples :: Samples(s, row.key.container) && s.value == Some(row.avgValue)
    decreases |samples|
  {
    var init, last := samples[..|samples| - 1], samples[|samples| - 1];
    if row in RowsOf(init, kind, bucketStart) {
      RowsAreSampled(init, kind, bucketStart, row);
      var s :| s in init && Samples(s, row.key.container) && s.value == Some(row.avgValue);
      assert s in samples;
    } else {
      assert last in samples;
    }
  }

  lemma {:induction false} ValueIsInserted(table: Table, rows: seq<Row>, key: RowKey)
    requires key in InsertAll(table, rows) && key !in table
    ensures Row(key, InsertAll(table, rows)[key]) in rows
    decreases |rows|
  {
    var init := rows[..|rows| - 1];
    if key in InsertAll(table, init) {
      ValueIsInserted(table, init, key);
    }
  }

  /** Insertion `k` sampled the container with this value, for this row. */
  ghost predicate Sampled(events: seq<Event>, k: nat, key: RowKey, v: real) {
    && k < |events| && events[k].Inserts?
    && events[k].kind == key.kind && BucketStart(events[k].tickAt) == key.bucketStart
    && exists s <- events[k].samples :: Samples(s, key.container) && s.value == Some(v)
  }

  /** Every row in the table was sampled, with its value, by a tick of its bucket. */
  lemma {:induction false} RowsComeFromSamples(events: seq<Event>, purging: bool, key: RowKey)
    requires key in Run(events, purging)
    ensures exists k :: Sampled(events, k, key, Run(events, purging)[key])
    decreases |events|
  {
    var init, e := events[..|events| - 1], events[|events| - 1];
    var v := Run(events, purging)[key];
    if key in Run(init, purging) {
      if e.Inserts? {
        InsertionKeeps(Run(init, purging), RowsOf(e.samples, e.kind, BucketStart(e.tickAt)), key);
      }
      RowsComeFromSamples(init, purging, key);
      var k :| Sampled(init, k, key, v);
      assert Sampled(events, k, key, v);
    } else {
      var rows := RowsOf(e.samples, e.kind, BucketStart(e.tickAt));
      ValueIsInserted(Run(init, purging), rows, key);
      RowsOfBucket(e.samples, e.kind, BucketStart(e.tickAt));
      RowsAreSampled(e.samples, e.kind, BucketStart(e.tickAt), Row(key, v));
      assert Sampled(events, |init|, key, v);
    }
  }

  // ----- buckets

  ghost predicate Aligned(table: Table, now: int) {
    forall key <- table :: key.bucketStart % BUCKET_MS == 0 && key.bucketStart + BUCKET_MS <= now
  }

  /** The bucket of a tick is the aligned one that closed last. */
  lemma BucketIsClosed(tickAt: nat)
    ensures BucketStart(tickAt) % BUCKET_MS == 0
    ensures BucketStart(tickAt) + BUCKET_MS <= tickAt < BucketStart(tickAt) + 2 * BUCKET_MS
  {
  }

  /** Every row's bucket starts at a multiple of five minutes and was over when the row was written. */
  lemma {:induction false} BucketsAreAlignedAndClosed(events: seq<Event>, purging: bool, now: int)
    requires Clocked(events, now)
    ensures Aligned(Run(events, purging), now)
    decreases |events|
  {
    if events != [] {
      var init, e := events[..|events| - 1], events[|events| - 1];
      BucketsAreAlignedAndClosed(init, purging, e.at);
      if e.Inserts? {
        BucketIsClosed(e.tickAt);
        var rows := RowsOf(e.samples, e.kind, BucketStart(e.tickAt));
        RowsOfBucket(e.samples, e.kind, BucketStart(e.tickAt));
        forall key <- InsertAll(Run(init, purging), rows)
          ensures key.bucketStart % BUCKET_MS == 0 && key.bucketStart + BUCKET_MS <= e.at
        {
          InsertionKeeps(Run(init, purging), rows, key);
        }
      }
    }
  }

  predicate Regular(ticks: seq<nat>) {
    forall i | 0 < i < |ticks| :: ticks[i - 1] <= ticks[i] <= ticks[i - 1] + BUCKET_MS
  }

  lemma NextBucket(a: nat, b: nat)
    requires a <= b <= a + BUCKET_MS
    ensures BucketStart(b) == BucketStart(a) || BucketStart(b) == BucketStart(a) + BUCKET_MS
  {
  }

  /** Ticks at most five minutes apart visit every bucket between the first and the last. */
  lemma {:induction false} NoBucketIsSkipped(ticks: seq<nat>, bucket: int) returns (i: nat)
    requires Regular(ticks) && ticks != []
    requires bucket % BUCKET_MS == 0
    requires BucketStart(ticks[0]) <= bucket <= BucketStart(ticks[|ticks| - 1])
    ensures i < |ticks| && BucketStart(ticks[i]) == bucket
    decreases |ticks|
  {
    var last := |ticks| - 1;
    i := last;
    if bucket < BucketStart(ticks[last]) {
      NextBucket(ticks[last - 1], ticks[last]);
      BucketIsClosed(ticks[last]);
      MultiplesApart(bucket, BucketStart(ticks[last]));
      i := NoBucketIsSkipped(ticks[..last], bucket);
    }
  }

  lemma MultiplesApart(a: int, b: int)
    requires a % BUCKET_MS == 0 && b % BUCKET_MS == 0 && a < b
    ensures a + BUCKET_MS <= b
  {
  }

  // ----- history

  /** The rows that getHistory selects. */
  function KeysSince(table: Table, container: string, kind: MetricKind, since: int): set<RowKey> {
    set key | key in table && key.container == container && key.kind == kind && key.bucketStart >= since
  }

  ghost predicate IsEarliest(keys: set<RowKey>, key: RowKey) {
    key in keys && forall other <- keys :: key.bucketStart <= other.bucketStart
  }

  lemma {:induction false} EarliestExists(keys: set<RowKey>)
    requires keys != {}
    ensures exists key :: IsEarliest(keys, key)
    decreases |keys|
  {
    var some :| some in keys;
    var rest := keys - {some};
    assert forall other <- keys :: other == some || other in rest;
    if rest == {} {
      assert IsEarliest(keys, some);
    } else {
      EarliestExists(rest);
      var key :| IsEarliest(rest, key);
      assert IsEarliest(keys, if key.bucketStart <= some.bucketStart then key else some);
    }
  }

  /** The keys by ascending start of their bucket. */
  ghost function Ascending(keys: set<RowKey>): seq<RowKey>
    decreases |keys|
  {
    if keys == {} then []
    else
      EarliestExists(keys);
      var key :| IsEarliest(keys, key);
      [key] + Ascending(keys - {key})
  }

  lemma {:induction false} AscendingIsExact(keys: set<RowKey>, container: string, kind: MetricKind)
    requires forall key <- keys :: key.container == container && key.kind == kind
    ensures forall key :: key in Ascending(keys) <==> key in keys
    ensures forall i, j | 0 <= i < j < |Ascending(keys)| ::
              Ascending(keys)[i].bucketStart < Ascending(keys)[j].bucketStart
    decreases |keys|
  {
    if keys != {} {
      EarliestExists(keys);
      var all := Ascending(keys);
      var first := all[0];
      var rest := keys - {first};
      AscendingIsExact(rest, container, kind);
      assert all == [first] + Ascending(rest);
      forall j | 1 <= j < |all| ensures first.bucketStart < all[j].bucketStart {
        assert all[j] == Ascending(rest)[j - 1];
        assert all[j] in Ascending(rest);
      }
    }
  }

  /** findMany with its filter and order, mapped to points. */
  ghost function GetHistory(table: Table, container: string, kind: MetricKind, now: int, hours: nat): seq<MetricPoint> {
    var selected := KeysSince(table, container, kind, now - hours * HOUR_MS);
    var keys := Ascending(selected);
    AscendingIsExact(selected, container, kind);
    seq(|keys|, i requires 0 <= i < |keys| =>
      assert keys[i] in keys;
      MetricPoint(keys[i].bucketStart, table[keys[i]]))
  }

  /** A history is strictly increasing in time and holds exactly the rows asked for. */
  lemma HistoryIsExact(table: Table, container: string, kind: MetricKind, now: int, hours: nat)
    ensures var points := GetHistory(table, container, kind, now, hours);
            && (forall i, j | 0 <= i < j < |points| :: points[i].t < points[j].t)
            && (forall t, v :: MetricPoint(t, v) in points <==>
                  var key := RowKey(container, kind, t);
                  key in table && table[key] == v && t >= now - hours * HOUR_MS)
  {
    var selected := KeysSince(table, container, kind, now - hours * HOUR_MS);
    var keys := Ascending(selected);
    var points := GetHistory(table, container, kind, now, hours);
    AscendingIsExact(selected, container, kind);
    forall t, v
      ensures MetricPoint(t, v) in points <==>
              var key := RowKey(container, kind, t);
              key in table && table[key] == v && t >= now - hours * HOUR_MS
    {
      var key := RowKey(container, kind, t);
      if key in selected && table[key] == v {
        var i :| 0 <= i < |keys| && keys[i] == key;
        assert points[i] == MetricPoint(t, v);
      }
      if MetricPoint(t, v) in points {
        var i :| 0 <= i < |points| && points[i] == MetricPoint(t, v);
        assert keys[i] in keys;
      }
    }
  }

  /** The tables agree on every row a query at `now` may still see. */
  ghost predicate AgreeSince(a: Table, b: Table, from: int) {
    forall key: RowKey | key.bucketStart >= from :: (key in a <==> key in b) && (key in a ==> a[key] == b[key])
  }

  lemma {:induction false} PurgesStayBehind(events: seq<Event>, now: int)
    requires Clocked(events, now)
    ensures AgreeSince(Run(events, true), Run(events, false), now - RETENTION_MS)
    decreases |events|
  {
    if events != [] {
      var init, e := events[..|events| - 1], events[|events| - 1];
      PurgesStayBehind(init, e.at);
      if e.Inserts? {
        var rows := RowsOf(e.samples, e.kind, BucketStart(e.tickAt));
        forall key: RowKey | key.bucketStart >= now - RETENTION_MS
          ensures (key in Run(events, true) <==> key in Run(events, false))
               && (key in Run(events, true) ==> Run(events, true)[key] == Run(events, false)[key])
        {
          InsertionIsLocal(Run(init, true), Run(init, false), rows, key);
        }
      }
    }
  }

  /**
   Purging is invisible: in every run, any history of at most 720 hours is the one the
   same run would have given had nothing ever been deleted.
   */
  lemma PurgeIsInvisible(events: seq<Event>, container: string, kind: MetricKind, now: int, hours: nat)
    requires Clocked(events, now) && hours <= MAX_HISTORY_HOURS
    ensures GetHistory(Run(events, true), container, kind, now, hours)
         == GetHistory(Run(events, false), container, kind, now, hours)
  {
    PurgesStayBehind(events, now);
    SameHistory(Run(events, true), Run(events, false), container, kind, now, hours);
  }

  lemma SameHistory(a: Table, b: Table, container: string, kind: MetricKind, now: int, hours: nat)
    requires AgreeSince(a, b, now - hours * HOUR_MS)
    ensures GetHistory(a, container, kind, now, hours) == GetHistory(b, container, kind, now, hours)
  {
    var selected := KeysSince(a, container, kind, now - hours * HOUR_MS);
    assert selected == KeysSince(b, container, kind, now - hours * HOUR_MS);
    AscendingIsExact(selected, container, kind);
    assert forall key <- Ascending(selected) :: key in selected && a[key] == b[key];
  }

  /** A row older than thirty days at some purge can only be there because it was inserted after it. */
  lemma {:induction false} OldRowsAreGone(events: seq<Event>, k: nat, key: RowKey)
    requires k < |events| && events[k].Purges?
    requires key in Run(events, true) && key.bucketStart < events[k].at - RETENTION_MS
    ensures exists j | k < j < |events| ::
              events[j].Inserts? && events[j].kind == key.kind && BucketStart(events[j].tickAt) == key.bucketStart
    decreases |events|
  {
    var init, last := events[..|events| - 1], |events| - 1;
    var e := events[last];
    assert last != k;
    if key in Run(init, true) {
      OldRowsAreGone(init, k, key);
      var j :| k < j < |init| && init[j].Inserts? && init[j].kind == key.kind
               && BucketStart(init[j].tickAt) == key.bucketStart;
      assert events[j] == init[j];
    } else {
      InsertionKeeps(Run(init, true), RowsOf(e.samples, e.kind, BucketStart(e.tickAt)), key);
      RowsOfBucket(e.samples, e.kind, BucketStart(e.tickAt));
      assert events[last].kind == key.kind;
    }
  }

  lemma {:induction false} InsertedStays(events: seq<Event>, k: nat, container: string)
    requires k < |events| && events[k].Inserts?
    requires exists s <- events[k].samples :: Samples(s, container)
    ensures RowKey(container, events[k].kind, BucketStart(events[k].tickAt)) in Run(events, false)
    decreases |events|
  {
    var init, e := events[..|events| - 1], events[|events| - 1];
    var key := RowKey(container, events[k].kind, BucketStart(events[k].tickAt));
    if k == |init| {
      RowsOfSampled(e.samples, e.kind, BucketStart(e.tickAt), container);
      InsertionKeeps(Run(init, false), RowsOf(e.samples, e.kind, BucketStart(e.tickAt)), key);
    } else {
      InsertedStays(init, k, container);
      if e.Inserts? {
        InsertionKeeps(Run(init, false), RowsOf(e.samples, e.kind, BucketStart(e.tickAt)), key);
      }
    }
  }

  /** These insertions of one metric, in order, all saw the container, at ticks at most five minutes apart. */
  predicate SteadySeries(events: seq<Event>, at: seq<nat>, kind: MetricKind, container: string) {
    && (forall i | 0 <= i < |at| ::
          && at[i] < |events| && events[at[i]].Inserts? && events[at[i]].kind == kind
          && exists s <- events[at[i]].samples :: Samples(s, container))
    && (forall i | 0 < i < |at| ::
          events[at[i - 1]].tickAt <= events[at[i]].tickAt <= events[at[i - 1]].tickAt + BUCKET_MS)
  }

  /**
   No holes: when a container is sampled at every one of a row of ticks at most five
   minutes apart, its history within the retention has a point for every bucket between
   the first tick's and the last's.
   */
  lemma HistoryHasNoHoles(events: seq<Event>, at: seq<nat>, kind: MetricKind, container: string,
                          bucket: int, now: int, hours: nat)
    requires Clocked(events, now) && hours <= MAX_HISTORY_HOURS
    requires SteadySeries(events, at, kind, container) && at != []
    requires bucket % BUCKET_MS == 0 && bucket >= now - hours * HOUR_MS
    requires BucketStart(events[at[0]].tickAt) <= bucket <= BucketStart(events[at[|at| - 1]].tickAt)
    ensures exists p <- GetHistory(Run(events, true), container, kind, now, hours) :: p.t == bucket
  {
    var ticks := seq(|at|, i requires 0 <= i < |at| => events[at[i]].tickAt);
    var i := NoBucketIsSkipped(ticks, bucket);
    InsertedStays(events, at[i], container);
    var table := Run(events, false);
    var key := RowKey(container, kind, bucket);
    assert key in table;
    HistoryIsExact(table, container, kind, now, hours);
    PurgeIsInvisible(events, container, kind, now, hours);
    assert MetricPoint(bucket, table[key]) in GetHistory(table, container, kind, now, hours);
  }
}
