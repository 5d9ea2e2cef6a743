/** The chart's rows: several time series merged into one row per instant. */
module SeriesMerge {
  import opened Basics
  import opened MetricTypes

  datatype Series = Series(kind: MetricKind, points: seq<MetricPoint>)

  datatype ChartRow = ChartRow(t: int, values: map<MetricKind, real>)

  /** A point together with the kind of its series. */
  datatype Entry = Entry(kind: MetricKind, point: MetricPoint)

  function Entries(s: Series): seq<Entry> {
    seq(|s.points|, i requires 0 <= i < |s.points| => Entry(s.kind, s.points[i]))
  }

  /** All points, series by series. */
  function AllEntries(series: seq<Series>): seq<Entry> {
    if series == [] then []
    else AllEntries(series[..|series| - 1]) + Entries(series[|series| - 1])
  }

  /** The value of the last point of this kind at this instant. */
  function LastValue(entries: seq<Entry>, kind: MetricKind, t: int): Option<real> {
    if entries == [] then None
    else
      var e := entries[|entries| - 1];
      if e.kind == kind && e.point.t == t then Some(e.point.v)
      else LastValue(entries[..|entries| - 1], kind, t)
  }

  ghost predicate Occurs(entries: seq<Entry>, t: int) {
    exists e <- entries :: e.point.t == t
  }

  ghost predicate StrictlyAscending(rows: seq<ChartRow>) {
    forall i, j | 0 <= i < j < |rows| :: rows[i].t < rows[j].t
  }

  /** The row holds, for each kind with a point at its instant, the last such value, and nothing else. */
  ghost predicate RowJoins(row: ChartRow, entries: seq<Entry>) {
    forall kind :: match LastValue(entries, kind, row.t)
                   case None => kind !in row.values
                   case Some(v) => kind in row.values && row.values[kind] == v
  }

  /** The rows are the full outer join of the series on time. */
  ghost predicate Joins(rows: seq<ChartRow>, entries: seq<Entry>) {
    && (forall row <- rows :: Occurs(entries, row.t) && RowJoins(row, entries))
    && (forall t | Occurs(entries, t) :: exists row <- rows :: row.t == t)
  }

  /** A full outer join in ascending order is unique. */
  lemma JoinIsUnique(a: seq<ChartRow>, b: seq<ChartRow>, entries: seq<Entry>)
    requires StrictlyAscending(a) && StrictlyAscending(b)
    requires Joins(a, entries) && Joins(b, entries)
    ensures a == b
  {
    forall row ensures row in a <==> row in b {
      if row in a {
        RowInJoin(row, b, entries);
      }
      if row in b {
        RowInJoin(row, a, entries);
      }
    }
    AscendingIsUnique(a, b);
  }

  lemma RowInJoin(row: ChartRow, rows: seq<ChartRow>, entries: seq<Entry>)
    requires Joins(rows, entries) && Occurs(entries, row.t) && RowJoins(row, entries)
    ensures row in rows
  {
    var other :| other in rows && other.t == row.t;
    assert RowJoins(other, entries);
    assert forall kind :: kind in row.values <==> kind in other.values;
    assert row.values == other.values;
  }

  ghost predicate SameRows(a: seq<ChartRow>, b: seq<ChartRow>) {
    forall row :: row in a <==> row in b
  }

  lemma LastIsLatest(a: seq<ChartRow>, row: ChartRow)
    requires StrictlyAscending(a) && row in a
    ensures row.t <= a[|a| - 1].t
    ensures row != a[|a| - 1] ==> row.t < a[|a| - 1].t && row in a[..|a| - 1]
  {
    var i :| 0 <= i < |a| && a[i] == row;
    assert i < |a| - 1 ==> a[..|a| - 1][i] == row;
  }

  lemma FirstIsMember(b: seq<ChartRow>)
    ensures b == [] || b[0] in b
  {
  }

  lemma {:induction false} AscendingIsUnique(a: seq<ChartRow>, b: seq<ChartRow>)
    requires StrictlyAscending(a) && StrictlyAscending(b) && SameRows(a, b)
    ensures a == b
    decreases |a|
  {
    FirstIsMember(a);
    FirstIsMember(b);
    if a != [] {
      var x, y := a[|a| - 1], b[|b| - 1];
      assert x in a && x in b && y in b && y in a;
      LastIsLatest(b, x);
      LastIsLatest(a, y);
      assert x == y;
      var p, q := a[..|a| - 1], b[..|b| - 1];
      forall row ensures row in p <==> row in q {
        if row in p {
          assert row in a && row in b && row.t < x.t;
          LastIsLatest(b, row);
        }
        if row in q {
          assert row in b && row in a && row.t < y.t;
          LastIsLatest(a, row);
        }
      }
      AscendingIsUnique(p, q);
    }
  }

  // ----- the rows under construction: a map by instant, in insertion order

  ghost predicate Building(byTime: map<int, ChartRow>, order: seq<int>, entries: seq<Entry>) {
    && (forall t :: t in byTime <==> Occurs(entries, t))
    && (forall t :: t in byTime <==> t in order)
    && (forall i, j | 0 <= i < j < |order| :: order[i] != order[j])
    && (forall t <- byTime :: byTime[t].t == t && RowJoins(byTime[t], entries))
  }

  lemma OccursAfter(entries: seq<Entry>, e: Entry, t: int)
    ensures Occurs(entries + [e], t) <==> Occurs(entries, t) || t == e.point.t
  {
    var longer := entries + [e];
    assert forall f :: f in longer <==> f in entries || f == e;
  }

  lemma RowAfter(row: ChartRow, entries: seq<Entry>, e: Entry)
    requires RowJoins(row, entries)
    ensures RowJoins(if row.t == e.point.t then row.(values := row.values[e.kind := e.point.v]) else row, entries + [e])
  {
    assert (entries + [e])[..|entries|] == entries;
  }

  lemma OneMoreEntry(byTime: map<int, ChartRow>, order: seq<int>, entries: seq<Entry>, e: Entry)
    requires Building(byTime, order, entries)
    ensures var t := e.point.t;
            var row := if t in byTime then byTime[t] else ChartRow(t, map[]);
            Building(byTime[t := row.(values := row.values[e.kind := e.point.v])],
                     if t in byTime then order else order + [t],
                     entries + [e])
  {
    var t := e.point.t;
    var row := if t in byTime then byTime[t] else ChartRow(t, map[]);
    var after := byTime[t := row.(values := row.values[e.kind := e.point.v])];
    forall u ensures Occurs(entries + [e], u) <==> Occurs(entries, u) || u == t {
      OccursAfter(entries, e, u);
    }
    forall kind ensures t !in byTime ==> LastValue(entries, kind, t) == None {
      NoValue(entries, kind, t);
    }
    RowAfter(row, entries, e);
    forall u <- after ensures after[u].t == u && RowJoins(after[u], entries + [e]) {
      if u != t {
        RowAfter(byTime[u], entries, e);
      }
    }
  }

  lemma {:induction false} NoValue(entries: seq<Entry>, kind: MetricKind, t: int)
    ensures !Occurs(entries, t) ==> LastValue(entries, kind, t) == None
    decreases |entries|
  {
    if entries != [] {
      var init := entries[..|entries| - 1];
      NoValue(init, kind, t);
      assert forall e <- init :: e in entries;
      assert entries[|entries| - 1] in entries;
    }
  }

  // ----- sorting by time

  function InsertRow(rows: seq<ChartRow>, row: ChartRow): seq<ChartRow> {
    if rows == [] || rows[|rows| - 1].t <= row.t then rows + [row]
    else InsertRow(rows[..|rows| - 1], row) + [rows[|rows| - 1]]
  }

  function SortRows(rows: seq<ChartRow>): seq<ChartRow> {
    if rows == [] then [] else InsertRow(SortRows(rows[..|rows| - 1]), rows[|rows| - 1])
  }

  lemma {:induction false} InsertAscends(rows: seq<ChartRow>, row: ChartRow)
    requires StrictlyAscending(rows) && forall r <- rows :: r.t != row.t
    ensures StrictlyAscending(InsertRow(rows, row))
    ensures forall r :: r in InsertRow(rows, row) <==> r in rows || r == row
    decreases |rows|
  {
    if rows != [] {
      var init, last := rows[..|rows| - 1], rows[|rows| - 1];
      assert forall r :: r in rows <==> r in init || r == last;
      if last.t > row.t {
        InsertAscends(init, row);
        forall r <- InsertRow(init, row) ensures r.t < last.t {
          assert r in init ==> exists i | 0 <= i < |init| :: init[i] == r;
        }
      }
    }
  }

  lemma {:induction false} SortAscends(rows: seq<ChartRow>)
    requires forall i, j | 0 <= i < j < |rows| :: rows[i].t != rows[j].t
    ensures StrictlyAscending(SortRows(rows))
    ensures forall r :: r in SortRows(rows) <==> r in rows
    decreases |rows|
  {
    if rows != [] {
      var init, last := rows[..|rows| - 1], rows[|rows| - 1];
      assert forall r :: r in rows <==> r in init || r == last;
      SortAscends(init);
      forall r <- SortRows(init) ensures r.t != last.t {
        var i :| 0 <= i < |init| && init[i] == r;
      }
      InsertAscends(SortRows(init), last);
    }
  }

  lemma SortedValuesJoin(byTime: map<int, ChartRow>, order: seq<int>, values: seq<ChartRow>, entries: seq<Entry>)
    requires Building(byTime, order, entries)
    requires |values| == |order|
    requires forall i | 0 <= i < |order| :: order[i] in byTime && values[i] == byTime[order[i]]
    ensures StrictlyAscending(SortRows(values)) && Joins(SortRows(values), entries)
  {
    SortAscends(values);
    var rows := SortRows(values);
    forall row <- rows ensures Occurs(entries, row.t) && RowJoins(row, entries) {
      var i :| 0 <= i < |values| && values[i] == row;
      assert byTime[order[i]] == row;
    }
    forall t | Occurs(entries, t) ensures exists row <- rows :: row.t == t {
      assert t in byTime;
      var i :| 0 <= i < |order| && order[i] == t;
      assert values[i] in values;
    }
  }

  // ----- mergeSeries

  /**
   For any series: rows strictly increasing in time, one for each instant at which some
   series has a point, holding for each kind the last value at that instant.
   */
  method MergeSeries(series: seq<Series>) returns (rows: seq<ChartRow>)
    ensures StrictlyAscending(rows)
    ensures Joins(rows, AllEntries(series))
  {
    var byTime: map<int, ChartRow> := map[];
    var order: seq<int> := [];
    for i := 0 to |series|
      invariant Building(byTime, order, AllEntries(series[..i]))
    {
      var s := series[i];
      ghost var before := AllEntries(series[..i]);
      assert before + Entries(s)[..0] == before;
      for j := 0 to |s.points|
        invariant Building(byTime, order, before + Entries(s)[..j])
      {
        var point := s.points[j];
        OneMoreEntry(byTime, order, before + Entries(s)[..j], Entry(s.kind, point));
        NextEntry(before, s, j);
        var row := if point.t in byTime then byTime[point.t] else ChartRow(point.t, map[]);
        row := row.(values := row.values[s.kind := point.v]);
        order := if point.t in byTime then order else order + [point.t];
        byTime := byTime[point.t := row];
      }
      NextSeries(series, i);
    }
    assert series[..|series|] == series;
    assert forall t <- order :: t in byTime;
    var values := seq(|order|, i requires 0 <= i < |order| => assert order[i] in order; byTime[order[i]]);
    SortedValuesJoin(byTime, order, values, AllEntries(series));
    rows := SortRows(values);
  }

  lemma NextEntry(before: seq<Entry>, s: Series, j: nat)
    requires j < |s.points|
    ensures before + Entries(s)[..j] + [Entry(s.kind, s.points[j])] == before + Entries(s)[..j + 1]
  {
  }

  lemma NextSeries(series: seq<Series>, i: nat)
    requires i < |series|
    ensures AllEntries(series[..i]) + Entries(series[i])[..|series[i].points|] == AllEntries(series[..i + 1])
  {
    assert series[..i + 1][..i] == series[..i];
    assert Entries(series[i])[..|series[i].points|] == Entries(series[i]);
  }
}
