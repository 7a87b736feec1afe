/** The two date-keyed chart series. The line/area chart re-groups the daily
    (date, model) compliance rows by date alone and sums them; the bar chart
    lays the daily (date, model) volumes out as a date x model matrix in
    which every model has a cell on every date, zero where nothing was used.
    Both come out sorted by date. */
module DailyCharts {
  import opened Grouping
  import opened Usage
  import opened Ordering

  /** One row of the daily aggregation: a (date, model) pair and its split. */
  datatype DailyCompliance = DailyCompliance(date: string, model: string, compliantRequests: real, exceedingRequests: real)

  /** One row of the daily per-model volume: a (date, model) pair and its total. */
  datatype DailyVolume = DailyVolume(date: string, model: string, requests: real)

  /** One point of the compliant/exceeding chart. */
  datatype ChartPoint = ChartPoint(date: string, compliant: real, exceeding: real)

  /** One bar group: a date and a value for every model name. */
  datatype BarRow = BarRow(date: string, values: map<string, real>)

  function RowDate(r: DailyCompliance): string { r.date }
  function RowCompliant(r: DailyCompliance): real { r.compliantRequests }
  function RowExceeding(r: DailyCompliance): real { r.exceedingRequests }
  function PointDate(p: ChartPoint): string { p.date }
  function PointCompliant(p: ChartPoint): real { p.compliant }
  function PointExceeding(p: ChartPoint): real { p.exceeding }

  /** The point a date accumulates over `rows`, read left to right: zero
      until the first row of that date, then growing by each such row's split. */
  function DayPoint(rows: seq<DailyCompliance>, d: string): (p: ChartPoint)
    ensures p.date == d
  {
    if |rows| == 0 then ChartPoint(d, 0.0, 0.0)
    else
      var p := DayPoint(rows[..|rows| - 1], d);
      var item := rows[|rows| - 1];
      if item.date == d then ChartPoint(d, p.compliant + item.compliantRequests, p.exceeding + item.exceedingRequests)
      else p
  }

  /** The accumulated point of a date is the pair of sums over exactly the
      rows of that date. */
  lemma {:induction false} DayPointIsGroupSum(rows: seq<DailyCompliance>, d: string)
    ensures DayPoint(rows, d).compliant == Total(Where(rows, RowDate, d), RowCompliant)
    ensures DayPoint(rows, d).exceeding == Total(Where(rows, RowDate, d), RowExceeding)
  {
    if |rows| > 0 {
      var init := rows[..|rows| - 1];
      var item := rows[|rows| - 1];
      assert rows == init + [item];
      DayPointIsGroupSum(init, d);
      WhereAppend(init, [item], RowDate, d);
      TotalAppend(Where(init, RowDate, d), Where([item], RowDate, d), RowCompliant);
      TotalAppend(Where(init, RowDate, d), Where([item], RowDate, d), RowExceeding);
    }
  }

  /** Folds one row into the grouping: a date met for the first time is
      appended to the date list and starts from zero; its sums grow by the
      row's split. */
  function Accumulate(g: (seq<string>, map<string, ChartPoint>), item: DailyCompliance): (seq<string>, map<string, ChartPoint>)
  {
    var prev := if item.date in g.1 then g.1[item.date] else ChartPoint(item.date, 0.0, 0.0);
    var keys := if item.date in g.1 then g.0 else g.0 + [item.date];
    (keys, g.1[item.date := ChartPoint(item.date, prev.compliant + item.compliantRequests,
                                                  prev.exceeding + item.exceedingRequests)])
  }

  /** The accumulation pass over the rows in order: the dates in the order
      they were first met, each once, and for each the sums of its rows. */
  function GroupByDate(rows: seq<DailyCompliance>): (g: (seq<string>, map<string, ChartPoint>))
    ensures NoDuplicates(g.0)
    ensures forall i :: 0 <= i < |g.0| ==> g.0[i] in g.1
    ensures forall d :: d in g.1 ==> d in g.0
    ensures forall i :: 0 <= i < |g.0| ==> g.0[i] in Project(rows, RowDate)
    ensures forall j :: 0 <= j < |rows| ==> rows[j].date in g.0
    ensures forall d :: d in g.1 ==> g.1[d] == DayPoint(rows, d)
  {
    if |rows| == 0 then ([], map[])
    else
      var g0 := GroupByDate(rows[..|rows| - 1]);
      StepKeys(g0, rows[|rows| - 1]);
      StepCoverage(rows, g0);
      StepSums(rows, g0);
      Accumulate(g0, rows[|rows| - 1])
  }

  lemma StepKeys(g: (seq<string>, map<string, ChartPoint>), item: DailyCompliance)
    requires NoDuplicates(g.0)
    requires forall i :: 0 <= i < |g.0| ==> g.0[i] in g.1
    requires forall d :: d in g.1 ==> d in g.0
    ensures var g' := Accumulate(g, item);
      && NoDuplicates(g'.0)
      && (forall i :: 0 <= i < |g'.0| ==> g'.0[i] in g'.1)
      && (forall d :: d in g'.1 ==> d in g'.0)
  {
    var keys := Accumulate(g, item).0;
    if item.date !in g.1 {
      assert forall i :: 0 <= i < |g.0| ==> g.0[i] != item.date;
      assert forall i :: 0 <= i < |g.0| ==> keys[i] == g.0[i];
      forall d | d in g.1 ensures d in keys {
        var i :| 0 <= i < |g.0| && g.0[i] == d;
        assert keys[i] == d;
      }
    }
  }

  lemma StepCoverage(rows: seq<DailyCompliance>, g: (seq<string>, map<string, ChartPoint>))
    requires |rows| > 0
    requires forall i :: 0 <= i < |g.0| ==> g.0[i] in Project(rows[..|rows| - 1], RowDate)
    requires forall j :: 0 <= j < |rows| - 1 ==> rows[j].date in g.0
    requires forall d :: d in g.1 ==> d in g.0
    ensures var keys := Accumulate(g, rows[|rows| - 1]).0;
      && (forall i :: 0 <= i < |keys| ==> keys[i] in Project(rows, RowDate))
      && (forall j :: 0 <= j < |rows| ==> rows[j].date in keys)
  {
    var init := rows[..|rows| - 1];
    var item := rows[|rows| - 1];
    assert rows == init + [item];
    var keys := Accumulate(g, item).0;
    ProjectSnoc(init, item, RowDate);
    forall i | 0 <= i < |keys| ensures keys[i] in Project(rows, RowDate) {
      if i < |g.0| {
        assert keys[i] == g.0[i];
        assert g.0[i] in Project(init, RowDate);
      }
    }
    forall j | 0 <= j < |rows| ensures rows[j].date in keys {
      var d := rows[j].date;
      if j < |init| || d in g.1 {
        assert d in g.0;
        var i :| 0 <= i < |g.0| && g.0[i] == d;
        assert keys[i] == g.0[i];
      }
    }
  }

  lemma StepSums(rows: seq<DailyCompliance>, g: (seq<string>, map<string, ChartPoint>))
    requires |rows| > 0
    requires forall j :: 0 <= j < |rows| - 1 ==> rows[j].date in g.0
    requires forall i :: 0 <= i < |g.0| ==> g.0[i] in g.1
    requires forall d :: d in g.1 ==> g.1[d] == DayPoint(rows[..|rows| - 1], d)
    ensures var m := Accumulate(g, rows[|rows| - 1]).1;
      forall d :: d in m ==> m[d] == DayPoint(rows, d)
  {
    var init := rows[..|rows| - 1];
    var item := rows[|rows| - 1];
    var m := Accumulate(g, item).1;
    if item.date !in g.1 {
      forall j | 0 <= j < |init| ensures init[j].date != item.date {
        assert init[j] == rows[j];
        var i :| 0 <= i < |g.0| && g.0[i] == init[j].date;
      }
      FreshDatePointIsZero(init, item.date);
    }
    forall d | d in m ensures m[d] == DayPoint(rows, d) {
      StepSumAt(rows, g, d);
    }
  }

  lemma StepSumAt(rows: seq<DailyCompliance>, g: (seq<string>, map<string, ChartPoint>), d: string)
    requires |rows| > 0
    requires forall d :: d in g.1 ==> g.1[d] == DayPoint(rows[..|rows| - 1], d)
    requires rows[|rows| - 1].date !in g.1 ==> DayPoint(rows[..|rows| - 1], rows[|rows| - 1].date) == ChartPoint(rows[|rows| - 1].date, 0.0, 0.0)
    requires d in Accumulate(g, rows[|rows| - 1]).1
    ensures Accumulate(g, rows[|rows| - 1]).1[d] == DayPoint(rows, d)
  {
    var init := rows[..|rows| - 1];
    var item := rows[|rows| - 1];
    var m := Accumulate(g, item).1;
    var prev := if item.date in g.1 then g.1[item.date] else ChartPoint(item.date, 0.0, 0.0);
    if d == item.date {
      assert prev == DayPoint(init, d);
      assert m[d] == ChartPoint(d, prev.compliant + item.compliantRequests, prev.exceeding + item.exceedingRequests);
    } else {
      assert m[d] == g.1[d];
    }
  }

  lemma {:induction false} FreshDatePointIsZero(rows: seq<DailyCompliance>, d: string)
    requires forall j :: 0 <= j < |rows| ==> rows[j].date != d
    ensures DayPoint(rows, d) == ChartPoint(d, 0.0, 0.0)
  {
    if |rows| > 0 {
      FreshDatePointIsZero(rows[..|rows| - 1], d);
    }
  }

  /** The chart series: nothing for no rows; otherwise one point per
      distinct date, carrying the sums over all rows of that date, in
      ascending date order. */
  function ChartData(rows: seq<DailyCompliance>): (r: seq<ChartPoint>)
    ensures |rows| == 0 ==> r == []
    ensures Ascending(r, PointDate)
    ensures forall i :: 0 <= i < |r| ==> r[i].date in Project(rows, RowDate)
    ensures forall j :: 0 <= j < |rows| ==> rows[j].date in Project(r, PointDate)
    ensures forall i :: 0 <= i < |r| ==> r[i] == DayPoint(rows, r[i].date)
  {
    if |rows| == 0 then []
    else
      var g := GroupByDate(rows);
      var pts := seq(|g.0|, i requires 0 <= i < |g.0| => g.1[g.0[i]]);
      assert Project(pts, PointDate) == g.0;
      var r := SortByKey(pts, PointDate);
      SortedPointsFacts(rows, g.0, pts, r);
      r
  }

  lemma SortedPointsFacts(rows: seq<DailyCompliance>, keys: seq<string>, pts: seq<ChartPoint>, r: seq<ChartPoint>)
    requires forall i :: 0 <= i < |keys| ==> keys[i] in Project(rows, RowDate)
    requires forall j :: 0 <= j < |rows| ==> rows[j].date in keys
    requires |pts| == |keys|
    requires forall i :: 0 <= i < |pts| ==> pts[i] == DayPoint(rows, keys[i])
    requires multiset(r) == multiset(pts)
    ensures forall i :: 0 <= i < |r| ==> r[i].date in Project(rows, RowDate)
    ensures forall j :: 0 <= j < |rows| ==> rows[j].date in Project(r, PointDate)
    ensures forall i :: 0 <= i < |r| ==> r[i] == DayPoint(rows, r[i].date)
  {
    forall i | 0 <= i < |r| ensures r[i].date in Project(rows, RowDate) && r[i] == DayPoint(rows, r[i].date) {
      assert r[i] in multiset(pts);
      var q :| 0 <= q < |pts| && pts[q] == r[i];
      assert keys[q] in Project(rows, RowDate);
    }
    forall j | 0 <= j < |rows| ensures rows[j].date in Project(r, PointDate) {
      var q :| 0 <= q < |keys| && keys[q] == rows[j].date;
      assert pts[q] in multiset(r);
      var i :| 0 <= i < |r| && r[i] == pts[q];
      assert Project(r, PointDate)[i] == rows[j].date;
    }
  }

  /** Conservation: the chart shows exactly the compliant and exceeding
      volume of its input, nothing lost or counted twice. */
  lemma ChartConservesTotals(rows: seq<DailyCompliance>)
    ensures Total(ChartData(rows), PointCompliant) == Total(rows, RowCompliant)
    ensures Total(ChartData(rows), PointExceeding) == Total(rows, RowExceeding)
  {
    if |rows| > 0 {
      var g := GroupByDate(rows);
      var pts := seq(|g.0|, i requires 0 <= i < |g.0| => g.1[g.0[i]]);
      var r := ChartData(rows);
      assert multiset(r) == multiset(pts);
      TotalPermutation(r, pts, PointCompliant);
      TotalPermutation(r, pts, PointExceeding);
      forall i | 0 <= i < |g.0|
        ensures PointCompliant(pts[i]) == Total(Where(rows, RowDate, g.0[i]), RowCompliant)
        ensures PointExceeding(pts[i]) == Total(Where(rows, RowDate, g.0[i]), RowExceeding)
      {
        DayPointIsGroupSum(rows, g.0[i]);
      }
      TotalOfGroups(rows, RowDate, g.0, RowCompliant, pts, PointCompliant);
      TotalOfGroups(rows, RowDate, g.0, RowExceeding, pts, PointExceeding);
      PartitionTotal(rows, RowDate, g.0, RowCompliant);
      PartitionTotal(rows, RowDate, g.0, RowExceeding);
    }
  }

  function VolumeDate(v: DailyVolume): string { v.date }
  function BarDate(b: BarRow): string { b.date }

  /** Entry `e` writes the cell of model `m` on date `d`. */
  predicate Writes(e: DailyVolume, d: string, m: string)
  {
    e.date == d && e.model == m
  }

  /** What the bar chart must show for model `m` on date `d`: 0 when no entry
      writes that cell, otherwise the volume of the last entry that does. */
  ghost predicate IsCellValue(entries: seq<DailyVolume>, d: string, m: string, v: real)
  {
    && ((forall k :: 0 <= k < |entries| ==> !Writes(entries[k], d, m)) ==> v == 0.0)
    && (forall k :: LastWriter(entries, k, d, m) ==> v == entries[k].requests)
  }

  /** Entry `k` writes the cell (d, m) and no later entry does. */
  ghost predicate LastWriter(entries: seq<DailyVolume>, k: int, d: string, m: string)
  {
    && 0 <= k < |entries|
    && Writes(entries[k], d, m)
    && (forall k' :: k < k' < |entries| ==> !Writes(entries[k'], d, m))
  }

  /** Every model named by some entry. */
  function ModelNames(entries: seq<DailyVolume>): (ms: set<string>)
    ensures forall k :: 0 <= k < |entries| ==> entries[k].model in ms
    ensures forall m :: m in ms ==> exists k :: 0 <= k < |entries| && entries[k].model == m
  {
    set k | 0 <= k < |entries| :: entries[k].model
  }

  /** The starting matrix: a row for each of `dates`, every model named by
      the entries at 0 in every row. */
  function StartGrid(entries: seq<DailyVolume>, dates: seq<string>): (g: map<string, map<string, real>>)
    requires forall k :: 0 <= k < |entries| ==> entries[k].date in dates
    ensures forall d :: d in g <==> d in dates
    ensures forall d :: d in g ==> g[d].Keys == ModelNames(entries)
    ensures forall d, m :: d in g && m in g[d] ==> g[d][m] == 0.0
    ensures forall k :: 0 <= k < |entries| ==> entries[k].date in g && entries[k].model in g[entries[k].date]
  {
    var models := ModelNames(entries);
    map d | d in dates :: map m | m in models :: 0.0
  }

  /** The fill pass: each entry, in order, sets its (date, model) cell to its
      volume, so a later entry for the same cell overwrites an earlier one. */
  function FillGrid(entries: seq<DailyVolume>, grid: map<string, map<string, real>>): (g: map<string, map<string, real>>)
    requires forall k :: 0 <= k < |entries| ==> entries[k].date in grid && entries[k].model in grid[entries[k].date]
    ensures g.Keys == grid.Keys
    ensures forall d :: d in g ==> g[d].Keys == grid[d].Keys
  {
    if |entries| == 0 then grid
    else
      var g := FillGrid(entries[..|entries| - 1], grid);
      var e := entries[|entries| - 1];
      g[e.date := g[e.date][e.model := e.requests]]
  }

  /** The reference value of a cell, read from the back: the volume of the
      last entry writing it, or `base` when no entry does. */
  function LastWrite(entries: seq<DailyVolume>, d: string, m: string, base: real): real
  {
    if |entries| == 0 then base
    else if Writes(entries[|entries| - 1], d, m) then entries[|entries| - 1].requests
    else LastWrite(entries[..|entries| - 1], d, m, base)
  }

  /** After the fill pass every cell holds the last write to it over its
      starting value. */
  lemma {:induction false} FillGridCell(entries: seq<DailyVolume>, grid: map<string, map<string, real>>, d: string, m: string)
    requires forall k :: 0 <= k < |entries| ==> entries[k].date in grid && entries[k].model in grid[entries[k].date]
    requires d in grid && m in grid[d]
    ensures FillGrid(entries, grid)[d][m] == LastWrite(entries, d, m, grid[d][m])
  {
    if |entries| > 0 {
      FillGridCell(entries[..|entries| - 1], grid, d, m);
    }
  }

  /** The last write is what the chart must show: 0 (from a zero start) when
      no entry writes the cell, otherwise the volume of the last entry that does. */
  lemma {:induction false} LastWriteWins(entries: seq<DailyVolume>, d: string, m: string)
    ensures IsCellValue(entries, d, m, LastWrite(entries, d, m, 0.0))
  {
    if |entries| > 0 {
      var init := entries[..|entries| - 1];
      if Writes(entries[|entries| - 1], d, m) {
        OnlyTheLastIsLastWriter(entries, d, m);
      } else {
        LastWriteWins(init, d, m);
        SkippedEntryKeepsCell(entries, d, m, LastWrite(init, d, m, 0.0));
      }
    }
  }

  lemma OnlyTheLastIsLastWriter(entries: seq<DailyVolume>, d: string, m: string)
    requires |entries| > 0 && Writes(entries[|entries| - 1], d, m)
    ensures forall k :: LastWriter(entries, k, d, m) ==> k == |entries| - 1
  {
  }

  /** A last entry that does not write the cell leaves its prescribed value as it was. */
  lemma SkippedEntryKeepsCell(entries: seq<DailyVolume>, d: string, m: string, v: real)
    requires |entries| > 0 && !Writes(entries[|entries| - 1], d, m)
    requires IsCellValue(entries[..|entries| - 1], d, m, v)
    ensures IsCellValue(entries, d, m, v)
  {
    var init := entries[..|entries| - 1];
    assert forall k :: 0 <= k < |init| ==> init[k] == entries[k];
    forall k | LastWriter(entries, k, d, m) ensures LastWriter(init, k, d, m) {
    }
  }

  /** The bar chart series: nothing for no entries; otherwise one row per
      distinct date, in ascending date order, whose values name every model
      seen on any date and hold the last volume written to that cell (0 if
      none). */
  function BarChartData(entries: seq<DailyVolume>): (r: seq<BarRow>)
    ensures |entries| == 0 ==> r == []
    ensures Ascending(r, BarDate)
    ensures forall i :: 0 <= i < |r| ==> r[i].date in Project(entries, VolumeDate)
    ensures forall j :: 0 <= j < |entries| ==> entries[j].date in Project(r, BarDate)
    ensures forall i :: 0 <= i < |r| ==> r[i].values.Keys == ModelNames(entries)
    ensures forall i, m :: 0 <= i < |r| && m in r[i].values ==> r[i].values[m] == LastWrite(entries, r[i].date, m, 0.0)
  {
    if |entries| == 0 then []
    else
      var dates := Distinct(Project(entries, VolumeDate));
      DatesCoverEntries(entries, dates);
      var grid := StartGrid(entries, dates);
      var rows := BarRows(dates, FillGrid(entries, grid));
      var r := SortByKey(rows, BarDate);
      BarRowsFacts(entries, dates, grid, rows, r);
      r
  }

  lemma DatesCoverEntries(entries: seq<DailyVolume>, dates: seq<string>)
    requires dates == Distinct(Project(entries, VolumeDate))
    ensures forall k :: 0 <= k < |entries| ==> entries[k].date in dates
    ensures NoDuplicates(dates)
    ensures forall i :: 0 <= i < |dates| ==> dates[i] in Project(entries, VolumeDate)
  {
    assert forall k :: 0 <= k < |entries| ==> Project(entries, VolumeDate)[k] == entries[k].date;
  }

  /** One row per date, carrying that date's filled values. */
  function BarRows(dates: seq<string>, g: map<string, map<string, real>>): (rows: seq<BarRow>)
    requires forall i :: 0 <= i < |dates| ==> dates[i] in g
    ensures |rows| == |dates|
    ensures forall i :: 0 <= i < |rows| ==> rows[i] == BarRow(dates[i], g[dates[i]])
    ensures Project(rows, BarDate) == dates
  {
    var rows := seq(|dates|, i requires 0 <= i < |dates| => BarRow(dates[i], g[dates[i]]));
    assert forall i :: 0 <= i < |rows| ==> Project(rows, BarDate)[i] == dates[i];
    rows
  }

  lemma BarRowsFacts(entries: seq<DailyVolume>, dates: seq<string>, grid: map<string, map<string, real>>,
                     rows: seq<BarRow>, r: seq<BarRow>)
    requires forall k :: 0 <= k < |entries| ==> entries[k].date in dates
    requires forall i :: 0 <= i < |dates| ==> dates[i] in Project(entries, VolumeDate)
    requires forall d :: d in grid <==> d in dates
    requires forall d :: d in grid ==> grid[d].Keys == ModelNames(entries)
    requires forall d, m :: d in grid && m in grid[d] ==> grid[d][m] == 0.0
    requires forall k :: 0 <= k < |entries| ==> entries[k].date in grid && entries[k].model in grid[entries[k].date]
    requires |rows| == |dates|
    requires forall i :: 0 <= i < |rows| ==> rows[i] == BarRow(dates[i], FillGrid(entries, grid)[dates[i]])
    requires multiset(r) == multiset(rows)
    ensures forall i :: 0 <= i < |r| ==> r[i].date in Project(entries, VolumeDate)
    ensures forall j :: 0 <= j < |entries| ==> entries[j].date in Project(r, BarDate)
    ensures forall i :: 0 <= i < |r| ==> r[i].values.Keys == ModelNames(entries)
    ensures forall i, m :: 0 <= i < |r| && m in r[i].values ==> r[i].values[m] == LastWrite(entries, r[i].date, m, 0.0)
  {
    forall i | 0 <= i < |r|
      ensures r[i].date in Project(entries, VolumeDate)
      ensures r[i].values.Keys == ModelNames(entries)
      ensures forall m :: m in r[i].values ==> r[i].values[m] == LastWrite(entries, r[i].date, m, 0.0)
    {
      assert r[i] in multiset(rows);
      var q :| 0 <= q < |rows| && rows[q] == r[i];
      var d := dates[q];
      assert d in grid;
      forall m | m in r[i].values ensures r[i].values[m] == LastWrite(entries, d, m, 0.0) {
        FillGridCell(entries, grid, d, m);
      }
    }
    forall j | 0 <= j < |entries| ensures entries[j].date in Project(r, BarDate) {
      assert Project(entries, VolumeDate)[j] == entries[j].date;
      var q :| 0 <= q < |dates| && dates[q] == entries[j].date;
      assert rows[q] in multiset(r);
      var i :| 0 <= i < |r| && r[i] == rows[q];
      assert Project(r, BarDate)[i] == entries[j].date;
    }
  }

  /** Every cell of the bar chart holds what it must show: 0 where no entry
      names that date and model, otherwise the volume of the last such entry. */
  lemma BarCellsAsPrescribed(entries: seq<DailyVolume>)
    ensures var r := BarChartData(entries);
      forall i, m :: 0 <= i < |r| && m in r[i].values ==> IsCellValue(entries, r[i].date, m, r[i].values[m])
  {
    var r := BarChartData(entries);
    forall i, m | 0 <= i < |r| && m in r[i].values
      ensures IsCellValue(entries, r[i].date, m, r[i].values[m])
    {
      LastWriteWins(entries, r[i].date, m);
    }
  }
}
