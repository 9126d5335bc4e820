/**
 * From a tenant's intervals to the problems a night files
 * (sweepTenant in packages/api/src/services/interval-coverage-sweep.service.ts).
 */
module CoverageSweep {
  import opened Common
  import opened IntervalCoverage
  import opened MissingReadings
  import opened ExceptionGrouping

  datatype Meter = Meter(meterId: string, rows: seq<Interval>)

  /** The rows that start inside the window. */
  function InWindow(rows: seq<Interval>, w: Window): seq<Interval> {
    if rows == [] then []
    else
      var row := rows[|rows| - 1];
      InWindow(rows[..|rows| - 1], w) + if w.Contains(row.start) then [row] else []
  }

  function DayProblems(rows: seq<Interval>, w: Window): seq<Problem> {
    Problems(rows, w) + MissingProblems(rows)
  }

  /** A meter that reported nothing in the window is not judged at all. */
  function MeterDay(m: Meter, w: Window): seq<Finding> {
    var rows := InWindow(m.rows, w);
    if rows == [] || DayProblems(rows, w) == [] then [] else [Finding(m.meterId, w, DayProblems(rows, w))]
  }

  function MeterDays(m: Meter, windows: seq<Window>): seq<Finding> {
    if windows == [] then []
    else MeterDays(m, windows[..|windows| - 1]) + MeterDay(m, windows[|windows| - 1])
  }

  function SweepTenant(meters: seq<Meter>, windows: seq<Window>): seq<Finding> {
    if meters == [] then []
    else SweepTenant(meters[..|meters| - 1], windows) + MeterDays(meters[|meters| - 1], windows)
  }

  /** The sweep's loops: each meter, each window, the two scans over the rows of that day. */
  method FindTenantProblems(meters: seq<Meter>, windows: seq<Window>) returns (findings: seq<Finding>)
    ensures findings == SweepTenant(meters, windows)
  {
    findings := [];
    for i := 0 to |meters|
      invariant findings == SweepTenant(meters[..i], windows)
    {
      assert meters[..i + 1][..i] == meters[..i];
      var found := FindMeterProblems(meters[i], windows);
      findings := findings + found;
    }
    assert meters[..|meters|] == meters;
  }

  method FindMeterProblems(m: Meter, windows: seq<Window>) returns (findings: seq<Finding>)
    ensures findings == MeterDays(m, windows)
  {
    findings := [];
    for j := 0 to |windows|
      invariant findings == MeterDays(m, windows[..j])
    {
      assert windows[..j + 1][..j] == windows[..j];
      assert MeterDays(m, windows[..j + 1]) == MeterDays(m, windows[..j]) + MeterDay(m, windows[j]);
      var inWindow := InWindow(m.rows, windows[j]);
      if inWindow != [] {
        var coverage := FindCoverageProblems(inWindow, windows[j]);
        var missing := FindMissingReadings(inWindow);
        if coverage + missing != [] {
          findings := findings + [Finding(m.meterId, windows[j], coverage + missing)];
        }
      }
    }
    assert windows[..|windows|] == windows;
  }

  lemma {:induction false} InWindowHas(rows: seq<Interval>, w: Window, r: Interval)
    ensures r in InWindow(rows, w) <==> r in rows && w.Contains(r.start)
  {
    if rows != [] {
      var n := |rows| - 1;
      InWindowHas(rows[..n], w, r);
      assert r in rows <==> r in rows[..n] || r == rows[n];
    }
  }

  lemma InWindowIs(rows: seq<Interval>, w: Window)
    ensures forall r :: r in InWindow(rows, w) <==> r in rows && w.Contains(r.start)
    ensures Sorted(rows) ==> Sorted(InWindow(rows, w))
  {
    forall r ensures r in InWindow(rows, w) <==> r in rows && w.Contains(r.start) { InWindowHas(rows, w, r); }
    if Sorted(rows) { InWindowSorted(rows, w); }
  }

  lemma {:induction false} InWindowSorted(rows: seq<Interval>, w: Window)
    requires Sorted(rows)
    ensures Sorted(InWindow(rows, w))
  {
    if rows != [] {
      var n := |rows| - 1;
      InWindowSorted(rows[..n], w);
      var before := InWindow(rows[..n], w);
      forall i | 0 <= i < |before| ensures before[i].start <= rows[n].start {
        InWindowHas(rows[..n], w, before[i]);
      }
    }
  }

  lemma {:induction false} MeterDaysIs(m: Meter, windows: seq<Window>)
    ensures forall f :: f in MeterDays(m, windows) <==> exists w :: w in windows && f in MeterDay(m, w)
  {
    if windows != [] {
      var n := |windows| - 1;
      MeterDaysIs(m, windows[..n]);
      assert forall w :: w in windows <==> w in windows[..n] || w == windows[n];
    }
  }

  lemma {:induction false} SweepTenantHas(meters: seq<Meter>, windows: seq<Window>, f: Finding)
    ensures f in SweepTenant(meters, windows) <==> exists m :: m in meters && f in MeterDays(m, windows)
  {
    hide MeterDays;
    if meters != [] {
      var n := |meters| - 1;
      SweepTenantHas(meters[..n], windows, f);
      if m :| m in meters[..n] && f in MeterDays(m, windows) { assert m in meters; }
      assert meters[n] in meters;
      if m :| m in meters && f in MeterDays(m, windows) && m != meters[n] { assert m in meters[..n]; }
    }
  }

  lemma SweepTenantIs(meters: seq<Meter>, windows: seq<Window>)
    ensures forall f :: f in SweepTenant(meters, windows) <==>
                        exists m, w :: m in meters && w in windows && f in MeterDay(m, w)
  {
    forall f
      ensures f in SweepTenant(meters, windows) <==> exists m, w :: m in meters && w in windows && f in MeterDay(m, w)
    {
      SweepTenantHas(meters, windows, f);
      forall m { MeterDaysIs(m, windows); }
    }
  }

  lemma {:induction false} FlattenIs(findings: seq<Finding>)
    ensures forall q :: q in Flatten(findings) <==>
                        exists f, p :: f in findings && p in f.problems && q == FileProblem(f, p)
  {
    if findings != [] {
      var n := |findings| - 1;
      FlattenIs(findings[..n]);
      assert forall f :: f in findings <==> f in findings[..n] || f == findings[n];
      var last := findings[n];
      var filed := FileProblems(last, |last.problems|);
      forall q ensures q in filed <==> exists p :: p in last.problems && q == FileProblem(last, p) {
        if p :| p in last.problems && q == FileProblem(last, p) {
          var i :| 0 <= i < |last.problems| && last.problems[i] == p;
          assert filed[i] == q;
        }
        if q in filed {
          var i :| 0 <= i < |filed| && filed[i] == q;
          assert last.problems[i] in last.problems;
        }
      }
    }
  }

  /** A problem of any kind is on tonight's list for this meter and this window. */
  ghost predicate Reported(meters: seq<Meter>, windows: seq<Window>, meterId: string, windowStart: int) {
    exists q ::
      q in Flatten(SweepTenant(meters, windows)) && q.key.meterId == meterId && q.key.windowStart == windowStart
  }

  ghost predicate DistinctInputs(meters: seq<Meter>, windows: seq<Window>) {
    && (forall m, n :: m in meters && n in meters && m.meterId == n.meterId ==> m == n)
    && (forall v, w :: v in windows && w in windows && v.startDate == w.startDate ==> v == w)
  }

  lemma MeterDayIsFiled(meters: seq<Meter>, windows: seq<Window>, m: Meter, w: Window)
    requires m in meters && w in windows && MeterDay(m, w) != []
    ensures Reported(meters, windows, m.meterId, w.startDate)
  {
    SweepTenantIs(meters, windows);
    FlattenIs(SweepTenant(meters, windows));
    var f := MeterDay(m, w)[0];
    assert f in MeterDay(m, w);
    var p := f.problems[0];
    assert p in f.problems;
    assert FileProblem(f, p) in Flatten(SweepTenant(meters, windows));
  }

  lemma FiledComesFromFinding(findings: seq<Finding>, q: Filed) returns (f: Finding)
    requires q in Flatten(findings)
    ensures f in findings
    ensures q.key.meterId == f.meterId && q.key.windowStart == f.window.startDate && q.windowEnd == f.window.endDate
  {
    FlattenIs(findings);
    var g, p :| g in findings && p in g.problems && q == FileProblem(g, p);
    f := g;
  }

  lemma MeterDayShape(m: Meter, w: Window, f: Finding)
    requires f in MeterDay(m, w)
    ensures f.meterId == m.meterId && f.window == w && MeterDay(m, w) != []
  {}

  lemma FindingComesFromMeterDay(meters: seq<Meter>, windows: seq<Window>, f: Finding) returns (m: Meter, w: Window)
    requires f in SweepTenant(meters, windows)
    ensures m in meters && w in windows && f in MeterDay(m, w)
  {
    SweepTenantIs(meters, windows);
    m, w :| m in meters && w in windows && f in MeterDay(m, w);
  }

  lemma FiledComesFromMeterDay(meters: seq<Meter>, windows: seq<Window>, q: Filed) returns (m: Meter, w: Window)
    requires q in Flatten(SweepTenant(meters, windows))
    ensures m in meters && w in windows && MeterDay(m, w) != []
    ensures q.key.meterId == m.meterId && q.key.windowStart == w.startDate && q.windowEnd == w.endDate
  {
    var f := FiledComesFromFinding(SweepTenant(meters, windows), q);
    m, w := FindingComesFromMeterDay(meters, windows, f);
    MeterDayShape(m, w, f);
  }

  lemma ReportedIsMeterDay(meters: seq<Meter>, windows: seq<Window>, m: Meter, w: Window)
    requires DistinctInputs(meters, windows) && m in meters && w in windows
    ensures Reported(meters, windows, m.meterId, w.startDate) <==> MeterDay(m, w) != []
  {
    if MeterDay(m, w) != [] { MeterDayIsFiled(meters, windows, m, w); }
    if Reported(meters, windows, m.meterId, w.startDate) {
      var q :| q in Flatten(SweepTenant(meters, windows))
               && q.key.meterId == m.meterId && q.key.windowStart == w.startDate;
      var m', w' := FiledComesFromMeterDay(meters, windows, q);
      assert m' == m && w' == w;
    }
  }

  lemma NoProblemsMeansWhole(rows: seq<Interval>, w: Window)
    requires Sorted(rows) && PositiveLengths(rows) && w.startDate <= w.endDate
    ensures DayProblems(rows, w) == [] <==> Tiles(rows, w) && forall r :: r in rows ==> r.quality != "missing"
  {
    EmptyReportIffTiling(rows, w);
    RunsAreTheMaximalOnes(rows);
    if MissingProblems(rows) == [] {
      forall r | r in rows ensures r.quality != "missing" {
        var i :| 0 <= i < |rows| && rows[i] == r;
        if r.Missing() { MissingRowsAreInRuns(rows, i); }
      }
    } else {
      var run := Runs(rows)[0];
      assert run in Runs(rows) && MaximalRun(rows, run);
      assert rows[run.lo] in rows && rows[run.lo].Missing();
    }
  }

  /**
   * Main result, a whole night: a meter's day goes unreported exactly when its
   * intervals tile the window with a value in each, or when it sent none at all.
   */
  lemma UnreportedExactlyWhenWholeOrSilent(meters: seq<Meter>, windows: seq<Window>, m: Meter, w: Window)
    requires DistinctInputs(meters, windows) && m in meters && w in windows && w.startDate <= w.endDate
    requires Sorted(m.rows) && PositiveLengths(m.rows)
    ensures var rows := InWindow(m.rows, w);
            !Reported(meters, windows, m.meterId, w.startDate) <==>
            rows == [] || (Tiles(rows, w) && forall r :: r in rows ==> r.quality != "missing")
  {
    var rows := InWindow(m.rows, w);
    InWindowIs(m.rows, w);
    forall i | 0 <= i < |rows| ensures rows[i].lengthMinutes > 0 { assert rows[i] in rows; }
    ReportedIsMeterDay(meters, windows, m, w);
    NoProblemsMeansWhole(rows, w);
  }

  /** Everything filed belongs to a swept window, as reconciliation assumes. */
  lemma FiledUnderSweptWindows(meters: seq<Meter>, windows: seq<Window>, q: Filed)
    requires q in Flatten(SweepTenant(meters, windows))
    ensures exists w :: w in windows && w.startDate == q.key.windowStart && w.endDate == q.windowEnd
  {
    var _, _ := FiledComesFromMeterDay(meters, windows, q);
  }

  // ---------------------------------------------------------------- the seed's hourly grid

  /** The instants start, start + 1h, ... below `end`, as the seed's for loop visits them. */
  function HourlyGrid(start: int, end: int): seq<Interval>
    decreases end - start
  {
    if start >= end then [] else [Interval(start, 60, "actual")] + HourlyGrid(start + HOUR_MS, end)
  }

  method SeedHourlyIntervals(w: Window) returns (rows: seq<Interval>)
    ensures rows == HourlyGrid(w.startDate, w.endDate)
  {
    rows := [];
    var at := w.startDate;
    while at < w.endDate
      invariant rows + HourlyGrid(at, w.endDate) == HourlyGrid(w.startDate, w.endDate)
      decreases w.endDate - at
    {
      rows := rows + [Interval(at, 60, "actual")];
      at := at + HOUR_MS;
    }
  }

  lemma FirstHour(start: int)
    ensures var first := [Interval(start, 60, "actual")];
            Reach(first, start) == start + HOUR_MS && RowProblems(first, start) == []
  {
    assert [Interval(start, 60, "actual")][..0] == [];
  }

  lemma {:induction false} GridScan(start: int, end: int)
    ensures RowProblems(HourlyGrid(start, end), start) == []
    ensures Reach(HourlyGrid(start, end), start) == start + HOUR_MS * |HourlyGrid(start, end)|
    ensures start < end ==> end <= Reach(HourlyGrid(start, end), start) < end + HOUR_MS
    decreases end - start
  {
    if start < end {
      FirstHour(start);
      GridScan(start + HOUR_MS, end);
      ScanComposes([Interval(start, 60, "actual")], HourlyGrid(start + HOUR_MS, end), start);
    }
  }

  /** Every row of the grid is an hour long, begins a whole number of hours after the start, and has its value. */
  lemma {:induction false} GridRows(start: int, end: int, i: nat)
    requires i < |HourlyGrid(start, end)|
    ensures var row := HourlyGrid(start, end)[i];
            row.start == start + i * 3_600_000 < end && row.lengthMinutes == 60 && row.quality == "actual"
    decreases end - start
  {
    if i > 0 { GridRows(start + HOUR_MS, end, i - 1); }
  }

  /** Main result: the seed's grid tiles its window exactly when the window is whole hours long. */
  lemma GridTilesWholeHours(w: Window)
    requires w.startDate <= w.endDate
    ensures Problems(HourlyGrid(w.startDate, w.endDate), w) == [] <==> (w.endDate - w.startDate) % HOUR_MS == 0
  {
    GridScan(w.startDate, w.endDate);
  }
}
