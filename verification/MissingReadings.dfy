/**
 * Runs of intervals the meter reported no value for
 * (findMissingReadings in packages/api/src/lib/interval-coverage.ts).
 */
module MissingReadings {
  import opened Common
  import opened IntervalCoverage

  /** Rows lo, lo + 1, ..., hi - 1. */
  datatype Run = Run(lo: nat, hi: nat)

  datatype OpenRun = NoRun | OpenRun(startsAt: int, minutes: int)

  ghost predicate InBounds(rows: seq<Interval>, runs: seq<Run>) {
    forall k :: 0 <= k < |runs| ==> runs[k].lo < runs[k].hi <= |rows|
  }

  /** Row `n` extends the run that ends at it, or starts one, or is not missing at all. */
  function Extend(before: seq<Run>, n: nat, missing: bool): seq<Run> {
    if !missing then before
    else if before != [] && before[|before| - 1].hi == n then
      before[..|before| - 1] + [Run(before[|before| - 1].lo, n + 1)]
    else before + [Run(n, n + 1)]
  }

  function Runs(rows: seq<Interval>): (runs: seq<Run>)
    ensures InBounds(rows, runs)
  {
    if rows == [] then []
    else
      var n := |rows| - 1;
      Extend(Runs(rows[..n]), n, rows[n].Missing())
  }

  function ReadingProblem(startsAt: int, minutes: int): Problem {
    Problem(MissingReading, startsAt, minutes, Sentence(NoValueReported, startsAt, minutes))
  }

  function RunProblem(rows: seq<Interval>, run: Run): Problem
    requires run.lo < run.hi <= |rows|
  {
    ReadingProblem(rows[run.lo].start, SumLengths(rows[run.lo..run.hi]))
  }

  function MissingProblems(rows: seq<Interval>): seq<Problem> {
    var runs := Runs(rows);
    seq(|runs|, k requires 0 <= k < |runs| => RunProblem(rows, runs[k]))
  }

  /** The open run a scan of `rows` is left with. */
  function Pending(rows: seq<Interval>): OpenRun {
    var runs := Runs(rows);
    if runs != [] && runs[|runs| - 1].hi == |rows| then
      var p := RunProblem(rows, runs[|runs| - 1]);
      OpenRun(p.startsAt, p.minutes)
    else NoRun
  }

  function Close(run: OpenRun): seq<Problem> {
    if run.NoRun? then [] else [ReadingProblem(run.startsAt, run.minutes)]
  }

  lemma RunProblemStable(rows: seq<Interval>, run: Run)
    requires rows != [] && run.lo < run.hi < |rows|
    ensures RunProblem(rows[..|rows| - 1], run) == RunProblem(rows, run)
  {
    assert rows[..|rows| - 1][run.lo..run.hi] == rows[run.lo..run.hi];
  }

  lemma RunProblemGrows(rows: seq<Interval>, lo: nat)
    requires lo < |rows|
    ensures var n := |rows| - 1;
            RunProblem(rows, Run(lo, n + 1)) ==
            if lo == n then ReadingProblem(rows[n].start, rows[n].lengthMinutes)
            else ReadingProblem(rows[lo].start, RunProblem(rows[..n], Run(lo, n)).minutes + rows[n].lengthMinutes)
  {
    var n := |rows| - 1;
    var part := rows[lo..n + 1];
    assert part[|part| - 1] == rows[n] && part[..|part| - 1] == rows[..n][lo..n];
    if lo == n {
      assert part == [rows[n]] && part[..|part| - 1] == [];
      assert SumLengths(part) == rows[n].lengthMinutes;
    } else {
      assert SumLengths(part) == SumLengths(rows[..n][lo..n]) + rows[n].lengthMinutes;
    }
  }

  /** One more row leaves the problems of the runs it does not extend as they were. */
  lemma ProblemsKept(rows: seq<Interval>, m: nat)
    requires rows != []
    requires m <= |Runs(rows[..|rows| - 1])| && m <= |Runs(rows)|
    requires forall k :: 0 <= k < m ==> Runs(rows)[k] == Runs(rows[..|rows| - 1])[k]
    ensures MissingProblems(rows)[..m] == MissingProblems(rows[..|rows| - 1])[..m]
  {
    forall k | 0 <= k < m ensures MissingProblems(rows)[k] == MissingProblems(rows[..|rows| - 1])[k] {
      RunProblemStable(rows, Runs(rows)[k]);
    }
  }

  lemma PendingIsLast(rows: seq<Interval>)
    ensures var run, all := Pending(rows), MissingProblems(rows);
            run.OpenRun? ==> all != [] && Close(run) == [all[|all| - 1]]
  {}

  lemma PendingGrows(rows: seq<Interval>)
    requires rows != [] && rows[|rows| - 1].Missing()
    ensures var row := rows[|rows| - 1];
            var run := Pending(rows[..|rows| - 1]);
            Pending(rows) == if run.OpenRun? then OpenRun(run.startsAt, run.minutes + row.lengthMinutes)
                             else OpenRun(row.start, row.lengthMinutes)
  {
    var n := |rows| - 1;
    var before, after := Runs(rows[..n]), Runs(rows);
    var last := after[|after| - 1];
    assert after == Extend(before, n, true) && last.hi == n + 1;
    assert before != [] && before[|before| - 1].hi == n ==> before[|before| - 1] == Run(last.lo, n);
    RunProblemGrows(rows, last.lo);
    hide Runs, SumLengths, RunProblem;
  }

  lemma ClosedRunsStay(rows: seq<Interval>)
    requires rows != [] && rows[|rows| - 1].Missing()
    ensures var before, after := MissingProblems(rows[..|rows| - 1]), MissingProblems(rows);
            && after != [] && |before| == |after| - (if Pending(rows[..|rows| - 1]).OpenRun? then 0 else 1)
            && after[..|after| - 1] == before[..|after| - 1]
  {
    ProblemsKept(rows, |Runs(rows)| - 1);
  }

  /** A missing row extends the open run, or opens one. */
  lemma ScanMissing(rows: seq<Interval>, problems: seq<Problem>)
    requires rows != [] && rows[|rows| - 1].Missing()
    requires problems + Close(Pending(rows[..|rows| - 1])) == MissingProblems(rows[..|rows| - 1])
    ensures var row := rows[|rows| - 1];
            var run := Pending(rows[..|rows| - 1]);
            Pending(rows) == if run.OpenRun? then OpenRun(run.startsAt, run.minutes + row.lengthMinutes)
                             else OpenRun(row.start, row.lengthMinutes)
    ensures problems + Close(Pending(rows)) == MissingProblems(rows)
  {
    hide Pending, MissingProblems, Runs;
    PendingGrows(rows);
    ClosedRunsStay(rows);
    PendingIsLast(rows);
    var all := MissingProblems(rows);
    assert all == all[..|all| - 1] + [all[|all| - 1]];
  }

  /** A row with a value closes the open run, if any. */
  lemma ScanPresent(rows: seq<Interval>)
    requires rows != [] && !rows[|rows| - 1].Missing()
    ensures Pending(rows) == NoRun && MissingProblems(rows) == MissingProblems(rows[..|rows| - 1])
  {
    ProblemsKept(rows, |Runs(rows)|);
    assert MissingProblems(rows) == MissingProblems(rows)[..|Runs(rows)|];
  }

  lemma ScanNothing()
    ensures Pending([]) == NoRun && MissingProblems([]) == []
  {}

  /** The accumulator loop of the source. */
  method FindMissingReadings(intervals: seq<Interval>) returns (problems: seq<Problem>)
    ensures problems == MissingProblems(intervals)
    ensures |problems| == |Runs(intervals)|
    ensures forall k :: 0 <= k < |problems| ==>
              && problems[k].kind == MissingReading && problems[k].startsAt == intervals[Runs(intervals)[k].lo].start
              && problems[k].minutes == SumLengths(intervals[Runs(intervals)[k].lo..Runs(intervals)[k].hi])
              && problems[k].message == Sentence(NoValueReported, problems[k].startsAt, problems[k].minutes)
  {
    hide Pending, MissingProblems;
    ScanNothing();
    problems := [];
    var run := NoRun;
    for i := 0 to |intervals|
      invariant run == Pending(intervals[..i])
      invariant problems + Close(run) == MissingProblems(intervals[..i])
    {
      var row := intervals[i];
      assert intervals[..i + 1][..i] == intervals[..i];
      if row.Missing() { ScanMissing(intervals[..i + 1], problems); } else { ScanPresent(intervals[..i + 1]); }
      if !row.Missing() {
        problems := problems + Close(run);
        run := NoRun;
      } else if run.OpenRun? {
        run := OpenRun(run.startsAt, run.minutes + row.lengthMinutes);
      } else {
        run := OpenRun(row.start, row.lengthMinutes);
      }
    }
    assert intervals[..|intervals|] == intervals;
    problems := problems + Close(run);
    MissingProblemsSay(intervals);
  }

  lemma MissingProblemsSay(rows: seq<Interval>)
    ensures var problems := MissingProblems(rows);
            && |problems| == |Runs(rows)|
            && forall k :: 0 <= k < |problems| ==>
                 && problems[k].kind == MissingReading && problems[k].startsAt == rows[Runs(rows)[k].lo].start
                 && problems[k].minutes == SumLengths(rows[Runs(rows)[k].lo..Runs(rows)[k].hi])
                 && problems[k].message == Sentence(NoValueReported, problems[k].startsAt, problems[k].minutes)
  {}

  // ---------------------------------------------------------------- the runs are the maximal ones

  ghost predicate MaximalRun(rows: seq<Interval>, run: Run) {
    && run.lo < run.hi <= |rows|
    && (forall i :: run.lo <= i < run.hi ==> rows[i].quality == "missing")
    && (run.lo > 0 ==> rows[run.lo - 1].quality != "missing")
    && (run.hi < |rows| ==> rows[run.hi].quality != "missing")
  }

  ghost predicate Ordered(runs: seq<Run>) {
    forall i, j :: 0 <= i < j < |runs| ==> runs[i].hi < runs[j].lo
  }

  lemma {:induction false} RunsInOrder(rows: seq<Interval>)
    ensures Ordered(Runs(rows))
  {
    if rows != [] { RunsInOrder(rows[..|rows| - 1]); }
  }

  lemma ExtendMaximal(rows: seq<Interval>, before: seq<Run>)
    requires rows != [] && Ordered(before)
    requires forall run :: run in before ==> MaximalRun(rows[..|rows| - 1], run)
    requires |rows| > 1 && rows[|rows| - 2].Missing() ==> before != [] && before[|before| - 1].hi == |rows| - 1
    ensures forall run :: run in Extend(before, |rows| - 1, rows[|rows| - 1].Missing()) ==> MaximalRun(rows, run)
  {
    var n := |rows| - 1;
    var init := rows[..n];
    var after := Extend(before, n, rows[n].Missing());
    forall run | run in after ensures MaximalRun(rows, run) {
      if run in before {
        assert MaximalRun(init, run);
        assert before[|before| - 1] in before;
      } else if before != [] && before[|before| - 1].hi == n {
        var last := before[|before| - 1];
        assert last in before && MaximalRun(init, last);
      }
    }
  }

  lemma {:induction false} RunsAreMaximal(rows: seq<Interval>)
    ensures forall run :: run in Runs(rows) ==> MaximalRun(rows, run)
  {
    if rows != [] {
      var init := rows[..|rows| - 1];
      RunsAreMaximal(init);
      RunsInOrder(init);
      if |rows| > 1 && rows[|rows| - 2].Missing() { EndsInARun(init); }
      ExtendMaximal(rows, Runs(init));
    }
  }

  lemma EndsInARun(rows: seq<Interval>)
    requires rows != [] && rows[|rows| - 1].Missing()
    ensures Runs(rows) != [] && Runs(rows)[|Runs(rows)| - 1].hi == |rows|
  {}

  ghost predicate InSomeRun(runs: seq<Run>, i: int) {
    exists k :: 0 <= k < |runs| && runs[k].lo <= i < runs[k].hi
  }

  lemma ExtendKeeps(before: seq<Run>, n: nat, missing: bool, i: int)
    requires InSomeRun(before, i)
    ensures InSomeRun(Extend(before, n, missing), i)
  {
    var k :| 0 <= k < |before| && before[k].lo <= i < before[k].hi;
    var after := Extend(before, n, missing);
    assert after[k].lo <= i < after[k].hi;
  }

  lemma {:induction false} MissingRowsAreInRuns(rows: seq<Interval>, i: nat)
    requires i < |rows| && rows[i].Missing()
    ensures InSomeRun(Runs(rows), i)
  {
    var n := |rows| - 1;
    var before := Runs(rows[..n]);
    if i < n {
      MissingRowsAreInRuns(rows[..n], i);
      ExtendKeeps(before, n, rows[n].Missing(), i);
    } else {
      EndsInARun(rows);
      var after := Runs(rows);
      assert after[|after| - 1].lo <= i < after[|after| - 1].hi;
    }
  }

  lemma MaximalRunsMeetingAreEqual(rows: seq<Interval>, a: Run, b: Run)
    requires MaximalRun(rows, a) && MaximalRun(rows, b) && b.lo <= a.lo < b.hi
    ensures a == b
  {}

  /**
   * Main result: the runs reported are all the maximal runs of missing rows, in
   * order, so two adjacent missing rows are never two problems.
   */
  lemma RunsAreTheMaximalOnes(rows: seq<Interval>)
    ensures forall run :: run in Runs(rows) <==> MaximalRun(rows, run)
    ensures forall i, j :: 0 <= i < j < |Runs(rows)| ==> Runs(rows)[i].hi < Runs(rows)[j].lo
  {
    RunsInOrder(rows);
    RunsAreMaximal(rows);
    forall run | MaximalRun(rows, run) ensures run in Runs(rows) {
      MissingRowsAreInRuns(rows, run.lo);
      var k :| 0 <= k < |Runs(rows)| && Runs(rows)[k].lo <= run.lo < Runs(rows)[k].hi;
      MaximalRunsMeetingAreEqual(rows, run, Runs(rows)[k]);
    }
  }

  // ---------------------------------------------------------------- conservation

  function TotalMinutes(ps: seq<Problem>): int {
    if ps == [] then 0 else TotalMinutes(ps[..|ps| - 1]) + ps[|ps| - 1].minutes
  }

  function MissingMinutes(rows: seq<Interval>): int {
    if rows == [] then 0
    else MissingMinutes(rows[..|rows| - 1])
         + if rows[|rows| - 1].quality == "missing" then rows[|rows| - 1].lengthMinutes else 0
  }

  /** The problems of the runs already closed. */
  lemma BeforePending(rows: seq<Interval>) returns (problems: seq<Problem>)
    ensures problems + Close(Pending(rows)) == MissingProblems(rows)
  {
    PendingIsLast(rows);
    var all := MissingProblems(rows);
    problems := if Pending(rows).OpenRun? then all[..|all| - 1] else all;
  }

  lemma TotalWithPending(problems: seq<Problem>, run: OpenRun)
    ensures TotalMinutes(problems + Close(run)) == TotalMinutes(problems) + if run.OpenRun? then run.minutes else 0
  {
    assert (problems + Close(run))[..|problems|] == problems && problems + [] == problems;
  }

  /** Main result: the minutes reported are the lengths of the rows marked missing, each once. */
  lemma {:induction false} MissingMinutesConserved(rows: seq<Interval>)
    ensures TotalMinutes(MissingProblems(rows)) == MissingMinutes(rows)
  {
    ScanNothing();
    if rows != [] {
      hide Pending, MissingProblems, Close;
      var init := rows[..|rows| - 1];
      MissingMinutesConserved(init);
      if rows[|rows| - 1].Missing() {
        var problems := BeforePending(init);
        ScanMissing(rows, problems);
        TotalWithPending(problems, Pending(init));
        TotalWithPending(problems, Pending(rows));
      } else {
        ScanPresent(rows);
      }
    }
  }
}
