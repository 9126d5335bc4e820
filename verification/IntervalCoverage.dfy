/**
 * Where a meter's intervals fail to tile a window
 * (packages/api/src/lib/interval-coverage.ts).
 *
 * Instants are integer milliseconds. `minutes()` rounds to the nearest whole
 * minute, so results that add minutes up ask for minute-aligned instants;
 * results about instants do not.
 */
module IntervalCoverage {
  import opened Common

  const MINUTE_MS := 60_000
  const HOUR_MS := 3_600_000

  datatype Kind = Gap | Overlap | Overrun | MissingReading

  datatype Interval = Interval(start: int, lengthMinutes: int, quality: string) {
    function End(): int { start + lengthMinutes * MINUTE_MS }

    predicate Covers(t: int) { start <= t < End() }

    predicate Missing() { quality == "missing" }
  }

  datatype Window = Window(startDate: int, endDate: int) {
    predicate Contains(t: int) { startDate <= t < endDate }
  }

  /** Which of the five sentence templates a message is; its text follows from it and the two numbers. */
  datatype Wording = NoDataFromHere | PeriodEndsEarly | StartsBeforePreviousEnd | RunsPastPeriod | NoValueReported

  datatype Sentence = Sentence(wording: Wording, at: int, minutes: int)

  datatype Problem = Problem(kind: Kind, startsAt: int, minutes: int, message: Sentence)

  /** JavaScript's Math.round(ms / 60000): halves go up, for either sign. */
  function Minutes(ms: int): int { (ms + MINUTE_MS / 2) / MINUTE_MS }

  function MakeProblem(kind: Kind, startsAt: int, ms: int, wording: Wording): Problem {
    Problem(kind, startsAt, Minutes(ms), Sentence(wording, startsAt, Minutes(ms)))
  }

  // ---------------------------------------------------------------- specification of the scan

  /** The furthest instant reached by `from` and the ends of `rows`. */
  function Reach(rows: seq<Interval>, from: int): int {
    if rows == [] then from else Max(Reach(rows[..|rows| - 1], from), rows[|rows| - 1].End())
  }

  /** What a row starting at `row.start` means when everything up to `cursor` is accounted for. */
  function RowProblem(cursor: int, row: Interval): seq<Problem> {
    if row.start > cursor then [MakeProblem(Gap, cursor, row.start - cursor, NoDataFromHere)]
    else if row.start < cursor then [MakeProblem(Overlap, row.start, cursor - row.start, StartsBeforePreviousEnd)]
    else []
  }

  function RowProblems(rows: seq<Interval>, from: int): seq<Problem> {
    if rows == [] then []
    else
      var init := rows[..|rows| - 1];
      RowProblems(init, from) + RowProblem(Reach(init, from), rows[|rows| - 1])
  }

  function ClosingProblem(cursor: int, end: int): seq<Problem> {
    if cursor < end then [MakeProblem(Gap, cursor, end - cursor, PeriodEndsEarly)]
    else if cursor > end then [MakeProblem(Overrun, end, cursor - end, RunsPastPeriod)]
    else []
  }

  function Problems(rows: seq<Interval>, w: Window): seq<Problem> {
    RowProblems(rows, w.startDate) + ClosingProblem(Reach(rows, w.startDate), w.endDate)
  }

  /** The cursor scan, as the source runs it. */
  method FindCoverageProblems(intervals: seq<Interval>, period: Window) returns (problems: seq<Problem>)
    ensures problems == Problems(intervals, period)
  {
    problems := [];
    var cursor := period.startDate;
    for i := 0 to |intervals|
      invariant cursor == Reach(intervals[..i], period.startDate)
      invariant problems == RowProblems(intervals[..i], period.startDate)
    {
      var row := intervals[i];
      assert intervals[..i + 1][..i] == intervals[..i];
      if row.start > cursor {
        problems := problems + [MakeProblem(Gap, cursor, row.start - cursor, NoDataFromHere)];
      } else if row.start < cursor {
        problems := problems + [MakeProblem(Overlap, row.start, cursor - row.start, StartsBeforePreviousEnd)];
      }
      cursor := Max(cursor, row.End());
    }
    assert intervals[..|intervals|] == intervals;
    if cursor < period.endDate {
      problems := problems + [MakeProblem(Gap, cursor, period.endDate - cursor, PeriodEndsEarly)];
    } else if cursor > period.endDate {
      problems := problems + [MakeProblem(Overrun, period.endDate, cursor - period.endDate, RunsPastPeriod)];
    }
  }

  /** Minutes are to the nearest, half a minute going up. */
  lemma MinutesAreNearest(ms: int)
    ensures -30_000 <= ms - 60_000 * Minutes(ms) < 30_000
  {}

  /** What a problem says: where it starts, for how long, and in which of the templates. */
  ghost predicate SaysItself(p: Problem) {
    && p.message.at == p.startsAt && p.message.minutes == p.minutes
    && (p.kind == Overlap <==> p.message.wording == StartsBeforePreviousEnd)
    && (p.kind == Overrun <==> p.message.wording == RunsPastPeriod)
    && (p.kind == Gap <==> p.message.wording == NoDataFromHere || p.message.wording == PeriodEndsEarly)
  }

  /**
   * Each problem's sentence fits it; of the gaps, one that "ends early" starts where all
   * data has ended, and one with "no data from here" has a row after it.
   */
  lemma {:induction false} SentencesFit(rows: seq<Interval>, w: Window)
    ensures forall p :: p in Problems(rows, w) ==>
              && SaysItself(p)
              && (p.message.wording == PeriodEndsEarly ==> forall r :: r in rows ==> r.End() <= p.startsAt)
              && (p.message.wording == NoDataFromHere ==> exists r :: r in rows && r.start > p.startsAt)
  {
    RowSentencesFit(rows, w.startDate);
    ReachBounds(rows, w.startDate);
  }

  lemma {:induction false} RowSentencesFit(rows: seq<Interval>, from: int)
    ensures forall p :: p in RowProblems(rows, from) ==>
              && SaysItself(p) && p.message.wording != PeriodEndsEarly && p.kind != Overrun
              && (p.message.wording == NoDataFromHere ==> exists r :: r in rows && r.start > p.startsAt)
  {
    if rows != [] {
      var init := rows[..|rows| - 1];
      RowSentencesFit(init, from);
      forall p | p in RowProblems(rows, from) && p.message.wording == NoDataFromHere
        ensures exists r :: r in rows && r.start > p.startsAt
      {
        if p in RowProblems(init, from) {
          var r :| r in init && r.start > p.startsAt;
          assert r in rows;
        } else {
          assert rows[|rows| - 1] in rows;
        }
      }
    }
  }

  // ---------------------------------------------------------------- what the inputs may look like

  ghost predicate Sorted(rows: seq<Interval>) {
    forall i, j :: 0 <= i < j < |rows| ==> rows[i].start <= rows[j].start
  }

  /** The table allows lengths of 5, 15, 30 and 60 minutes only. */
  ghost predicate PositiveLengths(rows: seq<Interval>) {
    forall i :: 0 <= i < |rows| ==> rows[i].lengthMinutes > 0
  }

  predicate AlignedTo(origin: int, t: int) { (t - origin) % MINUTE_MS == 0 }

  ghost predicate Aligned(rows: seq<Interval>, origin: int) {
    forall i :: 0 <= i < |rows| ==> AlignedTo(origin, rows[i].start)
  }

  ghost predicate Covered(rows: seq<Interval>, t: int) {
    exists i :: 0 <= i < |rows| && rows[i].Covers(t)
  }

  ghost predicate CoveredTwice(rows: seq<Interval>, t: int) {
    exists i, j :: 0 <= i < j < |rows| && rows[i].Covers(t) && rows[j].Covers(t)
  }

  /** Every instant of the window is covered exactly once, and no instant outside it is. */
  ghost predicate Tiles(rows: seq<Interval>, w: Window) {
    forall t: int :: (Covered(rows, t) <==> w.Contains(t)) && !CoveredTwice(rows, t)
  }

  // ---------------------------------------------------------------- facts about the reach

  lemma {:induction false} ReachBounds(rows: seq<Interval>, from: int)
    ensures Reach(rows, from) >= from
    ensures forall i :: 0 <= i < |rows| ==> rows[i].End() <= Reach(rows, from)
    ensures Reach(rows, from) == from || exists i :: 0 <= i < |rows| && rows[i].End() == Reach(rows, from)
  {
    if rows != [] {
      var n := |rows| - 1;
      var init := rows[..n];
      ReachBounds(init, from);
      forall i | 0 <= i < |rows| ensures rows[i].End() <= Reach(rows, from) {
        if i < n { assert init[i] == rows[i]; }
      }
      if Reach(rows, from) != from {
        if Reach(init, from) >= rows[n].End() {
          var i :| 0 <= i < |init| && init[i].End() == Reach(init, from);
          assert rows[i].End() == Reach(rows, from);
        } else {
          assert rows[n].End() == Reach(rows, from);
        }
      }
    }
  }

  /** Coverage by one more row. */
  lemma CoveredByOneMore(rows: seq<Interval>, t: int)
    requires rows != []
    ensures Covered(rows, t) <==> Covered(rows[..|rows| - 1], t) || rows[|rows| - 1].Covers(t)
  {
    var init := rows[..|rows| - 1];
    if Covered(init, t) {
      var i :| 0 <= i < |init| && init[i].Covers(t);
      assert rows[i].Covers(t);
    }
    if Covered(rows, t) {
      var i :| 0 <= i < |rows| && rows[i].Covers(t);
      assert i < |init| ==> init[i].Covers(t);
    }
  }

  lemma CoveredTwiceByOneMore(rows: seq<Interval>, t: int)
    requires rows != [] && CoveredTwice(rows, t)
    ensures CoveredTwice(rows[..|rows| - 1], t) || (Covered(rows[..|rows| - 1], t) && rows[|rows| - 1].Covers(t))
  {
    var init := rows[..|rows| - 1];
    var i, j :| 0 <= i < j < |rows| && rows[i].Covers(t) && rows[j].Covers(t);
    assert init[i].Covers(t);
    if j < |init| { assert init[j].Covers(t); }
  }

  // ---------------------------------------------------------------- soundness and completeness

  /** Rows that raise no problem cover exactly [from, reach), once each. */
  lemma {:induction false} QuietRowsTile(rows: seq<Interval>, from: int)
    requires PositiveLengths(rows) && RowProblems(rows, from) == []
    ensures Tiles(rows, Window(from, Reach(rows, from)))
  {
    if rows != [] {
      var n := |rows| - 1;
      var init := rows[..n];
      QuietRowsTile(init, from);
      ReachBounds(init, from);
      forall t: int
        ensures Covered(rows, t) <==> from <= t < Reach(rows, from)
        ensures !CoveredTwice(rows, t)
      {
        CoveredByOneMore(rows, t);
        if CoveredTwice(rows, t) { CoveredTwiceByOneMore(rows, t); }
        assert Covered(init, t) <==> Window(from, Reach(init, from)).Contains(t);
      }
    }
  }

  /** An empty report is trustworthy, whether or not the caller sorted the rows. */
  lemma EmptyReportMeansTiling(rows: seq<Interval>, w: Window)
    requires PositiveLengths(rows) && Problems(rows, w) == []
    ensures Tiles(rows, w)
  {
    QuietRowsTile(rows, w.startDate);
  }

  /** The first row that raises a problem already breaks the tiling. */
  lemma NoisyRowBreaksTiling(rows: seq<Interval>, w: Window, k: nat)
    requires Sorted(rows) && PositiveLengths(rows) && w.startDate <= w.endDate
    requires k < |rows| && rows[k].start != Reach(rows[..k], w.startDate)
    ensures !Tiles(rows, w)
  {
    var cursor := Reach(rows[..k], w.startDate);
    var row := rows[k];
    ReachBounds(rows[..k], w.startDate);
    assert row.Covers(row.start);
    assert Covered(rows, row.start);
    if row.start > cursor {
      forall i | 0 <= i < |rows| ensures !rows[i].Covers(cursor) {
        if i < k { assert rows[..k][i] == rows[i]; }
      }
      assert !w.Contains(cursor) ==> !w.Contains(row.start);
    } else if cursor != w.startDate {
      var i :| 0 <= i < k && rows[..k][i].End() == cursor;
      assert rows[i].Covers(row.start);
      assert CoveredTwice(rows, row.start);
    } else {
      assert !w.Contains(row.start);
    }
  }

  lemma {:induction false} TilingRowsAreQuiet(rows: seq<Interval>, w: Window, k: nat)
    requires Sorted(rows) && PositiveLengths(rows) && w.startDate <= w.endDate && Tiles(rows, w)
    requires k <= |rows|
    ensures RowProblems(rows[..k], w.startDate) == []
  {
    if k > 0 {
      TilingRowsAreQuiet(rows, w, k - 1);
      assert rows[..k][..k - 1] == rows[..k - 1];
      if rows[k - 1].start != Reach(rows[..k - 1], w.startDate) {
        NoisyRowBreaksTiling(rows, w, k - 1);
      }
    }
  }

  lemma TilingGivesEmptyReport(rows: seq<Interval>, w: Window)
    requires Sorted(rows) && PositiveLengths(rows) && w.startDate <= w.endDate && Tiles(rows, w)
    ensures Problems(rows, w) == []
  {
    TilingRowsAreQuiet(rows, w, |rows|);
    assert rows[..|rows|] == rows;
    QuietRowsTile(rows, w.startDate);
    var reached := Window(w.startDate, Reach(rows, w.startDate));
    ReachBounds(rows, w.startDate);
    assert Covered(rows, w.endDate) <==> w.Contains(w.endDate);
    assert Covered(rows, w.endDate) <==> reached.Contains(w.endDate);
    assert Covered(rows, reached.endDate) <==> w.Contains(reached.endDate);
    assert Covered(rows, reached.endDate) <==> reached.Contains(reached.endDate);
  }

  /** Main result: the report is empty exactly when the rows tile the window. */
  lemma EmptyReportIffTiling(rows: seq<Interval>, w: Window)
    requires Sorted(rows) && PositiveLengths(rows) && w.startDate <= w.endDate
    ensures Problems(rows, w) == [] <==> Tiles(rows, w)
  {
    if Problems(rows, w) == [] { EmptyReportMeansTiling(rows, w); }
    if Tiles(rows, w) { TilingGivesEmptyReport(rows, w); }
  }

  // ---------------------------------------------------------------- where the gaps are

  ghost predicate GapAt(p: Problem, t: int) {
    p.kind == Gap && p.startsAt <= t < p.startsAt + p.minutes * MINUTE_MS
  }

  ghost predicate InReportedGap(ps: seq<Problem>, t: int) {
    exists i :: 0 <= i < |ps| && GapAt(ps[i], t)
  }

  lemma InReportedGapConcat(ps: seq<Problem>, qs: seq<Problem>, t: int)
    ensures InReportedGap(ps + qs, t) <==> InReportedGap(ps, t) || InReportedGap(qs, t)
  {
    var all := ps + qs;
    if InReportedGap(ps, t) {
      var i :| 0 <= i < |ps| && GapAt(ps[i], t);
      assert GapAt(all[i], t);
    }
    if InReportedGap(qs, t) {
      var i :| 0 <= i < |qs| && GapAt(qs[i], t);
      assert GapAt(all[|ps| + i], t);
    }
    if InReportedGap(all, t) {
      var i :| 0 <= i < |all| && GapAt(all[i], t);
      assert i < |ps| ==> GapAt(ps[i], t);
      assert i >= |ps| ==> GapAt(qs[i - |ps|], t);
    }
  }

  /** Rounding is exact on whole minutes. */
  lemma MinutesExact(ms: int)
    requires ms % MINUTE_MS == 0
    ensures Minutes(ms) * MINUTE_MS == ms
    ensures ms > 0 ==> Minutes(ms) > 0
  {}

  lemma AlignedDifference(origin: int, a: int, b: int)
    requires AlignedTo(origin, a) && AlignedTo(origin, b)
    ensures (a - b) % MINUTE_MS == 0
  {
    var x := (a - origin) / MINUTE_MS;
    var y := (b - origin) / MINUTE_MS;
    assert a - b == (x - y) * MINUTE_MS;
  }

  lemma {:induction false} ReachAligned(rows: seq<Interval>, from: int)
    requires Aligned(rows, from)
    ensures AlignedTo(from, Reach(rows, from))
  {
    if rows != [] {
      var n := |rows| - 1;
      ReachAligned(rows[..n], from);
      var x := (rows[n].start - from) / MINUTE_MS;
      assert rows[n].End() - from == (x + rows[n].lengthMinutes) * MINUTE_MS;
    }
  }

  /** A row's own gap is everything from the cursor to its start. */
  lemma RowGapIs(origin: int, cursor: int, row: Interval, t: int)
    requires AlignedTo(origin, cursor) && AlignedTo(origin, row.start)
    ensures InReportedGap(RowProblem(cursor, row), t) <==> cursor <= t < row.start
  {
    AlignedDifference(origin, row.start, cursor);
    if row.start > cursor {
      MinutesExact(row.start - cursor);
      assert InReportedGap(RowProblem(cursor, row), t) <==> GapAt(RowProblem(cursor, row)[0], t);
    }
  }

  /** Every instant from the last row's start to the cursor is covered by an earlier row. */
  lemma CoveredUpToCursor(rows: seq<Interval>, from: int, t: int)
    requires rows != [] && Sorted(rows) && PositiveLengths(rows)
    requires rows[|rows| - 1].start <= t < Reach(rows[..|rows| - 1], from) && from <= t
    ensures Covered(rows[..|rows| - 1], t)
  {
    var init := rows[..|rows| - 1];
    ReachBounds(init, from);
    var i :| 0 <= i < |init| && init[i].End() == Reach(init, from);
    assert init[i].Covers(t);
  }

  lemma {:induction false} RowGapsExact(rows: seq<Interval>, from: int, t: int)
    requires Sorted(rows) && PositiveLengths(rows) && Aligned(rows, from)
    ensures InReportedGap(RowProblems(rows, from), t) <==> from <= t < Reach(rows, from) && !Covered(rows, t)
  {
    if rows != [] {
      var n := |rows| - 1;
      var init, row, cursor := rows[..n], rows[n], Reach(rows[..n], from);
      RowGapsExact(init, from, t);
      ReachBounds(init, from);
      InReportedGapConcat(RowProblems(init, from), RowProblem(cursor, row), t);
      CoveredByOneMore(rows, t);
      ReachAligned(init, from);
      RowGapIs(from, cursor, row, t);
      hide RowProblem, InReportedGap;
      if Covered(init, t) { var i :| 0 <= i < |init| && init[i].Covers(t); }
      if row.start <= t < cursor && from <= t { CoveredUpToCursor(rows, from, t); }
    }
  }

  lemma ClosingGapExact(origin: int, cursor: int, end: int, t: int)
    requires AlignedTo(origin, cursor) && AlignedTo(origin, end)
    ensures InReportedGap(ClosingProblem(cursor, end), t) <==> cursor <= t < end
  {
    AlignedDifference(origin, end, cursor);
    if cursor < end {
      MinutesExact(end - cursor);
      assert InReportedGap(ClosingProblem(cursor, end), t) <==> GapAt(ClosingProblem(cursor, end)[0], t);
    }
  }

  /**
   * Main result: the reported gaps are exactly the uncovered instants between
   * the window's start and the later of its end and the last covered instant.
   */
  lemma GapsAreTheUncoveredInstants(rows: seq<Interval>, w: Window, t: int)
    requires Sorted(rows) && PositiveLengths(rows)
    requires Aligned(rows, w.startDate) && AlignedTo(w.startDate, w.endDate)
    ensures InReportedGap(Problems(rows, w), t) <==>
            w.startDate <= t < Max(w.endDate, Reach(rows, w.startDate)) && !Covered(rows, t)
  {
    var cursor := Reach(rows, w.startDate);
    RowGapsExact(rows, w.startDate, t);
    ReachBounds(rows, w.startDate);
    ReachAligned(rows, w.startDate);
    ClosingGapExact(w.startDate, cursor, w.endDate, t);
    InReportedGapConcat(RowProblems(rows, w.startDate), ClosingProblem(cursor, w.endDate), t);
  }

  /** Gaps in the order reported, each ending before the next begins and before `limit`. */
  ghost predicate GapsApart(ps: seq<Problem>, limit: int) {
    && (forall i :: 0 <= i < |ps| && ps[i].kind == Gap ==> ps[i].startsAt + ps[i].minutes * MINUTE_MS <= limit)
    && (forall i, j :: 0 <= i < j < |ps| && ps[i].kind == Gap && ps[j].kind == Gap ==>
          ps[i].startsAt + ps[i].minutes * MINUTE_MS <= ps[j].startsAt)
  }

  lemma {:induction false} RowGapsApart(rows: seq<Interval>, from: int)
    requires PositiveLengths(rows) && Aligned(rows, from)
    ensures GapsApart(RowProblems(rows, from), Reach(rows, from))
  {
    if rows != [] {
      var n := |rows| - 1;
      var init := rows[..n];
      var cursor := Reach(init, from);
      RowGapsApart(init, from);
      ReachAligned(init, from);
      AlignedDifference(from, rows[n].start, cursor);
      if rows[n].start > cursor { MinutesExact(rows[n].start - cursor); }
    }
  }

  /** No instant is reported missing twice. */
  lemma ReportedGapsDisjoint(rows: seq<Interval>, w: Window, i: nat, j: nat, t: int)
    requires PositiveLengths(rows) && Aligned(rows, w.startDate) && AlignedTo(w.startDate, w.endDate)
    requires i < |Problems(rows, w)| && j < |Problems(rows, w)|
    requires GapAt(Problems(rows, w)[i], t) && GapAt(Problems(rows, w)[j], t)
    ensures i == j
  {
    RowGapsApart(rows, w.startDate);
    var ps := RowProblems(rows, w.startDate);
    assert forall k :: 0 <= k < |ps| ==> Problems(rows, w)[k] == ps[k];
  }

  // ---------------------------------------------------------------- conservation

  function SumLengths(rows: seq<Interval>): int {
    if rows == [] then 0 else SumLengths(rows[..|rows| - 1]) + rows[|rows| - 1].lengthMinutes
  }

  function SumMinutes(ps: seq<Problem>, kind: Kind): int {
    if ps == [] then 0
    else SumMinutes(ps[..|ps| - 1], kind) + if ps[|ps| - 1].kind == kind then ps[|ps| - 1].minutes else 0
  }

  lemma {:induction false} SumMinutesConcat(ps: seq<Problem>, qs: seq<Problem>, kind: Kind)
    ensures SumMinutes(ps + qs, kind) == SumMinutes(ps, kind) + SumMinutes(qs, kind)
  {
    if qs == [] {
      assert ps + qs == ps;
    } else {
      assert (ps + qs)[..|ps + qs| - 1] == ps + qs[..|qs| - 1];
      SumMinutesConcat(ps, qs[..|qs| - 1], kind);
    }
  }

  /**
   * Milliseconds over-reported by rows that end before the cursor: such a row is
   * reported as an overlap of cursor - start, which exceeds its own length.
   */
  function NestedExcess(rows: seq<Interval>, from: int): int {
    if rows == [] then 0
    else
      var init := rows[..|rows| - 1];
      NestedExcess(init, from) + Max(0, Reach(init, from) - rows[|rows| - 1].End())
  }

  lemma SingleProblemMinutes(p: Problem, kind: Kind)
    ensures SumMinutes([p], kind) == if p.kind == kind then p.minutes else 0
  {
    assert [p][..0] == [];
  }

  lemma RowMinutes(origin: int, cursor: int, row: Interval)
    requires AlignedTo(origin, cursor) && AlignedTo(origin, row.start)
    ensures var ps := RowProblem(cursor, row);
            && SumMinutes(ps, Gap) * MINUTE_MS == Max(0, row.start - cursor)
            && SumMinutes(ps, Overlap) * MINUTE_MS == Max(0, cursor - row.start)
            && SumMinutes(ps, Overrun) == 0
  {
    AlignedDifference(origin, row.start, cursor);
    AlignedDifference(origin, cursor, row.start);
    MinutesExact(row.start - cursor);
    MinutesExact(cursor - row.start);
    forall p: Problem, kind: Kind { SingleProblemMinutes(p, kind); }
  }

  lemma ClosingMinutes(origin: int, cursor: int, end: int)
    requires AlignedTo(origin, cursor) && AlignedTo(origin, end)
    ensures var ps := ClosingProblem(cursor, end);
            && SumMinutes(ps, Gap) * MINUTE_MS == Max(0, end - cursor)
            && SumMinutes(ps, Overrun) * MINUTE_MS == Max(0, cursor - end)
            && SumMinutes(ps, Overlap) == 0
  {
    AlignedDifference(origin, end, cursor);
    AlignedDifference(origin, cursor, end);
    MinutesExact(end - cursor);
    MinutesExact(cursor - end);
    forall p: Problem, kind: Kind { SingleProblemMinutes(p, kind); }
  }

  lemma {:induction false} RowsConserve(rows: seq<Interval>, from: int)
    requires Aligned(rows, from)
    ensures var ps := RowProblems(rows, from);
            Reach(rows, from) - from ==
            (SumLengths(rows) + SumMinutes(ps, Gap) - SumMinutes(ps, Overlap)) * MINUTE_MS + NestedExcess(rows, from)
    ensures SumMinutes(RowProblems(rows, from), Overrun) == 0
  {
    if rows != [] {
      var n := |rows| - 1;
      var init := rows[..n];
      var cursor := Reach(init, from);
      RowsConserve(init, from);
      ReachAligned(init, from);
      RowMinutes(from, cursor, rows[n]);
      SumMinutesConcat(RowProblems(init, from), RowProblem(cursor, rows[n]), Gap);
      SumMinutesConcat(RowProblems(init, from), RowProblem(cursor, rows[n]), Overlap);
      SumMinutesConcat(RowProblems(init, from), RowProblem(cursor, rows[n]), Overrun);
    }
  }

  /**
   * Main result, conservation: the window is what was measured, plus what is
   * missing, less what is double or outside, plus the excess of nested rows.
   */
  lemma WindowConserved(rows: seq<Interval>, w: Window)
    requires Aligned(rows, w.startDate) && AlignedTo(w.startDate, w.endDate)
    ensures var ps := Problems(rows, w);
            w.endDate - w.startDate ==
            (SumLengths(rows) + SumMinutes(ps, Gap) - SumMinutes(ps, Overlap) - SumMinutes(ps, Overrun)) * MINUTE_MS
            + NestedExcess(rows, w.startDate)
  {
    var cursor := Reach(rows, w.startDate);
    var closing := ClosingProblem(cursor, w.endDate);
    RowsConserve(rows, w.startDate);
    ReachAligned(rows, w.startDate);
    ClosingMinutes(w.startDate, cursor, w.endDate);
    SumMinutesConcat(RowProblems(rows, w.startDate), closing, Gap);
    SumMinutesConcat(RowProblems(rows, w.startDate), closing, Overlap);
    SumMinutesConcat(RowProblems(rows, w.startDate), closing, Overrun);
  }

  /** No row that starts before the cursor ends before it too. */
  ghost predicate NoNestedRow(rows: seq<Interval>, from: int) {
    forall k :: 0 <= k < |rows| && rows[k].start < Reach(rows[..k], from) ==> rows[k].End() >= Reach(rows[..k], from)
  }

  lemma {:induction false} NestedExcessZero(rows: seq<Interval>, from: int)
    requires PositiveLengths(rows)
    ensures NestedExcess(rows, from) >= 0
    ensures NestedExcess(rows, from) == 0 <==> NoNestedRow(rows, from)
  {
    if rows != [] {
      var n := |rows| - 1;
      var init := rows[..n];
      NestedExcessZero(init, from);
      assert forall k :: 0 <= k <= n ==> init[..k] == rows[..k];
      assert NoNestedRow(rows, from) ==> NoNestedRow(init, from) by {
        if NoNestedRow(rows, from) {
          forall k | 0 <= k < |init| && init[k].start < Reach(init[..k], from)
            ensures init[k].End() >= Reach(init[..k], from)
          {
            assert init[k] == rows[k] && init[..k] == rows[..k];
          }
        }
      }
      if NoNestedRow(init, from) && Reach(init, from) <= rows[n].End() {
        forall k | 0 <= k < |rows| && rows[k].start < Reach(rows[..k], from)
          ensures rows[k].End() >= Reach(rows[..k], from)
        {
          if k < n { assert init[k] == rows[k] && init[..k] == rows[..k]; }
        }
      }
    }
  }

  /** The additive identity a reader expects is only an inequality, tight exactly without nested rows. */
  lemma WindowInequality(rows: seq<Interval>, w: Window)
    requires PositiveLengths(rows) && Aligned(rows, w.startDate) && AlignedTo(w.startDate, w.endDate)
    ensures var ps := Problems(rows, w);
            var accounted := SumLengths(rows) + SumMinutes(ps, Gap) - SumMinutes(ps, Overlap) - SumMinutes(ps, Overrun);
            && w.endDate - w.startDate >= accounted * MINUTE_MS
            && (w.endDate - w.startDate == accounted * MINUTE_MS <==> NoNestedRow(rows, w.startDate))
  {
    WindowConserved(rows, w);
    NestedExcessZero(rows, w.startDate);
  }

  /** Half an hour nested in an hour: the parts add up to less than the window. */
  lemma NestedRowExample()
    ensures var rows, w := [Interval(0, 60, "actual"), Interval(HOUR_MS / 4, 30, "actual")], Window(0, HOUR_MS);
            var ps := Problems(rows, w);
            && Sorted(rows) && PositiveLengths(rows) && !NoNestedRow(rows, w.startDate)
            && w.endDate - w.startDate >
               (SumLengths(rows) + SumMinutes(ps, Gap) - SumMinutes(ps, Overlap) - SumMinutes(ps, Overrun)) * MINUTE_MS
  {
    var rows, w := [Interval(0, 60, "actual"), Interval(HOUR_MS / 4, 30, "actual")], Window(0, HOUR_MS);
    assert rows[..1] == [rows[0]] && rows[..1][..0] == [];
    assert Reach(rows[..1], 0) == HOUR_MS;
    WindowInequality(rows, w);
  }

  // ---------------------------------------------------------------- time order

  ghost predicate InTimeOrder(ps: seq<Problem>) {
    forall i, j :: 0 <= i < j < |ps| ==> ps[i].startsAt <= ps[j].startsAt
  }

  /** `k` names a row that raises a problem located after the window's end. */
  ghost predicate ReportedPastEnd(rows: seq<Interval>, w: Window, k: int) {
    && 0 <= k < |rows|
    && rows[k].start > w.endDate
    && Reach(rows[..k], w.startDate) > w.endDate
    && rows[k].start != Reach(rows[..k], w.startDate)
  }

  lemma {:induction false} RowProblemsInOrder(rows: seq<Interval>, from: int)
    requires Sorted(rows)
    ensures var ps := RowProblems(rows, from);
            && InTimeOrder(ps)
            && (forall i :: 0 <= i < |ps| ==> ps[i].startsAt <= Reach(rows, from))
            && (rows != [] ==> forall i :: 0 <= i < |ps| ==> ps[i].startsAt <= rows[|rows| - 1].start)
  {
    if rows != [] {
      RowProblemsInOrder(rows[..|rows| - 1], from);
    }
  }

  ghost predicate SomeStartsAfter(ps: seq<Problem>, t: int) {
    exists i :: 0 <= i < |ps| && ps[i].startsAt > t
  }

  lemma {:induction false} ReportedPastEndIsAProblem(rows: seq<Interval>, w: Window)
    ensures SomeStartsAfter(RowProblems(rows, w.startDate), w.endDate) <==> exists k :: ReportedPastEnd(rows, w, k)
  {
    if rows != [] {
      var n := |rows| - 1;
      var init := rows[..n];
      ReportedPastEndIsAProblem(init, w);
      assert forall k :: 0 <= k <= n ==> init[..k] == rows[..k];
      assert forall k :: 0 <= k < n ==> (ReportedPastEnd(init, w, k) <==> ReportedPastEnd(rows, w, k)) by {
        forall k | 0 <= k < n ensures ReportedPastEnd(init, w, k) <==> ReportedPastEnd(rows, w, k) {
          assert init[..k] == rows[..k];
        }
      }
      var ps := RowProblems(init, w.startDate);
      var q := RowProblem(Reach(init, w.startDate), rows[n]);
      assert SomeStartsAfter(q, w.endDate) <==> ReportedPastEnd(rows, w, n) by {
        if q != [] { assert SomeStartsAfter(q, w.endDate) <==> q[0].startsAt > w.endDate; }
      }
      SomeStartsAfterConcat(ps, q, w.endDate);
    }
  }

  lemma SomeStartsAfterConcat(ps: seq<Problem>, qs: seq<Problem>, t: int)
    ensures SomeStartsAfter(ps + qs, t) <==> SomeStartsAfter(ps, t) || SomeStartsAfter(qs, t)
  {
    var all := ps + qs;
    if i :| 0 <= i < |ps| && ps[i].startsAt > t { assert all[i].startsAt > t; }
    if i :| 0 <= i < |qs| && qs[i].startsAt > t { assert all[|ps| + i].startsAt > t; }
    if i :| 0 <= i < |all| && all[i].startsAt > t {
      assert if i < |ps| then ps[i].startsAt > t else qs[i - |ps|].startsAt > t;
    }
  }

  /**
   * "In time order" holds exactly when no row past the window's end raises a
   * problem of its own there: the closing overrun is always placed at the end.
   */
  lemma TimeOrderExactly(rows: seq<Interval>, w: Window)
    requires Sorted(rows)
    ensures InTimeOrder(Problems(rows, w)) <==> !exists k :: ReportedPastEnd(rows, w, k)
  {
    RowProblemsInOrder(rows, w.startDate);
    ReportedPastEndIsAProblem(rows, w);
    ReachBounds(rows, w.startDate);
    var ps := RowProblems(rows, w.startDate);
    var all := Problems(rows, w);
    assert forall i :: 0 <= i < |ps| ==> all[i] == ps[i];
    if SomeStartsAfter(ps, w.endDate) {
      var i :| 0 <= i < |ps| && ps[i].startsAt > w.endDate;
      assert all[i].startsAt > all[|ps|].startsAt;
    }
  }

  /** The sweep only passes rows that start inside the window, and for those the comment is right. */
  lemma RowsInsideWindowAreInOrder(rows: seq<Interval>, w: Window)
    requires Sorted(rows) && forall i :: 0 <= i < |rows| ==> rows[i].start <= w.endDate
    ensures InTimeOrder(Problems(rows, w))
  {
    TimeOrderExactly(rows, w);
  }

  /** A row beyond the end can put a gap after the overrun that is reported last. */
  lemma OutOfOrderExample()
    ensures var rows := [Interval(0, 60, "actual"), Interval(2 * HOUR_MS, 60, "actual")];
            Sorted(rows) && !InTimeOrder(Problems(rows, Window(0, HOUR_MS / 2)))
  {
    var rows := [Interval(0, 60, "actual"), Interval(2 * HOUR_MS, 60, "actual")];
    var w := Window(0, HOUR_MS / 2);
    assert rows[..1] == [rows[0]] && rows[..1][..0] == [];
    assert Reach(rows[..1], 0) == HOUR_MS;
    assert ReportedPastEnd(rows, w, 1);
    TimeOrderExactly(rows, w);
  }

  // ---------------------------------------------------------------- composition

  /** Scanning two stretches is scanning the first and then the second from where it left off. */
  lemma {:induction false} ScanComposes(a: seq<Interval>, b: seq<Interval>, from: int)
    ensures Reach(a + b, from) == Reach(b, Reach(a, from))
    ensures RowProblems(a + b, from) == RowProblems(a, from) + RowProblems(b, Reach(a, from))
  {
    if b == [] {
      assert a + b == a;
    } else {
      var n := |b| - 1;
      assert (a + b)[..|a + b| - 1] == a + b[..n];
      ScanComposes(a, b[..n], from);
    }
  }

  /** Where the first part stops at `b`, the whole has an empty report exactly when both parts have. */
  lemma EmptyReportsCompose(front: seq<Interval>, back: seq<Interval>, a: int, b: int, c: int)
    requires Reach(front, a) == b
    ensures Problems(front + back, Window(a, c)) == [] <==>
            Problems(front, Window(a, b)) == [] && Problems(back, Window(b, c)) == []
  {
    ScanComposes(front, back, a);
  }

  lemma CoveredByEither(front: seq<Interval>, back: seq<Interval>, t: int)
    ensures Covered(front + back, t) <==> Covered(front, t) || Covered(back, t)
  {
    var rows := front + back;
    if Covered(front, t) {
      var i :| 0 <= i < |front| && front[i].Covers(t);
      assert rows[i].Covers(t);
    }
    if Covered(back, t) {
      var i :| 0 <= i < |back| && back[i].Covers(t);
      assert rows[|front| + i].Covers(t);
    }
    if Covered(rows, t) {
      var i :| 0 <= i < |rows| && rows[i].Covers(t);
      assert if i < |front| then front[i].Covers(t) else back[i - |front|].Covers(t);
    }
  }

  lemma CoveredTwiceByEither(front: seq<Interval>, back: seq<Interval>, t: int)
    ensures CoveredTwice(front + back, t) <==>
            CoveredTwice(front, t) || CoveredTwice(back, t) || (Covered(front, t) && Covered(back, t))
  {
    var rows, n := front + back, |front|;
    if i, j :| 0 <= i < j < |front| && front[i].Covers(t) && front[j].Covers(t) {
      assert rows[i].Covers(t) && rows[j].Covers(t);
    }
    if i, j :| 0 <= i < j < |back| && back[i].Covers(t) && back[j].Covers(t) {
      assert rows[n + i].Covers(t) && rows[n + j].Covers(t);
    }
    if Covered(front, t) && Covered(back, t) {
      var i :| 0 <= i < |front| && front[i].Covers(t);
      var j :| 0 <= j < |back| && back[j].Covers(t);
      assert rows[i].Covers(t) && rows[n + j].Covers(t);
    }
    if i, j :| 0 <= i < j < |rows| && rows[i].Covers(t) && rows[j].Covers(t) {
      assert if i < n then front[i].Covers(t) else back[i - n].Covers(t);
      assert if j < n then front[j].Covers(t) else back[j - n].Covers(t);
    }
  }

  /** Main result: rows that tile [a, b) and rows that tile [b, c), in any order, together tile [a, c). */
  lemma TilingsCompose(front: seq<Interval>, back: seq<Interval>, a: int, b: int, c: int)
    requires a <= b <= c && Tiles(front, Window(a, b)) && Tiles(back, Window(b, c))
    ensures Tiles(front + back, Window(a, c))
  {
    forall t: int
      ensures Covered(front + back, t) <==> Window(a, c).Contains(t)
      ensures !CoveredTwice(front + back, t)
    {
      CoveredByEither(front, back, t);
      CoveredTwiceByEither(front, back, t);
      assert Covered(front, t) <==> Window(a, b).Contains(t);
      assert Covered(back, t) <==> Window(b, c).Contains(t);
    }
  }

  /** Conversely a tiling splits at `b` into the rows that end by it and the rows that start at or after it. */
  lemma TilingsSplit(front: seq<Interval>, back: seq<Interval>, a: int, b: int, c: int)
    requires a <= b <= c && Tiles(front + back, Window(a, c))
    requires (forall r :: r in front ==> r.End() <= b) && (forall r :: r in back ==> r.start >= b)
    ensures Tiles(front, Window(a, b)) && Tiles(back, Window(b, c))
  {
    forall t: int
      ensures Covered(front, t) <==> Window(a, b).Contains(t)
      ensures Covered(back, t) <==> Window(b, c).Contains(t)
      ensures !CoveredTwice(front, t) && !CoveredTwice(back, t)
    {
      CoveredByEither(front, back, t);
      CoveredTwiceByEither(front, back, t);
      assert Covered(front + back, t) <==> Window(a, c).Contains(t);
      if Covered(front, t) {
        var i :| 0 <= i < |front| && front[i].Covers(t);
        assert front[i] in front;
      }
      if Covered(back, t) {
        var i :| 0 <= i < |back| && back[i].Covers(t);
        assert back[i] in back;
      }
    }
  }

  /** A quiet scan stops exactly where its next row starts, which is what splitting at an interval start needs. */
  lemma SplitsWhereAnIntervalStarts(front: seq<Interval>, back: seq<Interval>, a: int, c: int)
    requires back != [] && Problems(front + back, Window(a, c)) == []
    ensures Problems(front, Window(a, back[0].start)) == [] && Problems(back, Window(back[0].start, c)) == []
  {
    ScanComposes(front, back, a);
    ScanComposes([back[0]], back[1..], Reach(front, a));
    assert [back[0]] + back[1..] == back;
    assert [back[0]][..0] == [];
    EmptyReportsCompose(front, back, a, back[0].start, c);
  }

  // ---------------------------------------------------------------- minutes a row may carry

  lemma {:induction false} RowProblemMinutesPositive(rows: seq<Interval>, from: int)
    requires Aligned(rows, from)
    ensures forall i :: 0 <= i < |RowProblems(rows, from)| ==> RowProblems(rows, from)[i].minutes > 0
  {
    if rows != [] {
      var n := |rows| - 1;
      RowProblemMinutesPositive(rows[..n], from);
      var cursor := Reach(rows[..n], from);
      ReachAligned(rows[..n], from);
      AlignedDifference(from, rows[n].start, cursor);
      AlignedDifference(from, cursor, rows[n].start);
      MinutesExact(rows[n].start - cursor);
      MinutesExact(cursor - rows[n].start);
    }
  }

  /** Aligned data never produces the zero minutes the exception table's CHECK refuses. */
  lemma ProblemMinutesPositive(rows: seq<Interval>, w: Window)
    requires Aligned(rows, w.startDate) && AlignedTo(w.startDate, w.endDate)
    ensures forall i :: 0 <= i < |Problems(rows, w)| ==> Problems(rows, w)[i].minutes > 0
  {
    RowProblemMinutesPositive(rows, w.startDate);
    var cursor := Reach(rows, w.startDate);
    ReachAligned(rows, w.startDate);
    AlignedDifference(w.startDate, w.endDate, cursor);
    AlignedDifference(w.startDate, cursor, w.endDate);
    MinutesExact(w.endDate - cursor);
    MinutesExact(cursor - w.endDate);
  }
}
