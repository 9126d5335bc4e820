/**
 * What a night files under one meter, day and kind is what the two scans of that
 * meter's day found, no more and no less
 * (sweepTenant in packages/api/src/services/interval-coverage-sweep.service.ts and
 * groupCoverageFindings in packages/api/src/lib/meter-data-exception.ts).
 */
module DayFindings {
  import opened Common
  import opened IntervalCoverage
  import opened MissingReadings
  import opened ExceptionGrouping
  import opened CoverageSweep

  /** No meter and no window is listed twice. */
  ghost predicate NoRepeats(meters: seq<Meter>, windows: seq<Window>) {
    && (forall i, j :: 0 <= i < j < |meters| ==> meters[i].meterId != meters[j].meterId)
    && DistinctStarts(windows)
  }

  /** The problems of a meter's day: none if it sent nothing that day. */
  function ShownProblems(m: Meter, w: Window): seq<Problem> {
    var rows := InWindow(m.rows, w);
    if rows == [] then [] else Problems(rows, w) + MissingProblems(rows)
  }

  /** The sentences of one kind, in order. */
  function Sentences(ps: seq<Problem>, kind: Kind): seq<Sentence> {
    if ps == [] then []
    else Sentences(ps[..|ps| - 1], kind) + if ps[|ps| - 1].kind == kind then [ps[|ps| - 1].message] else []
  }

  /** What is filed under `k`: the minutes in all, and the sentences in order. */
  ghost predicate FiledAs(flat: seq<Filed>, k: Key, ps: seq<Problem>) {
    MinutesFor(flat, k) == SumMinutes(ps, k.kind) && DetailFor(flat, k) == Sentences(ps, k.kind)
  }

  lemma {:induction false} FiledConcat(a: seq<Filed>, b: seq<Filed>, k: Key)
    ensures MinutesFor(a + b, k) == MinutesFor(a, k) + MinutesFor(b, k)
    ensures DetailFor(a + b, k) == DetailFor(a, k) + DetailFor(b, k)
  {
    if b == [] {
      assert a + b == a;
    } else {
      var n := |b| - 1;
      FiledConcat(a, b[..n], k);
      assert (a + b)[..|a + b| - 1] == a + b[..n];
    }
  }

  lemma FlattenSnoc(findings: seq<Finding>, f: Finding)
    ensures Flatten(findings + [f]) == Flatten(findings) + FileProblems(f, |f.problems|)
  {
    assert (findings + [f])[..|findings|] == findings;
  }

  lemma {:induction false} FlattenConcat(a: seq<Finding>, b: seq<Finding>)
    ensures Flatten(a + b) == Flatten(a) + Flatten(b)
  {
    if b == [] {
      assert a + b == a;
    } else {
      var init, last := b[..|b| - 1], b[|b| - 1];
      assert b == init + [last] && a + b == (a + init) + [last];
      hide Flatten, FileProblems;
      FlattenConcat(a, init);
      FlattenSnoc(a + init, last);
      FlattenSnoc(init, last);
      Associates(Flatten(a), Flatten(init), FileProblems(last, |last.problems|));
    }
  }

  lemma Associates<T>(a: seq<T>, b: seq<T>, c: seq<T>)
    ensures (a + b) + c == a + (b + c)
  {}

  lemma {:induction false} FiledOfFinding(f: Finding, n: nat, k: Key)
    requires n <= |f.problems|
    ensures FiledAs(FileProblems(f, n), k,
                    if f.meterId == k.meterId && f.window.startDate == k.windowStart then f.problems[..n] else [])
  {
    var filed := FileProblems(f, n);
    if n > 0 {
      FiledOfFinding(f, n - 1, k);
      assert filed[..n - 1] == FileProblems(f, n - 1);
      assert f.problems[..n][..n - 1] == f.problems[..n - 1];
    }
  }

  lemma FiledOfDay(m: Meter, w: Window, k: Key)
    ensures FiledAs(Flatten(MeterDay(m, w)), k,
                    if m.meterId == k.meterId && w.startDate == k.windowStart then ShownProblems(m, w) else [])
  {
    if MeterDay(m, w) != [] {
      var f := MeterDay(m, w)[0];
      FiledOfFinding(f, |f.problems|, k);
      assert f.problems[..|f.problems|] == f.problems;
      assert MeterDay(m, w)[..0] == [];
      assert Flatten(MeterDay(m, w)) == FileProblems(f, |f.problems|);
    }
  }

  lemma {:induction false} NothingOfOtherDays(m: Meter, windows: seq<Window>, k: Key)
    requires m.meterId != k.meterId || forall i :: 0 <= i < |windows| ==> windows[i].startDate != k.windowStart
    ensures FiledAs(Flatten(MeterDays(m, windows)), k, [])
  {
    if windows != [] {
      var n := |windows| - 1;
      NothingOfOtherDays(m, windows[..n], k);
      OneMoreWindow(m, windows, k);
      FiledOfDay(m, windows[n], k);
    }
  }

  ghost predicate DistinctStarts(windows: seq<Window>) {
    forall i, j :: 0 <= i < j < |windows| ==> windows[i].startDate != windows[j].startDate
  }

  lemma {:induction false} FiledOfMeter(m: Meter, windows: seq<Window>, j: nat, kind: Kind)
    requires j < |windows| && DistinctStarts(windows)
    ensures FiledAs(Flatten(MeterDays(m, windows)), Key(m.meterId, windows[j].startDate, kind),
                    ShownProblems(m, windows[j]))
    decreases |windows|
  {
    var n := |windows| - 1;
    LastWindowApart(windows);
    hide MeterDays, MeterDay, Flatten, ShownProblems, FiledAs, DistinctStarts;
    if j == n {
      FiledOfLastWindow(m, windows, kind);
    } else {
      FiledOfMeter(m, windows[..n], j, kind);
      FiledBeforeLastWindow(m, windows, j, kind);
    }
  }

  lemma FiledOfLastWindow(m: Meter, windows: seq<Window>, kind: Kind)
    requires windows != [] && DistinctStarts(windows)
    ensures var w := windows[|windows| - 1];
            FiledAs(Flatten(MeterDays(m, windows)), Key(m.meterId, w.startDate, kind), ShownProblems(m, w))
  {
    var w := windows[|windows| - 1];
    var k := Key(m.meterId, w.startDate, kind);
    FiledOfDay(m, w, k);
    LastWindowApart(windows);
    NothingOfOtherDays(m, windows[..|windows| - 1], k);
    hide MeterDays, MeterDay, Flatten, ShownProblems, FiledAs, DistinctStarts;
    JoinWindow(m, windows, k, ShownProblems(m, w));
  }

  lemma FiledBeforeLastWindow(m: Meter, windows: seq<Window>, j: nat, kind: Kind)
    requires j < |windows| - 1 && DistinctStarts(windows)
    requires FiledAs(Flatten(MeterDays(m, windows[..|windows| - 1])), Key(m.meterId, windows[j].startDate, kind),
                     ShownProblems(m, windows[j]))
    ensures FiledAs(Flatten(MeterDays(m, windows)), Key(m.meterId, windows[j].startDate, kind),
                    ShownProblems(m, windows[j]))
  {
    var k := Key(m.meterId, windows[j].startDate, kind);
    FiledOfDay(m, windows[|windows| - 1], k);
    hide MeterDays, MeterDay, Flatten, ShownProblems, FiledAs;
    JoinWindow(m, windows, k, ShownProblems(m, windows[j]));
  }

  lemma LastWindowApart(windows: seq<Window>)
    requires DistinctStarts(windows) && windows != []
    ensures var n := |windows| - 1;
            && DistinctStarts(windows[..n])
            && forall i :: 0 <= i < n ==> windows[..n][i].startDate != windows[n].startDate
  {}

  lemma JoinWindow(m: Meter, windows: seq<Window>, k: Key, ps: seq<Problem>)
    requires windows != []
    requires var n := |windows| - 1;
             || (FiledAs(Flatten(MeterDays(m, windows[..n])), k, ps)
                 && FiledAs(Flatten(MeterDay(m, windows[n])), k, []))
             || (FiledAs(Flatten(MeterDays(m, windows[..n])), k, [])
                 && FiledAs(Flatten(MeterDay(m, windows[n])), k, ps))
    ensures FiledAs(Flatten(MeterDays(m, windows)), k, ps)
  {
    OneMoreWindow(m, windows, k);
    hide MeterDays, MeterDay, Flatten;
  }

  lemma OneMoreWindow(m: Meter, windows: seq<Window>, k: Key)
    requires windows != []
    ensures var n := |windows| - 1;
            var before, last := Flatten(MeterDays(m, windows[..n])), Flatten(MeterDay(m, windows[n]));
            && MinutesFor(Flatten(MeterDays(m, windows)), k) == MinutesFor(before, k) + MinutesFor(last, k)
            && DetailFor(Flatten(MeterDays(m, windows)), k) == DetailFor(before, k) + DetailFor(last, k)
  {
    var n := |windows| - 1;
    FlattenConcat(MeterDays(m, windows[..n]), MeterDay(m, windows[n]));
    FiledConcat(Flatten(MeterDays(m, windows[..n])), Flatten(MeterDay(m, windows[n])), k);
  }

  lemma {:induction false} NothingOfOtherMeters(meters: seq<Meter>, windows: seq<Window>, k: Key)
    requires forall i :: 0 <= i < |meters| ==> meters[i].meterId != k.meterId
    ensures FiledAs(Flatten(SweepTenant(meters, windows)), k, [])
  {
    if meters != [] {
      var n := |meters| - 1;
      NothingOfOtherMeters(meters[..n], windows, k);
      FlattenConcat(SweepTenant(meters[..n], windows), MeterDays(meters[n], windows));
      FiledConcat(Flatten(SweepTenant(meters[..n], windows)), Flatten(MeterDays(meters[n], windows)), k);
      NothingOfOtherDays(meters[n], windows, k);
    }
  }

  /** Main result: under a meter, day and kind the night files that day's problems of that kind and nothing else. */
  lemma {:induction false} FiledOfMeterDay(meters: seq<Meter>, windows: seq<Window>, i: nat, j: nat, kind: Kind)
    requires NoRepeats(meters, windows) && i < |meters| && j < |windows|
    ensures FiledAs(Flatten(SweepTenant(meters, windows)), Key(meters[i].meterId, windows[j].startDate, kind),
                    ShownProblems(meters[i], windows[j]))
    decreases |meters|
  {
    var n := |meters| - 1;
    LastMeterApart(meters, windows);
    hide SweepTenant, MeterDays, Flatten, ShownProblems, FiledAs, NoRepeats;
    if i == n {
      FiledOfLastMeter(meters, windows, j, kind);
    } else {
      FiledOfMeterDay(meters[..n], windows, i, j, kind);
      var k := Key(meters[i].meterId, windows[j].startDate, kind);
      NothingOfOtherDays(meters[n], windows, k);
      FiledByOthers(meters, windows, k, ShownProblems(meters[i], windows[j]));
    }
  }

  lemma FiledOfLastMeter(meters: seq<Meter>, windows: seq<Window>, j: nat, kind: Kind)
    requires NoRepeats(meters, windows) && meters != [] && j < |windows|
    ensures var m := meters[|meters| - 1];
            FiledAs(Flatten(SweepTenant(meters, windows)), Key(m.meterId, windows[j].startDate, kind),
                    ShownProblems(m, windows[j]))
  {
    var m := meters[|meters| - 1];
    var k := Key(m.meterId, windows[j].startDate, kind);
    LastMeterApart(meters, windows);
    hide SweepTenant, MeterDays, Flatten, ShownProblems, FiledAs, NoRepeats;
    NothingOfOtherMeters(meters[..|meters| - 1], windows, k);
    FiledOfMeter(m, windows, j, kind);
    FiledByLast(meters, windows, k, ShownProblems(m, windows[j]));
  }

  lemma LastMeterApart(meters: seq<Meter>, windows: seq<Window>)
    requires NoRepeats(meters, windows) && meters != []
    ensures var n := |meters| - 1;
            && NoRepeats(meters[..n], windows)
            && (forall i :: 0 <= i < n ==> meters[..n][i] == meters[i] && meters[i].meterId != meters[n].meterId)
            && DistinctStarts(windows)
  {}

  lemma FiledByOthers(meters: seq<Meter>, windows: seq<Window>, k: Key, ps: seq<Problem>)
    requires meters != []
    requires FiledAs(Flatten(SweepTenant(meters[..|meters| - 1], windows)), k, ps)
    requires FiledAs(Flatten(MeterDays(meters[|meters| - 1], windows)), k, [])
    ensures FiledAs(Flatten(SweepTenant(meters, windows)), k, ps)
  {
    OneMoreMeter(meters, windows);
    FiledConcat(Flatten(SweepTenant(meters[..|meters| - 1], windows)),
                Flatten(MeterDays(meters[|meters| - 1], windows)), k);
    hide SweepTenant, MeterDays, Flatten;
  }

  lemma FiledByLast(meters: seq<Meter>, windows: seq<Window>, k: Key, ps: seq<Problem>)
    requires meters != []
    requires FiledAs(Flatten(SweepTenant(meters[..|meters| - 1], windows)), k, [])
    requires FiledAs(Flatten(MeterDays(meters[|meters| - 1], windows)), k, ps)
    ensures FiledAs(Flatten(SweepTenant(meters, windows)), k, ps)
  {
    OneMoreMeter(meters, windows);
    FiledConcat(Flatten(SweepTenant(meters[..|meters| - 1], windows)),
                Flatten(MeterDays(meters[|meters| - 1], windows)), k);
    hide SweepTenant, MeterDays, Flatten;
  }

  lemma OneMoreMeter(meters: seq<Meter>, windows: seq<Window>)
    requires meters != []
    ensures var n := |meters| - 1;
            Flatten(SweepTenant(meters, windows)) ==
            Flatten(SweepTenant(meters[..n], windows)) + Flatten(MeterDays(meters[n], windows))
  {
    FlattenConcat(SweepTenant(meters[..|meters| - 1], windows), MeterDays(meters[|meters| - 1], windows));
  }
}
