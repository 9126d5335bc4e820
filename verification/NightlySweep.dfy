/**
 * A tenant's whole night: the windows, the sweep, the grouping and the writes
 * (sweepIntervalCoverage in packages/api/src/services/interval-coverage-sweep.service.ts).
 */
module NightlySweep {
  import opened Common
  import opened IntervalCoverage
  import opened MissingReadings
  import opened ExceptionGrouping
  import opened DataExceptions
  import opened ExceptionRuns
  import opened CoverageSweep
  import opened DayFindings
  import opened LocalDays

  function StartsOf(windows: seq<Window>): set<int> { set w | w in windows :: w.startDate }

  /** What the night files. */
  function Night(meters: seq<Meter>, windows: seq<Window>): seq<Filed> { Flatten(SweepTenant(meters, windows)) }

  ghost predicate Files(meters: seq<Meter>, windows: seq<Window>, k: Key) {
    exists q :: q in Night(meters, windows) && q.key == k
  }

  lemma NightIsSweepable(meters: seq<Meter>, windows: seq<Window>)
    ensures DistinctFound(GroupOf(Night(meters, windows)))
    ensures forall q :: q in Night(meters, windows) ==> q.key.windowStart in StartsOf(windows)
    ensures forall f :: f in GroupOf(Night(meters, windows)) ==> f.key.windowStart in StartsOf(windows)
  {
    forall q | q in Night(meters, windows) ensures q.key.windowStart in StartsOf(windows) {
      FiledUnderSweptWindows(meters, windows, q);
    }
    GroupIsSweepable(Night(meters, windows), StartsOf(windows));
  }

  lemma FoundIsFiled(flat: seq<Filed>, k: Key)
    ensures FoundKey(GroupOf(flat), k) <==> exists q :: q in flat && q.key == k
  {
    KeysOfDistinct(flat);
    var keys := KeysOf(flat);
    if FoundKey(GroupOf(flat), k) {
      var i :| 0 <= i < |GroupOf(flat)| && GroupOf(flat)[i].key == k;
      assert keys[i] in keys;
    }
    if k in keys {
      var i :| 0 <= i < |keys| && keys[i] == k;
      assert GroupOf(flat)[i].key == k;
    }
  }

  /**
   * Main result, from rows to queue: after a night, a problem of a swept window is open
   * exactly when the night filed it and it is not one that only a decided row holds.
   */
  lemma OpenAfterNight(s: Store, meters: seq<Meter>, windows: seq<Window>, after: Store, k: Key)
    requires FullySwept(s, StartsOf(windows), GroupOf(Night(meters, windows)), after)
    requires k.windowStart in StartsOf(windows)
    ensures HasOpen(after, k) <==> Files(meters, windows, k) && !DecidedOnly(s, k)
  {
    NightIsSweepable(meters, windows);
    SweepPostState(s, StartsOf(windows), GroupOf(Night(meters, windows)), after, k);
    FoundIsFiled(Night(meters, windows), k);
  }

  /** Whose day a row is about, and what it says if no meter or window is listed twice. */
  ghost predicate IsDayRow(meters: seq<Meter>, windows: seq<Window>, row: Row) {
    && row.status == Open
    && exists i, j :: 0 <= i < |meters| && 0 <= j < |windows| && SaysDay(meters, windows, i, j, row)
  }

  ghost predicate SaysDay(meters: seq<Meter>, windows: seq<Window>, i: nat, j: nat, row: Row)
    requires i < |meters| && j < |windows|
  {
    && row.key.meterId == meters[i].meterId
    && row.key.windowStart == windows[j].startDate && row.windowEnd == windows[j].endDate
    && (NoRepeats(meters, windows) ==>
          var problems := ShownProblems(meters[i], windows[j]);
          && (exists p :: p in problems && p.kind == row.key.kind)
          && row.minutes == SumMinutes(problems, row.key.kind) && row.detail == Sentences(problems, row.key.kind))
  }

  /** A finding's window end is that of some problem filed under its key. */
  lemma {:induction false} WindowEndIsFiled(flat: seq<Filed>, k: Key)
    requires k in KeysOf(flat)
    ensures exists q :: q in flat && q.key == k && q.windowEnd == WindowEndFor(flat, k)
  {
    var n := |flat| - 1;
    if k in KeysOf(flat[..n]) {
      WindowEndIsFiled(flat[..n], k);
      var q :| q in flat[..n] && q.key == k && q.windowEnd == WindowEndFor(flat[..n], k);
      assert q in flat;
    } else {
      assert flat[n] in flat;
    }
  }

  /** Each finding of the night is about one meter's day, and says what its problems of that kind say. */
  lemma FoundIsDayRow(meters: seq<Meter>, windows: seq<Window>, f: Found, row: Row)
    requires f in GroupOf(Night(meters, windows)) && Records(row, f)
    ensures IsDayRow(meters, windows, row)
  {
    var flat := Night(meters, windows);
    var g :| 0 <= g < |GroupOf(flat)| && GroupOf(flat)[g] == f;
    assert KeysOf(flat)[g] in KeysOf(flat) && f == GroupFor(flat, f.key);
    WindowEndIsFiled(flat, f.key);
    var q :| q in flat && q.key == f.key && q.windowEnd == f.windowEnd;
    var m, w := FiledComesFromMeterDay(meters, windows, q);
    var i :| 0 <= i < |meters| && meters[i] == m;
    var j :| 0 <= j < |windows| && windows[j] == w;
    if NoRepeats(meters, windows) { RowSaysProblems(meters, windows, i, j, f); }
    hide NoRepeats, ShownProblems, Sentences, SumMinutes, GroupFor, Night;
    assert SaysDay(meters, windows, i, j, row);
  }

  lemma RowSaysProblems(meters: seq<Meter>, windows: seq<Window>, i: nat, j: nat, f: Found)
    requires NoRepeats(meters, windows) && i < |meters| && j < |windows|
    requires f == GroupFor(Night(meters, windows), f.key) && f.key in KeysOf(Night(meters, windows))
    requires f.key.meterId == meters[i].meterId && f.key.windowStart == windows[j].startDate
    ensures var problems := ShownProblems(meters[i], windows[j]);
            && (exists p :: p in problems && p.kind == f.key.kind)
            && f.minutes == SumMinutes(problems, f.key.kind) && f.detail == Sentences(problems, f.key.kind)
  {
    FiledOfMeterDay(meters, windows, i, j, f.key.kind);
    KeysOfDistinct(Night(meters, windows));
    DetailOfPresent(Night(meters, windows), f.key);
    hide NoRepeats, ShownProblems, SumMinutes, SweepTenant, Flatten, KeysOf;
    SomeSentence(ShownProblems(meters[i], windows[j]), f.key.kind);
  }

  lemma {:induction false} DetailOfPresent(flat: seq<Filed>, k: Key)
    requires k in KeysOf(flat)
    ensures DetailFor(flat, k) != []
  {
    var n := |flat| - 1;
    if k in KeysOf(flat[..n]) { DetailOfPresent(flat[..n], k); }
  }

  lemma {:induction false} SomeSentence(ps: seq<Problem>, kind: Kind)
    requires Sentences(ps, kind) != []
    ensures exists p :: p in ps && p.kind == kind
  {
    var n := |ps| - 1;
    if ps[n].kind == kind {
      assert ps[n] in ps;
    } else {
      SomeSentence(ps[..n], kind);
      var p :| p in ps[..n] && p.kind == kind;
      assert p in ps;
    }
  }

  /** Main result: every row the night opens is about one meter's day, and says what that day's problems say. */
  lemma NewRowsAreDayRows(s: Store, meters: seq<Meter>, windows: seq<Window>, after: Store)
    requires FullySwept(s, StartsOf(windows), GroupOf(Night(meters, windows)), after)
    ensures forall id :: id in after && id !in s ==> IsDayRow(meters, windows, after[id])
  {
    NightIsSweepable(meters, windows);
    hide FullySwept, IsDayRow, GroupOf, Night;
    forall id | id in after && id !in s ensures IsDayRow(meters, windows, after[id]) {
      RowsAfterSweep(s, StartsOf(windows), GroupOf(Night(meters, windows)), after, id);
      var f :| f in GroupOf(Night(meters, windows)) && Records(after[id], f);
      FoundIsDayRow(meters, windows, f, after[id]);
    }
  }

  /** The night's work as one call: windows, findings, groups, writes. */
  method SweepNight(store: ExceptionStore, meters: seq<Meter>, now: int, zone: Zone, lookbackDays: int, graceHours: int)
    returns (windows: seq<Window>)
    requires store.Valid()
    modifies store
    ensures store.Valid() && |windows| == Max(0, lookbackDays)
    ensures AreWindows(windows, NewestEndDate(now, zone, graceHours) - lookbackDays, zone)
    ensures FullySwept(old(store.rows), StartsOf(windows), GroupOf(Night(meters, windows)), store.rows)
    ensures forall id :: id in store.rows && id !in old(store.rows) ==> IsDayRow(meters, windows, store.rows[id])
    ensures forall k: Key :: k.windowStart in StartsOf(windows) ==>
              (HasOpen(store.rows, k) <==> Files(meters, windows, k) && !DecidedOnly(old(store.rows), k))
    ensures var s := old(store.rows);
            OpenMinutes(store.rows, StartsOf(windows), store.nextId) ==
            FiledMinutes(Night(meters, windows), k => !DecidedOnly(s, k))
  {
    windows := WindowsToCheck(now, zone, lookbackDays, graceHours);
    var findings := FindTenantProblems(meters, windows);
    var found := GroupCoverageFindings(findings);
    ghost var s := store.rows;
    NightIsSweepable(meters, windows);
    var _, _, _, _ := store.FlagDataExceptions(StartsOf(windows), found);
    NewRowsAreDayRows(s, meters, windows, store.rows);
    forall k: Key | k.windowStart in StartsOf(windows)
      ensures HasOpen(store.rows, k) <==> Files(meters, windows, k) && !DecidedOnly(s, k)
    {
      OpenAfterNight(s, meters, windows, store.rows, k);
    }
    QueueHoldsEveryUndecidedMinute(s, StartsOf(windows), Night(meters, windows), store.rows, store.nextId,
                                   k => !DecidedOnly(s, k));
  }

  // ---------------------------------------------------------------- one meter's day

  /** The meter's day shows a problem of this kind. */
  ghost predicate Shows(m: Meter, w: Window, kind: Kind) {
    InWindow(m.rows, w) != [] && exists p :: p in DayProblems(InWindow(m.rows, w), w) && p.kind == kind
  }

  lemma FiledShows(meters: seq<Meter>, windows: seq<Window>, m: Meter, w: Window, kind: Kind)
    requires DistinctInputs(meters, windows) && m in meters && w in windows
    requires Files(meters, windows, Key(m.meterId, w.startDate, kind))
    ensures Shows(m, w, kind) && Reported(meters, windows, m.meterId, w.startDate)
  {
    hide SweepTenant, Flatten, DayProblems, InWindow;
    var findings := SweepTenant(meters, windows);
    var q :| q in Flatten(findings) && q.key == Key(m.meterId, w.startDate, kind);
    FlattenIs(findings);
    var f, p :| f in findings && p in f.problems && q == FileProblem(f, p);
    var m', w' := FindingComesFromMeterDay(meters, windows, f);
    MeterDayShape(m', w', f);
    assert m' == m && w' == w;
    assert p in DayProblems(InWindow(m.rows, w), w);
  }

  lemma ShownIsFiled(meters: seq<Meter>, windows: seq<Window>, m: Meter, w: Window, kind: Kind)
    requires m in meters && w in windows && Shows(m, w, kind)
    ensures Files(meters, windows, Key(m.meterId, w.startDate, kind))
  {
    hide SweepTenant, Flatten, DayProblems, InWindow;
    var problems := DayProblems(InWindow(m.rows, w), w);
    var p :| p in problems && p.kind == kind;
    var f := Finding(m.meterId, w, problems);
    assert MeterDay(m, w) == [f] && f in MeterDay(m, w);
    SweepTenantIs(meters, windows);
    FlattenIs(SweepTenant(meters, windows));
    assert p in f.problems;
    assert FileProblem(f, p) in Night(meters, windows);
  }

  /** With distinct meters and windows, the night files exactly what each meter's days show. */
  lemma FilesWhatShows(meters: seq<Meter>, windows: seq<Window>, m: Meter, w: Window, kind: Kind)
    requires DistinctInputs(meters, windows) && m in meters && w in windows
    ensures Files(meters, windows, Key(m.meterId, w.startDate, kind)) <==> Shows(m, w, kind)
    ensures Files(meters, windows, Key(m.meterId, w.startDate, kind)) ==>
              Reported(meters, windows, m.meterId, w.startDate)
  {
    if Files(meters, windows, Key(m.meterId, w.startDate, kind)) { FiledShows(meters, windows, m, w, kind); }
    if Shows(m, w, kind) { ShownIsFiled(meters, windows, m, w, kind); }
  }

  /**
   * Main result, a meter's day: after the night it has an open row of a kind exactly when
   * it shows a problem of that kind nobody has decided; and none at all when its intervals
   * tile the day with a value in each, or when it sent none.
   */
  lemma MeterDayAfterNight(s: Store, meters: seq<Meter>, windows: seq<Window>, after: Store, m: Meter, w: Window,
                           kind: Kind)
    requires FullySwept(s, StartsOf(windows), GroupOf(Night(meters, windows)), after)
    requires DistinctInputs(meters, windows) && m in meters && w in windows
    ensures HasOpen(after, Key(m.meterId, w.startDate, kind)) <==>
            Shows(m, w, kind) && !DecidedOnly(s, Key(m.meterId, w.startDate, kind))
    ensures Sorted(m.rows) && PositiveLengths(m.rows) && w.startDate <= w.endDate
            && (InWindow(m.rows, w) == []
                || (Tiles(InWindow(m.rows, w), w) && forall r :: r in InWindow(m.rows, w) ==> r.quality != "missing"))
            ==> !HasOpen(after, Key(m.meterId, w.startDate, kind))
  {
    OpenAfterNight(s, meters, windows, after, Key(m.meterId, w.startDate, kind));
    FilesWhatShows(meters, windows, m, w, kind);
    if Sorted(m.rows) && PositiveLengths(m.rows) && w.startDate <= w.endDate
       && (InWindow(m.rows, w) == []
           || (Tiles(InWindow(m.rows, w), w) && forall r :: r in InWindow(m.rows, w) ==> r.quality != "missing")) {
      UnreportedExactlyWhenWholeOrSilent(meters, windows, m, w);
    }
  }

  /**
   * Main result, what the queue says of a meter's day: each row open after the night, old
   * or new, carries the minutes and the sentences of that day's problems of its kind.
   */
  lemma OpenRowsSayTheDay(s: Store, meters: seq<Meter>, windows: seq<Window>, after: Store, i: nat, j: nat,
                          kind: Kind, id: nat)
    requires FullySwept(s, StartsOf(windows), GroupOf(Night(meters, windows)), after)
    requires NoRepeats(meters, windows) && i < |meters| && j < |windows|
    requires OpenAt(after, id, Key(meters[i].meterId, windows[j].startDate, kind))
    ensures var problems := ShownProblems(meters[i], windows[j]);
            after[id].minutes == SumMinutes(problems, kind) && after[id].detail == Sentences(problems, kind)
  {
    var k := Key(meters[i].meterId, windows[j].startDate, kind);
    var found := GroupOf(Night(meters, windows));
    NightIsSweepable(meters, windows);
    assert windows[j] in windows && k.windowStart in StartsOf(windows);
    SweepPostState(s, StartsOf(windows), found, after, k);
    LookupIs(found, k);
    var f := Lookup(found, k).value;
    var g :| 0 <= g < |found| && found[g] == f;
    FiledOfMeterDay(meters, windows, i, j, kind);
  }

  /** Windows of consecutive local days have starts of their own, unless two offsets differ by a day. */
  lemma WindowsAreDistinct(windows: seq<Window>, first: int, zone: Zone)
    requires AreWindows(windows, first, zone)
    requires forall t, u {:trigger zone(t), zone(u)} :: zone(t) - zone(u) < DAY_MS
    ensures forall v, w :: v in windows && w in windows && v.startDate == w.startDate ==> v == w
  {
    WindowsAreConsecutive(windows, first, zone);
    assert forall i, j :: 0 <= i < j < |windows| ==> windows[i].startDate < windows[j].startDate;
    forall v, w | v in windows && w in windows && v.startDate == w.startDate ensures v == w {
      var i :| 0 <= i < |windows| && windows[i] == v;
      var j :| 0 <= j < |windows| && windows[j] == w;
    }
  }
}
