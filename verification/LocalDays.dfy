/**
 * Local-day windows (packages/api/src/lib/coverage-windows.ts).
 *
 * A zone is an offset function from instants to milliseconds east of UTC, and a
 * calendar date is its day number, so UTC midnight of date d is d * DAY_MS and
 * shiftDate is addition.
 */
module LocalDays {
  import opened Common
  import opened IntervalCoverage

  const DAY_MS := 86_400_000

  type Zone = int -> int

  function Local(zone: Zone, t: int): int { t + zone(t) }

  /** The two-pass search: guess with the offset at UTC midnight, then ask again at the guess. */
  function LocalMidnight(date: int, zone: Zone): int {
    var utcMidnight := date * DAY_MS;
    var guess := utcMidnight - zone(utcMidnight);
    utcMidnight - zone(guess)
  }

  function LocalDate(t: int, zone: Zone): int { Local(zone, t) / DAY_MS }

  function ShiftDate(date: int, days: int): int { date + days }

  // ---------------------------------------------------------------- the zone around a date

  /** Offsets stay within `r`, and within `r` of `m` they change at most once, at `change`, from `a` to `b`. */
  ghost predicate OneChange(zone: Zone, m: int, r: int, change: int, a: int, b: int) {
    && (forall t :: -r <= zone(t) <= r)
    && -r <= a <= r && -r <= b <= r
    && (forall t :: m - r <= t <= m + r ==> zone(t) == if t < change then a else b)
  }

  /** An instant whose local time is `m` lies within the offset bound of it. */
  lemma LocalTimesAreNear(zone: Zone, m: int, r: int, change: int, a: int, b: int, t: int)
    requires OneChange(zone, m, r, change, a, b) && Local(zone, t) == m
    ensures m - r <= t <= m + r
  {
    assert -r <= zone(t) <= r;
  }

  /**
   * Main result: the two passes find a local midnight whenever the date has one, and
   * when the change skips it they miss by exactly the size of the jump, on the side of
   * the change that UTC midnight is on.
   */
  lemma LocalMidnightIsMidnight(date: int, zone: Zone, r: int, change: int, a: int, b: int)
    requires OneChange(zone, date * DAY_MS, r, change, a, b)
    ensures var m, found := date * DAY_MS, LocalMidnight(date, zone);
            if exists t :: Local(zone, t) == m then Local(zone, found) == m
            else Local(zone, found) == m + if m < change then a - b else b - a
  {
    var m := date * DAY_MS;
    var found := LocalMidnight(date, zone);
    assert m - r <= m - zone(m) <= m + r && m - r <= found <= m + r;
    if t :| Local(zone, t) == m {
      LocalTimesAreNear(zone, m, r, change, a, b, t);
    }
    assert Local(zone, found) != m ==> m - a >= change && m - b < change by {
      assert m - r <= m - a <= m + r && m - r <= m - b <= m + r;
    }
    if Local(zone, found) == m { assert exists t :: Local(zone, t) == m; }
  }

  /**
   * The change leaves local midnight `m` on one side: it is before both wall-clock
   * readings at the change or after both, or it touches one of them where the two
   * passes still agree with the clock.
   */
  predicate ClearOfMidnight(m: int, change: int, a: int, b: int) {
    || (m < change + a <==> m < change + b)
    || (m < change && m < change + a && m == change + b)
    || (m >= change && m == change + a && m < change + b)
  }

  /** `found` splits instants into those before the local date and those on or after it. */
  ghost predicate StartsDate(zone: Zone, date: int, found: int) {
    forall t :: t >= found <==> Local(zone, t) >= date * DAY_MS
  }

  lemma ClearMidnightStartsDate(date: int, zone: Zone, r: int, change: int, a: int, b: int)
    requires OneChange(zone, date * DAY_MS, r, change, a, b)
    requires ClearOfMidnight(date * DAY_MS, change, a, b)
    ensures StartsDate(zone, date, LocalMidnight(date, zone))
  {
    var m := date * DAY_MS;
    var found := LocalMidnight(date, zone);
    assert m - r <= m - zone(m) <= m + r && m - r <= found <= m + r;
    forall t ensures t >= found <==> Local(zone, t) >= m {
      assert -r <= zone(t) <= r;
    }
  }

  lemma UnclearMidnightMisleads(date: int, zone: Zone, r: int, change: int, a: int, b: int) returns (t: int)
    requires OneChange(zone, date * DAY_MS, r, change, a, b)
    requires !ClearOfMidnight(date * DAY_MS, change, a, b)
    ensures (t >= LocalMidnight(date, zone)) != (Local(zone, t) >= date * DAY_MS)
  {
    var m := date * DAY_MS;
    var early, late := m - a, m - b;
    assert m - r <= early <= m + r && m - r <= late <= m + r;
    if early < change {
      t := if m < change then change else early;
    } else {
      t := if m < change then late else change;
    }
  }

  /**
   * Main result: the instant found divides the local dates correctly for every cutoff
   * exactly when the change is clear of that midnight.
   */
  lemma MidnightBoundaryExact(date: int, zone: Zone, r: int, change: int, a: int, b: int)
    requires OneChange(zone, date * DAY_MS, r, change, a, b)
    ensures StartsDate(zone, date, LocalMidnight(date, zone)) <==> ClearOfMidnight(date * DAY_MS, change, a, b)
  {
    if ClearOfMidnight(date * DAY_MS, change, a, b) {
      ClearMidnightStartsDate(date, zone, r, change, a, b);
    } else {
      var t := UnclearMidnightMisleads(date, zone, r, change, a, b);
    }
  }

  /** Clocks that go back from 00:30 to 23:30: half past midnight is judged to be before its own date. */
  lemma FallBackOverMidnightExample()
    ensures var half := HOUR_MS / 2;
            var zone: Zone := t => if t < half then 0 else -HOUR_MS;
            && LocalDate(0, zone) == 0
            && !StartsDate(zone, 0, LocalMidnight(0, zone))
            && LocalMidnight(0, zone) == 0 && LocalDate(half, zone) == -1
  {
    var half := HOUR_MS / 2;
    var zone: Zone := t => if t < half then 0 else -HOUR_MS;
    assert half >= LocalMidnight(0, zone) && Local(zone, half) < 0;
  }

  // ---------------------------------------------------------------- the windows

  function WindowOf(date: int, zone: Zone): Window {
    Window(LocalMidnight(date, zone), LocalMidnight(ShiftDate(date, 1), zone))
  }

  function NewestEndDate(now: int, zone: Zone, graceHours: int): int {
    LocalDate(now - graceHours * HOUR_MS, zone)
  }

  method WindowsToCheck(now: int, zone: Zone, lookbackDays: int, graceHours: int) returns (windows: seq<Window>)
    ensures |windows| == Max(0, lookbackDays)
    ensures forall i :: 0 <= i < |windows| ==>
              windows[i] == WindowOf(NewestEndDate(now, zone, graceHours) - lookbackDays + i, zone)
  {
    windows := [];
    if lookbackDays <= 0 { return; }
    var cutoff := now - graceHours * HOUR_MS;
    var newestEndDate := LocalDate(cutoff, zone);
    var i := lookbackDays;
    while i >= 1
      invariant 0 <= i <= lookbackDays && |windows| == lookbackDays - i
      invariant forall j :: 0 <= j < |windows| ==> windows[j] == WindowOf(newestEndDate - lookbackDays + j, zone)
    {
      var start := ShiftDate(newestEndDate, -i);
      windows := windows + [Window(LocalMidnight(start, zone), LocalMidnight(ShiftDate(start, 1), zone))];
      i := i - 1;
    }
  }

  ghost predicate AreWindows(windows: seq<Window>, first: int, zone: Zone) {
    forall i :: 0 <= i < |windows| ==> windows[i] == WindowOf(first + i, zone)
  }

  lemma NextMidnightIsLater(date: int, zone: Zone)
    requires forall t, u {:trigger zone(t), zone(u)} :: zone(t) - zone(u) < DAY_MS
    ensures LocalMidnight(date, zone) < LocalMidnight(date + 1, zone)
  {
    var u, v := date * DAY_MS, (date + 1) * DAY_MS;
    assert zone(v - zone(v)) - zone(u - zone(u)) < DAY_MS;
    assert v - u == DAY_MS;
  }

  /**
   * Consecutive windows share a boundary exactly, and each is non-empty as long as no
   * two offsets differ by a whole day.
   */
  lemma WindowsAreConsecutive(windows: seq<Window>, first: int, zone: Zone)
    requires AreWindows(windows, first, zone)
    requires forall t, u {:trigger zone(t), zone(u)} :: zone(t) - zone(u) < DAY_MS
    ensures forall i :: 0 <= i < |windows| ==> windows[i].startDate < windows[i].endDate
    ensures forall i, j :: 0 <= i < j < |windows| ==> windows[i].endDate <= windows[j].startDate
    ensures forall i :: 0 < i < |windows| ==> windows[i - 1].endDate == windows[i].startDate
  {
    forall d ensures LocalMidnight(d, zone) < LocalMidnight(d + 1, zone) { NextMidnightIsLater(d, zone); }
    hide LocalMidnight;
    forall i, j | 0 <= i < j < |windows| ensures windows[i].endDate <= windows[j].startDate {
      MidnightsIncrease(first + i + 1, first + j, zone);
    }
  }

  lemma {:induction false} MidnightsIncrease(d: int, e: int, zone: Zone)
    requires d <= e && forall x :: LocalMidnight(x, zone) < LocalMidnight(x + 1, zone)
    ensures LocalMidnight(d, zone) <= LocalMidnight(e, zone)
    decreases e - d
  {
    if d < e {
      MidnightsIncrease(d, e - 1, zone);
      assert LocalMidnight(e - 1, zone) < LocalMidnight(e - 1 + 1, zone);
    }
  }

  /** A day whose offset moves a full day, as when a zone crosses the date line, has an empty window. */
  lemma WindowEmptyExactly(date: int, zone: Zone)
    ensures var guess := date * DAY_MS - zone(date * DAY_MS);
            var next := (date + 1) * DAY_MS - zone((date + 1) * DAY_MS);
            WindowOf(date, zone).startDate < WindowOf(date, zone).endDate <==> zone(next) - zone(guess) < DAY_MS
  {
    assert (date + 1) * DAY_MS - date * DAY_MS == DAY_MS;
  }

  /** An instant's local date is the last one to have started by then. */
  lemma LastStartedDate(t: int, zone: Zone, found: int, next: int)
    requires StartsDate(zone, LocalDate(t, zone), found) && StartsDate(zone, LocalDate(t, zone) + 1, next)
    ensures found <= t < next
  {
    assert LocalDate(t, zone) * DAY_MS <= Local(zone, t) < (LocalDate(t, zone) + 1) * DAY_MS;
  }

  /**
   * Main result: the newest window is the latest one whose end is at least `graceHours`
   * old: its own end qualifies and the following local midnight does not.
   */
  lemma NewestWindowIsLatestAdmissible(now: int, zone: Zone, graceHours: int, r: int,
                                       change: int, a: int, b: int, change': int, a': int, b': int)
    requires var d := NewestEndDate(now, zone, graceHours);
             && OneChange(zone, d * DAY_MS, r, change, a, b) && ClearOfMidnight(d * DAY_MS, change, a, b)
             && OneChange(zone, (d + 1) * DAY_MS, r, change', a', b')
             && ClearOfMidnight((d + 1) * DAY_MS, change', a', b')
    ensures var d := NewestEndDate(now, zone, graceHours);
            && WindowOf(d - 1, zone).endDate <= now - graceHours * HOUR_MS
            && WindowOf(d, zone).endDate > now - graceHours * HOUR_MS
  {
    hide OneChange, ClearOfMidnight, LocalMidnight, StartsDate;
    var cutoff := now - graceHours * HOUR_MS;
    var d := NewestEndDate(now, zone, graceHours);
    ClearMidnightStartsDate(d, zone, r, change, a, b);
    ClearMidnightStartsDate(d + 1, zone, r, change', a', b');
    LastStartedDate(cutoff, zone, LocalMidnight(d, zone), LocalMidnight(d + 1, zone));
  }
}
