/**
 * The exception queue over many nights: sweeps that may stop half way, interleaved
 * with the decisions people make.
 */
module ExceptionRuns {
  import opened Common
  import opened IntervalCoverage
  import opened ExceptionGrouping
  import opened DataExceptions

  /** The table and its three writes, in the order the service makes them. */
  class ExceptionStore {
    var rows: Store
    var nextId: nat

    ghost predicate Valid()
      reads this
    {
      OneOpenPerKey(rows) && forall id :: id in rows ==> id < nextId
    }

    /** The store as the runs below see it. */
    ghost function View(): Book
      reads this
    {
      Book(rows, nextId)
    }

    constructor ()
      ensures Valid() && rows == map[]
    {
      rows, nextId := map[], 0;
    }

    /** The service's findMany: every unresolved row of the swept windows. */
    method FindUnresolved(swept: set<int>) returns (existing: seq<Existing>)
      requires Valid()
      ensures Lists(existing, rows, swept)
    {
      existing := [];
      for id: nat := 0 to nextId
        invariant forall e :: e in existing ==>
                    e.id in rows && rows[e.id] == e.row && e.row.status != Resolved && e.row.key.windowStart in swept
        invariant forall i :: i in rows && i < id && rows[i].status != Resolved && rows[i].key.windowStart in swept ==>
                    Existing(i, rows[i]) in existing
      {
        if id in rows && rows[id].status != Resolved && rows[id].key.windowStart in swept {
          existing := existing + [Existing(id, rows[id])];
        }
      }
    }

    /** flagDataExceptions: read, reconcile, create, update, resolve. */
    method FlagDataExceptions(swept: set<int>, found: seq<Found>)
      returns (created: nat, updated: nat, resolved: nat, ghost existing: seq<Existing>)
      requires Valid() && DistinctFound(found) && forall f :: f in found ==> f.key.windowStart in swept
      modifies this
      ensures Valid()
      ensures FullySwept(old(rows), swept, found, rows)
      ensures forall id :: id in rows && id !in old(rows) ==> exists f :: f in found && Records(rows[id], f)
      ensures var night := Sweep(swept, found, existing, Finished);
              Possible(old(View()), night) && View() == After(old(View()), night)
      ensures swept == {} ==> rows == old(rows) && created == updated == resolved == 0
      ensures nextId == old(nextId) + created
    {
      if swept == {} {
        existing := [];
        NothingSwept(rows, nextId, found);
        return 0, 0, 0, [];
      }
      var listed := FindUnresolved(swept);
      existing := listed;
      var plan := ReconcileDataExceptions(swept, found, listed);
      WritesRealiseSweep(rows, nextId, swept, found, existing, Finished);
      SweepSafe(rows, swept, found, AfterAll(rows, nextId, plan));
      ApplyPlan(plan);
      NewRowsRecord(old(rows), swept, found, rows);
      created, updated, resolved := |plan.toOpen|, |plan.toUpdate|, |plan.toResolveIds|;
    }

    /** The three writes. */
    method ApplyPlan(plan: Plan)
      modifies this
      ensures rows == AfterAll(old(rows), old(nextId), plan)
      ensures nextId == old(nextId) + |plan.toOpen|
    {
      rows := CreateAll(rows, nextId, plan.toOpen);
      for i := 0 to |plan.toUpdate|
        invariant rows == UpdateAll(CreateAll(old(rows), old(nextId), plan.toOpen), plan.toUpdate[..i])
        invariant nextId == old(nextId)
      {
        assert plan.toUpdate[..i + 1][..i] == plan.toUpdate[..i];
        var u := plan.toUpdate[i];
        if u.id in rows {
          rows := rows[u.id := rows[u.id].(minutes := u.minutes, detail := u.detail)];
        }
      }
      rows := ResolveAll(rows, plan.toResolveIds);
      nextId := nextId + |plan.toOpen|;
    }

    /** A person accepts the row as it stands, or records that a value was supplied. */
    method Decide(id: nat, status: Status)
      requires Valid() && id in rows && rows[id].status == Open && status in {Accepted, Estimated}
      modifies this`rows
      ensures Valid()
      ensures Possible(old(View()), Decision(id, status)) && View() == After(old(View()), Decision(id, status))
      ensures rows == old(rows)[id := old(rows)[id].(status := status)]
    {
      rows := rows[id := rows[id].(status := status)];
    }
  }

  // ---------------------------------------------------------------- runs

  datatype Event =
    | Sweep(swept: set<int>, found: seq<Found>, existing: seq<Existing>, progress: Progress)
    | Decision(id: nat, status: Status)

  datatype Book = Book(rows: Store, next: nat)

  ghost predicate Good(b: Book) {
    OneOpenPerKey(b.rows) && forall id :: id in b.rows ==> id < b.next
  }

  /** What the service and its callers guarantee about one event. */
  ghost predicate Possible(b: Book, e: Event) {
    match e
    case Sweep(swept, found, existing, progress) =>
      && DistinctFound(found)
      && (forall f :: f in found ==> f.key.windowStart in swept)
      && Lists(existing, b.rows, swept)
      && Reachable(PlanFor(swept, found, existing), progress)
    case Decision(id, status) =>
      id in b.rows && b.rows[id].status == Open && status in {Accepted, Estimated}
  }

  ghost function After(b: Book, e: Event): Book
    requires Possible(b, e)
  {
    match e
    case Sweep(swept, found, existing, progress) =>
      var plan := PlanFor(swept, found, existing);
      Book(StoppedAt(b.rows, b.next, plan, progress), b.next + |plan.toOpen|)
    case Decision(id, status) =>
      Book(b.rows[id := b.rows[id].(status := status)], b.next)
  }

  ghost predicate PossibleRun(b: Book, es: seq<Event>)
    decreases |es|
  {
    es != [] ==> Possible(b, es[0]) && PossibleRun(After(b, es[0]), es[1..])
  }

  ghost function AfterRun(b: Book, es: seq<Event>): Book
    requires PossibleRun(b, es)
    decreases |es|
  {
    if es == [] then b else AfterRun(After(b, es[0]), es[1..])
  }

  /** A run is its events in turn. */
  lemma {:induction false} RunsCompose(b: Book, es: seq<Event>, e: Event)
    ensures PossibleRun(b, [])
    ensures AfterRun(b, []) == b
    ensures PossibleRun(b, es + [e]) <==> PossibleRun(b, es) && Possible(AfterRun(b, es), e)
    ensures PossibleRun(b, es + [e]) ==> AfterRun(b, es + [e]) == After(AfterRun(b, es), e)
    decreases |es|
  {
    if es == [] {
      assert [] + [e] == [e] && [e][1..] == [];
    } else if Possible(b, es[0]) {
      RunsCompose(After(b, es[0]), es[1..], e);
      assert (es + [e])[1..] == es[1..] + [e];
    }
  }

  /** Nobody decides row `id` and no sweep examines its window. */
  ghost predicate LeavesAlone(es: seq<Event>, id: nat, windowStart: int) {
    forall e :: e in es ==> if e.Sweep? then windowStart !in e.swept else e.id != id
  }

  /** With no window swept there is nothing to find, nothing on the list and nothing to do. */
  lemma NothingSwept(s: Store, next: nat, found: seq<Found>)
    requires forall f :: f in found ==> f.key.windowStart in {}
    ensures Lists([], s, {}) && AfterAll(s, next, PlanFor({}, found, [])) == s && found == []
    ensures FullySwept(s, {}, found, s) && PlanFor({}, found, []).toOpen == []
  {
    assert forall f :: f in multiset(found) ==> f in found;
    assert multiset(found) == multiset{} && |multiset(found)| == |found|;
    var plan := PlanFor({}, found, []);
    assert plan.toUpdate[..0] == [] && UpdateAll(s, []) == s;
    assert ResolveAll(s, []) == s;
  }

  lemma EventSafe(b: Book, e: Event)
    requires Good(b) && Possible(b, e)
    ensures Good(After(b, e)) && b.rows.Keys <= After(b, e).rows.Keys
    ensures forall id :: id in b.rows && b.rows[id].status != Open ==> After(b, e).rows[id] == b.rows[id]
    ensures forall id :: id in b.rows && LeavesAlone([e], id, b.rows[id].key.windowStart) ==>
                         After(b, e).rows[id] == b.rows[id]
  {
    if e.Sweep? {
      WritesRealiseSweep(b.rows, b.next, e.swept, e.found, e.existing, e.progress);
      SweepSafe(b.rows, e.swept, e.found, After(b, e).rows);
    }
    forall id | id in b.rows && LeavesAlone([e], id, b.rows[id].key.windowStart)
      ensures After(b, e).rows[id] == b.rows[id]
    {
      assert e in [e];
    }
  }

  /**
   * Main result, over any run: never two open rows for one key, a decided or resolved
   * row never changes again, and a row whose window is never swept keeps its state
   * until somebody decides it.
   */
  lemma {:induction false} RunSafe(b: Book, es: seq<Event>)
    requires Good(b) && PossibleRun(b, es)
    ensures Good(AfterRun(b, es)) && b.rows.Keys <= AfterRun(b, es).rows.Keys
    ensures forall id :: id in b.rows && b.rows[id].status != Open ==> AfterRun(b, es).rows[id] == b.rows[id]
    ensures forall id :: id in b.rows && LeavesAlone(es, id, b.rows[id].key.windowStart) ==>
                         AfterRun(b, es).rows[id] == b.rows[id]
    decreases |es|
  {
    if es != [] {
      var mid := After(b, es[0]);
      EventSafe(b, es[0]);
      RunSafe(mid, es[1..]);
      forall id | id in b.rows && LeavesAlone(es, id, b.rows[id].key.windowStart)
        ensures AfterRun(b, es).rows[id] == b.rows[id]
      {
        assert es[0] in es;
        assert LeavesAlone([es[0]], id, b.rows[id].key.windowStart);
        assert forall e :: e in es[1..] ==> e in es;
      }
    }
  }

  // ---------------------------------------------------------------- a decision between the read and the writes

  /**
   * The writes carry no status guard and share no transaction with the read, so a
   * decision made in between is overwritten exactly when the sweep would have changed
   * the row it read.
   */
  lemma DecisionDuringSweep(s: Store, next: nat, swept: set<int>, found: seq<Found>, existing: seq<Existing>,
                            id: nat, status: Status)
    requires SweepReady(s, next, swept, found, existing)
    requires id in s && s[id].status == Open && status in {Accepted, Estimated}
    ensures var decided := s[id := s[id].(status := status)];
            var after := AfterAll(decided, next, PlanFor(swept, found, existing));
            id in after && (after[id] == decided[id] <==> RowAfterSweep(s[id], swept, found) == s[id])
  {
    var decided := s[id := s[id].(status := status)];
    var plan := PlanFor(swept, found, existing);
    var created := CreateAll(decided, next, plan.toOpen);
    CreateAllIs(decided, next, plan.toOpen);
    UpdatesAgree(s, next, swept, found, existing);
    assert plan.toUpdate[..|plan.toUpdate|] == plan.toUpdate;
    UpdateAllIs(created, plan.toUpdate);
    ToResolveIs(swept, found, existing);
    LookupIs(found, s[id].key);
    if u :| u in plan.toUpdate && u.id == id {
      UpdatesOfRow(s, next, swept, found, existing, u);
      UpdateChanges(s, next, swept, found, existing, u);
    } else if s[id].key.windowStart in swept && FoundKey(found, s[id].key)
              && RowAfterSweep(s[id], swept, found) != s[id] {
      OpenRowGetsItsUpdate(s, next, swept, found, existing, id);
    }
    assert id in plan.toResolveIds <==> Resolves(s[id], swept, found) by {
      if Resolves(s[id], swept, found) { assert Existing(id, s[id]) in existing; }
    }
  }

  /** A gap fixed while the sweep runs: the row a person has just accepted is marked resolved. */
  lemma OverwrittenDecisionExample()
    ensures var row := Row(Key("meter", 0, Gap), 10, Open, 5, []);
            var s: Store := map[0 := row];
            var existing := [Existing(0, row)];
            var decided := s[0 := row.(status := Accepted)];
            && SweepReady(s, 1, {0}, [], existing)
            && AfterAll(decided, 1, PlanFor({0}, [], existing)) == map[0 := row.(status := Resolved)]
  {
    var row := Row(Key("meter", 0, Gap), 10, Open, 5, []);
    var existing := [Existing(0, row)];
    assert existing[..0] == [];
    assert ToResolve({0}, [], existing) == [0];
    var plan := PlanFor({0}, [], existing);
    assert plan == Plan([], [], [0]) && plan.toUpdate[..0] == [];
  }

  lemma UpdateChanges(s: Store, next: nat, swept: set<int>, found: seq<Found>, existing: seq<Existing>, u: Update)
    requires SweepReady(s, next, swept, found, existing) && u in ToUpdate(found, existing)
    ensures u.id in s && (u.minutes != s[u.id].minutes || u.detail != s[u.id].detail)
  {
    ToUpdateIs(found, existing);
    var f :| f in found && u in UpdateFor(f, Held(existing, f.key));
    HeldReflectsStore(s, swept, existing, f.key);
  }

  /**
   * A sweep that stops before it resolves anything has resolved nothing: an old row keeps its
   * status, and has changed exactly if one of the updates made so far is its own.
   */
  lemma NothingResolvedBeforeTheEnd(s: Store, next: nat, swept: set<int>, found: seq<Found>, existing: seq<Existing>,
                                    updates: nat, id: nat)
    requires SweepReady(s, next, swept, found, existing) && id in s && updates <= |ToUpdate(found, existing)|
    ensures var after := StoppedAt(s, next, PlanFor(swept, found, existing), Created(updates));
            && id in after && after[id].status == s[id].status
            && after[id].key == s[id].key && after[id].windowEnd == s[id].windowEnd
            && (after[id] != s[id] <==> exists j :: 0 <= j < updates && ToUpdate(found, existing)[j].id == id)
  {
    var ups := ToUpdate(found, existing);
    RowOfFirstUpdates(s, next, swept, found, existing, updates, id);
    hide StoppedAt, ToUpdate, SweepReady;
    if j :| 0 <= j < updates && ups[j].id == id { UpdateChanges(s, next, swept, found, existing, ups[j]); }
  }

  lemma RowOfFirstUpdates(s: Store, next: nat, swept: set<int>, found: seq<Found>, existing: seq<Existing>,
                          updates: nat, id: nat)
    requires SweepReady(s, next, swept, found, existing) && id in s && updates <= |ToUpdate(found, existing)|
    ensures var after := StoppedAt(s, next, PlanFor(swept, found, existing), Created(updates));
            var ups := ToUpdate(found, existing);
            && id in after
            && ((forall j :: 0 <= j < updates ==> ups[j].id != id) ==> after[id] == s[id])
            && (forall j :: 0 <= j < updates && ups[j].id == id ==>
                  after[id] == s[id].(minutes := ups[j].minutes, detail := ups[j].detail))
  {
    CreateAllIs(s, next, ToOpen(found, existing));
    UpdatesAgree(s, next, swept, found, existing);
    hide UpdateAll, CreateAll, ToOpen, ToUpdate, SweepReady;
    FirstUpdates(CreateAll(s, next, ToOpen(found, existing)), ToUpdate(found, existing), updates, id);
  }

  lemma FirstUpdates(s: Store, ups: seq<Update>, n: nat, id: nat)
    requires n <= |ups| && id in s && forall u, v :: u in ups && v in ups && u.id == v.id ==> u == v
    ensures var after := UpdateAll(s, ups[..n]);
            && id in after
            && ((forall j :: 0 <= j < n ==> ups[j].id != id) ==> after[id] == s[id])
            && (forall j :: 0 <= j < n && ups[j].id == id ==>
                  after[id] == s[id].(minutes := ups[j].minutes, detail := ups[j].detail))
  {
    UpdateAllIs(s, ups[..n]);
    hide UpdateAll;
    assert forall j :: 0 <= j < n ==> ups[..n][j] == ups[j] && ups[..n][j] in ups[..n];
  }

  // ---------------------------------------------------------------- conservation into the queue

  /** Minutes on the open rows of swept windows, over identifiers below `n`. */
  ghost function OpenMinutes(s: Store, swept: set<int>, n: nat): int {
    if n == 0 then 0
    else OpenMinutes(s, swept, n - 1)
         + if n - 1 in s && s[n - 1].status == Open && s[n - 1].key.windowStart in swept then s[n - 1].minutes else 0
  }

  ghost predicate OpenBelow(s: Store, k: Key, n: nat) {
    exists id: nat :: id < n && OpenAt(s, id, k)
  }

  ghost function FoundOpenBelow(s: Store, found: seq<Found>, n: nat): int {
    if found == [] then 0
    else FoundOpenBelow(s, found[..|found| - 1], n)
         + if OpenBelow(s, found[|found| - 1].key, n) then found[|found| - 1].minutes else 0
  }

  lemma {:induction false} OneMoreId(s: Store, found: seq<Found>, n: nat)
    requires OneOpenPerKey(s) && DistinctFound(found)
    ensures FoundOpenBelow(s, found, n + 1) == FoundOpenBelow(s, found, n)
              + if n in s && s[n].status == Open && Lookup(found, s[n].key).Some?
                then Lookup(found, s[n].key).value.minutes else 0
  {
    if found != [] {
      var m := |found| - 1;
      var f := found[m];
      OneMoreId(s, found[..m], n);
      assert OpenBelow(s, f.key, n + 1) <==> OpenBelow(s, f.key, n) || OpenAt(s, n, f.key) by {
        if OpenAt(s, n, f.key) { assert OpenBelow(s, f.key, n + 1); }
        if OpenBelow(s, f.key, n) {
          var id: nat :| id < n && OpenAt(s, id, f.key);
          assert id < n + 1 && OpenAt(s, id, f.key);
        }
      }
      if OpenAt(s, n, f.key) {
        assert !OpenBelow(s, f.key, n);
        LookupIs(found[..m], f.key);
        assert !FoundKey(found[..m], f.key);
      }
    } else {
      LookupIs(found, if n in s then s[n].key else Key("", 0, Gap));
    }
  }

  lemma {:induction false} NothingBelowZero(s: Store, found: seq<Found>)
    ensures FoundOpenBelow(s, found, 0) == 0
  {
    if found != [] { NothingBelowZero(s, found[..|found| - 1]); }
  }

  lemma {:induction false} OpenRowsAreFoundProblems(s: Store, swept: set<int>, found: seq<Found>, after: Store, n: nat)
    requires FullySwept(s, swept, found, after) && DistinctFound(found) && OneOpenPerKey(after)
    requires forall f :: f in found ==> f.key.windowStart in swept
    ensures OpenMinutes(after, swept, n) == FoundOpenBelow(after, found, n)
  {
    hide FullySwept, HasOpen, FoundKey;
    if n == 0 {
      NothingBelowZero(after, found);
    } else {
      OpenRowsAreFoundProblems(s, swept, found, after, n - 1);
      OneMoreId(after, found, n - 1);
      if n - 1 in after && after[n - 1].status == Open {
        var k := after[n - 1].key;
        assert OpenAt(after, n - 1, k);
        SweepPostState(s, swept, found, after, k);
        LookupIs(found, k);
      }
    }
  }

  lemma {:induction false} OpenBelowAll(after: Store, found: seq<Found>, n: nat, p: Key -> bool)
    requires forall id :: id in after ==> id < n
    requires forall f :: f in found ==> (p(f.key) <==> HasOpen(after, f.key))
    ensures FoundOpenBelow(after, found, n) == FoundMinutes(found, p)
  {
    if found != [] {
      var m := |found| - 1;
      OpenBelowAll(after, found[..m], n, p);
      var f := found[m];
      if HasOpen(after, f.key) {
        var id :| OpenAt(after, id, f.key);
        assert OpenBelow(after, f.key, n);
      }
    }
  }

  /**
   * Main result, scan to queue: after a sweep of what grouping produced, the minutes on
   * the open rows of the swept windows are the minutes of every problem reported,
   * except those for which a person's decision is all that is on file.
   */
  lemma QueueHoldsEveryUndecidedMinute(s: Store, swept: set<int>, flat: seq<Filed>, after: Store, n: nat,
                                       p: Key -> bool)
    requires OneOpenPerKey(s) && FullySwept(s, swept, GroupOf(flat), after)
    requires forall q :: q in flat ==> q.key.windowStart in swept
    requires forall id :: id in after ==> id < n
    requires forall k :: p(k) <==> !DecidedOnly(s, k)
    ensures OpenMinutes(after, swept, n) == FiledMinutes(flat, p)
  {
    var found := GroupOf(flat);
    GroupingConserves(flat, p);
    GroupIsSweepable(flat, swept);
    SweepSafe(s, swept, found, after);
    OpenRowsAreFoundProblems(s, swept, found, after, n);
    forall f | f in found ensures p(f.key) <==> HasOpen(after, f.key) {
      var i :| 0 <= i < |found| && found[i] == f;
      assert FoundKey(found, f.key);
      SweepPostState(s, swept, found, after, f.key);
    }
    OpenBelowAll(after, found, n, p);
  }

  /** What grouping returns meets the sweep's assumptions. */
  lemma GroupIsSweepable(flat: seq<Filed>, swept: set<int>)
    requires forall q :: q in flat ==> q.key.windowStart in swept
    ensures DistinctFound(GroupOf(flat))
    ensures forall f :: f in GroupOf(flat) ==> f.key.windowStart in swept
  {
    KeysOfDistinct(flat);
    var keys := KeysOf(flat);
    forall f | f in GroupOf(flat) ensures f.key.windowStart in swept {
      var i :| 0 <= i < |keys| && GroupOf(flat)[i] == f;
      assert keys[i] in keys;
    }
  }
}
