/**
 * What a nightly sweep does to the stored exceptions
 * (reconcileDataExceptions in packages/api/src/lib/meter-data-exception.ts, and the
 * three writes of packages/api/src/services/meter-data-exception.service.ts).
 */
module DataExceptions {
  import opened Common
  import opened IntervalCoverage
  import opened ExceptionGrouping

  datatype Status = Open | Resolved | Accepted | Estimated

  datatype Row = Row(key: Key, windowEnd: int, status: Status, minutes: int, detail: seq<Sentence>)

  /** A row as the sweep read it. */
  datatype Existing = Existing(id: nat, row: Row)

  datatype Update = Update(id: nat, minutes: int, detail: seq<Sentence>)

  datatype Plan = Plan(toOpen: seq<Found>, toUpdate: seq<Update>, toResolveIds: seq<nat>)

  // ---------------------------------------------------------------- the plan

  /** The row kept per key: the first one read, unless an open one turns up. */
  function Held(existing: seq<Existing>, k: Key): Option<Existing> {
    if existing == [] then None
    else
      var held := Held(existing[..|existing| - 1], k);
      var e := existing[|existing| - 1];
      if e.row.key == k && (held.None? || (held.value.row.status != Open && e.row.status == Open)) then Some(e)
      else held
  }

  function OpenFor(f: Found, held: Option<Existing>): seq<Found> {
    if held.None? then [f] else []
  }

  function UpdateFor(f: Found, held: Option<Existing>): seq<Update> {
    if held.None? || held.value.row.status != Open then []
    else if held.value.row.minutes != f.minutes || held.value.row.detail != f.detail then
      [Update(held.value.id, f.minutes, f.detail)]
    else []
  }

  function ToOpen(found: seq<Found>, existing: seq<Existing>): seq<Found> {
    if found == [] then []
    else
      var f := found[|found| - 1];
      ToOpen(found[..|found| - 1], existing) + OpenFor(f, Held(existing, f.key))
  }

  function ToUpdate(found: seq<Found>, existing: seq<Existing>): seq<Update> {
    if found == [] then []
    else
      var f := found[|found| - 1];
      ToUpdate(found[..|found| - 1], existing) + UpdateFor(f, Held(existing, f.key))
  }

  predicate Resolves(row: Row, swept: set<int>, found: seq<Found>) {
    row.status == Open && row.key.windowStart in swept && !FoundKey(found, row.key)
  }

  predicate FoundKey(found: seq<Found>, k: Key) {
    exists i :: 0 <= i < |found| && found[i].key == k
  }

  function ToResolve(swept: set<int>, found: seq<Found>, existing: seq<Existing>): seq<nat> {
    if existing == [] then []
    else
      var e := existing[|existing| - 1];
      ToResolve(swept, found, existing[..|existing| - 1]) + if Resolves(e.row, swept, found) then [e.id] else []
  }

  function PlanFor(swept: set<int>, found: seq<Found>, existing: seq<Existing>): Plan {
    Plan(ToOpen(found, existing), ToUpdate(found, existing), ToResolve(swept, found, existing))
  }

  /** The source's three loops over a Map of held rows. */
  method ReconcileDataExceptions(swept: set<int>, found: seq<Found>, existing: seq<Existing>) returns (plan: Plan)
    ensures plan == PlanFor(swept, found, existing)
  {
    hide HoldsRows, Held, KeyString, FoundKey, FoundKeys;
    NothingHeld();
    var foundKeys := FoundKeys(found);
    var byKey: map<string, Existing> := map[];
    for i := 0 to |existing|
      invariant HoldsRows(byKey, existing[..i])
    {
      assert existing[..i + 1][..i] == existing[..i];
      OneMoreHeld(byKey, existing[..i + 1]);
      var row := existing[i];
      var key := KeyString(row.row.key);
      if key !in byKey || (byKey[key].row.status != Open && row.row.status == Open) {
        byKey := byKey[key := row];
      }
    }
    assert existing[..|existing|] == existing;
    var toOpen, toUpdate := [], [];
    for i := 0 to |found|
      invariant toOpen == ToOpen(found[..i], existing)
      invariant toUpdate == ToUpdate(found[..i], existing)
    {
      assert found[..i + 1][..i] == found[..i];
      var problem := found[i];
      var key := KeyString(problem.key);
      HeldInMap(byKey, existing, problem.key);
      if key !in byKey {
        toOpen := toOpen + [problem];
      } else {
        var held := byKey[key];
        if held.row.status == Open
           && (held.row.minutes != problem.minutes || held.row.detail != problem.detail) {
          toUpdate := toUpdate + [Update(held.id, problem.minutes, problem.detail)];
        }
      }
    }
    assert found[..|found|] == found;
    var toResolveIds: seq<nat> := [];
    for i := 0 to |existing|
      invariant toResolveIds == ToResolve(swept, found, existing[..i])
    {
      assert existing[..i + 1][..i] == existing[..i];
      var row := existing[i].row;
      FoundKeysExactly(found, row.key);
      if row.status == Open && row.key.windowStart in swept && KeyString(row.key) !in foundKeys {
        toResolveIds := toResolveIds + [existing[i].id];
      }
    }
    plan := Plan(toOpen, toUpdate, toResolveIds);
  }

  /** The Set of the found problems' key strings. */
  function FoundKeys(found: seq<Found>): set<string> { set f | f in found :: KeyString(f.key) }

  lemma FoundKeysExactly(found: seq<Found>, k: Key)
    ensures KeyString(k) in FoundKeys(found) <==> FoundKey(found, k)
  {
    if KeyString(k) in FoundKeys(found) {
      var f :| f in found && KeyString(f.key) == KeyString(k);
      KeyStringInjective(f.key, k);
      var i :| 0 <= i < |found| && found[i] == f;
    }
    if FoundKey(found, k) {
      var i :| 0 <= i < |found| && found[i].key == k;
      assert found[i] in found;
    }
  }

  /** A Map from key strings holds, under each, the row `Held` picks for that key. */
  ghost predicate HoldsRows(byKey: map<string, Existing>, existing: seq<Existing>) {
    forall k ::
      if KeyString(k) in byKey then Held(existing, k) == Some(byKey[KeyString(k)]) else Held(existing, k).None?
  }

  lemma NothingHeld()
    ensures HoldsRows(map[], [])
  {}

  lemma HeldInMap(byKey: map<string, Existing>, existing: seq<Existing>, k: Key)
    requires HoldsRows(byKey, existing)
    ensures Held(existing, k) == if KeyString(k) in byKey then Some(byKey[KeyString(k)]) else None
  {}

  lemma OneMoreHeld(byKey: map<string, Existing>, existing: seq<Existing>)
    requires existing != [] && HoldsRows(byKey, existing[..|existing| - 1])
    ensures var row := existing[|existing| - 1];
            var key := KeyString(row.row.key);
            HoldsRows(if key !in byKey || (byKey[key].row.status != Open && row.row.status == Open)
                      then byKey[key := row]
                      else byKey, existing)
  {
    var row := existing[|existing| - 1];
    var key := KeyString(row.row.key);
    var byKey' :=
      if key !in byKey || (byKey[key].row.status != Open && row.row.status == Open) then byKey[key := row] else byKey;
    forall k
      ensures if KeyString(k) in byKey' then Held(existing, k) == Some(byKey'[KeyString(k)])
              else Held(existing, k).None?
    {
      if KeyString(k) == key { KeyStringInjective(k, row.row.key); }
    }
  }

  // ---------------------------------------------------------------- the store

  type Store = map<nat, Row>

  ghost predicate OpenAt(s: Store, id: nat, k: Key) {
    id in s && s[id].key == k && s[id].status == Open
  }

  ghost predicate HasOpen(s: Store, k: Key) { exists id :: OpenAt(s, id, k) }

  ghost predicate HasUnresolved(s: Store, k: Key) {
    exists id :: id in s && s[id].key == k && s[id].status != Resolved
  }

  /** A row exists for the key and a person has decided every one that is not resolved. */
  ghost predicate DecidedOnly(s: Store, k: Key) { HasUnresolved(s, k) && !HasOpen(s, k) }

  /** The partial unique index over open rows. */
  ghost predicate OneOpenPerKey(s: Store) {
    forall i, j :: i in s && j in s && s[i].status == Open && s[j].status == Open && s[i].key == s[j].key ==> i == j
  }

  /** `existing` is the unresolved rows of the swept windows, in whatever order the query gave them. */
  ghost predicate Lists(existing: seq<Existing>, s: Store, swept: set<int>) {
    && (forall e :: e in existing ==>
          e.id in s && s[e.id] == e.row && e.row.status != Resolved && e.row.key.windowStart in swept)
    && (forall id :: id in s && s[id].status != Resolved && s[id].key.windowStart in swept ==>
          Existing(id, s[id]) in existing)
  }

  ghost predicate DistinctFound(found: seq<Found>) {
    forall i, j :: 0 <= i < j < |found| ==> found[i].key != found[j].key
  }

  ghost predicate SweepReady(s: Store, next: nat, swept: set<int>, found: seq<Found>, existing: seq<Existing>) {
    && OneOpenPerKey(s)
    && (forall id :: id in s ==> id < next)
    && DistinctFound(found)
    && (forall f :: f in found ==> f.key.windowStart in swept)
    && Lists(existing, s, swept)
  }

  function OpenRow(f: Found): Row { Row(f.key, f.windowEnd, Open, f.minutes, f.detail) }

  /** createMany: one statement, consecutive fresh identifiers. */
  function CreateAll(s: Store, next: nat, opens: seq<Found>): Store {
    if opens == [] then s
    else CreateAll(s, next, opens[..|opens| - 1])[next + |opens| - 1 := OpenRow(opens[|opens| - 1])]
  }

  function UpdateAll(s: Store, ups: seq<Update>): Store {
    if ups == [] then s
    else
      var u := ups[|ups| - 1];
      var s' := UpdateAll(s, ups[..|ups| - 1]);
      if u.id in s' then s'[u.id := s'[u.id].(minutes := u.minutes, detail := u.detail)] else s'
  }

  function ResolveAll(s: Store, ids: seq<nat>): Store {
    map id | id in s :: if id in ids then s[id].(status := Resolved) else s[id]
  }

  /**
   * The writes are not one transaction: a run can stop after any of the updates, or
   * before the rows to resolve are resolved.
   */
  function AfterSome(s: Store, next: nat, plan: Plan, updates: nat, resolved: bool): Store
    requires updates <= |plan.toUpdate|
  {
    var updated := UpdateAll(CreateAll(s, next, plan.toOpen), plan.toUpdate[..updates]);
    if resolved then ResolveAll(updated, plan.toResolveIds) else updated
  }

  function AfterAll(s: Store, next: nat, plan: Plan): Store {
    AfterSome(s, next, plan, |plan.toUpdate|, true)
  }

  /** How far the writes got: not begun, the rows created and some of them updated, or all done. */
  datatype Progress = NotBegun | Created(updates: nat) | Finished

  predicate Reachable(plan: Plan, progress: Progress) { progress.Created? ==> progress.updates <= |plan.toUpdate| }

  function StoppedAt(s: Store, next: nat, plan: Plan, progress: Progress): Store
    requires Reachable(plan, progress)
  {
    match progress
    case NotBegun => s
    case Created(updates) => AfterSome(s, next, plan, updates, false)
    case Finished => AfterAll(s, next, plan)
  }

  // ---------------------------------------------------------------- facts about the plan

  lemma {:induction false} HeldIs(existing: seq<Existing>, k: Key)
    ensures var held := Held(existing, k);
            && (held.None? <==> !exists e :: e in existing && e.row.key == k)
            && (held.Some? ==> held.value in existing && held.value.row.key == k)
            && ((exists e :: e in existing && e.row.key == k && e.row.status == Open) ==>
                  held.Some? && held.value.row.status == Open)
  {
    if existing != [] {
      var n := |existing| - 1;
      HeldIs(existing[..n], k);
      assert forall e :: e in existing <==> e in existing[..n] || e == existing[n];
    }
  }

  /** Read through `Lists`, the held row says what the store holds for the key. */
  lemma HeldReflectsStore(s: Store, swept: set<int>, existing: seq<Existing>, k: Key)
    requires OneOpenPerKey(s) && Lists(existing, s, swept) && k.windowStart in swept
    ensures var held := Held(existing, k);
            && (held.None? <==> !HasUnresolved(s, k))
            && (held.Some? ==> held.value.id in s && s[held.value.id] == held.value.row && held.value.row.key == k)
            && (held.Some? && held.value.row.status == Open <==> HasOpen(s, k))
            && (forall id :: OpenAt(s, id, k) ==> held == Some(Existing(id, s[id])))
  {
    HeldIs(existing, k);
    if HasUnresolved(s, k) {
      var id :| id in s && s[id].key == k && s[id].status != Resolved;
      assert Existing(id, s[id]) in existing;
    }
    forall id | OpenAt(s, id, k) ensures Held(existing, k) == Some(Existing(id, s[id])) {
      assert Existing(id, s[id]) in existing;
    }
    var held := Held(existing, k);
    if held.Some? && held.value.row.status == Open { assert OpenAt(s, held.value.id, k); }
  }

  lemma {:induction false} ToOpenIs(found: seq<Found>, existing: seq<Existing>)
    ensures forall f :: f in ToOpen(found, existing) <==> f in found && Held(existing, f.key).None?
    ensures DistinctFound(found) ==> DistinctFound(ToOpen(found, existing))
  {
    if found != [] {
      var n := |found| - 1;
      ToOpenIs(found[..n], existing);
      assert forall f :: f in found <==> f in found[..n] || f == found[n];
      if DistinctFound(found) {
        forall f | f in found[..n] ensures f.key != found[n].key {
          var i :| 0 <= i < n && found[i] == f;
        }
        var before := ToOpen(found[..n], existing);
        assert forall i :: 0 <= i < |before| ==> before[i] in before;
      }
    }
  }

  lemma {:induction false} ToUpdateIs(found: seq<Found>, existing: seq<Existing>)
    ensures forall u :: u in ToUpdate(found, existing) <==>
                        exists f :: f in found && u in UpdateFor(f, Held(existing, f.key))
  {
    if found != [] {
      var n := |found| - 1;
      ToUpdateIs(found[..n], existing);
      assert forall f :: f in found <==> f in found[..n] || f == found[n];
    }
  }

  lemma {:induction false} ToResolveIs(swept: set<int>, found: seq<Found>, existing: seq<Existing>)
    ensures forall id :: id in ToResolve(swept, found, existing) <==>
                         exists e :: e in existing && e.id == id && Resolves(e.row, swept, found)
  {
    if existing != [] {
      var n := |existing| - 1;
      ToResolveIs(swept, found, existing[..n]);
      assert forall e :: e in existing <==> e in existing[..n] || e == existing[n];
    }
  }

  lemma {:induction false} UpdateAllIs(s: Store, ups: seq<Update>)
    ensures UpdateAll(s, ups).Keys == s.Keys
    ensures forall id :: id in s && (forall u :: u in ups ==> u.id != id) ==> UpdateAll(s, ups)[id] == s[id]
    ensures forall u :: u in ups && u.id in s && (forall v :: v in ups && v.id == u.id ==> v == u) ==>
                        UpdateAll(s, ups)[u.id] == s[u.id].(minutes := u.minutes, detail := u.detail)
  {
    if ups != [] {
      var n := |ups| - 1;
      UpdateAllIs(s, ups[..n]);
      assert forall u :: u in ups <==> u in ups[..n] || u == ups[n];
    }
  }

  // ---------------------------------------------------------------- what one row becomes

  function Lookup(found: seq<Found>, k: Key): Option<Found> {
    if found == [] then None
    else if found[|found| - 1].key == k then Some(found[|found| - 1])
    else Lookup(found[..|found| - 1], k)
  }

  lemma {:induction false} LookupIs(found: seq<Found>, k: Key)
    ensures Lookup(found, k).None? <==> !FoundKey(found, k)
    ensures Lookup(found, k).Some? ==> Lookup(found, k).value in found && Lookup(found, k).value.key == k
    ensures DistinctFound(found) ==> forall f :: f in found && f.key == k ==> Lookup(found, k) == Some(f)
  {
    if found != [] {
      var n := |found| - 1;
      LookupIs(found[..n], k);
      assert FoundKey(found, k) <==> FoundKey(found[..n], k) || found[n].key == k by {
        if FoundKey(found[..n], k) {
          var i :| 0 <= i < n && found[..n][i].key == k;
          assert found[i].key == k;
        }
        if i :| 0 <= i < |found| && found[i].key == k { assert i < n ==> found[..n][i].key == k; }
      }
      assert forall f :: f in found <==> f in found[..n] || f == found[n];
      if DistinctFound(found) && found[n].key == k {
        forall f | f in found && f.key == k ensures f == found[n] {
          var i :| 0 <= i < |found| && found[i] == f;
        }
      }
    }
  }

  /** A sweep only touches open rows of swept windows: found again, they are refreshed; not found, resolved. */
  function RowAfterSweep(row: Row, swept: set<int>, found: seq<Found>): Row {
    if row.status != Open || row.key.windowStart !in swept then row
    else match Lookup(found, row.key)
      case Some(f) => row.(minutes := f.minutes, detail := f.detail)
      case None => row.(status := Resolved)
  }

  lemma UpdatesOfRow(s: Store, next: nat, swept: set<int>, found: seq<Found>, existing: seq<Existing>, u: Update)
    requires SweepReady(s, next, swept, found, existing) && u in ToUpdate(found, existing)
    ensures u.id in s && s[u.id].status == Open && s[u.id].key.windowStart in swept
    ensures Lookup(found, s[u.id].key).Some?
    ensures var f := Lookup(found, s[u.id].key).value; u.minutes == f.minutes && u.detail == f.detail
  {
    ToUpdateIs(found, existing);
    var f :| f in found && u in UpdateFor(f, Held(existing, f.key));
    HeldReflectsStore(s, swept, existing, f.key);
    LookupIs(found, f.key);
  }

  lemma OpenRowGetsItsUpdate(s: Store, next: nat, swept: set<int>, found: seq<Found>, existing: seq<Existing>, id: nat)
    requires SweepReady(s, next, swept, found, existing) && id in s
    requires s[id].status == Open && s[id].key.windowStart in swept && FoundKey(found, s[id].key)
    requires RowAfterSweep(s[id], swept, found) != s[id]
    ensures exists u :: u in ToUpdate(found, existing) && u.id == id
  {
    var k := s[id].key;
    LookupIs(found, k);
    HeldReflectsStore(s, swept, existing, k);
    assert OpenAt(s, id, k);
    var f := Lookup(found, k).value;
    ToUpdateIs(found, existing);
    var u := Update(id, f.minutes, f.detail);
    assert UpdateFor(f, Held(existing, f.key)) == [u];
    assert u in UpdateFor(f, Held(existing, f.key));
  }

  lemma {:induction false} CreateAllIs(s: Store, next: nat, opens: seq<Found>)
    requires forall id :: id in s ==> id < next
    ensures forall id: nat :: id in CreateAll(s, next, opens) <==> id in s || next <= id < next + |opens|
    ensures forall id :: id in s ==> CreateAll(s, next, opens)[id] == s[id]
    ensures forall i :: 0 <= i < |opens| ==> CreateAll(s, next, opens)[next + i] == OpenRow(opens[i])
  {
    if opens != [] { CreateAllIs(s, next, opens[..|opens| - 1]); }
  }

  lemma UpdatesAgree(s: Store, next: nat, swept: set<int>, found: seq<Found>, existing: seq<Existing>)
    requires SweepReady(s, next, swept, found, existing)
    ensures var ups := ToUpdate(found, existing);
            && (forall u :: u in ups ==> u.id in s)
            && (forall u, v :: u in ups && v in ups && u.id == v.id ==> u == v)
  {
    forall u | u in ToUpdate(found, existing) { UpdatesOfRow(s, next, swept, found, existing, u); }
  }

  /** Updates and resolutions leave new rows alone and the key set as it is. */
  lemma NewRowsAfterSome(s: Store, next: nat, swept: set<int>, found: seq<Found>, existing: seq<Existing>,
                         updates: nat, resolved: bool)
    requires SweepReady(s, next, swept, found, existing) && updates <= |ToUpdate(found, existing)|
    ensures var plan := PlanFor(swept, found, existing);
            var after := AfterSome(s, next, plan, updates, resolved);
            && after.Keys == CreateAll(s, next, plan.toOpen).Keys
            && (forall i :: 0 <= i < |plan.toOpen| ==> next + i in after && after[next + i] == OpenRow(plan.toOpen[i]))
  {
    var plan := PlanFor(swept, found, existing);
    var created := CreateAll(s, next, plan.toOpen);
    UpdatesAgree(s, next, swept, found, existing);
    CreateAllIs(s, next, plan.toOpen);
    var ups := plan.toUpdate[..updates];
    assert forall u :: u in ups ==> u in plan.toUpdate;
    UpdateAllIs(created, ups);
    ToResolveIs(swept, found, existing);
    var updated := UpdateAll(created, ups);
    assert ResolveAll(updated, plan.toResolveIds).Keys == updated.Keys;
    forall i | 0 <= i < |plan.toOpen|
      ensures AfterSome(s, next, plan, updates, resolved)[next + i] == OpenRow(plan.toOpen[i])
    {
      assert created[next + i] == OpenRow(plan.toOpen[i]);
      assert next + i !in s;
      assert updated[next + i] == created[next + i];
    }
  }

  lemma OldRowAfterSome(s: Store, next: nat, swept: set<int>, found: seq<Found>, existing: seq<Existing>,
                        updates: nat, resolved: bool, id: nat)
    requires SweepReady(s, next, swept, found, existing) && id in s
    requires updates <= |ToUpdate(found, existing)|
    ensures var after := AfterSome(s, next, PlanFor(swept, found, existing), updates, resolved);
            && id in after
            && (after[id] == s[id] || after[id] == RowAfterSweep(s[id], swept, found))
            && (updates == |ToUpdate(found, existing)| && resolved ==> after[id] == RowAfterSweep(s[id], swept, found))
  {
    var plan := PlanFor(swept, found, existing);
    var row := s[id];
    var created := CreateAll(s, next, plan.toOpen);
    CreateAllIs(s, next, plan.toOpen);
    UpdatesAgree(s, next, swept, found, existing);
    var ups := plan.toUpdate[..updates];
    assert forall u :: u in ups ==> u in plan.toUpdate;
    if updates == |plan.toUpdate| { assert ups == plan.toUpdate; }
    UpdateAllIs(created, ups);
    var updated := UpdateAll(created, ups);
    LookupIs(found, row.key);
    if u :| u in ups && u.id == id {
      UpdatesOfRow(s, next, swept, found, existing, u);
      assert updated[id] == RowAfterSweep(row, swept, found);
    } else {
      assert updated[id] == row;
      if updates == |plan.toUpdate| && row.status == Open && row.key.windowStart in swept && FoundKey(found, row.key)
         && RowAfterSweep(row, swept, found) != row {
        OpenRowGetsItsUpdate(s, next, swept, found, existing, id);
      }
    }
    ToResolveIs(swept, found, existing);
    assert id in plan.toResolveIds <==> Resolves(row, swept, found) by {
      if Resolves(row, swept, found) { assert Existing(id, row) in existing; }
    }
  }

  /** A found problem is opened exactly when nothing unresolved is on file for it. */
  lemma OpenedExactlyWhenUnknown(s: Store, next: nat, swept: set<int>, found: seq<Found>, existing: seq<Existing>)
    requires SweepReady(s, next, swept, found, existing)
    ensures forall f :: f in ToOpen(found, existing) <==> f in found && !HasUnresolved(s, f.key)
    ensures DistinctFound(ToOpen(found, existing))
  {
    ToOpenIs(found, existing);
    forall f | f in found ensures Held(existing, f.key).None? <==> !HasUnresolved(s, f.key) {
      HeldReflectsStore(s, swept, existing, f.key);
    }
  }

  // ---------------------------------------------------------------- one sweep, as a relation

  ghost predicate NewRow(s: Store, found: seq<Found>, row: Row) {
    exists f :: f in found && !HasUnresolved(s, f.key) && row == OpenRow(f)
  }

  /** Every found problem with nothing unresolved on file is open. */
  ghost predicate NewRowsOpened(s: Store, found: seq<Found>, after: Store) {
    forall f :: f in found && !HasUnresolved(s, f.key) ==> HasOpen(after, f.key)
  }

  /** `after` is `s` untouched, or with every new row opened and some old rows brought up to date. */
  ghost predicate PartlySwept(s: Store, swept: set<int>, found: seq<Found>, after: Store) {
    && (forall id :: id in s ==> id in after && (after[id] == s[id] || after[id] == RowAfterSweep(s[id], swept, found)))
    && (forall id :: id in after && id !in s ==> NewRow(s, found, after[id]))
    && (forall i, j :: i in after && i !in s && j in after && j !in s && after[i].key == after[j].key ==> i == j)
    && (after == s || NewRowsOpened(s, found, after))
  }

  ghost predicate FullySwept(s: Store, swept: set<int>, found: seq<Found>, after: Store) {
    && PartlySwept(s, swept, found, after) && NewRowsOpened(s, found, after)
    && (forall id :: id in s ==> after[id] == RowAfterSweep(s[id], swept, found))
  }

  lemma NewRowsRealiseSweep(s: Store, next: nat, found: seq<Found>, opens: seq<Found>, after: Store)
    requires forall id :: id in s ==> id < next
    requires forall f :: f in opens <==> f in found && !HasUnresolved(s, f.key)
    requires DistinctFound(opens)
    requires forall id: nat :: id in after <==> id in s || next <= id < next + |opens|
    requires forall i :: 0 <= i < |opens| ==> after[next + i] == OpenRow(opens[i])
    ensures forall id :: id in after && id !in s ==> NewRow(s, found, after[id])
    ensures forall i, j :: i in after && i !in s && j in after && j !in s && after[i].key == after[j].key ==> i == j
    ensures forall f :: f in found && !HasUnresolved(s, f.key) ==> HasOpen(after, f.key)
  {
    forall id | id in after && id !in s
      ensures next <= id < next + |opens| && after[id] == OpenRow(opens[id - next])
      ensures NewRow(s, found, after[id])
    {
      assert after[next + (id - next)] == OpenRow(opens[id - next]);
      assert opens[id - next] in opens;
    }
    forall f | f in found && !HasUnresolved(s, f.key) ensures HasOpen(after, f.key) {
      var i :| 0 <= i < |opens| && opens[i] == f;
      assert OpenAt(after, next + i, f.key);
    }
  }

  /** The three writes realise the relation, wherever they stop. */
  lemma WritesRealiseSweep(s: Store, next: nat, swept: set<int>, found: seq<Found>, existing: seq<Existing>,
                           progress: Progress)
    requires SweepReady(s, next, swept, found, existing) && Reachable(PlanFor(swept, found, existing), progress)
    ensures var after := StoppedAt(s, next, PlanFor(swept, found, existing), progress);
            && PartlySwept(s, swept, found, after)
            && (progress.Finished? ==> FullySwept(s, swept, found, after))
            && (forall id :: id in after ==> id < next + |ToOpen(found, existing)|)
  {
    match progress
    case NotBegun =>
    case Created(updates) => SomeWritesRealiseSweep(s, next, swept, found, existing, updates, false);
    case Finished => SomeWritesRealiseSweep(s, next, swept, found, existing, |ToUpdate(found, existing)|, true);
  }

  lemma SomeWritesRealiseSweep(s: Store, next: nat, swept: set<int>, found: seq<Found>, existing: seq<Existing>,
                               updates: nat, resolved: bool)
    requires SweepReady(s, next, swept, found, existing) && updates <= |ToUpdate(found, existing)|
    ensures var after := AfterSome(s, next, PlanFor(swept, found, existing), updates, resolved);
            && PartlySwept(s, swept, found, after)
            && (updates == |ToUpdate(found, existing)| && resolved ==> FullySwept(s, swept, found, after))
            && (forall id :: id in after ==> id < next + |ToOpen(found, existing)|)
  {
    hide HasUnresolved, HasOpen, NewRow, RowAfterSweep, UpdateAll, ResolveAll, CreateAll, OpenRow, ToOpen, ToUpdate;
    var opens := ToOpen(found, existing);
    var after := AfterSome(s, next, PlanFor(swept, found, existing), updates, resolved);
    NewRowsAfterSome(s, next, swept, found, existing, updates, resolved);
    CreateAllIs(s, next, opens);
    OpenedExactlyWhenUnknown(s, next, swept, found, existing);
    assert forall id: nat :: id in after <==> id in CreateAll(s, next, opens);
    NewRowsRealiseSweep(s, next, found, opens, after);
    forall id | id in s
      ensures id in after && (after[id] == s[id] || after[id] == RowAfterSweep(s[id], swept, found))
      ensures updates == |ToUpdate(found, existing)| && resolved ==> after[id] == RowAfterSweep(s[id], swept, found)
    {
      OldRowAfterSome(s, next, swept, found, existing, updates, resolved, id);
    }
  }

  /**
   * At whatever point a sweep stops, the unique index holds and no decided,
   * resolved or unswept row has moved.
   */
  lemma SweepSafe(s: Store, swept: set<int>, found: seq<Found>, after: Store)
    requires OneOpenPerKey(s) && PartlySwept(s, swept, found, after)
    requires forall f :: f in found ==> f.key.windowStart in swept
    ensures OneOpenPerKey(after)
    ensures forall id :: id in s && (s[id].status != Open || s[id].key.windowStart !in swept) ==> after[id] == s[id]
    ensures forall id :: id in after && id !in s ==> after[id].key.windowStart in swept
  {
    forall id | id in after && id !in s ensures !HasUnresolved(s, after[id].key) {
      assert NewRow(s, found, after[id]);
    }
    forall id | id in s && after[id].status == Open
      ensures s[id].status == Open && after[id].key == s[id].key && HasUnresolved(s, after[id].key)
    {}
  }

  /** Open rows after a sweep come from open rows before it or from problems nobody knew. */
  lemma OpenAfterwards(s: Store, swept: set<int>, found: seq<Found>, after: Store, k: Key)
    requires PartlySwept(s, swept, found, after) && HasOpen(after, k)
    ensures HasOpen(s, k) || (FoundKey(found, k) && !HasUnresolved(s, k))
  {
    var id :| OpenAt(after, id, k);
    if id in s {
      assert OpenAt(s, id, k);
    } else {
      var f :| f in found && !HasUnresolved(s, f.key) && after[id] == OpenRow(f);
      var i :| 0 <= i < |found| && found[i] == f;
      assert FoundKey(found, k);
    }
  }

  /** A problem that is found, and that nobody has decided, is open once the new rows are. */
  lemma FoundStaysOpen(s: Store, swept: set<int>, found: seq<Found>, after: Store, k: Key)
    requires PartlySwept(s, swept, found, after) && NewRowsOpened(s, found, after)
    requires FoundKey(found, k) && !DecidedOnly(s, k)
    ensures HasOpen(after, k)
  {
    LookupIs(found, k);
    if HasOpen(s, k) {
      var id :| OpenAt(s, id, k);
      assert OpenAt(after, id, k);
    }
  }

  /** Main result: exactly which problems are open after a sweep, and what their rows say. */
  lemma SweepPostState(s: Store, swept: set<int>, found: seq<Found>, after: Store, k: Key)
    requires FullySwept(s, swept, found, after) && DistinctFound(found)
    requires forall f :: f in found ==> f.key.windowStart in swept
    ensures HasOpen(after, k) <==>
            if k.windowStart in swept then FoundKey(found, k) && !DecidedOnly(s, k) else HasOpen(s, k)
    ensures forall id :: OpenAt(after, id, k) && k.windowStart in swept ==>
                         var hit := Lookup(found, k);
                         hit.Some? && after[id].minutes == hit.value.minutes && after[id].detail == hit.value.detail
  {
    LookupIs(found, k);
    if HasOpen(after, k) { OpenAfterwards(s, swept, found, after, k); }
    if FoundKey(found, k) && !DecidedOnly(s, k) { FoundStaysOpen(s, swept, found, after, k); }
    if k.windowStart !in swept && HasOpen(s, k) {
      var id :| OpenAt(s, id, k);
      assert OpenAt(after, id, k);
    }
    forall id | OpenAt(after, id, k) && k.windowStart in swept
      ensures Lookup(found, k).Some? && after[id].minutes == Lookup(found, k).value.minutes
              && after[id].detail == Lookup(found, k).value.detail
    {
      if id !in s { assert NewRow(s, found, after[id]); }
    }
  }

  /** An open row that says what was found. */
  ghost predicate Records(row: Row, f: Found) {
    && row.status == Open && row.key == f.key && row.windowEnd == f.windowEnd
    && row.minutes == f.minutes && row.detail == f.detail
  }

  /**
   * Main result, row by row and field by field: a new row says what some finding does, and
   * there is just one for each finding nobody knew; an old row keeps its key and window and,
   * if it was open in a swept window, takes on its finding's minutes and detail, or is
   * resolved when there is none.
   */
  lemma RowsAfterSweep(s: Store, swept: set<int>, found: seq<Found>, after: Store, id: nat)
    requires FullySwept(s, swept, found, after) && DistinctFound(found)
    ensures id in s ==>
              && id in after && after[id].key == s[id].key && after[id].windowEnd == s[id].windowEnd
              && (s[id].status != Open || s[id].key.windowStart !in swept ==> after[id] == s[id])
              && (s[id].status == Open && s[id].key.windowStart in swept ==>
                    if FoundKey(found, s[id].key) then
                      after[id].status == Open
                      && forall f :: f in found && f.key == s[id].key ==>
                           after[id].minutes == f.minutes && after[id].detail == f.detail
                    else after[id].status == Resolved && after[id].minutes == s[id].minutes
                         && after[id].detail == s[id].detail)
    ensures id in after && id !in s ==> exists f :: f in found && Records(after[id], f) && !HasUnresolved(s, f.key)
    ensures forall f :: f in found && !HasUnresolved(s, f.key) ==>
                        exists at: nat :: at in after && at !in s && Records(after[at], f)
    ensures forall at :: id in after && id !in s && at in after && at !in s && after[id].key == after[at].key ==>
                         id == at
  {
    if id in s { LookupIs(found, s[id].key); }
    if id in after && id !in s { assert NewRow(s, found, after[id]); }
    forall f | f in found && !HasUnresolved(s, f.key)
      ensures exists at: nat :: at in after && at !in s && Records(after[at], f)
    {
      NewRowRecords(s, swept, found, after, f);
    }
  }

  lemma NewRowsRecord(s: Store, swept: set<int>, found: seq<Found>, after: Store)
    requires FullySwept(s, swept, found, after) && DistinctFound(found)
    ensures forall id :: id in after && id !in s ==> exists f :: f in found && Records(after[id], f)
  {
    hide FullySwept;
    forall id | id in after && id !in s ensures exists f :: f in found && Records(after[id], f) {
      RowsAfterSweep(s, swept, found, after, id);
    }
  }

  lemma NewRowRecords(s: Store, swept: set<int>, found: seq<Found>, after: Store, f: Found)
    requires FullySwept(s, swept, found, after) && DistinctFound(found) && f in found && !HasUnresolved(s, f.key)
    ensures exists at: nat :: at in after && at !in s && Records(after[at], f)
  {
    assert HasOpen(after, f.key);
    forall id | id in s ensures !OpenAt(after, id, f.key) {}
    var at :| OpenAt(after, at, f.key);
    assert NewRow(s, found, after[at]);
    var g :| g in found && !HasUnresolved(s, g.key) && after[at] == OpenRow(g);
    LookupIs(found, f.key);
    assert Records(after[at], f);
  }

  /** Every key with an unresolved row keeps one, unless its only unresolved row was open and is gone. */
  lemma FoundStaysKnown(s: Store, swept: set<int>, found: seq<Found>, after: Store, k: Key)
    requires FullySwept(s, swept, found, after) && FoundKey(found, k)
    ensures HasUnresolved(after, k)
  {
    if DecidedOnly(s, k) {
      var id :| id in s && s[id].key == k && s[id].status != Resolved;
      assert !OpenAt(s, id, k);
      assert after[id] == s[id];
    } else {
      FoundStaysOpen(s, swept, found, after, k);
      var id :| OpenAt(after, id, k);
    }
  }

  lemma {:induction false} NothingToOpen(found: seq<Found>, existing: seq<Existing>)
    requires forall f :: f in found ==> Held(existing, f.key).Some?
    ensures ToOpen(found, existing) == []
  {
    if found != [] { NothingToOpen(found[..|found| - 1], existing); }
  }

  lemma {:induction false} NothingToUpdate(found: seq<Found>, existing: seq<Existing>)
    requires forall f :: f in found ==> UpdateFor(f, Held(existing, f.key)) == []
    ensures ToUpdate(found, existing) == []
  {
    if found != [] { NothingToUpdate(found[..|found| - 1], existing); }
  }

  lemma {:induction false} NothingToResolve(swept: set<int>, found: seq<Found>, existing: seq<Existing>)
    requires forall e :: e in existing ==> !Resolves(e.row, swept, found)
    ensures ToResolve(swept, found, existing) == []
  {
    if existing != [] { NothingToResolve(swept, found, existing[..|existing| - 1]); }
  }

  /** Main result: reconciling again with the same findings asks for nothing. */
  lemma SecondSweepWritesNothing(s: Store, swept: set<int>, found: seq<Found>, after: Store, again: seq<Existing>)
    requires OneOpenPerKey(s) && FullySwept(s, swept, found, after) && DistinctFound(found)
    requires forall f :: f in found ==> f.key.windowStart in swept
    requires Lists(again, after, swept)
    ensures PlanFor(swept, found, again) == Plan([], [], [])
  {
    SweepSafe(s, swept, found, after);
    forall f | f in found
      ensures Held(again, f.key).Some? && UpdateFor(f, Held(again, f.key)) == []
    {
      var i :| 0 <= i < |found| && found[i] == f;
      assert FoundKey(found, f.key);
      LookupIs(found, f.key);
      FoundStaysKnown(s, swept, found, after, f.key);
      SweepPostState(s, swept, found, after, f.key);
      HeldReflectsStore(after, swept, again, f.key);
    }
    forall e | e in again ensures !Resolves(e.row, swept, found) {
      if e.row.status == Open {
        assert OpenAt(after, e.id, e.row.key);
        SweepPostState(s, swept, found, after, e.row.key);
      }
    }
    NothingToOpen(found, again);
    NothingToUpdate(found, again);
    NothingToResolve(swept, found, again);
  }

  /**
   * Main result: a sweep that dies half applied is repaired by the next one. The same
   * findings lead to the same open problems, with the same minutes and detail, as if
   * the first had finished.
   */
  lemma InterruptedSweepHeals(s: Store, swept: set<int>, found: seq<Found>,
                              partial: Store, finished: Store, healed: Store, k: Key)
    requires DistinctFound(found) && forall f :: f in found ==> f.key.windowStart in swept
    requires PartlySwept(s, swept, found, partial)
    requires FullySwept(s, swept, found, finished) && FullySwept(partial, swept, found, healed)
    ensures HasOpen(healed, k) <==> HasOpen(finished, k)
    ensures forall i, j :: k.windowStart in swept && OpenAt(healed, i, k) && OpenAt(finished, j, k) ==>
                           healed[i].minutes == finished[j].minutes && healed[i].detail == finished[j].detail
  {
    SweepPostState(s, swept, found, finished, k);
    SweepPostState(partial, swept, found, healed, k);
    if partial == s {
    } else if k.windowStart in swept && FoundKey(found, k) {
      if DecidedOnly(s, k) {
        var id :| id in s && s[id].key == k && s[id].status != Resolved;
        assert !OpenAt(s, id, k);
        assert partial[id] == s[id];
        if HasOpen(partial, k) { OpenAfterwards(s, swept, found, partial, k); }
      } else {
        FoundStaysOpen(s, swept, found, partial, k);
      }
    } else if k.windowStart !in swept {
      if HasOpen(partial, k) { OpenAfterwards(s, swept, found, partial, k); NotFoundOutside(found, swept, k); }
      if HasOpen(s, k) {
        var id :| OpenAt(s, id, k);
        assert OpenAt(partial, id, k);
      }
    }
  }

  lemma NotFoundOutside(found: seq<Found>, swept: set<int>, k: Key)
    requires k.windowStart !in swept && forall f :: f in found ==> f.key.windowStart in swept
    ensures !FoundKey(found, k)
  {}
}
