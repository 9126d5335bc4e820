/**
 * Ledger entries, the applications that settle them, and the two balance formulas of
 * seed/delinquency-ladder.js and seed/payment-plan.js. Money is integer cents and dates
 * are day numbers.
 */
module LedgerEntries {
  import opened Common

  datatype EntryType = BillCharge | Fee | Reversal | Payment | Deposit | Other

  /** `amount` is positive for a debit and negative for a credit; an entry's identifier is its position. */
  datatype Entry = Entry(kind: EntryType, amount: int, openAmount: int, dueDate: Option<int>, effectiveDate: int,
                         reverses: Option<nat>, assessedOn: Option<nat>)

  datatype Application = Application(creditId: nat, debitId: nat, amount: int)

  /** What applications have taken off a debit, or, negatively, off a credit. */
  function Settled(apps: seq<Application>, id: nat): int {
    if apps == [] then 0
    else
      var a := apps[|apps| - 1];
      Settled(apps[..|apps| - 1], id)
      + (if a.debitId == id then a.amount else 0) - (if a.creditId == id then a.amount else 0)
  }

  ghost predicate WellFormed(entries: seq<Entry>, apps: seq<Application>) {
    forall i :: 0 <= i < |apps| ==>
      apps[i].creditId < |entries| && apps[i].debitId < |entries| && apps[i].creditId != apps[i].debitId
  }

  /** Every entry's open amount is its amount net of the applications settling it. */
  ghost predicate Reconciled(entries: seq<Entry>, apps: seq<Application>) {
    && WellFormed(entries, apps)
    && forall id :: 0 <= id < |entries| ==> entries[id].openAmount == entries[id].amount - Settled(apps, id)
  }

  function SumAmounts(entries: seq<Entry>): int {
    if entries == [] then 0 else SumAmounts(entries[..|entries| - 1]) + entries[|entries| - 1].amount
  }

  function SumOpen(entries: seq<Entry>): int {
    if entries == [] then 0 else SumOpen(entries[..|entries| - 1]) + entries[|entries| - 1].openAmount
  }

  /** SUM(open_amount) over entries that are not deposits. */
  function Owed(entries: seq<Entry>): int {
    if entries == [] then 0
    else
      var e := entries[|entries| - 1];
      Owed(entries[..|entries| - 1]) + if e.kind == Deposit then 0 else e.openAmount
  }

  /** The plan's formula: the same, over positive open amounts only. */
  function OwedPositive(entries: seq<Entry>): int {
    if entries == [] then 0
    else
      var e := entries[|entries| - 1];
      OwedPositive(entries[..|entries| - 1]) + if e.kind == Deposit || e.openAmount <= 0 then 0 else e.openAmount
  }

  /** The earliest due date of an open debit. */
  function OldestDue(entries: seq<Entry>): Option<int> {
    if entries == [] then None
    else
      var before := OldestDue(entries[..|entries| - 1]);
      var e := entries[|entries| - 1];
      if e.openAmount > 0 && e.dueDate.Some? && (before.None? || e.dueDate.value < before.value) then e.dueDate
      else before
  }

  // ---------------------------------------------------------------- reconciliation balances the ledger

  function SumSettled(apps: seq<Application>, n: nat): int {
    if n == 0 then 0 else SumSettled(apps, n - 1) + Settled(apps, n - 1)
  }

  lemma {:induction false} SumSettledOneMore(apps: seq<Application>, a: Application, n: nat)
    ensures SumSettled(apps + [a], n) == SumSettled(apps, n)
            + (if a.debitId < n then a.amount else 0) - (if a.creditId < n then a.amount else 0)
  {
    if n > 0 {
      SumSettledOneMore(apps, a, n - 1);
      SettledOneMore(apps, a, n - 1);
    }
  }

  lemma SettledOneMore(apps: seq<Application>, a: Application, id: nat)
    ensures Settled(apps + [a], id) ==
            Settled(apps, id) + (if a.debitId == id then a.amount else 0) - (if a.creditId == id then a.amount else 0)
  {
    assert (apps + [a])[..|apps + [a]| - 1] == apps;
  }

  lemma {:induction false} ApplicationsCancel(entries: seq<Entry>, apps: seq<Application>)
    requires WellFormed(entries, apps)
    ensures SumSettled(apps, |entries|) == 0
  {
    if apps == [] {
      NothingSettled(|entries|);
    } else {
      var n := |apps| - 1;
      ApplicationsCancel(entries, apps[..n]);
      assert apps == apps[..n] + [apps[n]];
      SumSettledOneMore(apps[..n], apps[n], |entries|);
    }
  }

  lemma {:induction false} NothingSettled(n: nat)
    ensures SumSettled([], n) == 0
  {
    if n > 0 { NothingSettled(n - 1); }
  }

  lemma {:induction false} OpenIsAmountLessSettled(entries: seq<Entry>, apps: seq<Application>, n: nat)
    requires n <= |entries|
    requires forall id :: 0 <= id < n ==> entries[id].openAmount == entries[id].amount - Settled(apps, id)
    ensures SumOpen(entries[..n]) == SumAmounts(entries[..n]) - SumSettled(apps, n)
  {
    if n > 0 {
      OpenIsAmountLessSettled(entries, apps, n - 1);
      assert entries[..n][..n - 1] == entries[..n - 1];
    }
  }

  /** Main result: in a reconciled ledger the amounts and the open amounts have the same sum. */
  lemma ReconciledBalances(entries: seq<Entry>, apps: seq<Application>)
    requires Reconciled(entries, apps)
    ensures SumOpen(entries) == SumAmounts(entries)
  {
    OpenIsAmountLessSettled(entries, apps, |entries|);
    ApplicationsCancel(entries, apps);
    assert entries[..|entries|] == entries;
  }

  // ---------------------------------------------------------------- the two balance formulas

  ghost predicate NoOpenCredit(entries: seq<Entry>) {
    forall id :: 0 <= id < |entries| && entries[id].kind != Deposit ==> entries[id].openAmount >= 0
  }

  /** Main result: the plan's balance and the ladder's agree exactly when no credit other than a deposit is open. */
  lemma {:induction false} BalanceFormulasAgreeExactly(entries: seq<Entry>)
    ensures OwedPositive(entries) >= Owed(entries)
    ensures OwedPositive(entries) == Owed(entries) <==> NoOpenCredit(entries)
  {
    if entries != [] {
      var n := |entries| - 1;
      BalanceFormulasAgreeExactly(entries[..n]);
      assert NoOpenCredit(entries) <==>
             NoOpenCredit(entries[..n]) && (entries[n].kind != Deposit ==> entries[n].openAmount >= 0) by {
        assert forall id :: 0 <= id < n ==> entries[..n][id] == entries[id];
      }
    }
  }

  /** A bill of ten and an unapplied payment of four: one formula says six, the other ten. */
  lemma OpenCreditExample()
    ensures var entries := [Entry(BillCharge, 1000, 1000, Some(0), 0, None, None),
                            Entry(Payment, -400, -400, None, 0, None, None)];
            !NoOpenCredit(entries) && Owed(entries) == 600 && OwedPositive(entries) == 1000
  {
    var entries := [Entry(BillCharge, 1000, 1000, Some(0), 0, None, None),
                    Entry(Payment, -400, -400, None, 0, None, None)];
    assert entries[..1] == [entries[0]] && entries[..1][..0] == [];
    assert entries[1].openAmount < 0;
  }

  lemma {:induction false} OwedUpdate(entries: seq<Entry>, id: nat, e: Entry)
    requires id < |entries| && e.kind == entries[id].kind
    ensures Owed(entries[id := e]) ==
            Owed(entries) + if e.kind == Deposit then 0 else e.openAmount - entries[id].openAmount
  {
    var n := |entries| - 1;
    if id < n {
      OwedUpdate(entries[..n], id, e);
      assert entries[id := e][..n] == entries[..n][id := e];
    } else {
      assert entries[id := e][..n] == entries[..n];
    }
  }

  lemma OwedAppend(entries: seq<Entry>, e: Entry)
    ensures Owed(entries + [e]) == Owed(entries) + if e.kind == Deposit then 0 else e.openAmount
  {
    assert (entries + [e])[..|entries|] == entries;
  }

  lemma {:induction false} OldestDueIs(entries: seq<Entry>)
    ensures var oldest := OldestDue(entries);
            && (oldest.Some? ==>
                  exists id :: 0 <= id < |entries| && entries[id].openAmount > 0 && entries[id].dueDate == oldest)
            && (forall id :: 0 <= id < |entries| && entries[id].openAmount > 0 && entries[id].dueDate.Some? ==>
                  oldest.Some? && oldest.value <= entries[id].dueDate.value)
  {
    if entries != [] {
      var n := |entries| - 1;
      OldestDueIs(entries[..n]);
      assert forall id :: 0 <= id < n ==> entries[..n][id] == entries[id];
      if OldestDue(entries) == OldestDue(entries[..n]) && OldestDue(entries).Some? {
        var id :| 0 <= id < n && entries[..n][id].openAmount > 0 && entries[..n][id].dueDate == OldestDue(entries);
        assert entries[id].openAmount > 0;
      }
    }
  }
}
