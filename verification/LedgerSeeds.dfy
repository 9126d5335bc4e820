/**
 * The late-fee ladder of seed/delinquency-ladder.js and the payment plan of
 * seed/payment-plan.js, on a ledger they update in place.
 */
module LedgerSeeds {
  import opened Common
  import opened LedgerEntries
  import opened LadderRules
  import GregorianMonths
  import BillingCalendar

  // ---------------------------------------------------------------- which debts

  /** Open, with a due date before today; bill charges only, if so asked. */
  predicate Overdue(e: Entry, today: int, billsOnly: bool) {
    e.openAmount > 0 && e.dueDate.Some? && e.dueDate.value < today && (billsOnly ==> e.kind == BillCharge)
  }

  /** The overdue entry, other than `except`, that comes first by due date and then by identifier. */
  function OldestOverdue(entries: seq<Entry>, today: int, billsOnly: bool, except: Option<nat>): (oldest: Option<nat>)
    ensures oldest.Some? ==>
              oldest.value < |entries| && Overdue(entries[oldest.value], today, billsOnly) && oldest != except
  {
    if entries == [] then None
    else
      var n := |entries| - 1;
      var before := OldestOverdue(entries[..n], today, billsOnly, except);
      if Overdue(entries[n], today, billsOnly) && except != Some(n)
         && (before.None? || entries[n].dueDate.value < entries[before.value].dueDate.value) then Some(n)
      else before
  }

  /** Nothing that qualifies is due before it, and what is due the same day has a higher identifier. */
  lemma {:induction false} OldestOverdueIs(entries: seq<Entry>, today: int, billsOnly: bool, except: Option<nat>,
                                           id: nat)
    requires id < |entries| && Overdue(entries[id], today, billsOnly) && except != Some(id)
    ensures var oldest := OldestOverdue(entries, today, billsOnly, except);
            && oldest.Some? && entries[oldest.value].dueDate.value <= entries[id].dueDate.value
            && (entries[oldest.value].dueDate == entries[id].dueDate ==> oldest.value <= id)
  {
    var n := |entries| - 1;
    if id < n { OldestOverdueIs(entries[..n], today, billsOnly, except, id); }
  }

  /** Something is open on it and it was due before today. */
  ghost predicate InArrears(e: Entry, today: int) {
    e.openAmount > 0 && e.dueDate.Some? && e.dueDate.value < today
  }

  /** The debts a plan covers: the two oldest overdue, or what there is. */
  function CoveredDebts(entries: seq<Entry>, today: int): seq<nat> {
    var first := OldestOverdue(entries, today, false, None);
    if first.None? then []
    else
      var second := OldestOverdue(entries, today, false, first);
      [first.value] + if second.Some? then [second.value] else []
  }

  /**
   * They are distinct debts, oldest first; there are none exactly when nothing is
   * overdue, and none left out is older.
   */
  lemma CoveredDebtsAreOldest(entries: seq<Entry>, today: int)
    ensures var debts := CoveredDebts(entries, today);
            && Arrears(entries, debts) && |debts| <= 2
            && (forall k :: 0 <= k < |debts| ==> InArrears(entries[debts[k]], today))
            && (|debts| == 2 ==> entries[debts[0]].dueDate.value <= entries[debts[1]].dueDate.value)
            && (debts == [] <==> forall id :: 0 <= id < |entries| ==> !InArrears(entries[id], today))
            && (forall id :: 0 <= id < |entries| && InArrears(entries[id], today) && id !in debts ==>
                  |debts| == 2 && entries[debts[1]].dueDate.value <= entries[id].dueDate.value)
  {
    var debts, first := CoveredDebts(entries, today), OldestOverdue(entries, today, false, None);
    forall id | 0 <= id < |entries| && InArrears(entries[id], today)
      ensures first.Some? && entries[first.value].dueDate.value <= entries[id].dueDate.value
      ensures Some(id) != first ==> |debts| == 2 && entries[debts[1]].dueDate.value <= entries[id].dueDate.value
    {
      OldestOverdueIs(entries, today, false, None, id);
      if Some(id) != first { OldestOverdueIs(entries, today, false, first, id); }
    }
    assert forall k :: 0 <= k < |debts| ==> debts[k] in debts;
  }

  // ---------------------------------------------------------------- the days a fee may be dated

  /** The date of the account's latest bill. */
  function LatestBillDate(billDates: seq<int>): (latest: int)
    requires billDates != []
    ensures latest in billDates && forall d :: d in billDates ==> d <= latest
  {
    var last := billDates[|billDates| - 1];
    if |billDates| == 1 then last
    else
      var before := LatestBillDate(billDates[..|billDates| - 1]);
      assert forall d :: d in billDates ==> d in billDates[..|billDates| - 1] || d == last;
      Max(before, last)
  }

  /** The last day a fee may be dated: the day before the bill date of the next run. */
  function WindowEnd(ms: GregorianMonths.Calendar, billDay: int, today: int): int {
    BillingCalendar.NextRunBillDate(ms, billDay, today) - 1
  }

  /** There is room for a fee between the latest bill and the next. */
  predicate RoomForFees(ms: GregorianMonths.Calendar, billDay: int, today: int, billDates: seq<int>)
    requires billDates != []
  {
    WindowEnd(ms, billDay, today) > LatestBillDate(billDates) + 1
  }

  // ---------------------------------------------------------------- what the ladder leaves

  /** The overdue bill charge: its entry, its due date and the last day a fee may be dated. */
  datatype Bill = Bill(debit: nat, due: int, windowEnd: int)

  const FEE_DUE_DAYS := 30

  function FeeOf(rule: Rule, bill: Bill): Entry {
    var effective := Min(bill.due + rule.daysPastDue, bill.windowEnd);
    Entry(Fee, rule.feeAmount, rule.feeAmount, Some(effective + FEE_DUE_DAYS), effective, None, Some(bill.debit))
  }

  /** From `base` on, the open entries are exactly `fees`, one fee in full for each of `rules`. */
  ghost predicate LeftOpen(entries: seq<Entry>, base: nat, fees: seq<nat>, rules: seq<Rule>, bill: Bill) {
    && |fees| == |rules|
    && (forall k :: 0 <= k < |fees| ==> base <= fees[k] < |entries| && entries[fees[k]] == FeeOf(rules[k], bill))
    && (forall i, j :: 0 <= i < j < |fees| ==> fees[i] != fees[j])
    && (forall id :: base <= id < |entries| && id !in fees ==> entries[id].openAmount == 0)
  }

  /** The record of a tier acted on, linked to the fee it raised. */
  datatype Action = Action(tier: int, daysPastDue: int, feeId: nat)

  /** One action per fired rule, linked to a fee of that rule's amount on this bill. */
  ghost predicate Recorded(entries: seq<Entry>, actions: seq<Action>, fired: seq<Rule>, bill: Bill) {
    && |actions| == |fired|
    && forall i :: 0 <= i < |actions| ==>
         && actions[i].tier == fired[i].tier && actions[i].daysPastDue == fired[i].daysPastDue
         && actions[i].feeId < |entries|
         && entries[actions[i].feeId].(openAmount := fired[i].feeAmount) == FeeOf(fired[i], bill)
  }

  /** The ledger `before` after a ladder in which `fired` charged: its entries, its actions and what is owed. */
  ghost predicate LadderRan(before: seq<Entry>, after: seq<Entry>, actions: seq<Action>, open: seq<nat>,
                            fired: seq<Rule>, bill: Bill)
  {
    && |before| <= |after| && after[..|before|] == before
    && LeftOpen(after, |before|, open, Surviving(fired), bill)
    && Recorded(after, actions, fired, bill)
    && Owed(after) == Owed(before) + SumFees(Surviving(fired))
    && (fired == [] ==> after == before)
  }

  /** A fee prints on the first bill issued after its date: on this one when `latest` is the bill before it. */
  ghost predicate AllPrint(entries: seq<Entry>, fees: seq<nat>, latest: int, billDate: int)
    requires Within(fees, entries)
  {
    forall k :: 0 <= k < |fees| ==> latest < entries[fees[k]].effectiveDate <= billDate
  }

  /** Each tier was reached after the latest bill, and its fee is not dated past the next. */
  ghost predicate AllReached(rules: seq<Rule>, due: int, latest: int, billDate: int, windowEnd: int) {
    forall k :: 0 <= k < |rules| ==>
      latest < due + rules[k].daysPastDue && (due + rules[k].daysPastDue <= billDate || windowEnd <= billDate)
  }

  lemma OpenFeesPrint(entries: seq<Entry>, base: nat, open: seq<nat>, rules: seq<Rule>, bill: Bill, latest: int,
                      billDate: int)
    requires LeftOpen(entries, base, open, rules, bill) && latest < bill.windowEnd
    ensures Within(open, entries)
    ensures AllPrint(entries, open, latest, billDate) <==>
            AllReached(rules, bill.due, latest, billDate, bill.windowEnd)
  {
    forall k | 0 <= k < |open|
      ensures latest < entries[open[k]].effectiveDate <= billDate <==>
              && latest < bill.due + rules[k].daysPastDue
              && (bill.due + rules[k].daysPastDue <= billDate || bill.windowEnd <= billDate)
    {
      assert entries[open[k]] == FeeOf(rules[k], bill);
    }
  }

  /**
   * Main result: what the ladder leaves open all prints on the bill of the next run
   * exactly when every surviving tier was reached after the latest bill and none is dated
   * past the run; for the bill days the product accepts none ever is.
   */
  lemma FeesPrintExactly(ms: GregorianMonths.Calendar, c: BillingCalendar.Cycle, today: int, billDates: seq<int>,
                         before: seq<Entry>, after: seq<Entry>, actions: seq<Action>, open: seq<nat>,
                         fired: seq<Rule>, bill: Bill)
    requires c.Valid() && billDates != [] && RoomForFees(ms, c.billDayOfMonth, today, billDates)
    requires bill.windowEnd == WindowEnd(ms, c.billDayOfMonth, today)
    requires LadderRan(before, after, actions, open, fired, bill)
    ensures var latest, run := LatestBillDate(billDates), BillingCalendar.CycleWindow(ms, c, today).endDate;
            && Within(open, after)
            && (AllPrint(after, open, latest, run) <==>
                AllReached(Surviving(fired), bill.due, latest, run, bill.windowEnd))
            && (c.billDayOfMonth <= 28 ==>
                  (AllPrint(after, open, latest, run) <==>
                   forall k :: 0 <= k < |Surviving(fired)| ==>
                     latest < bill.due + Surviving(fired)[k].daysPastDue))
  {
    if c.billDayOfMonth <= 28 { BillingCalendar.NextRunBillDateAgreesUpTo28(ms, c, today); }
    var latest, run := LatestBillDate(billDates), BillingCalendar.CycleWindow(ms, c, today).endDate;
    hide BillingCalendar.CycleWindow, BillingCalendar.NextRunBillDate, LatestBillDate, Surviving, LeftOpen, AllPrint;
    OpenFeesPrint(after, |before|, open, Surviving(fired), bill, latest, run);
  }

  /** A tier reached a week before the latest bill: there is room, but its fee prints on no coming bill. */
  lemma FeeBehindLatestBillExample(ms: GregorianMonths.Calendar, billDay: int, today: int, debit: nat)
    ensures var next := BillingCalendar.NextRunBillDate(ms, billDay, today);
            var bill := Bill(debit, next - 60, WindowEnd(ms, billDay, today));
            var fee := FeeOf(Rule(1, true, true, 500, 30, false), bill);
            && RoomForFees(ms, billDay, today, [next - 23])
            && fee.effectiveDate == next - 30 < LatestBillDate([next - 23])
  {
    hide BillingCalendar.NextRunBillDate;
  }

  /** The same between the replacement and the new fee: nothing stands when `rule` replaces. */
  ghost predicate StoodDown(before: seq<Entry>, after: seq<Entry>, actions: seq<Action>, open: seq<nat>,
                            fired: seq<Rule>, rule: Rule, bill: Bill)
  {
    var kept := if rule.replacing then [] else Surviving(fired);
    && |before| <= |after| && after[..|before|] == before
    && LeftOpen(after, |before|, open, kept, bill)
    && Recorded(after, actions, fired, bill)
    && Owed(after) == Owed(before) + SumFees(kept)
  }

  // ---------------------------------------------------------------- the ladder, field by field

  /** An open bill charge past its due date. */
  ghost predicate Punishable(e: Entry, today: int) {
    e.kind == BillCharge && e.openAmount > 0 && e.dueDate.Some? && e.dueDate.value < today
  }

  /** The one due first of those, and the first entered of those due that day. */
  ghost predicate OldestPunishable(entries: seq<Entry>, today: int, debit: nat) {
    && debit < |entries| && Punishable(entries[debit], today)
    && forall id: nat :: id < |entries| && Punishable(entries[id], today) && id != debit ==>
         || entries[debit].dueDate.value < entries[id].dueDate.value
         || (entries[debit].dueDate == entries[id].dueDate && debit < id)
  }

  /** `standing` is one fee in full for each rule from the last replacing one on. */
  ghost predicate FeesStand(entries: seq<Entry>, standing: seq<nat>, fired: seq<Rule>, debit: nat, due: int, last: int)
  {
    var from := |fired| - |standing|;
    && 0 <= from
    && (forall i :: from < i < |fired| ==> !fired[i].replacing)
    && (0 < from ==> from < |fired| && fired[from].replacing)
    && (forall k :: 0 <= k < |standing| ==>
          && standing[k] < |entries|
          && var fee, rule := entries[standing[k]], fired[from + k];
             && fee.kind == Fee && fee.amount == rule.feeAmount == fee.openAmount
             && fee.effectiveDate == (if due + rule.daysPastDue <= last then due + rule.daysPastDue else last)
             && fee.dueDate == Some(fee.effectiveDate + 30)
             && fee.assessedOn == Some(debit) && fee.reverses.None?)
  }

  /**
   * The rules that are due, in order, on the oldest punishable debit: an action for each,
   * none before its day, and a fee left for each from the last replacing one on.
   */
  ghost predicate LadderCharges(was: seq<Entry>, now: seq<Entry>, rules: seq<Rule>, made: seq<Action>,
                                standing: seq<nat>, fired: seq<Rule>, debit: nat, today: int, next: int)
  {
    && OldestPunishable(was, today, debit)
    && var due := was[debit].dueDate.value;
       && ChargesWhatIsDue(rules, today - due, fired)
       && FeesStand(now, standing, fired, debit, due, next - 1)
       && |made| == |fired|
       && (forall i :: 0 <= i < |made| ==>
             made[i].tier == fired[i].tier && made[i].daysPastDue == fired[i].daysPastDue <= today - due)
  }

  lemma LadderChargesRightly(was: seq<Entry>, now: seq<Entry>, rules: seq<Rule>, made: seq<Action>,
                             standing: seq<nat>, fired: seq<Rule>, bill: Bill, today: int)
    requires LadderRan(was, now, made, standing, fired, bill)
    requires OldestPunishable(was, today, bill.debit) && was[bill.debit].dueDate == Some(bill.due)
    requires fired == Fired(SortByTier(Charging(rules)), today - bill.due)
    ensures LadderCharges(was, now, rules, made, standing, fired, bill.debit, today, bill.windowEnd + 1)
  {
    hide Fired, SortByTier, Charging, OldestPunishable, LadderRan, ChargesWhatIsDue, FeesStand;
    FiredIsWhatIsDue(rules, today - bill.due);
    LadderLeavesFees(was, now, made, standing, fired, bill);
    ActionsAreReached(was, now, made, standing, rules, fired, bill, today - bill.due);
  }

  /** Nothing to punish, no room before the next bill, or no rule that charges a flat fee reached. */
  ghost predicate LadderSkips(entries: seq<Entry>, rules: seq<Rule>, billDates: seq<int>, next: int, today: int) {
    || (forall id :: 0 <= id < |entries| ==> !Punishable(entries[id], today))
    || (exists d :: d in billDates && next <= d + 2)
    || (exists debit: nat :: OldestPunishable(entries, today, debit)
                             && forall r :: r in rules && r.charges && r.flat ==>
                                  today - entries[debit].dueDate.value < r.daysPastDue)
  }

  /** The ladder charges nothing exactly when it skips, and otherwise what it should. */
  ghost predicate LadderMeans(was: seq<Entry>, now: seq<Entry>, rules: seq<Rule>, billDates: seq<int>,
                              made: seq<Action>, standing: seq<nat>, fired: seq<Rule>, bill: Bill, today: int,
                              next: int)
  {
    && (fired == [] <==> LadderSkips(was, rules, billDates, next, today))
    && (fired != [] ==> LadderCharges(was, now, rules, made, standing, fired, bill.debit, today, next)
                        && was[bill.debit].dueDate == Some(bill.due) && bill.windowEnd == next - 1)
  }

  lemma NothingToClimb(entries: seq<Entry>, rules: seq<Rule>, ms: GregorianMonths.Calendar, billDay: int,
                       today: int, billDates: seq<int>, bill: Bill)
    requires OldestOverdue(entries, today, true, None).Some? ==>
               billDates != [] && !RoomForFees(ms, billDay, today, billDates)
    ensures LadderMeans(entries, entries, rules, billDates, [], [], [], bill, today,
                        BillingCalendar.NextRunBillDate(ms, billDay, today))
  {
    OldestOverdueIsPunishable(entries, today);
    hide OldestOverdue, OldestPunishable, BillingCalendar.NextRunBillDate;
  }

  lemma LadderClimbed(was: seq<Entry>, now: seq<Entry>, rules: seq<Rule>, ms: GregorianMonths.Calendar, billDay: int,
                      today: int, billDates: seq<int>, made: seq<Action>, standing: seq<nat>, fired: seq<Rule>,
                      bill: Bill)
    requires LadderRan(was, now, made, standing, fired, bill)
    requires billDates != [] && RoomForFees(ms, billDay, today, billDates)
    requires var debit := OldestOverdue(was, today, true, None);
             debit.Some? && bill == Bill(debit.value, was[debit.value].dueDate.value, WindowEnd(ms, billDay, today))
    requires fired == Fired(SortByTier(Charging(rules)), today - bill.due)
    ensures LadderMeans(was, now, rules, billDates, made, standing, fired, bill, today,
                        BillingCalendar.NextRunBillDate(ms, billDay, today))
  {
    OldestOverdueIsPunishable(was, today);
    hide OldestOverdue, OldestPunishable, Fired, SortByTier, Charging, LadderRan, BillingCalendar.NextRunBillDate;
    hide LadderCharges, ChargesWhatIsDue;
    FiredIsWhatIsDue(rules, today - bill.due);
    NothingIsDue(rules, today - bill.due, fired);
    LadderChargesRightly(was, now, rules, made, standing, fired, bill, today);
  }

  lemma LadderLeavesFees(before: seq<Entry>, after: seq<Entry>, actions: seq<Action>, open: seq<nat>,
                         fired: seq<Rule>, bill: Bill)
    requires LadderRan(before, after, actions, open, fired, bill)
    ensures FeesStand(after, open, fired, bill.debit, bill.due, bill.windowEnd)
  {
    hide Recorded, LeftOpen, Surviving, FeesStand;
    OpenFeesStand(after, |before|, open, fired, bill);
  }

  lemma OpenFeesStand(entries: seq<Entry>, base: nat, open: seq<nat>, fired: seq<Rule>, bill: Bill)
    requires LeftOpen(entries, base, open, Surviving(fired), bill)
    ensures FeesStand(entries, open, fired, bill.debit, bill.due, bill.windowEnd)
  {
    LeftOpenLength(entries, base, open, Surviving(fired), bill);
    SurvivorsFrom(fired);
    hide Surviving, LeftOpen, FeeOf;
    forall k | 0 <= k < |open|
      ensures open[k] < |entries| && entries[open[k]] == FeeOf(fired[|fired| - |open| + k], bill)
    {
      LeftOpenIs(entries, base, open, Surviving(fired), bill, k);
      SurvivorAt(fired, k);
    }
    AreFeesOfStand(entries, open, fired, bill);
  }

  lemma SurvivorAt(fired: seq<Rule>, k: nat)
    requires k < |Surviving(fired)|
    ensures |Surviving(fired)| <= |fired|
    ensures Surviving(fired)[k] == fired[|fired| - |Surviving(fired)| + k]
  {
    SurvivorsAreTheTail(fired);
    hide Surviving;
  }

  lemma SurvivorsFrom(fired: seq<Rule>)
    ensures |Surviving(fired)| <= |fired|
    ensures forall i :: |fired| - |Surviving(fired)| < i < |fired| ==> !fired[i].replacing
    ensures |Surviving(fired)| < |fired| ==>
              Surviving(fired) != [] && fired[|fired| - |Surviving(fired)|].replacing
  {
    SurvivorsAreTheTail(fired);
    hide Surviving;
  }

  lemma AreFeesOfStand(entries: seq<Entry>, open: seq<nat>, fired: seq<Rule>, bill: Bill)
    requires |open| <= |fired|
    requires forall i :: |fired| - |open| < i < |fired| ==> !fired[i].replacing
    requires |open| < |fired| ==> open != [] && fired[|fired| - |open|].replacing
    requires forall k :: 0 <= k < |open| ==>
               open[k] < |entries| && entries[open[k]] == FeeOf(fired[|fired| - |open| + k], bill)
    ensures FeesStand(entries, open, fired, bill.debit, bill.due, bill.windowEnd)
  {}

  lemma LeftOpenLength(entries: seq<Entry>, base: nat, fees: seq<nat>, rules: seq<Rule>, bill: Bill)
    requires LeftOpen(entries, base, fees, rules, bill)
    ensures |fees| == |rules|
  {}

  lemma LeftOpenIs(entries: seq<Entry>, base: nat, fees: seq<nat>, rules: seq<Rule>, bill: Bill, k: nat)
    requires LeftOpen(entries, base, fees, rules, bill) && k < |fees|
    ensures |fees| == |rules| && fees[k] < |entries| && entries[fees[k]] == FeeOf(rules[k], bill)
  {}

  lemma ActionsAreReached(before: seq<Entry>, after: seq<Entry>, made: seq<Action>, open: seq<nat>,
                          rules: seq<Rule>, fired: seq<Rule>, bill: Bill, pastDue: int)
    requires LadderRan(before, after, made, open, fired, bill) && ChargesWhatIsDue(rules, pastDue, fired)
    ensures |made| == |fired|
    ensures forall i :: 0 <= i < |made| ==>
              made[i].tier == fired[i].tier && made[i].daysPastDue == fired[i].daysPastDue <= pastDue
  {
    hide LeftOpen, Surviving, Owed, SumFees;
    forall i | 0 <= i < |fired| ensures fired[i].daysPastDue <= pastDue { assert multiset(fired)[fired[i]] > 0; }
  }

  lemma NothingIsDue(rules: seq<Rule>, pastDue: int, fired: seq<Rule>)
    requires ChargesWhatIsDue(rules, pastDue, fired)
    ensures fired == [] <==> forall r :: r in rules && r.charges && r.flat ==> pastDue < r.daysPastDue
  {
    if fired != [] {
      var r := fired[0];
      assert multiset(fired)[r] > 0;
      assert r in multiset(rules);
    }
    forall r | r in rules && r.charges && r.flat && fired == [] ensures pastDue < r.daysPastDue {
      assert multiset(rules)[r] > 0 && multiset(fired)[r] == 0;
    }
  }

  lemma OldestOverdueIsPunishable(entries: seq<Entry>, today: int)
    ensures var debit := OldestOverdue(entries, today, true, None);
            && (debit.None? <==> forall id :: 0 <= id < |entries| ==> !Punishable(entries[id], today))
            && (debit.Some? ==> OldestPunishable(entries, today, debit.value))
            && (forall id: nat :: OldestPunishable(entries, today, id) ==> debit == Some(id))
  {
    var debit := OldestOverdue(entries, today, true, None);
    forall id | 0 <= id < |entries| && Punishable(entries[id], today)
      ensures debit.Some? && (entries[debit.value].dueDate.value < entries[id].dueDate.value
                              || (entries[debit.value].dueDate == entries[id].dueDate && debit.value <= id))
    {
      OldestOverdueIs(entries, today, true, None, id);
    }
    hide OldestOverdue;
    if debit.Some? {
      assert Punishable(entries[debit.value], today);
      assert OldestPunishable(entries, today, debit.value);
    }
  }

  // ---------------------------------------------------------------- sums over some entries

  ghost predicate Within(ids: seq<nat>, entries: seq<Entry>) {
    forall k :: 0 <= k < |ids| ==> ids[k] < |entries|
  }

  /** What is open on the first `k` of `ids`. */
  ghost function SumOpenOf(entries: seq<Entry>, ids: seq<nat>, k: nat): int
    requires Within(ids, entries) && k <= |ids|
  {
    if k == 0 then 0 else SumOpenOf(entries, ids, k - 1) + entries[ids[k - 1]].openAmount
  }

  lemma {:induction false} StandingTotal(entries: seq<Entry>, fees: seq<nat>, rules: seq<Rule>, k: nat)
    requires k <= |fees| == |rules| && Within(fees, entries)
    requires forall i :: 0 <= i < |fees| ==> entries[fees[i]].openAmount == rules[i].feeAmount
    ensures SumOpenOf(entries, fees, k) == SumFees(rules[..k])
  {
    if k > 0 {
      StandingTotal(entries, fees, rules, k - 1);
      assert rules[..k][..k - 1] == rules[..k - 1];
    }
  }

  ghost predicate Among(id: nat, ids: seq<nat>, k: nat)
    requires k <= |ids|
  {
    exists j :: 0 <= j < k && ids[j] == id
  }

  // ---------------------------------------------------------------- the payment plan's terms

  const INSTALLMENTS := 6

  /** Math.round(total * 25) / 100 in cents: a quarter, half a cent going up. */
  function DownPayment(total: int): int { (total + 2) / 4 }

  function Installment(total: int): int { (total - DownPayment(total)) / INSTALLMENTS }

  /** A plan's row: what it covers and its terms. */
  datatype Plan = Plan(covered: seq<nat>, totalBalance: int, downPayment: int, installmentAmount: int)

  /**
   * The plan's row says what it covers, what is open on that, and the terms; the payment
   * posted is its down payment.
   */
  ghost predicate Agreed(plan: Plan, entries: seq<Entry>, debts: seq<nat>, posted: Entry, startDate: int) {
    && plan.covered == debts && Within(debts, entries)
    && plan.totalBalance == SumOpenOf(entries, debts, |debts|)
    && plan.totalBalance - 1 <= 4 * plan.downPayment <= plan.totalBalance + 2
    && 0 <= plan.totalBalance - plan.downPayment - 6 * plan.installmentAmount <= 5
    && posted.kind == Payment && posted.amount == -plan.downPayment && posted.openAmount == 0
    && posted.effectiveDate == startDate
  }

  /**
   * The down payment is a quarter to the nearest cent, half a cent going up; the terms never
   * ask for more than is owed, and six installments leave less than a cent each over.
   */
  lemma TermsAddUp(total: int)
    requires total > 0
    ensures 0 <= DownPayment(total) <= total && 0 <= Installment(total)
    ensures total - 1 <= 4 * DownPayment(total) <= total + 2
    ensures 0 <= total - DownPayment(total) - 6 * Installment(total) <= 5
  {}

  /** Distinct entries with something open on them. */
  ghost predicate Arrears(entries: seq<Entry>, debts: seq<nat>) {
    && Within(debts, entries)
    && (forall k :: 0 <= k < |debts| ==> entries[debts[k]].openAmount > 0)
    && (forall i, j :: 0 <= i < j < |debts| ==> debts[i] != debts[j])
  }

  /** What oldest-first allocation puts on debt `k`: whatever the older debts left of the payment. */
  ghost function Share(entries: seq<Entry>, debts: seq<nat>, payment: int, k: nat): int
    requires Within(debts, entries) && k < |debts|
  {
    Max(0, Min(entries[debts[k]].openAmount, payment - SumOpenOf(entries, debts, k)))
  }

  lemma {:induction false} SumOpenGrows(entries: seq<Entry>, debts: seq<nat>, j: nat, k: nat)
    requires Arrears(entries, debts) && j <= k <= |debts|
    ensures 0 <= SumOpenOf(entries, debts, j) <= SumOpenOf(entries, debts, k)
    ensures j < k ==> SumOpenOf(entries, debts, j) + entries[debts[j]].openAmount <= SumOpenOf(entries, debts, k)
    decreases k + j
  {
    if j < k {
      SumOpenGrows(entries, debts, j, k - 1);
    } else if j > 0 {
      SumOpenGrows(entries, debts, 0, j - 1);
    }
  }

  /** No debt gets more than it owes, and one gets something only once every older one is closed. */
  lemma SharesCloseOldestFirst(entries: seq<Entry>, debts: seq<nat>, payment: int, j: nat, k: nat)
    requires Arrears(entries, debts) && j < k < |debts|
    ensures 0 <= Share(entries, debts, payment, k) <= entries[debts[k]].openAmount
    ensures Share(entries, debts, payment, k) > 0 ==> Share(entries, debts, payment, j) == entries[debts[j]].openAmount
  {
    SumOpenGrows(entries, debts, j, k);
  }

  ghost function SumShares(entries: seq<Entry>, debts: seq<nat>, payment: int, k: nat): int
    requires Within(debts, entries) && k <= |debts|
  {
    if k == 0 then 0 else SumShares(entries, debts, payment, k - 1) + Share(entries, debts, payment, k - 1)
  }

  /** The shares of a payment no larger than the debts together make up exactly the payment. */
  lemma {:induction false} SharesSumToPayment(entries: seq<Entry>, debts: seq<nat>, payment: int, k: nat)
    requires Arrears(entries, debts) && payment >= 0 && k <= |debts|
    ensures SumShares(entries, debts, payment, k) == Min(payment, SumOpenOf(entries, debts, k))
  {
    if k > 0 {
      SharesSumToPayment(entries, debts, payment, k - 1);
      SumOpenGrows(entries, debts, k - 1, k);
    }
  }

  function Paid(apps: seq<Application>): int {
    if apps == [] then 0 else Paid(apps[..|apps| - 1]) + apps[|apps| - 1].amount
  }

  lemma PaidOneMore(apps: seq<Application>, a: Application)
    ensures Paid(apps + [a]) == Paid(apps) + a.amount
  {
    assert (apps + [a])[..|apps|] == apps;
  }

  lemma {:induction false} UnappliedIsUnsettled(entries: seq<Entry>, apps: seq<Application>, id: nat)
    requires WellFormed(entries, apps) && id >= |entries|
    ensures Settled(apps, id) == 0
  {
    if apps != [] {
      var n := |apps| - 1;
      UnappliedIsUnsettled(entries, apps[..n], id);
    }
  }

  // ---------------------------------------------------------------- the ledger

  class Ledger {
    var entries: seq<Entry>
    var applications: seq<Application>
    var actions: seq<Action>
    var plans: seq<Plan>
    /** The account's cached balance and oldest due date. */
    var balance: int
    var lastDueDate: Option<int>

    ghost predicate Valid()
      reads this`entries, this`applications
    {
      Reconciled(entries, applications)
    }

    constructor (entries: seq<Entry>)
      requires forall e :: e in entries ==> e.openAmount == e.amount
      ensures Valid() && this.entries == entries && applications == [] && actions == [] && plans == []
    {
      this.entries, applications, actions, plans, balance, lastDueDate := entries, [], [], [], 0, None;
    }

    /** A new entry that nothing has settled yet. */
    method Post(e: Entry) returns (id: nat)
      requires Valid() && e.openAmount == e.amount
      modifies this`entries
      ensures Valid() && id == old(|entries|) && entries == old(entries) + [e]
    {
      id := |entries|;
      UnappliedIsUnsettled(entries, applications, id);
      entries := entries + [e];
    }

    /** A reversal of `fee` with its application, both sides closed. */
    method Reverse(fee: nat, effectiveDate: int)
      requires Valid() && fee < |entries| && entries[fee].openAmount == entries[fee].amount
      modifies this`entries, this`applications
      ensures Valid()
      ensures entries ==
              old(entries)[fee := old(entries)[fee].(openAmount := 0)]
              + [ReversalOf(old(entries), fee, effectiveDate)]
      ensures applications == old(applications) + [Application(old(|entries|), fee, old(entries)[fee].amount)]
    {
      var reversal := |entries|;
      var a := Application(reversal, fee, entries[fee].amount);
      UnappliedIsUnsettled(entries, applications, reversal);
      forall id: nat { SettledOneMore(applications, a, id); }
      entries := entries + [ReversalOf(entries, fee, effectiveDate)];
      applications := applications + [a];
      entries := entries[fee := entries[fee].(openAmount := 0)];
    }

    /** replaceLowerTierFees: each fee reversed in turn. */
    method ReplaceLowerTierFees(fees: seq<nat>, effectiveDate: int)
      requires Valid() && Within(fees, entries)
      requires forall k :: 0 <= k < |fees| ==>
                 entries[fees[k]].openAmount == entries[fees[k]].amount && entries[fees[k]].kind != Deposit
      requires forall i, j :: 0 <= i < j < |fees| ==> fees[i] != fees[j]
      modifies this`entries, this`applications
      ensures Valid() && Reversed(old(entries), entries, fees, |fees|, effectiveDate)
      ensures forall j :: 0 <= j < |fees| ==>
                TakesBack(entries[|old(entries)| + j], old(entries), fees[j], effectiveDate)
      ensures Owed(entries) == Owed(old(entries)) - SumOpenOf(old(entries), fees, |fees|)
    {
      ghost var before := entries;
      for k := 0 to |fees|
        invariant Valid() && Reversed(before, entries, fees, k, effectiveDate)
        invariant Owed(entries) == Owed(before) - SumOpenOf(before, fees, k)
      {
        ReversedOneMore(before, entries, fees, k, effectiveDate);
        Reverse(fees[k], effectiveDate);
      }
    }

    /** The account's caches, recomputed from the entries. */
    method RecomputeCache()
      modifies this`balance, this`lastDueDate
      ensures balance == Owed(entries) && lastDueDate == OldestDue(entries)
    {
      balance, lastDueDate := Owed(entries), OldestDue(entries);
    }

    /**
     * seedDelinquencyLadder, on the account's oldest open overdue bill charge if it has one.
     * What stays open of what it wrote is one fee in full for each rule at or since the last
     * replacing one; earlier entries are as they were, and every fee raised, replaced or
     * not, has its action.
     */
    method SeedDelinquencyLadder(rules: seq<Rule>, ms: GregorianMonths.Calendar, billDay: int, today: int,
                                 billDates: seq<int>)
      returns (ghost standing: seq<nat>, ghost made: seq<Action>, ghost fired: seq<Rule>, ghost bill: Bill)
      requires Valid()
      requires OldestOverdue(entries, today, true, None).Some? ==> billDates != []
      modifies this
      ensures Valid() && actions == old(actions) + made
      ensures LadderMeans(old(entries), entries, rules, billDates, made, standing, fired, bill, today,
                          BillingCalendar.NextRunBillDate(ms, billDay, today))
      ensures LadderRan(old(entries), entries, made, standing, fired, bill)
      ensures fired == [] ==> balance == old(balance) && lastDueDate == old(lastDueDate)
      ensures fired != [] ==> balance == Owed(entries) && lastDueDate == OldestDue(entries)
    {
      standing, made, fired, bill := [], [], [], Bill(0, 0, 0);
      NothingRaised(entries, bill);
      var debit := OldestOverdue(entries, today, true, None);
      hide LadderMeans, LadderRan, Reconciled, Fired, SortByTier, Charging;
      hide OldestDue, Owed, OldestOverdue, RoomForFees, BillingCalendar.NextRunBillDate;
      if debit.None? || !RoomForFees(ms, billDay, today, billDates) {
        NothingToClimb(entries, rules, ms, billDay, today, billDates, bill);
        return;
      }
      var charged := Bill(debit.value, entries[debit.value].dueDate.value, WindowEnd(ms, billDay, today));
      bill := charged;
      var raised;
      raised, standing, made, fired := ClimbLadder(SortByTier(Charging(rules)), charged, today);
      LadderClimbed(old(entries), entries, rules, ms, billDay, today, billDates, made, standing, fired, bill);
      if raised > 0 { RecomputeCache(); }
    }

    /** The ladder's loop over the charging rules; `open` is the fees a replacing tier can reach. */
    method ClimbLadder(charging: seq<Rule>, bill: Bill, today: int)
      returns (raised: nat, ghost standing: seq<nat>, ghost made: seq<Action>, ghost fired: seq<Rule>)
      requires Valid()
      modifies this`entries, this`applications, this`actions
      ensures Valid() && actions == old(actions) + made
      ensures fired == Fired(charging, today - bill.due) && raised == |fired|
      ensures LadderRan(old(entries), entries, made, standing, fired, bill)
    {
      ghost var before := entries;
      var open: seq<nat> := [];
      raised, made, fired := 0, [], [];
      NothingRaised(entries, bill);
      hide LadderRan, Reconciled;
      for i := 0 to |charging|
        invariant Valid() && actions == old(actions) + made
        invariant fired == Fired(charging[..i], today - bill.due) && raised == |fired|
        invariant LadderRan(before, entries, made, open, fired, bill)
      {
        assert charging[..i + 1][..i] == charging[..i];
        ghost var tried;
        open, raised, tried, made := TryRule(charging[i], bill, today, open, raised, fired, made, before);
        fired := tried;
      }
      assert charging[..|charging|] == charging;
      standing := open;
    }

    /** One turn of the loop: a rule not reached yet, or not a flat fee, is passed over. */
    method TryRule(rule: Rule, bill: Bill, today: int, open: seq<nat>, raised: nat, ghost fired: seq<Rule>,
                   ghost made: seq<Action>, ghost before: seq<Entry>)
      returns (standing: seq<nat>, raised': nat, ghost fired': seq<Rule>, ghost made': seq<Action>)
      requires Valid() && LadderRan(before, entries, made, open, fired, bill)
      requires raised == |fired|
      modifies this`entries, this`applications, this`actions
      ensures Valid() && made <= made' && actions == old(actions) + made'[|made|..]
      ensures fired' == fired + (if Fires(rule, today - bill.due) then [rule] else []) && raised' == |fired'|
      ensures LadderRan(before, entries, made', standing, fired', bill)
    {
      standing, raised', fired', made' := open, raised, fired, made;
      if Fires(rule, today - bill.due) {
        ghost var action;
        standing, action := RaiseFee(rule, bill, open, fired, made, before);
        raised', fired', made' := raised + 1, fired + [rule], made + [action];
      }
    }

    /** One tier that charges: replace what stands if it says so, then raise its own fee. */
    method RaiseFee(rule: Rule, bill: Bill, open: seq<nat>, ghost fired: seq<Rule>, ghost made: seq<Action>,
                    ghost before: seq<Entry>)
      returns (standing: seq<nat>, ghost action: Action)
      requires Valid() && LadderRan(before, entries, made, open, fired, bill)
      modifies this`entries, this`applications, this`actions
      ensures Valid() && actions == old(actions) + [action]
      ensures LadderRan(before, entries, made + [action], standing, fired + [rule], bill)
    {
      hide LadderRan, StoodDown, Reconciled;
      ghost var kept := if rule.replacing then [] else Surviving(fired);
      standing := StandDown(rule, bill, open, fired, made, before);
      ghost var between := entries;
      var fee := Post(FeeOf(rule, bill));
      action := Action(rule.tier, rule.daysPastDue, fee);
      OneMoreRaised(before, between, made, standing, fired, kept, rule, bill);
      actions := actions + [Action(rule.tier, rule.daysPastDue, fee)];
      standing := standing + [fee];
    }

    /** The replacement step: a replacing tier closes every fee standing. */
    method StandDown(rule: Rule, bill: Bill, open: seq<nat>, ghost fired: seq<Rule>, ghost made: seq<Action>,
                     ghost before: seq<Entry>)
      returns (standing: seq<nat>)
      requires Valid() && LadderRan(before, entries, made, open, fired, bill)
      modifies this`entries, this`applications
      ensures Valid() && StoodDown(before, entries, made, standing, fired, rule, bill)
    {
      standing := open;
      if rule.replacing && |open| > 0 {
        var effectiveDate := Min(bill.due + rule.daysPastDue, bill.windowEnd);
        ghost var was := entries;
        StandingTotal(entries, open, Surviving(fired), |open|);
        assert Surviving(fired)[..|open|] == Surviving(fired);
        ReplaceLowerTierFees(open, effectiveDate);
        ReplacementStandsDown(before, was, entries, made, open, fired, rule, bill, effectiveDate);
        standing := [];
      }
    }

    /**
     * seedPaymentPlan: the plan over the oldest overdue debts, agreed and its down payment
     * made; None where it skips.
     */
    method SeedPaymentPlan(today: int, startDate: int) returns (payment: Option<nat>, ghost made: seq<Application>)
      requires Valid()
      modifies this
      ensures Valid()
      ensures payment.None? <==> forall id :: 0 <= id < |old(entries)| ==> !InArrears(old(entries)[id], today)
      ensures payment.None? ==> entries == old(entries) && applications == old(applications) && plans == old(plans)
      ensures payment.Some? ==>
                var debts := CoveredDebts(old(entries), today);
                && PlanMade(old(entries), entries, payment.value, made, debts, startDate)
                && |plans| == |old(plans)| + 1 && plans[..|old(plans)|] == old(plans)
                && Agreed(plans[|old(plans)|], old(entries), debts, entries[payment.value], startDate)
                && Followed(applications, old(applications), made)
                && balance == OwedPositive(entries) && lastDueDate == OldestDue(entries)
    {
      CoveredDebtsAreOldest(entries, today);
      var debts := CoveredDebts(entries, today);
      hide CoveredDebts, OwedPositive, OldestDue, Followed, PlanMade, Reconciled;
      made := [];
      if debts == [] { return None, []; }
      var total := SumOf(debts);
      plans := plans + [Plan(debts, total, DownPayment(total), Installment(total))];
      var id;
      id, made := PayDown(debts, startDate);
      payment := Some(id);
    }

    /** The down payment posted, allocated oldest first over the debts given, and the account's caches recomputed. */
    method PayDown(debts: seq<nat>, startDate: int) returns (payment: nat, ghost made: seq<Application>)
      requires Valid() && debts != [] && Arrears(entries, debts)
      modifies this`entries, this`applications, this`balance, this`lastDueDate
      ensures Valid() && PlanMade(old(entries), entries, payment, made, debts, startDate)
      ensures Followed(applications, old(applications), made)
      ensures balance == OwedPositive(entries) && lastDueDate == OldestDue(entries)
    {
      var total := SumOf(debts);
      var down := DownPayment(total);
      SumOpenGrows(entries, debts, 0, |debts|);
      payment := |entries|;
      ghost var before := entries;
      var posted := Entry(Payment, -down, 0, None, startDate, None, None);
      NothingPaidYet(before, posted, applications, debts, payment, down);
      entries := entries + [posted];
      made := AllocateDownPayment(debts, down, payment, before, posted);
      balance, lastDueDate := OwedPositive(entries), OldestDue(entries);
    }

    method SumOf(debts: seq<nat>) returns (total: int)
      requires Within(debts, entries)
      ensures total == SumOpenOf(entries, debts, |debts|)
    {
      total := 0;
      for k := 0 to |debts|
        invariant total == SumOpenOf(entries, debts, k)
      {
        total := total + entries[debts[k]].openAmount;
      }
    }

    /** The allocation loop, which stops when nothing is left. */
    method AllocateDownPayment(debts: seq<nat>, down: int, payment: nat, ghost before: seq<Entry>, ghost posted: Entry)
      returns (ghost made: seq<Application>)
      requires Arrears(before, debts) && 0 <= down <= SumOpenOf(before, debts, |debts|)
      requires payment == |before| && posted.amount == -down && posted.openAmount == 0
      requires Paying(before, posted, entries, applications, [], debts, down, down)
      modifies this`entries, this`applications
      ensures Valid() && |entries| == payment + 1 && entries[payment] == posted
      ensures Followed(applications, old(applications), made)
      ensures PaidDown(before, entries, made, debts, payment, down) && Paid(made) == down
      ensures forall k :: |made| <= k < |debts| ==> Share(before, debts, down, k) == 0
    {
      var left := down;
      made := [];
      var k := 0;
      ghost var earlier := applications;
      hide Paying, Followed;
      FollowedByNothing(earlier);
      while k < |debts| && left > 0
        invariant k == |made| <= |debts|
        invariant Paying(before, posted, entries, applications, made, debts, down, left)
        invariant Followed(applications, earlier, made)
        decreases |debts| - k
      {
        ghost var a;
        left, a := PayNext(debts, k, payment, down, left, before, posted, earlier, made);
        made := made + [a];
        k := k + 1;
      }
      PlanReconciles(before, posted, entries, applications, made, debts, down, left);
    }

    /** One turn of the loop: apply what fits and take it off the debt. */
    method PayNext(debts: seq<nat>, k: nat, payment: nat, down: int, left: int,
                   ghost before: seq<Entry>, ghost posted: Entry,
                   ghost earlier: seq<Application>, ghost made: seq<Application>)
      returns (rest: int, ghost a: Application)
      requires Arrears(before, debts) && k == |made| < |debts| && payment == |before| && left > 0
      requires Paying(before, posted, entries, applications, made, debts, down, left)
      requires Followed(applications, earlier, made)
      modifies this`entries, this`applications
      ensures Paying(before, posted, entries, applications, made + [a], debts, down, rest)
      ensures Followed(applications, earlier, made + [a])
    {
      hide Paying, Followed, Arrears, Within;
      PaidOneMoreDebt(before, posted, entries, applications, made, debts, down, left);
      FollowedByOneMore(applications, earlier, made);
      var applied := Min(left, entries[debts[k]].openAmount);
      a := Application(payment, debts[k], applied);
      applications := applications + [Application(payment, debts[k], applied)];
      entries := entries[debts[k] := entries[debts[k]].(openAmount := entries[debts[k]].openAmount - applied)];
      rest := left - applied;
    }
  }

  // ---------------------------------------------------------------- what the methods do to the entries

  function ReversalOf(entries: seq<Entry>, fee: nat, effectiveDate: int): Entry
    requires fee < |entries|
  {
    Entry(Reversal, -entries[fee].amount, 0, None, effectiveDate, Some(fee), None)
  }

  /** `e` takes back the fee `fee`, and is closed. */
  ghost predicate TakesBack(e: Entry, entries: seq<Entry>, fee: nat, effectiveDate: int) {
    && fee < |entries| && e.kind == Reversal && e.amount == -entries[fee].amount && e.openAmount == 0
    && e.reverses == Some(fee) && e.dueDate.None? && e.effectiveDate == effectiveDate && e.assessedOn.None?
  }

  /** `after` is `before` with the first `k` of `fees` closed and one reversal appended for each. */
  ghost predicate Reversed(before: seq<Entry>, after: seq<Entry>, fees: seq<nat>, k: nat, effectiveDate: int) {
    && Within(fees, before) && k <= |fees| && |after| == |before| + k
    && (forall id :: 0 <= id < |before| ==>
          after[id] == if Among(id, fees, k) then before[id].(openAmount := 0) else before[id])
    && (forall j :: 0 <= j < k ==> after[|before| + j] == ReversalOf(before, fees[j], effectiveDate))
  }

  lemma AmongOneMore(ids: seq<nat>, k: nat)
    requires k < |ids| && forall i, j :: 0 <= i < j < |ids| ==> ids[i] != ids[j]
    ensures !Among(ids[k], ids, k)
    ensures forall id: nat :: Among(id, ids, k + 1) <==> Among(id, ids, k) || id == ids[k]
  {}

  lemma ReversedOneMore(before: seq<Entry>, now: seq<Entry>, fees: seq<nat>, k: nat, effectiveDate: int)
    requires k < |fees| && Within(fees, before) && before[fees[k]].kind != Deposit
    requires forall i, j :: 0 <= i < j < |fees| ==> fees[i] != fees[j]
    requires Reversed(before, now, fees, k, effectiveDate)
    ensures now[fees[k]] == before[fees[k]]
    ensures var reversal := ReversalOf(now, fees[k], effectiveDate);
            var after := now[fees[k] := now[fees[k]].(openAmount := 0)] + [reversal];
            && Reversed(before, after, fees, k + 1, effectiveDate)
            && Owed(after) == Owed(now) - before[fees[k]].openAmount
  {
    var fee := fees[k];
    OwedUpdate(now, fee, now[fee].(openAmount := 0));
    OwedAppend(now[fee := now[fee].(openAmount := 0)],
               ReversalOf(now, fee, effectiveDate));
    AmongOneMore(fees, k);
    SumOpenOneMore(before, fees, k);
    hide Owed, SumOpenOf, Among;
  }

  lemma NothingRaised(entries: seq<Entry>, bill: Bill)
    ensures LadderRan(entries, entries, [], [], [], bill)
  {}

  lemma ReplacementClosesAll(before: seq<Entry>, after: seq<Entry>, base: nat, fees: seq<nat>, rules: seq<Rule>,
                             bill: Bill, effectiveDate: int)
    requires base <= |before| && LeftOpen(before, base, fees, rules, bill)
    requires Reversed(before, after, fees, |fees|, effectiveDate)
    ensures LeftOpen(after, base, [], [], bill) && after[..base] == before[..base]
  {
    forall id | base <= id < |after| ensures after[id].openAmount == 0 {
      if id >= |before| { assert after[id] == ReversalOf(before, fees[id - |before|], effectiveDate); }
    }
  }

  lemma ReplacementKeepsRecords(before: seq<Entry>, after: seq<Entry>, actions: seq<Action>, fired: seq<Rule>,
                                bill: Bill, fees: seq<nat>, effectiveDate: int)
    requires Recorded(before, actions, fired, bill) && Reversed(before, after, fees, |fees|, effectiveDate)
    ensures Recorded(after, actions, fired, bill)
  {}

  lemma ReplacementStandsDown(before: seq<Entry>, was: seq<Entry>, after: seq<Entry>, actions: seq<Action>,
                              open: seq<nat>, fired: seq<Rule>, rule: Rule, bill: Bill, effectiveDate: int)
    requires rule.replacing && LadderRan(before, was, actions, open, fired, bill)
    requires Reversed(was, after, open, |open|, effectiveDate)
    requires Owed(after) == Owed(was) - SumOpenOf(was, open, |open|)
    requires SumOpenOf(was, open, |open|) == SumFees(Surviving(fired))
    ensures StoodDown(before, after, actions, [], fired, rule, bill)
  {
    ReplacementClosesAll(was, after, |before|, open, Surviving(fired), bill, effectiveDate);
    ReplacementKeepsRecords(was, after, actions, fired, bill, open, effectiveDate);
  }

  lemma OneMoreRaised(before: seq<Entry>, between: seq<Entry>, actions: seq<Action>, open: seq<nat>, fired: seq<Rule>,
                      kept: seq<Rule>, rule: Rule, bill: Bill)
    requires StoodDown(before, between, actions, open, fired, rule, bill)
    requires kept == if rule.replacing then [] else Surviving(fired)
    ensures LadderRan(before, between + [FeeOf(rule, bill)], actions + [Action(rule.tier, rule.daysPastDue, |between|)],
                      open + [|between|], fired + [rule], bill)
  {
    assert (fired + [rule])[..|fired|] == fired && Surviving(fired + [rule]) == kept + [rule];
    assert (kept + [rule])[..|kept|] == kept;
    OwedAppend(between, FeeOf(rule, bill));
    OneMoreOpen(between, |before|, open, kept, rule, bill);
    OneMoreRecorded(between, actions, fired, rule, bill);
    assert (between + [FeeOf(rule, bill)])[..|before|] == between[..|before|];
  }

  lemma OneMoreRecorded(entries: seq<Entry>, actions: seq<Action>, fired: seq<Rule>, rule: Rule, bill: Bill)
    requires Recorded(entries, actions, fired, bill)
    ensures Recorded(entries + [FeeOf(rule, bill)], actions + [Action(rule.tier, rule.daysPastDue, |entries|)],
                     fired + [rule], bill)
  {
    var entries', actions' := entries + [FeeOf(rule, bill)], actions + [Action(rule.tier, rule.daysPastDue, |entries|)];
    forall i | 0 <= i < |actions'|
      ensures actions'[i].feeId < |entries'|
              && entries'[actions'[i].feeId].(openAmount := (fired + [rule])[i].feeAmount)
                 == FeeOf((fired + [rule])[i], bill)
    {
      if i < |actions| { assert entries'[actions[i].feeId] == entries[actions[i].feeId]; }
    }
  }

  lemma OneMoreOpen(entries: seq<Entry>, base: nat, fees: seq<nat>, rules: seq<Rule>, rule: Rule, bill: Bill)
    requires base <= |entries| && LeftOpen(entries, base, fees, rules, bill)
    ensures LeftOpen(entries + [FeeOf(rule, bill)], base, fees + [|entries|], rules + [rule], bill)
  {
    var after, open := entries + [FeeOf(rule, bill)], fees + [|entries|];
    assert open[|fees|] == |entries|;
    forall id | base <= id < |after| && id !in open ensures after[id].openAmount == 0 {
      assert forall k :: 0 <= k < |fees| ==> fees[k] == open[k];
      assert id !in fees;
    }
  }

  /**
   * `made` applies the payment to the oldest debts, each for its share; those debts are down by
   * what was applied and every other entry is as it was.
   */
  ghost predicate PaidDown(before: seq<Entry>, now: seq<Entry>, made: seq<Application>, debts: seq<nat>, payment: nat,
                           down: int)
  {
    && Within(debts, before) && |before| <= |now| && |made| <= |debts|
    && (forall j {:trigger made[j]} :: 0 <= j < |made| ==>
          && made[j] == Application(payment, debts[j], Share(before, debts, down, j)) && made[j].amount > 0
          && now[debts[j]] == before[debts[j]].(openAmount := before[debts[j]].openAmount - made[j].amount))
    && (forall j {:trigger now[debts[j]]} :: |made| <= j < |debts| ==> now[debts[j]] == before[debts[j]])
    && (forall id :: 0 <= id < |before| && id !in debts ==> now[id] == before[id])
  }

  /** The ledger after a plan's down payment: the payment, closed, and its applications to the oldest covered debts. */
  ghost predicate PlanMade(before: seq<Entry>, after: seq<Entry>, payment: nat, made: seq<Application>, debts: seq<nat>,
                           startDate: int)
  {
    && Within(debts, before) && payment == |before| && |after| == payment + 1
    && var down := DownPayment(SumOpenOf(before, debts, |debts|));
       && after[payment] == Entry(Payment, -down, 0, None, startDate, None, None)
       && PaidDown(before, after, made, debts, payment, down) && Paid(made) == down
       && forall k :: |made| <= k < |debts| ==> Share(before, debts, down, k) == 0
  }

  /** `apps` is `earlier` with `made` appended. */
  ghost predicate Followed(apps: seq<Application>, earlier: seq<Application>, made: seq<Application>) {
    apps == earlier + made
  }

  lemma FollowedByOneMore(apps: seq<Application>, earlier: seq<Application>, made: seq<Application>)
    requires Followed(apps, earlier, made)
    ensures forall a :: Followed(apps + [a], earlier, made + [a])
  {
    forall a ensures Followed(apps + [a], earlier, made + [a]) {
      assert (earlier + made) + [a] == earlier + (made + [a]);
    }
  }

  lemma FollowedByNothing(apps: seq<Application>)
    ensures Followed(apps, apps, [])
  {
    assert apps + [] == apps;
  }

  lemma OneMorePaidDown(before: seq<Entry>, now: seq<Entry>, made: seq<Application>, debts: seq<nat>, payment: nat,
                        down: int)
    requires Arrears(before, debts) && |made| < |debts| && PaidDown(before, now, made, debts, payment, down)
    requires down > SumOpenOf(before, debts, |made|)
    ensures var k := |made|;
            var left := down - SumOpenOf(before, debts, k);
            var a := Application(payment, debts[k], Min(left, before[debts[k]].openAmount));
            && now[debts[k]] == before[debts[k]] && a.amount == Share(before, debts, down, k) && a.amount > 0
            && PaidDown(before, now[debts[k] := now[debts[k]].(openAmount := now[debts[k]].openAmount - a.amount)],
                        made + [a],
                        debts, payment, down)
    ensures SumOpenOf(before, debts, |made| + 1) == SumOpenOf(before, debts, |made|) + before[debts[|made|]].openAmount
  {
    hide SumOpenOf;
    var k := |made|;
    assert debts[k] in debts;
    SumOpenOneMore(before, debts, k);
  }

  lemma SumOpenOneMore(entries: seq<Entry>, ids: seq<nat>, k: nat)
    requires Within(ids, entries) && k < |ids|
    ensures SumOpenOf(entries, ids, k + 1) == SumOpenOf(entries, ids, k) + entries[ids[k]].openAmount
  {}

  /** Entries before `payment` are reconciled; the payment itself is posted closed before anything is applied. */
  ghost predicate NetOfSettled(entries: seq<Entry>, apps: seq<Application>, payment: nat) {
    && WellFormed(entries, apps) && payment <= |entries|
    && forall id :: 0 <= id < payment ==> entries[id].openAmount == entries[id].amount - Settled(apps, id)
  }

  /** The ledger after the payment `posted` was entered and `made` applied, with `left` still to apply. */
  ghost predicate Paying(before: seq<Entry>, posted: Entry, now: seq<Entry>, apps: seq<Application>,
                         made: seq<Application>, debts: seq<nat>, down: int, left: int)
  {
    && |now| == |before| + 1 && now[|before|] == posted
    && PaidDown(before, now, made, debts, |before|, down)
    && left == Max(0, down - SumOpenOf(before, debts, |made|)) && Paid(made) == down - left
    && NetOfSettled(now, apps, |before|) && Settled(apps, |before|) == left - down
  }

  lemma NothingPaidYet(before: seq<Entry>, posted: Entry, apps: seq<Application>, debts: seq<nat>, payment: nat,
                       down: int)
    requires Reconciled(before, apps) && Arrears(before, debts) && down >= 0
    ensures Paying(before, posted, before + [posted], apps, [], debts, down, down)
  {
    UnappliedIsUnsettled(before, apps, |before|);
  }

  lemma OneMoreSettled(now: seq<Entry>, apps: seq<Application>, payment: nat, a: Application)
    requires NetOfSettled(now, apps, payment) && payment < |now| && a.creditId == payment && a.debitId < payment
    ensures NetOfSettled(now[a.debitId := now[a.debitId].(openAmount := now[a.debitId].openAmount - a.amount)],
                         apps + [a], payment)
    ensures Settled(apps + [a], payment) == Settled(apps, payment) - a.amount
  {
    forall id: nat { SettledOneMore(apps, a, id); }
  }

  lemma PaidOneMoreDebt(before: seq<Entry>, posted: Entry, now: seq<Entry>, apps: seq<Application>,
                        made: seq<Application>, debts: seq<nat>, down: int, left: int)
    requires Arrears(before, debts) && |made| < |debts| && left > 0
    requires Paying(before, posted, now, apps, made, debts, down, left)
    ensures debts[|made|] < |now|
    ensures var debt := debts[|made|];
            var a := Application(|before|, debt, Min(left, now[debt].openAmount));
            Paying(before, posted, now[debt := now[debt].(openAmount := now[debt].openAmount - a.amount)],
                   apps + [a], made + [a],
                   debts, down, left - a.amount)
  {
    hide PaidDown, NetOfSettled, Settled;
    OneMorePaidDown(before, now, made, debts, |before|, down);
    var a := Application(|before|, debts[|made|], Min(left, now[debts[|made|]].openAmount));
    OneMoreSettled(now, apps, |before|, a);
    PaidOneMore(made, a);
  }

  lemma AllSettled(now: seq<Entry>, apps: seq<Application>, payment: nat)
    requires NetOfSettled(now, apps, payment) && |now| == payment + 1
    ensures now[payment].openAmount == now[payment].amount - Settled(apps, payment) ==> Reconciled(now, apps)
  {}

  lemma PlanReconciles(before: seq<Entry>, posted: Entry, now: seq<Entry>, apps: seq<Application>,
                       made: seq<Application>, debts: seq<nat>, down: int, left: int)
    requires Arrears(before, debts) && 0 <= down <= SumOpenOf(before, debts, |debts|)
    requires posted.amount == -down && posted.openAmount == 0
    requires Paying(before, posted, now, apps, made, debts, down, left) && (|made| == |debts| || left <= 0)
    ensures Reconciled(now, apps) && |now| == |before| + 1 && now[|before|] == posted
    ensures PaidDown(before, now, made, debts, |before|, down) && Paid(made) == down
    ensures forall k :: |made| <= k < |debts| ==> Share(before, debts, down, k) == 0
  {
    RestGetNothing(before, debts, down, |made|);
    AllSettled(now, apps, |before|);
    hide PaidDown, Arrears, Share, SumOpenOf, Settled, NetOfSettled, Reconciled;
  }

  /** Debts the loop never reached have no share, and nothing of the payment is left. */
  lemma RestGetNothing(entries: seq<Entry>, debts: seq<nat>, down: int, k: nat)
    requires Arrears(entries, debts) && k <= |debts| && 0 <= down <= SumOpenOf(entries, debts, |debts|)
    requires k == |debts| || down <= SumOpenOf(entries, debts, k)
    ensures forall j :: k <= j < |debts| ==> Share(entries, debts, down, j) == 0
    ensures down <= SumOpenOf(entries, debts, k)
  {
    forall j | k <= j < |debts| ensures Share(entries, debts, down, j) == 0 {
      SumOpenGrows(entries, debts, k, j);
    }
  }
}
