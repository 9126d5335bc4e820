/**
 * Which rules of the late-fee ladder charge, in which order, and which of their fees
 * survive replacement (seed/delinquency-ladder.js).
 */
module LadderRules {
  import opened Common

  /** `charges` says the rule has a fee type and a fee reason; `flat` that the type is FLAT_FEE. */
  datatype Rule = Rule(tier: int, charges: bool, flat: bool, feeAmount: int, daysPastDue: int, replacing: bool)

  function Charging(rules: seq<Rule>): seq<Rule> {
    if rules == [] then []
    else
      var r := rules[|rules| - 1];
      Charging(rules[..|rules| - 1]) + if r.charges then [r] else []
  }

  /** Insertion after every rule of the same or a lower tier. */
  function Insert(r: Rule, sorted: seq<Rule>): seq<Rule> {
    if sorted == [] || sorted[|sorted| - 1].tier <= r.tier then sorted + [r]
    else Insert(r, sorted[..|sorted| - 1]) + [sorted[|sorted| - 1]]
  }

  /** The ladder's stable sort. */
  function SortByTier(rules: seq<Rule>): seq<Rule> {
    if rules == [] then [] else Insert(rules[|rules| - 1], SortByTier(rules[..|rules| - 1]))
  }

  ghost predicate TiersAscend(rules: seq<Rule>) {
    forall i, j :: 0 <= i < j < |rules| ==> rules[i].tier <= rules[j].tier
  }

  function OfTier(rules: seq<Rule>, tier: int): seq<Rule> {
    if rules == [] then []
    else
      var r := rules[|rules| - 1];
      OfTier(rules[..|rules| - 1], tier) + if r.tier == tier then [r] else []
  }

  lemma {:induction false} InsertKeepsOrder(r: Rule, sorted: seq<Rule>, bound: int)
    requires TiersAscend(sorted) && r.tier <= bound && forall i :: 0 <= i < |sorted| ==> sorted[i].tier <= bound
    ensures TiersAscend(Insert(r, sorted))
    ensures forall i :: 0 <= i < |Insert(r, sorted)| ==> Insert(r, sorted)[i].tier <= bound
  {
    if sorted != [] && sorted[|sorted| - 1].tier > r.tier {
      var last := sorted[|sorted| - 1];
      InsertKeepsOrder(r, sorted[..|sorted| - 1], last.tier);
    }
  }

  lemma {:induction false} InsertPlacesAmongItsTier(r: Rule, sorted: seq<Rule>, tier: int)
    ensures OfTier(Insert(r, sorted), tier) == OfTier(sorted, tier) + if r.tier == tier then [r] else []
  {
    if sorted == [] || sorted[|sorted| - 1].tier <= r.tier {
      assert (sorted + [r])[..|sorted|] == sorted;
    } else {
      var n := |sorted| - 1;
      InsertPlacesAmongItsTier(r, sorted[..n], tier);
      assert Insert(r, sorted)[..|Insert(r, sorted[..n])|] == Insert(r, sorted[..n]);
    }
  }

  /** The rules are tried in tier order, and rules of one tier in the order given. */
  lemma {:induction false} SortIsStable(rules: seq<Rule>, tier: int)
    ensures TiersAscend(SortByTier(rules))
    ensures OfTier(SortByTier(rules), tier) == OfTier(rules, tier)
  {
    if rules != [] {
      var n := |rules| - 1;
      SortIsStable(rules[..n], tier);
      var bound := HighestTier(SortByTier(rules[..n]));
      InsertKeepsOrder(rules[n], SortByTier(rules[..n]), Max(bound, rules[n].tier));
      InsertPlacesAmongItsTier(rules[n], SortByTier(rules[..n]), tier);
    }
  }

  ghost function HighestTier(rules: seq<Rule>): (highest: int)
    ensures forall i :: 0 <= i < |rules| ==> rules[i].tier <= highest
  {
    if rules == [] then 0 else Max(HighestTier(rules[..|rules| - 1]), rules[|rules| - 1].tier)
  }

  // ---------------------------------------------------------------- which rules raise a fee

  predicate Fires(rule: Rule, pastDue: int) { pastDue >= rule.daysPastDue && rule.flat }

  /** The rules that raise a fee on a bill `pastDue` days late, in order. */
  function Fired(charging: seq<Rule>, pastDue: int): seq<Rule> {
    if charging == [] then []
    else
      var r := charging[|charging| - 1];
      Fired(charging[..|charging| - 1], pastDue) + if Fires(r, pastDue) then [r] else []
  }

  /** The rules of one tier that charge a flat fee and were reached, in the order given. */
  function DueOfTier(rules: seq<Rule>, tier: int, pastDue: int): seq<Rule> {
    if rules == [] then []
    else
      var r := rules[|rules| - 1];
      DueOfTier(rules[..|rules| - 1], tier, pastDue)
      + if r.tier == tier && r.charges && r.flat && r.daysPastDue <= pastDue then [r] else []
  }

  /**
   * Each rule that charges a flat fee and was reached, as often as it is given; by tier, in
   * the order given within one.
   */
  ghost predicate ChargesWhatIsDue(rules: seq<Rule>, pastDue: int, fired: seq<Rule>) {
    && TiersAscend(fired)
    && (forall tier :: OfTier(fired, tier) == DueOfTier(rules, tier, pastDue))
    && (forall r: Rule :: multiset(fired)[r] ==
                    if r.charges && r.flat && r.daysPastDue <= pastDue then multiset(rules)[r] else 0)
  }

  lemma {:induction false} FiredOfTier(rules: seq<Rule>, tier: int, pastDue: int)
    ensures OfTier(Fired(rules, pastDue), tier) == Fired(OfTier(rules, tier), pastDue)
  {
    if rules != [] {
      var n := |rules| - 1;
      FiredOfTier(rules[..n], tier, pastDue);
      var before, r := Fired(rules[..n], pastDue), rules[n];
      OfTierSnoc(before, r, tier);
      FiredSnoc(OfTier(rules[..n], tier), r, pastDue);
      assert Fired(rules, pastDue) == if Fires(r, pastDue) then before + [r] else before;
      assert OfTier(rules, tier) == if r.tier == tier then OfTier(rules[..n], tier) + [r] else OfTier(rules[..n], tier);
    }
  }

  lemma OfTierSnoc(rules: seq<Rule>, r: Rule, tier: int)
    ensures OfTier(rules + [r], tier) == OfTier(rules, tier) + if r.tier == tier then [r] else []
  {
    assert (rules + [r])[..|rules|] == rules;
  }

  lemma FiredSnoc(rules: seq<Rule>, r: Rule, pastDue: int)
    ensures Fired(rules + [r], pastDue) == Fired(rules, pastDue) + if Fires(r, pastDue) then [r] else []
  {
    assert (rules + [r])[..|rules|] == rules;
  }

  lemma {:induction false} DueIsFired(rules: seq<Rule>, tier: int, pastDue: int)
    ensures DueOfTier(rules, tier, pastDue) == Fired(OfTier(Charging(rules), tier), pastDue)
  {
    if rules != [] {
      var n := |rules| - 1;
      DueIsFired(rules[..n], tier, pastDue);
      var before, r := Charging(rules[..n]), rules[n];
      OfTierSnoc(before, r, tier);
      FiredSnoc(OfTier(before, tier), r, pastDue);
      assert Charging(rules) == if r.charges then before + [r] else before;
      assert OfTier(Charging(rules), tier) ==
             if r.charges && r.tier == tier then OfTier(before, tier) + [r] else OfTier(before, tier);
    }
  }

  lemma {:induction false} OfTierCounts(rules: seq<Rule>, r: Rule)
    ensures multiset(OfTier(rules, r.tier))[r] == multiset(rules)[r]
  {
    if rules != [] {
      var n := |rules| - 1;
      OfTierCounts(rules[..n], r);
      assert rules == rules[..n] + [rules[n]];
    }
  }

  lemma {:induction false} DueCounts(rules: seq<Rule>, r: Rule, pastDue: int)
    ensures multiset(DueOfTier(rules, r.tier, pastDue))[r] ==
            if r.charges && r.flat && r.daysPastDue <= pastDue then multiset(rules)[r] else 0
  {
    if rules != [] {
      var n := |rules| - 1;
      DueCounts(rules[..n], r, pastDue);
      assert rules == rules[..n] + [rules[n]];
    }
  }

  lemma {:induction false} FiredAmong(rules: seq<Rule>, pastDue: int)
    ensures forall r :: r in Fired(rules, pastDue) ==> r in rules
    ensures TiersAscend(rules) ==> TiersAscend(Fired(rules, pastDue))
  {
    if rules != [] {
      var n := |rules| - 1;
      FiredAmong(rules[..n], pastDue);
      var before := Fired(rules[..n], pastDue);
      if TiersAscend(rules) {
        forall i | 0 <= i < |before| ensures before[i].tier <= rules[n].tier {
          assert before[i] in rules[..n];
          var k :| 0 <= k < n && rules[..n][k] == before[i];
          assert rules[k].tier <= rules[n].tier;
        }
      }
    }
  }

  /** Main result: the ladder's filter, sort and loop charge exactly what is due, in the right order. */
  lemma FiredIsWhatIsDue(rules: seq<Rule>, pastDue: int)
    ensures ChargesWhatIsDue(rules, pastDue, Fired(SortByTier(Charging(rules)), pastDue))
  {
    var sorted := SortByTier(Charging(rules));
    var fired := Fired(sorted, pastDue);
    SortIsStable(Charging(rules), 0);
    FiredAmong(sorted, pastDue);
    forall tier ensures OfTier(fired, tier) == DueOfTier(rules, tier, pastDue) {
      SortIsStable(Charging(rules), tier);
      FiredOfTier(sorted, tier, pastDue);
      DueIsFired(rules, tier, pastDue);
    }
    forall r: Rule
      ensures multiset(fired)[r] ==
              if r.charges && r.flat && r.daysPastDue <= pastDue then multiset(rules)[r] else 0
    {
      OfTierCounts(fired, r);
      DueCounts(rules, r, pastDue);
    }
  }

  // ---------------------------------------------------------------- whose fees survive

  /** The fired rules from the last replacing one on; all of them when none replaces. */
  function Surviving(fired: seq<Rule>): seq<Rule> {
    if fired == [] then []
    else
      var r := fired[|fired| - 1];
      if r.replacing then [r] else Surviving(fired[..|fired| - 1]) + [r]
  }

  function SumFees(rules: seq<Rule>): int {
    if rules == [] then 0 else SumFees(rules[..|rules| - 1]) + rules[|rules| - 1].feeAmount
  }

  /** The survivors are a suffix of what fired, starting at the last replacing rule. */
  lemma {:induction false} SurvivorsAreTheTail(fired: seq<Rule>)
    ensures var from := |fired| - |Surviving(fired)|;
            && 0 <= from && Surviving(fired) == fired[from..]
            && (forall i :: from < i < |fired| ==> !fired[i].replacing)
            && (0 < from ==> from < |fired| && fired[from].replacing)
  {
    if fired != [] {
      var n := |fired| - 1;
      SurvivorsAreTheTail(fired[..n]);
      if !fired[n].replacing {
        var from := n - |Surviving(fired[..n])|;
        assert fired[from..] == fired[..n][from..] + [fired[n]];
      }
    }
  }
}
