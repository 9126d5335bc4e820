/**
 * One finding per (meter, window, kind)
 * (groupCoverageFindings and keyOf in packages/api/src/lib/meter-data-exception.ts).
 */
module ExceptionGrouping {
  import opened Decimals
  import opened IntervalCoverage

  /** The identity of a problem. `KeyString` is its encoding as a Map key. */
  datatype Key = Key(meterId: string, windowStart: int, kind: Kind)

  datatype Finding = Finding(meterId: string, window: Window, problems: seq<Problem>)

  /** One problem with the key it is filed under. */
  datatype Filed = Filed(key: Key, windowEnd: int, minutes: int, message: Sentence)

  datatype Found = Found(key: Key, windowEnd: int, minutes: int, detail: seq<Sentence>)

  // ---------------------------------------------------------------- the key encoding

  /** `${n}` for an integer. */
  function IntString(n: int): string {
    if n < 0 then "-" + Digits(-n) else Digits(n)
  }

  lemma DigitsInjective(a: nat, b: nat)
    requires Digits(a) == Digits(b)
    ensures a == b
  {
    ValueOfDigits(a);
    ValueOfDigits(b);
  }

  lemma SignShows(n: int)
    ensures IntString(n) != "" && (IntString(n)[0] == '-' <==> n < 0)
  {
    var digits := Digits(if n < 0 then -n else n);
    assert IsDigit(digits[0]);
  }

  lemma IntStringInjective(a: int, b: int)
    requires IntString(a) == IntString(b)
    ensures a == b
  {
    SignShows(a);
    SignShows(b);
    if a < 0 {
      assert Digits(-a) == IntString(a)[1..];
      assert Digits(-b) == IntString(b)[1..];
      DigitsInjective(-a, -b);
    } else {
      DigitsInjective(a, b);
    }
  }

  function KindString(k: Kind): string {
    match k
    case Gap => "gap"
    case Overlap => "overlap"
    case Overrun => "overrun"
    case MissingReading => "missing_reading"
  }

  function KeyString(k: Key): string {
    k.meterId + "|" + IntString(k.windowStart) + "|" + KindString(k.kind)
  }

  predicate NoBar(s: string) { forall i :: 0 <= i < |s| ==> s[i] != '|' }

  /** The text after the last bar is determined by the whole. */
  lemma SplitAtLastBar(p: string, q: string, s: string, t: string)
    requires NoBar(s) && NoBar(t) && p + "|" + s == q + "|" + t
    ensures p == q && s == t
  {
    var a, b := p + "|" + s, q + "|" + t;
    assert a[|p|] == '|' && b[|q|] == '|';
    forall i | |p| < i < |a| ensures a[i] != '|' { assert a[i] == s[i - |p| - 1]; }
    forall i | |q| < i < |b| ensures b[i] != '|' { assert b[i] == t[i - |q| - 1]; }
    assert |p| == |q|;
    assert p == a[..|p|] && q == b[..|q|];
    assert s == a[|p| + 1..] && t == b[|q| + 1..];
  }

  /** Main result: two problems share a Map key only when they share meter, window and kind. */
  lemma KeyStringInjective(a: Key, b: Key)
    requires KeyString(a) == KeyString(b)
    ensures a == b
  {
    KindStringHasNoBar(a.kind);
    KindStringHasNoBar(b.kind);
    IntStringHasNoBar(a.windowStart);
    IntStringHasNoBar(b.windowStart);
    hide KindString, IntString, NoBar;
    SplitAtLastBar(a.meterId + "|" + IntString(a.windowStart), b.meterId + "|" + IntString(b.windowStart),
                   KindString(a.kind), KindString(b.kind));
    SplitAtLastBar(a.meterId, b.meterId, IntString(a.windowStart), IntString(b.windowStart));
    IntStringInjective(a.windowStart, b.windowStart);
    KindStringInjective(a.kind, b.kind);
  }

  lemma KindStringHasNoBar(kind: Kind)
    ensures NoBar(KindString(kind))
  {}

  lemma IntStringHasNoBar(n: int)
    ensures NoBar(IntString(n))
  {}

  lemma KindStringInjective(a: Kind, b: Kind)
    requires KindString(a) == KindString(b)
    ensures a == b
  {
    assert |KindString(Gap)| == 3 && |KindString(MissingReading)| == 15;
    assert KindString(Overlap)[4] == 'l' && KindString(Overrun)[4] == 'r';
  }

  // ---------------------------------------------------------------- what grouping means

  function FileProblems(finding: Finding, n: nat): (filed: seq<Filed>)
    requires n <= |finding.problems|
    ensures |filed| == n
    ensures forall i :: 0 <= i < n ==> filed[i] == FileProblem(finding, finding.problems[i])
  {
    seq(n, i requires 0 <= i < n => FileProblem(finding, finding.problems[i]))
  }

  function FileProblem(finding: Finding, p: Problem): Filed {
    Filed(Key(finding.meterId, finding.window.startDate, p.kind), finding.window.endDate, p.minutes, p.message)
  }

  /** All the problems of all the findings, in order. */
  function Flatten(findings: seq<Finding>): seq<Filed> {
    if findings == [] then []
    else
      var last := findings[|findings| - 1];
      Flatten(findings[..|findings| - 1]) + FileProblems(last, |last.problems|)
  }

  /** The keys present, in order of first appearance. */
  function KeysOf(flat: seq<Filed>): seq<Key> {
    if flat == [] then []
    else
      var before := KeysOf(flat[..|flat| - 1]);
      var k := flat[|flat| - 1].key;
      if k in before then before else before + [k]
  }

  function MinutesFor(flat: seq<Filed>, k: Key): int {
    if flat == [] then 0
    else MinutesFor(flat[..|flat| - 1], k) + if flat[|flat| - 1].key == k then flat[|flat| - 1].minutes else 0
  }

  function DetailFor(flat: seq<Filed>, k: Key): seq<Sentence> {
    if flat == [] then []
    else DetailFor(flat[..|flat| - 1], k) + if flat[|flat| - 1].key == k then [flat[|flat| - 1].message] else []
  }

  /** The window end of the first problem filed under `k`. */
  function WindowEndFor(flat: seq<Filed>, k: Key): int {
    if flat == [] then 0
    else if k in KeysOf(flat[..|flat| - 1]) then WindowEndFor(flat[..|flat| - 1], k)
    else flat[|flat| - 1].windowEnd
  }

  function GroupFor(flat: seq<Filed>, k: Key): Found {
    Found(k, WindowEndFor(flat, k), MinutesFor(flat, k), DetailFor(flat, k))
  }

  function GroupOf(flat: seq<Filed>): (found: seq<Found>)
    ensures |found| == |KeysOf(flat)|
    ensures forall i :: 0 <= i < |found| ==> found[i] == GroupFor(flat, KeysOf(flat)[i])
  {
    var keys := KeysOf(flat);
    seq(|keys|, i requires 0 <= i < |keys| => GroupFor(flat, keys[i]))
  }

  ghost predicate Distinct(keys: seq<Key>) {
    forall i, j :: 0 <= i < j < |keys| ==> keys[i] != keys[j]
  }

  lemma {:induction false} KeysOfDistinct(flat: seq<Filed>)
    ensures Distinct(KeysOf(flat))
    ensures forall k :: k in KeysOf(flat) <==> exists q :: q in flat && q.key == k
  {
    if flat != [] {
      var n := |flat| - 1;
      KeysOfDistinct(flat[..n]);
      forall k ensures k in KeysOf(flat) <==> exists q :: q in flat && q.key == k {
        if q :| q in flat && q.key == k {
          assert q in flat[..n] || q == flat[n];
        }
        if k in KeysOf(flat) {
          if k in KeysOf(flat[..n]) {
            var q :| q in flat[..n] && q.key == k;
            assert q in flat;
          } else {
            assert flat[n] in flat;
          }
        }
      }
    }
  }

  /** Keys come in the order in which they first appear. */
  lemma {:induction false} KeysInOrderOfAppearance(flat: seq<Filed>, i: nat, j: nat)
    requires i < j < |KeysOf(flat)|
    ensures exists p :: 0 <= p < |flat| && flat[p].key == KeysOf(flat)[i]
                        && forall q :: 0 <= q <= p ==> flat[q].key != KeysOf(flat)[j]
  {
    var n := |flat| - 1;
    var init, keys := flat[..n], KeysOf(flat);
    KeysOfDistinct(init);
    if j < |KeysOf(init)| {
      KeysInOrderOfAppearance(init, i, j);
      var p :| 0 <= p < |init| && init[p].key == keys[i] && forall q :: 0 <= q <= p ==> init[q].key != keys[j];
      assert flat[p] == init[p] && forall q :: 0 <= q <= p ==> flat[q] == init[q];
    } else {
      assert keys[i] in KeysOf(init) && keys[j] !in KeysOf(init);
      var q :| q in init && q.key == keys[i];
      var p :| 0 <= p < |init| && init[p] == q;
      assert flat[p] == init[p];
      assert forall r :: 0 <= r < n ==> flat[r] == init[r] && init[r] in init;
    }
  }

  /** Nothing is filed under a key that is absent. */
  lemma {:induction false} AbsentKeyIsEmpty(flat: seq<Filed>, k: Key)
    requires k !in KeysOf(flat)
    ensures MinutesFor(flat, k) == 0 && DetailFor(flat, k) == []
  {
    if flat != [] { AbsentKeyIsEmpty(flat[..|flat| - 1], k); }
  }

  /** A Map from key strings, with insertion order `order` and contents `byKey`, holds exactly the groups of `flat`. */
  ghost predicate Represents(order: seq<string>, byKey: map<string, Found>, flat: seq<Filed>) {
    && |order| == |KeysOf(flat)|
    && (forall i :: 0 <= i < |order| ==> order[i] == KeyString(KeysOf(flat)[i]))
    && (forall s :: s in byKey <==> s in order)
    && (forall i :: 0 <= i < |order| ==> byKey[order[i]] == GroupFor(flat, KeysOf(flat)[i]))
  }

  /** The string a key is filed under is in the Map exactly when the key has been seen. */
  lemma MapKnowsKey(order: seq<string>, byKey: map<string, Found>, flat: seq<Filed>, k: Key)
    requires Represents(order, byKey, flat)
    ensures KeyString(k) in byKey <==> k in KeysOf(flat)
    ensures k in KeysOf(flat) ==> byKey[KeyString(k)] == GroupFor(flat, k)
  {
    if KeyString(k) in byKey {
      var i :| 0 <= i < |order| && order[i] == KeyString(k);
      KeyStringInjective(k, KeysOf(flat)[i]);
    }
    if k in KeysOf(flat) {
      var i :| 0 <= i < |order| && KeysOf(flat)[i] == k;
      assert order[i] == KeyString(k);
    }
  }

  lemma GroupForOneMore(flat: seq<Filed>, q: Filed, k: Key)
    ensures var g := GroupFor(flat, k);
            GroupFor(flat + [q], k) ==
            if q.key != k then g.(windowEnd := if k in KeysOf(flat) then g.windowEnd else q.windowEnd)
            else if k in KeysOf(flat) then g.(minutes := g.minutes + q.minutes, detail := g.detail + [q.message])
            else Found(k, q.windowEnd, q.minutes, [q.message])
  {
    assert (flat + [q])[..|flat + [q]| - 1] == flat;
    if k !in KeysOf(flat) { AbsentKeyIsEmpty(flat, k); }
  }

  lemma KeysOfOneMore(flat: seq<Filed>, q: Filed)
    ensures KeysOf(flat + [q]) == if q.key in KeysOf(flat) then KeysOf(flat) else KeysOf(flat) + [q.key]
  {
    assert (flat + [q])[..|flat + [q]| - 1] == flat;
  }

  /** What the Map holds for a problem's key once the problem is filed. */
  function Filing(byKey: map<string, Found>, q: Filed): Found {
    var key := KeyString(q.key);
    if key in byKey then
      byKey[key].(minutes := byKey[key].minutes + q.minutes, detail := byKey[key].detail + [q.message])
    else Found(q.key, q.windowEnd, q.minutes, [q.message])
  }

  /** One problem more leaves every other key's group as it was. */
  lemma OtherGroupsStay(flat: seq<Filed>, q: Filed, i: nat)
    requires i < |KeysOf(flat)| && KeysOf(flat)[i] != q.key
    ensures var k := KeysOf(flat)[i];
            GroupFor(flat + [q], k) == GroupFor(flat, k) && KeyString(k) != KeyString(q.key)
  {
    var k := KeysOf(flat)[i];
    assert k in KeysOf(flat);
    GroupForOneMore(flat, q, k);
    if KeyString(k) == KeyString(q.key) { KeyStringInjective(k, q.key); }
  }

  lemma SeenKeyFiled(order: seq<string>, byKey: map<string, Found>, flat: seq<Filed>, q: Filed)
    requires Represents(order, byKey, flat) && q.key in KeysOf(flat)
    ensures Represents(order, byKey[KeyString(q.key) := Filing(byKey, q)], flat + [q])
  {
    var keys, byKey' := KeysOf(flat), byKey[KeyString(q.key) := Filing(byKey, q)];
    MapKnowsKey(order, byKey, flat, q.key);
    KeysOfOneMore(flat, q);
    GroupForOneMore(flat, q, q.key);
    hide KeysOf, KeyString, GroupFor;
    forall i | 0 <= i < |order| ensures byKey'[order[i]] == GroupFor(flat + [q], keys[i]) {
      if keys[i] != q.key { OtherGroupsStay(flat, q, i); }
    }
  }

  lemma NewKeyFiled(order: seq<string>, byKey: map<string, Found>, flat: seq<Filed>, q: Filed)
    requires Represents(order, byKey, flat) && q.key !in KeysOf(flat)
    ensures Represents(order + [KeyString(q.key)], byKey[KeyString(q.key) := Filing(byKey, q)], flat + [q])
  {
    var key := KeyString(q.key);
    var keys, order', byKey' := KeysOf(flat), order + [key], byKey[key := Filing(byKey, q)];
    MapKnowsKey(order, byKey, flat, q.key);
    KeysOfOneMore(flat, q);
    GroupForOneMore(flat, q, q.key);
    hide KeysOf, KeyString, GroupFor;
    forall i | 0 <= i < |order'| ensures byKey'[order'[i]] == GroupFor(flat + [q], (keys + [q.key])[i]) {
      if i < |order| {
        assert keys[i] in keys;
        OtherGroupsStay(flat, q, i);
      }
    }
    forall s ensures s in byKey' <==> s in order' { assert order'[|order|] == key; }
  }

  lemma RepresentsOneMore(order: seq<string>, byKey: map<string, Found>, flat: seq<Filed>, q: Filed)
    requires Represents(order, byKey, flat)
    ensures var key := KeyString(q.key);
            Represents(if key in byKey then order else order + [key], byKey[key := Filing(byKey, q)], flat + [q])
  {
    MapKnowsKey(order, byKey, flat, q.key);
    hide Represents;
    if q.key in KeysOf(flat) { SeenKeyFiled(order, byKey, flat, q); } else { NewKeyFiled(order, byKey, flat, q); }
  }

  /** One problem into the Map, under its key string. */
  method FileOne(order: seq<string>, byKey: map<string, Found>, finding: Finding, problem: Problem,
                 ghost flat: seq<Filed>)
    returns (order': seq<string>, byKey': map<string, Found>)
    requires Represents(order, byKey, flat)
    ensures Represents(order', byKey', flat + [FileProblem(finding, problem)])
  {
    hide Represents, KeyString, KeysOf, GroupFor;
    RepresentsOneMore(order, byKey, flat, FileProblem(finding, problem));
    order', byKey' := order, byKey;
    var identity := Key(finding.meterId, finding.window.startDate, problem.kind);
    var key := KeyString(identity);
    if key in byKey {
      var existing := byKey[key];
      byKey' := byKey[key := existing.(minutes := existing.minutes + problem.minutes,
                                       detail := existing.detail + [problem.message])];
    } else {
      order' := order + [key];
      byKey' := byKey[key := Found(identity, finding.window.endDate, problem.minutes, [problem.message])];
    }
  }

  /** The inner loop of the source: one finding's problems into the Map. */
  method FileInto(order: seq<string>, byKey: map<string, Found>, finding: Finding, ghost flat: seq<Filed>)
    returns (order': seq<string>, byKey': map<string, Found>)
    requires Represents(order, byKey, flat)
    ensures Represents(order', byKey', flat + FileProblems(finding, |finding.problems|))
  {
    hide Represents;
    order', byKey' := order, byKey;
    assert flat + FileProblems(finding, 0) == flat;
    for j := 0 to |finding.problems|
      invariant Represents(order', byKey', flat + FileProblems(finding, j))
    {
      ghost var filed := FileProblem(finding, finding.problems[j]);
      assert (flat + FileProblems(finding, j)) + [filed] == flat + FileProblems(finding, j + 1);
      order', byKey' := FileOne(order', byKey', finding, finding.problems[j], flat + FileProblems(finding, j));
    }
  }

  /** The Map-building loops of the source; `order` is the Map's insertion order. */
  method GroupCoverageFindings(findings: seq<Finding>) returns (found: seq<Found>)
    ensures found == GroupOf(Flatten(findings))
  {
    var order: seq<string> := [];
    var byKey: map<string, Found> := map[];
    for i := 0 to |findings|
      invariant Represents(order, byKey, Flatten(findings[..i]))
    {
      assert findings[..i + 1][..i] == findings[..i];
      order, byKey := FileInto(order, byKey, findings[i], Flatten(findings[..i]));
    }
    assert findings[..|findings|] == findings;
    found := seq(|order|, i requires 0 <= i < |order| && order[i] in byKey => byKey[order[i]]);
  }

  // ---------------------------------------------------------------- conservation

  /** Minutes of the filed problems whose key satisfies `p`. */
  function FiledMinutes(flat: seq<Filed>, p: Key -> bool): int {
    if flat == [] then 0
    else FiledMinutes(flat[..|flat| - 1], p) + if p(flat[|flat| - 1].key) then flat[|flat| - 1].minutes else 0
  }

  function FoundMinutes(found: seq<Found>, p: Key -> bool): int {
    if found == [] then 0
    else FoundMinutes(found[..|found| - 1], p) + if p(found[|found| - 1].key) then found[|found| - 1].minutes else 0
  }

  function KeyedMinutes(keys: seq<Key>, flat: seq<Filed>, p: Key -> bool): int {
    if keys == [] then 0
    else KeyedMinutes(keys[..|keys| - 1], flat, p)
         + if p(keys[|keys| - 1]) then MinutesFor(flat, keys[|keys| - 1]) else 0
  }

  lemma {:induction false} FoundMinutesByKey(found: seq<Found>, keys: seq<Key>, flat: seq<Filed>, p: Key -> bool)
    requires |found| == |keys| && forall i :: 0 <= i < |found| ==> found[i] == GroupFor(flat, keys[i])
    ensures FoundMinutes(found, p) == KeyedMinutes(keys, flat, p)
  {
    if found != [] { FoundMinutesByKey(found[..|found| - 1], keys[..|keys| - 1], flat, p); }
  }

  lemma {:induction false} KeyedMinutesOneMore(keys: seq<Key>, flat: seq<Filed>, p: Key -> bool)
    requires flat != [] && Distinct(keys)
    ensures var q := flat[|flat| - 1];
            KeyedMinutes(keys, flat, p) == KeyedMinutes(keys, flat[..|flat| - 1], p)
                                           + if q.key in keys && p(q.key) then q.minutes else 0
  {
    if keys != [] {
      var n := |keys| - 1;
      KeyedMinutesOneMore(keys[..n], flat, p);
      var q := flat[|flat| - 1];
      if q.key == keys[n] { assert q.key !in keys[..n]; }
      assert q.key in keys <==> q.key in keys[..n] || q.key == keys[n];
    }
  }

  lemma KeyedMinutesSnoc(keys: seq<Key>, k: Key, flat: seq<Filed>, p: Key -> bool)
    ensures KeyedMinutes(keys + [k], flat, p) == KeyedMinutes(keys, flat, p) + if p(k) then MinutesFor(flat, k) else 0
  {
    assert (keys + [k])[..|keys|] == keys;
  }

  lemma KeysAreDistinct(flat: seq<Filed>)
    ensures Distinct(KeysOf(flat))
  {
    KeysOfDistinct(flat);
  }

  lemma KeyedMinutesStep(init: seq<Filed>, q: Filed, p: Key -> bool)
    ensures KeyedMinutes(KeysOf(init + [q]), init + [q], p) ==
            KeyedMinutes(KeysOf(init), init, p) + if p(q.key) then q.minutes else 0
  {
    var flat, keys := init + [q], KeysOf(init + [q]);
    assert flat[|flat| - 1] == q && flat[..|flat| - 1] == init;
    KeysOfOneMore(init, q);
    KeysAreDistinct(flat);
    KeyedMinutesOneMore(keys, flat, p);
    hide KeysOf, Distinct, MinutesFor, KeyedMinutes;
    if q.key !in KeysOf(init) {
      AbsentKeyIsEmpty(init, q.key);
      KeyedMinutesSnoc(KeysOf(init), q.key, init, p);
      assert keys[|keys| - 1] == q.key;
    }
  }

  lemma {:induction false} KeyedMinutesConserve(flat: seq<Filed>, p: Key -> bool)
    ensures KeyedMinutes(KeysOf(flat), flat, p) == FiledMinutes(flat, p)
  {
    if flat != [] {
      var n := |flat| - 1;
      var init, q := flat[..n], flat[n];
      assert flat == init + [q];
      KeyedMinutesConserve(init, p);
      hide KeysOf, KeyedMinutes;
      KeyedMinutesStep(init, q, p);
    }
  }

  /**
   * Main result: grouping yields one finding per key present and neither loses nor
   * invents a minute, over all keys or any selection of them.
   */
  lemma GroupingConserves(flat: seq<Filed>, p: Key -> bool)
    ensures FoundMinutes(GroupOf(flat), p) == FiledMinutes(flat, p)
    ensures Distinct(KeysOf(flat))
    ensures forall k :: k in KeysOf(flat) <==> exists q :: q in flat && q.key == k
  {
    KeysOfDistinct(flat);
    FoundMinutesByKey(GroupOf(flat), KeysOf(flat), flat, p);
    KeyedMinutesConserve(flat, p);
  }
}
