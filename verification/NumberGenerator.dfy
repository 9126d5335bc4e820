/**
 * packages/api/src/lib/number-generator.ts and the templates it renders,
 * packages/shared/src/lib/number-template.ts.
 */
module NumberGenerator {
  import opened Common
  import opened Decimals

  // ---------------------------------------------------------------- padded numbers

  /** String(n).padStart(width, "0"). */
  function Padded(n: nat, width: nat): (s: string)
    ensures s != "" && AllDigits(s)
  {
    var s := Digits(n);
    if |s| >= width then s else Zeros(width - |s|) + s
  }

  lemma {:induction false} ValueOfPadding(zeros: nat, s: string)
    requires AllDigits(s)
    ensures Value(Zeros(zeros) + s) == Value(s)
  {
    if zeros == 0 {
      assert Zeros(0) + s == s;
    } else {
      ValueOfPadding(zeros - 1, s);
      assert (Zeros(zeros) + s)[1..] == Zeros(zeros - 1) + s;
    }
  }

  lemma ValueOfPadded(n: nat, width: nat)
    ensures Value(Padded(n, width)) == n
  {
    ValueOfDigits(n);
    if |Digits(n)| < width { ValueOfPadding(width - |Digits(n)|, Digits(n)); }
  }

  /** A digit string of value `n`, no shorter than `width` and no longer than it has to be. */
  ghost predicate Spells(digits: string, n: nat, width: nat) {
    && digits != "" && AllDigits(digits) && Value(digits) == n && width <= |digits|
    && (width < |digits| && 1 < |digits| ==> Pow10(|digits| - 1) <= n)
  }

  lemma {:induction false} DigitsAreShortest(n: nat)
    ensures 1 < |Digits(n)| ==> Pow10(|Digits(n)| - 1) <= n
  {
    if n >= 10 { DigitsAreShortest(n / 10); }
  }

  lemma PaddedSpells(n: nat, width: nat)
    ensures Spells(Padded(n, width), n, width)
  {
    ValueOfPadded(n, width);
    DigitsAreShortest(n);
  }

  lemma {:induction false} ValueBound(s: string)
    requires AllDigits(s)
    ensures Value(s) < Pow10(|s|)
  {
    if s != "" {
      ValueBound(s[1..]);
      ScaleMonotone(DigitValue(s[0]), 9, Pow10(|s| - 1));
    }
  }

  lemma ScaleMonotone(a: nat, b: nat, p: nat)
    requires a <= b
    ensures a * p <= b * p
  {}

  // ---------------------------------------------------------------- string order

  /** The order of ORDER BY on the identifier column. */
  predicate Less(a: string, b: string) {
    if b == "" then false
    else if a == "" then true
    else if a[0] != b[0] then a[0] < b[0]
    else Less(a[1..], b[1..])
  }

  lemma {:induction false} LessAfterPrefix(p: string, a: string, b: string)
    ensures Less(p + a, p + b) == Less(a, b)
  {
    if p == "" {
      assert p + a == a && p + b == b;
    } else {
      LessAfterPrefix(p[1..], a, b);
      assert (p + a)[1..] == p[1..] + a && (p + b)[1..] == p[1..] + b;
    }
  }

  /** Strings of digits of one width are ordered as their numbers are, whatever follows them. */
  lemma {:induction false} EqualWidthOrder(x: string, y: string, suffix: string)
    requires AllDigits(x) && AllDigits(y) && |x| == |y|
    ensures Value(x) < Value(y) ==> Less(x + suffix, y + suffix)
    ensures Less(x + suffix, y + suffix) ==> Value(x) < Value(y)
  {
    if x == "" {
      LessIsIrreflexive(x + suffix);
    } else {
      assert (x + suffix)[1..] == x[1..] + suffix && (y + suffix)[1..] == y[1..] + suffix;
      EqualWidthOrder(x[1..], y[1..], suffix);
      ValueBound(x[1..]);
      ValueBound(y[1..]);
      if x[0] != y[0] {
        LeadingDigitDecides(DigitValue(x[0]), DigitValue(y[0]), Pow10(|x| - 1), Value(x[1..]), Value(y[1..]));
      }
    }
  }

  lemma LeadingDigitDecides(d: nat, e: nat, p: nat, v: nat, w: nat)
    requires d != e && v < p && w < p
    ensures d * p + v < e * p + w <==> d < e
  {
    if d < e { ScaleMonotone(d + 1, e, p); } else { ScaleMonotone(e + 1, d, p); }
  }

  lemma {:induction false} LessIsIrreflexive(s: string)
    ensures !Less(s, s)
  {
    if s != "" { LessIsIrreflexive(s[1..]); }
  }

  lemma {:induction false} LessIsTransitive(a: string, b: string, c: string)
    requires Less(a, b) && Less(b, c)
    ensures Less(a, c)
  {
    if a != "" && a[0] == b[0] && b[0] == c[0] { LessIsTransitive(a[1..], b[1..], c[1..]); }
  }

  lemma {:induction false} LessIsTotal(a: string, b: string)
    ensures a == b || Less(a, b) || Less(b, a)
  {
    if a != "" && b != "" && a[0] == b[0] {
      LessIsTotal(a[1..], b[1..]);
      assert a == [a[0]] + a[1..] && b == [b[0]] + b[1..];
    }
  }

  // ---------------------------------------------------------------- templates

  /** A parsed template; parseTemplate lets through only those with one sequence token. */
  datatype Part = Literal(text: string) | Year4 | Year2 | Month2 | Seq(width: nat)

  function FixedText(part: Part, year: nat, month: nat): string {
    match part
    case Literal(text) => text
    case Year4 => Padded(year, 4)
    case Year2 => Padded(year % 100, 2)
    case Month2 => Padded(month, 2)
    case Seq(_) => ""
  }

  function Render(parts: seq<Part>, n: nat, year: nat, month: nat): string {
    if parts == [] then ""
    else
      (if parts[0].Seq? then Padded(n, parts[0].width) else FixedText(parts[0], year, month))
      + Render(parts[1..], n, year, month)
  }

  predicate NoSeq(parts: seq<Part>) { forall i :: 0 <= i < |parts| ==> !parts[i].Seq? }

  predicate OneSeq(parts: seq<Part>) {
    && parts != []
    && if parts[0].Seq? then NoSeq(parts[1..]) else OneSeq(parts[1..])
  }

  /** The template on one day: the text around the number, its padding and its first value. */
  datatype Format = Format(prefix: string, suffix: string, width: nat, startAt: int)

  function FormatOn(parts: seq<Part>, startAt: int, year: nat, month: nat): Format
    requires OneSeq(parts)
  {
    if parts[0].Seq? then Format("", Render(parts[1..], 0, year, month), parts[0].width, startAt)
    else
      var rest := FormatOn(parts[1..], startAt, year, month);
      rest.(prefix := FixedText(parts[0], year, month) + rest.prefix)
  }

  function Identifier(f: Format, n: nat): string { f.prefix + Padded(n, f.width) + f.suffix }

  lemma {:induction false} NoSeqIgnoresNumber(parts: seq<Part>, m: nat, n: nat, year: nat, month: nat)
    requires NoSeq(parts)
    ensures Render(parts, m, year, month) == Render(parts, n, year, month)
  {
    if parts != [] { NoSeqIgnoresNumber(parts[1..], m, n, year, month); }
  }

  /** Rendering a template is putting the padded number between the day's prefix and suffix. */
  lemma {:induction false} RenderIsIdentifier(parts: seq<Part>, n: nat, startAt: int, year: nat, month: nat)
    requires OneSeq(parts)
    ensures Render(parts, n, year, month) == Identifier(FormatOn(parts, startAt, year, month), n)
  {
    var f := FormatOn(parts, startAt, year, month);
    if parts[0].Seq? {
      NoSeqIgnoresNumber(parts[1..], n, 0, year, month);
      assert f.prefix + Padded(n, f.width) == Padded(n, f.width);
    } else {
      RenderIsIdentifier(parts[1..], n, startAt, year, month);
      var rest := FormatOn(parts[1..], startAt, year, month);
      assert FixedText(parts[0], year, month) + (rest.prefix + Padded(n, f.width) + rest.suffix)
          == f.prefix + Padded(n, f.width) + f.suffix;
    }
  }

  // ---------------------------------------------------------------- reading a number back

  /** The sequence capture of seqExtract, which is anchored at both ends. */
  function Extract(f: Format, id: string): Option<string> {
    var from, to := |f.prefix|, |id| - |f.suffix|;
    if from < to && id[..from] == f.prefix && id[to..] == f.suffix && AllDigits(id[from..to]) then Some(id[from..to])
    else None
  }

  predicate Matches(f: Format, id: string) { Extract(f, id).Some? }

  function Number(f: Format, id: string): nat
    requires Matches(f, id)
  {
    Value(Extract(f, id).value)
  }

  lemma ExtractIs(f: Format, digits: string)
    requires digits != "" && AllDigits(digits)
    ensures Extract(f, f.prefix + digits + f.suffix) == Some(digits)
  {
    var id, from, to := f.prefix + digits + f.suffix, |f.prefix|, |f.prefix| + |digits|;
    assert id[..from] == f.prefix && id[from..to] == digits && id[to..] == f.suffix;
  }

  /** Round trip: the pattern built from a template reads back the number the template rendered. */
  lemma ReadsBackWhatItRenders(parts: seq<Part>, n: nat, startAt: int, year: nat, month: nat)
    requires OneSeq(parts)
    ensures var f := FormatOn(parts, startAt, year, month);
            Matches(f, Render(parts, n, year, month)) && Number(f, Render(parts, n, year, month)) == n
  {
    var f := FormatOn(parts, startAt, year, month);
    RenderIsIdentifier(parts, n, startAt, year, month);
    NumberOfIdentifier(f, n);
  }

  lemma NumberOfIdentifier(f: Format, n: nat)
    ensures Matches(f, Identifier(f, n)) && Number(f, Identifier(f, n)) == n
  {
    ExtractIs(f, Padded(n, f.width));
    ValueOfPadded(n, f.width);
  }

  // ---------------------------------------------------------------- generateNumber

  const BATCH := 50

  /** The rows of the query on `table`: the top 50 matching identifiers in descending string order. */
  ghost predicate IsBatch(table: set<string>, f: Format, rows: seq<string>) {
    && |rows| <= BATCH
    && (forall i :: 0 <= i < |rows| ==> rows[i] in table && Matches(f, rows[i]))
    && (forall i, j :: 0 <= i < j < |rows| ==> Less(rows[j], rows[i]))
    && (forall id :: id in table && Matches(f, id) && id !in rows ==>
          |rows| == BATCH && forall i :: 0 <= i < |rows| ==> Less(id, rows[i]))
  }

  function ExistingMax(f: Format, rows: seq<string>): Option<nat> {
    if rows == [] then None
    else
      var before := ExistingMax(f, rows[..|rows| - 1]);
      match Extract(f, rows[|rows| - 1])
      case None => before
      case Some(digits) => if before.None? || Value(digits) > before.value then Some(Value(digits)) else before
  }

  function NextSeq(existing: Option<nat>, startAt: int): nat {
    match existing
    case None => Max(startAt, 1)
    case Some(highest) => Max(startAt, highest + 1)
  }

  function Candidate(f: Format, rows: seq<string>): string { Identifier(f, NextSeq(ExistingMax(f, rows), f.startAt)) }

  lemma {:induction false} ExistingMaxIs(f: Format, rows: seq<string>)
    requires forall i :: 0 <= i < |rows| ==> Matches(f, rows[i])
    ensures ExistingMax(f, rows).None? <==> rows == []
    ensures forall i :: 0 <= i < |rows| ==> Number(f, rows[i]) <= ExistingMax(f, rows).value
    ensures rows != [] ==> exists i :: 0 <= i < |rows| && Number(f, rows[i]) == ExistingMax(f, rows).value
  {
    if rows != [] {
      var n := |rows| - 1;
      ExistingMaxIs(f, rows[..n]);
      assert forall i :: 0 <= i < n ==> rows[..n][i] == rows[i];
      if n > 0 && ExistingMax(f, rows) == ExistingMax(f, rows[..n]) {
        var i :| 0 <= i < n && Number(f, rows[..n][i]) == ExistingMax(f, rows[..n]).value;
        assert Number(f, rows[i]) == ExistingMax(f, rows).value;
      } else {
        assert Number(f, rows[n]) == ExistingMax(f, rows).value;
      }
    }
  }

  /** The least number that is at least `startAt`, at least one if there are no rows, and above every row's. */
  ghost predicate IsNext(f: Format, rows: seq<string>, n: nat)
    requires forall i :: 0 <= i < |rows| ==> Matches(f, rows[i])
  {
    && f.startAt <= n && (rows == [] ==> 1 <= n)
    && (forall i :: 0 <= i < |rows| ==> Number(f, rows[i]) < n)
    && (n == f.startAt || (rows == [] && n == 1) || exists i :: 0 <= i < |rows| && Number(f, rows[i]) == n - 1)
  }

  lemma NextIsLeast(f: Format, rows: seq<string>, n: nat)
    requires forall i :: 0 <= i < |rows| ==> Matches(f, rows[i])
    ensures n == NextSeq(ExistingMax(f, rows), f.startAt) <==> IsNext(f, rows, n)
  {
    ExistingMaxIs(f, rows);
  }

  method GenerateNumber(f: Format, rows: seq<string>) returns (candidate: string)
    ensures candidate == Candidate(f, rows)
    ensures (forall i :: 0 <= i < |rows| ==> Matches(f, rows[i])) ==>
              exists digits, n: nat ::
                candidate == f.prefix + digits + f.suffix && Spells(digits, n, f.width) && IsNext(f, rows, n)
  {
    var existing: Option<nat> := None;
    for i := 0 to |rows|
      invariant existing == ExistingMax(f, rows[..i])
    {
      assert rows[..i + 1][..i] == rows[..i];
      var digits := Extract(f, rows[i]);
      if digits.Some? {
        var n := Value(digits.value);
        if existing.None? || n > existing.value { existing := Some(n); }
      }
    }
    assert rows[..|rows|] == rows;
    var n := NextSeq(existing, f.startAt);
    candidate := Identifier(f, n);
    PaddedSpells(n, f.width);
    if forall i :: 0 <= i < |rows| ==> Matches(f, rows[i]) { NextIsLeast(f, rows, n); }
    assert candidate == f.prefix + Padded(n, f.width) + f.suffix;
  }

  // ---------------------------------------------------------------- is the candidate new?

  /** `n` is above every number already in the table. */
  ghost predicate Exceeds(n: int, table: set<string>, f: Format) {
    forall id :: id in table && Matches(f, id) ==> Number(f, id) < n
  }

  /** The matching identifiers that the query lists before `id`. */
  ghost function Above(table: set<string>, f: Format, id: string): set<string> {
    set x | x in table && Matches(f, x) && Less(id, x)
  }

  /** The query returns an identifier exactly when fewer than 50 matching ones are above it as strings. */
  lemma InBatchExactly(table: set<string>, f: Format, rows: seq<string>, id: string)
    requires IsBatch(table, f, rows) && id in table && Matches(f, id)
    ensures id in rows <==> |Above(table, f, id)| < BATCH
  {
    if id in rows {
      var k :| 0 <= k < |rows| && rows[k] == id;
      AboveARow(table, f, rows, k);
      SubsetIsNoLarger(Above(table, f, id), (set i | 0 <= i < k :: rows[i]));
    } else {
      forall x | x in (set i | 0 <= i < |rows| :: rows[i]) ensures x in Above(table, f, id) {}
      RowsDiffer(rows);
      FirstAsSet(rows, |rows|);
      SubsetIsNoLarger((set i | 0 <= i < |rows| :: rows[i]), Above(table, f, id));
    }
  }

  /** What is above a row is among the rows before it. */
  lemma AboveARow(table: set<string>, f: Format, rows: seq<string>, k: nat)
    requires IsBatch(table, f, rows) && k < |rows|
    ensures Above(table, f, rows[k]) <= (set i | 0 <= i < k :: rows[i])
    ensures |(set i | 0 <= i < k :: rows[i])| == k
  {
    forall x | x in Above(table, f, rows[k]) ensures x in (set i | 0 <= i < k :: rows[i]) {
      if x !in rows {
        LessIsTransitive(rows[k], x, rows[k]);
        LessIsIrreflexive(rows[k]);
      } else {
        var i :| 0 <= i < |rows| && rows[i] == x;
        if i > k { LessIsTransitive(rows[k], x, rows[k]); }
        LessIsIrreflexive(rows[k]);
        assert i < k;
      }
    }
    RowsDiffer(rows);
    FirstAsSet(rows, k);
  }

  lemma RowsDiffer(rows: seq<string>)
    requires forall i, j :: 0 <= i < j < |rows| ==> Less(rows[j], rows[i])
    ensures forall i, j :: 0 <= i < j < |rows| ==> rows[i] != rows[j]
  {
    forall i, j | 0 <= i < j < |rows| ensures rows[i] != rows[j] { LessIsIrreflexive(rows[i]); }
  }

  lemma {:induction false} FirstAsSet(rows: seq<string>, k: nat)
    requires k <= |rows| && forall i, j :: 0 <= i < j < k ==> rows[i] != rows[j]
    ensures |(set i | 0 <= i < k :: rows[i])| == k
  {
    if k > 0 {
      FirstAsSet(rows, k - 1);
      assert (set i | 0 <= i < k :: rows[i]) == (set i | 0 <= i < k - 1 :: rows[i]) + {rows[k - 1]};
    }
  }

  /** `id` carries the highest number in the table. */
  ghost predicate Highest(table: set<string>, f: Format, id: string) {
    && id in table && Matches(f, id)
    && forall x :: x in table && Matches(f, x) ==> Number(f, x) <= Number(f, id)
  }

  /** Some identifier of the highest number has fewer than 50 matching ones above it as strings. */
  ghost predicate HighestIsSeen(table: set<string>, f: Format) {
    exists id :: Highest(table, f, id) && |Above(table, f, id)| < BATCH
  }

  /**
   * Main result: the next number is above every existing one exactly when some identifier of
   * the highest number has fewer than 50 matching identifiers above it in string order, or
   * `startAt` is above them all.
   */
  lemma NextExceedsExactly(table: set<string>, f: Format, rows: seq<string>)
    requires IsBatch(table, f, rows)
    ensures Exceeds(NextSeq(ExistingMax(f, rows), f.startAt), table, f)
            <==> Exceeds(f.startAt, table, f) || HighestIsSeen(table, f)
  {
    ExistingMaxIs(f, rows);
    var n := NextSeq(ExistingMax(f, rows), f.startAt);
    if HighestIsSeen(table, f) {
      var id :| Highest(table, f, id) && |Above(table, f, id)| < BATCH;
      InBatchExactly(table, f, rows, id);
      var i :| 0 <= i < |rows| && rows[i] == id;
    }
    if rows != [] && Exceeds(n, table, f) && n != f.startAt {
      var i :| 0 <= i < |rows| && Number(f, rows[i]) == ExistingMax(f, rows).value;
      assert Highest(table, f, rows[i]);
      InBatchExactly(table, f, rows, rows[i]);
    }
    if rows == [] && Exceeds(n, table, f) { NothingMatches(table, f); }
  }

  lemma NothingMatches(table: set<string>, f: Format)
    requires IsBatch(table, f, [])
    ensures Exceeds(f.startAt, table, f)
  {}

  /** A number above every existing one renders to an identifier the table does not hold. */
  lemma ExceedingIsFresh(n: nat, table: set<string>, f: Format)
    requires Exceeds(n, table, f)
    ensures Identifier(f, n) !in table
  {
    NumberOfIdentifier(f, n);
  }

  ghost predicate OneWidth(table: set<string>, f: Format) {
    forall a, b :: a in table && b in table && Matches(f, a) && Matches(f, b) ==> |a| == |b|
  }

  lemma MatchIsItsParts(f: Format, id: string)
    requires Matches(f, id)
    ensures id == f.prefix + Extract(f, id).value + f.suffix
  {}

  lemma StringOrderIsNumberOrder(f: Format, a: string, b: string)
    requires Matches(f, a) && Matches(f, b) && |a| == |b|
    ensures Less(a, b) <==> Number(f, a) < Number(f, b)
  {
    var x, y := Extract(f, a).value, Extract(f, b).value;
    MatchIsItsParts(f, a);
    MatchIsItsParts(f, b);
    assert a == f.prefix + (x + f.suffix) && b == f.prefix + (y + f.suffix);
    LessAfterPrefix(f.prefix, x + f.suffix, y + f.suffix);
    EqualWidthOrder(x, y, f.suffix);
  }

  /** Main result: with one digit width the batch holds the highest number, so the candidate is new. */
  lemma OneWidthIsFresh(table: set<string>, f: Format, rows: seq<string>)
    requires IsBatch(table, f, rows) && OneWidth(table, f)
    ensures Exceeds(f.startAt, table, f) || HighestIsSeen(table, f)
    ensures Exceeds(NextSeq(ExistingMax(f, rows), f.startAt), table, f) && Candidate(f, rows) !in table
  {
    if rows == [] {
      NothingMatches(table, f);
    } else {
      forall id | id in table && Matches(f, id) ensures Number(f, id) <= Number(f, rows[0]) {
        StringOrderIsNumberOrder(f, id, rows[0]);
        if id in rows {
          var i :| 0 <= i < |rows| && rows[i] == id;
        }
      }
      assert Highest(table, f, rows[0]);
      InBatchExactly(table, f, rows, rows[0]);
    }
    NextExceedsExactly(table, f, rows);
    ExceedingIsFresh(NextSeq(ExistingMax(f, rows), f.startAt), table, f);
  }

  // ---------------------------------------------------------------- the retry loop

  /** One turn: the table when read and its batch, and the table when the insert was tried. */
  datatype Attempt = Attempt(seen: set<string>, rows: seq<string>, atInsert: set<string>, otherError: bool)

  datatype Outcome = Inserted(id: string) | OtherError | Exhausted

  /** Identifiers are committed by others at any time and none is removed. */
  ghost predicate Schedule(f: Format, attempts: seq<Attempt>) {
    && (forall i :: 0 <= i < |attempts| ==>
          IsBatch(attempts[i].seen, f, attempts[i].rows) && attempts[i].seen <= attempts[i].atInsert)
    && (forall i, j :: 0 <= i < j < |attempts| ==> attempts[i].atInsert <= attempts[j].seen)
  }

  predicate Collides(f: Format, a: Attempt) { !a.otherError && Candidate(f, a.rows) in a.atInsert }

  /** Only a unique violation is retried; any other failure, or success, ends the loop at once. */
  method GenerateAndInsertWithRetry(f: Format, attempts: seq<Attempt>, maxAttempts: nat)
    returns (outcome: Outcome, used: nat)
    requires |attempts| >= maxAttempts
    ensures used <= maxAttempts && forall i :: 0 <= i < used ==> Collides(f, attempts[i])
    ensures outcome.Exhausted? <==> used == maxAttempts
    ensures used < maxAttempts ==>
              && !Collides(f, attempts[used])
              && outcome ==
                 if attempts[used].otherError then OtherError else Inserted(Candidate(f, attempts[used].rows))
  {
    used := 0;
    while used < maxAttempts
      invariant used <= maxAttempts && forall i :: 0 <= i < used ==> Collides(f, attempts[i])
    {
      var candidate := GenerateNumber(f, attempts[used].rows);
      if attempts[used].otherError { return OtherError, used; }
      if candidate !in attempts[used].atInsert { return Inserted(candidate), used; }
      used := used + 1;
    }
    outcome := Exhausted;
  }

  /** The condition under which an attempt's candidate is above everything it saw, on the table it reads. */
  ghost predicate Sound(f: Format, a: Attempt) {
    Exceeds(f.startAt, a.seen, f) || HighestIsSeen(a.seen, f)
  }

  /**
   * Under that condition each failed attempt is down to an identifier committed after its
   * read, and no two to the same one.
   */
  lemma FailureWitnessesCommit(f: Format, attempts: seq<Attempt>, j: nat)
    requires Schedule(f, attempts) && j < |attempts| && Collides(f, attempts[j]) && Sound(f, attempts[j])
    ensures Candidate(f, attempts[j].rows) in attempts[j].atInsert - attempts[j].seen
    ensures forall i :: 0 <= i < j && Collides(f, attempts[i]) ==>
              Candidate(f, attempts[i].rows) != Candidate(f, attempts[j].rows)
  {
    var a := attempts[j];
    NextExceedsExactly(a.seen, f, a.rows);
    ExceedingIsFresh(NextSeq(ExistingMax(f, a.rows), f.startAt), a.seen, f);
    forall i | 0 <= i < j && Collides(f, attempts[i])
      ensures Candidate(f, attempts[i].rows) != Candidate(f, a.rows)
    {
      assert attempts[i].atInsert <= a.seen;
    }
  }

  ghost function Tried(f: Format, attempts: seq<Attempt>): set<string> {
    if attempts == [] then {}
    else Tried(f, attempts[..|attempts| - 1]) + {Candidate(f, attempts[|attempts| - 1].rows)}
  }

  lemma {:induction false} TriedAreDistinct(f: Format, attempts: seq<Attempt>)
    requires attempts != [] && Schedule(f, attempts)
    requires forall i :: 0 <= i < |attempts| ==> Collides(f, attempts[i]) && Sound(f, attempts[i])
    ensures |Tried(f, attempts)| == |attempts|
    ensures Tried(f, attempts) <= attempts[|attempts| - 1].atInsert - attempts[0].seen
  {
    var n := |attempts| - 1;
    FailureWitnessesCommit(f, attempts, n);
    if n > 0 {
      TriedAreDistinct(f, attempts[..n]);
      assert attempts[n - 1].atInsert <= attempts[n].seen;
      assert attempts[0].seen <= attempts[0].atInsert;
    }
  }

  /**
   * Main result: when every attempt could see the highest number, giving up after `n`
   * means `n` identifiers were committed meanwhile.
   */
  lemma ExhaustionNeedsContention(f: Format, attempts: seq<Attempt>)
    requires attempts != [] && Schedule(f, attempts)
    requires forall i :: 0 <= i < |attempts| ==> Collides(f, attempts[i]) && Sound(f, attempts[i])
    ensures |attempts[|attempts| - 1].atInsert - attempts[0].seen| >= |attempts|
  {
    TriedAreDistinct(f, attempts);
    SubsetIsNoLarger(Tried(f, attempts), attempts[|attempts| - 1].atInsert - attempts[0].seen);
  }

  /** The tables each attempt reads have identifiers of one width. */
  ghost predicate OneWidthEach(f: Format, attempts: seq<Attempt>) {
    forall i :: 0 <= i < |attempts| ==> OneWidth(attempts[i].seen, f)
  }

  lemma OneWidthIsSound(f: Format, attempts: seq<Attempt>)
    requires Schedule(f, attempts) && OneWidthEach(f, attempts)
    ensures forall i :: 0 <= i < |attempts| ==> Sound(f, attempts[i])
  {
    forall i | 0 <= i < |attempts| ensures Sound(f, attempts[i]) {
      OneWidthIsFresh(attempts[i].seen, f, attempts[i].rows);
    }
  }

  /** Main result: with one digit width, a failed attempt always witnesses a commit of its own. */
  lemma OneWidthFailuresWitnessCommits(f: Format, attempts: seq<Attempt>, j: nat)
    requires Schedule(f, attempts) && OneWidthEach(f, attempts) && j < |attempts| && Collides(f, attempts[j])
    ensures Candidate(f, attempts[j].rows) in attempts[j].atInsert - attempts[j].seen
    ensures forall i :: 0 <= i < j && Collides(f, attempts[i]) ==>
              Candidate(f, attempts[i].rows) != Candidate(f, attempts[j].rows)
  {
    OneWidthIsSound(f, attempts);
    FailureWitnessesCommit(f, attempts, j);
  }

  /**
   * Main result: with one digit width, giving up after `n` collisions means `n`
   * identifiers were committed meanwhile.
   */
  lemma OneWidthExhaustionNeedsContention(f: Format, attempts: seq<Attempt>)
    requires attempts != [] && Schedule(f, attempts) && OneWidthEach(f, attempts)
    requires forall i :: 0 <= i < |attempts| ==> Collides(f, attempts[i])
    ensures |attempts[|attempts| - 1].atInsert - attempts[0].seen| >= |attempts|
  {
    OneWidthIsSound(f, attempts);
    ExhaustionNeedsContention(f, attempts);
  }

  lemma {:induction false} SubsetIsNoLarger(a: set<string>, b: set<string>)
    requires a <= b
    ensures |a| <= |b|
    decreases |a|
  {
    if a != {} {
      var x :| x in a;
      SubsetIsNoLarger(a - {x}, b - {x});
    }
  }

  // ---------------------------------------------------------------- mixed widths

  /** Unpadded numbers 950 to 1000 after "A-": the fifty rows read are 999 down to 950. */
  const UNPADDED := Format("A-", "", 0, 1)

  function FiftyRows(): seq<string> { seq(50, i requires 0 <= i < 50 => Identifier(UNPADDED, 999 - i)) }

  ghost function MixedTable(): set<string> { (set id | id in FiftyRows()) + {Identifier(UNPADDED, 1000)} }

  lemma ThreeDigits(n: nat)
    requires 950 <= n <= 999
    ensures Identifier(UNPADDED, n) == "A-9" + [(n / 10 % 10) as char + '0', (n % 10) as char + '0']
  {
    assert Digits(n / 10) == Digits(9) + [(n / 10 % 10) as char + '0'];
    assert Digits(9) == "9";
  }

  lemma Thousand()
    ensures Identifier(UNPADDED, 1000) == "A-1000"
  {
    assert Digits(1000) == Digits(100) + "0";
    assert Digits(100) == Digits(10) + "0";
    assert Digits(10) == Digits(1) + "0";
  }

  lemma RowOf(n: nat)
    requires 950 <= n <= 999
    ensures var id := Identifier(UNPADDED, n);
            Matches(UNPADDED, id) && Number(UNPADDED, id) == n && |id| == 5 && Less("A-1000", id)
  {
    NumberOfIdentifier(UNPADDED, n);
    ThreeDigits(n);
    var id := Identifier(UNPADDED, n);
    assert id == "A-" + id[2..];
    LessAfterPrefix("A-", "1000", id[2..]);
  }

  lemma FiftyRowsAreTheBatch(rows: seq<string>)
    requires rows == FiftyRows() && Identifier(UNPADDED, 1000) == "A-1000"
    requires forall i :: 0 <= i < 50 ==> Matches(UNPADDED, rows[i]) && Less("A-1000", rows[i])
    requires forall i, j :: 0 <= i < j < 50 ==> Less(rows[j], rows[i])
    ensures IsBatch(MixedTable(), UNPADDED, rows)
  {}

  lemma HighestOfFifty(rows: seq<string>)
    requires |rows| == 50
    requires forall i :: 0 <= i < 50 ==> Matches(UNPADDED, rows[i]) && Number(UNPADDED, rows[i]) == 999 - i
    ensures Candidate(UNPADDED, rows) == Identifier(UNPADDED, 1000)
  {
    ExistingMaxIs(UNPADDED, rows);
    assert Number(UNPADDED, rows[0]) == 999;
  }

  /**
   * With mixed widths the highest number can be outside the batch: the candidate is taken,
   * and every retry tries it again.
   */
  lemma MixedWidthsCollideForever(attempts: seq<Attempt>)
    requires forall i :: 0 <= i < |attempts| ==> attempts[i] == Attempt(MixedTable(), FiftyRows(), MixedTable(), false)
    ensures IsBatch(MixedTable(), UNPADDED, FiftyRows()) && Candidate(UNPADDED, FiftyRows()) in MixedTable()
    ensures Schedule(UNPADDED, attempts) && forall i :: 0 <= i < |attempts| ==> Collides(UNPADDED, attempts[i])
  {
    var rows := FiftyRows();
    Thousand();
    forall i | 0 <= i < 50
      ensures Matches(UNPADDED, rows[i]) && Number(UNPADDED, rows[i]) == 999 - i
      ensures |rows[i]| == 5 && Less("A-1000", rows[i])
    {
      RowOf(999 - i);
    }
    forall i, j | 0 <= i < j < 50 ensures Less(rows[j], rows[i]) {
      StringOrderIsNumberOrder(UNPADDED, rows[j], rows[i]);
    }
    FiftyRowsAreTheBatch(rows);
    HighestOfFifty(rows);
  }

  /** There the highest number is out of the query's sight: fifty identifiers sort above it. */
  lemma MixedWidthsHideTheHighest()
    ensures !Exceeds(UNPADDED.startAt, MixedTable(), UNPADDED) && !HighestIsSeen(MixedTable(), UNPADDED)
  {
    MixedWidthsCollideForever([]);
    NextExceedsExactly(MixedTable(), UNPADDED, FiftyRows());
    var n := NextSeq(ExistingMax(UNPADDED, FiftyRows()), UNPADDED.startAt);
    if Exceeds(n, MixedTable(), UNPADDED) { ExceedingIsFresh(n, MixedTable(), UNPADDED); }
  }
}
