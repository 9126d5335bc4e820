/**
 * The identifiers the generator issues, spelled out, and what becomes of a table that it
 * alone has filled (packages/api/src/lib/number-generator.ts and
 * packages/shared/src/lib/number-template.ts).
 */
module IssuedNumbers {
  import opened Common
  import opened Decimals
  import opened NumberGenerator

  // ---------------------------------------------------------------- how a number is spelled

  lemma {:induction false} ValueDetermines(x: string, y: string)
    requires AllDigits(x) && AllDigits(y) && |x| == |y| && Value(x) == Value(y)
    ensures x == y
  {
    if x != "" {
      ValueBound(x[1..]);
      ValueBound(y[1..]);
      if x[0] != y[0] {
        LeadingDigitDecides(DigitValue(x[0]), DigitValue(y[0]), Pow10(|x| - 1), Value(x[1..]), Value(y[1..]));
        LeadingDigitDecides(DigitValue(y[0]), DigitValue(x[0]), Pow10(|x| - 1), Value(y[1..]), Value(x[1..]));
      }
      ValueDetermines(x[1..], y[1..]);
      assert x == [x[0]] + x[1..] && y == [y[0]] + y[1..];
    }
  }

  lemma {:induction false} Pow10Grows(a: nat, b: nat)
    requires a <= b
    ensures Pow10(a) <= Pow10(b)
  {
    if a < b { Pow10Grows(a, b - 1); }
  }

  lemma NoLonger(x: string, y: string, n: nat, width: nat)
    requires Spells(x, n, width) && Spells(y, n, width)
    ensures |y| <= |x|
  {
    ValueBound(x);
    if |x| < |y| { Pow10Grows(|x|, |y| - 1); }
  }

  /**
   * Main result: the identifier of a number is the prefix, the one spelling of it at the
   * template's width, and the suffix.
   */
  lemma RenderedExactly(f: Format, n: nat, digits: string)
    ensures Identifier(f, n) == f.prefix + digits + f.suffix <==> Spells(digits, n, f.width)
  {
    var padded := Padded(n, f.width);
    PaddedSpells(n, f.width);
    if Spells(digits, n, f.width) {
      NoLonger(digits, padded, n, f.width);
      NoLonger(padded, digits, n, f.width);
      ValueDetermines(digits, padded);
    }
    if Identifier(f, n) == f.prefix + digits + f.suffix { SameMiddle(f.prefix, padded, digits, f.suffix); }
  }

  lemma SameMiddle(prefix: string, x: string, y: string, suffix: string)
    requires prefix + x + suffix == prefix + y + suffix
    ensures x == y
  {
    assert |x| == |y|;
    assert x == (prefix + x + suffix)[|prefix|..|prefix| + |x|];
    assert y == (prefix + y + suffix)[|prefix|..|prefix| + |y|];
  }

  /** Main result: the pattern matches digits between the prefix and the suffix, of any width, and nothing else. */
  lemma MatchesExactly(f: Format, id: string)
    ensures Matches(f, id) <==> exists digits :: digits != "" && AllDigits(digits) && id == f.prefix + digits + f.suffix
    ensures forall digits :: digits != "" && AllDigits(digits) && id == f.prefix + digits + f.suffix ==>
                             Number(f, id) == Value(digits)
  {
    if Matches(f, id) { MatchIsItsParts(f, id); }
    forall digits | digits != "" && AllDigits(digits) && id == f.prefix + digits + f.suffix
      ensures Extract(f, id) == Some(digits)
    {
      ExtractIs(f, digits);
    }
  }

  /** The first numbers the two default templates issue. */
  lemma DefaultTemplatesStart()
    ensures Candidate(Format("SA-", "", 4, 1), []) == "SA-0001"
    ensures Candidate(Format("AC-", "", 5, 1), []) == "AC-00001"
  {
    assert Digits(1) == "1" && Value("0001") == 1 && Value("00001") == 1;
    RenderedExactly(Format("SA-", "", 4, 1), 1, "0001");
    RenderedExactly(Format("AC-", "", 5, 1), 1, "00001");
  }

  lemma OnePart(part: Part, n: nat, year: nat, month: nat)
    ensures Render([part], n, year, month) ==
            if part.Seq? then Padded(n, part.width) else FixedText(part, year, month)
  {
    assert [part][1..] == [];
    var text := if part.Seq? then Padded(n, part.width) else FixedText(part, year, month);
    hide Padded, FixedText;
    assert text + "" == text;
  }

  /** What each token of a template renders to: text as it is, and numbers spelled at their width. */
  lemma TokensExactly(text: string, width: nat, n: nat, year: nat, month: nat)
    ensures Render([Literal(text)], n, year, month) == text
    ensures Spells(Render([Year4], n, year, month), year, 4)
    ensures Spells(Render([Year2], n, year, month), year % 100, 2)
    ensures Spells(Render([Month2], n, year, month), month, 2)
    ensures Spells(Render([Seq(width)], n, year, month), n, width)
  {
    OnePart(Literal(text), n, year, month);
    OnePart(Year4, n, year, month);
    OnePart(Year2, n, year, month);
    OnePart(Month2, n, year, month);
    OnePart(Seq(width), n, year, month);
    PaddedSpells(year, 4);
    PaddedSpells(year % 100, 2);
    PaddedSpells(month, 2);
    PaddedSpells(n, width);
    hide Render, Padded, Spells;
  }

  /** A template renders part by part, in order. */
  lemma {:induction false} RendersInOrder(parts: seq<Part>, more: seq<Part>, n: nat, year: nat, month: nat)
    ensures Render(parts + more, n, year, month) == Render(parts, n, year, month) + Render(more, n, year, month)
  {
    if parts == [] {
      assert parts + more == more;
    } else {
      assert (parts + more)[1..] == parts[1..] + more;
      RendersInOrder(parts[1..], more, n, year, month);
      hide Padded, FixedText;
    }
  }

  // ---------------------------------------------------------------- a table the generator alone has filled

  /** No identifier of the format at first; then each candidate is inserted, if it is not there already. */
  ghost predicate Issuing(f: Format, tables: seq<set<string>>, batches: seq<seq<string>>) {
    && |tables| == |batches| + 1
    && (forall id :: id in tables[0] ==> !Matches(f, id))
    && (forall i :: 0 <= i < |batches| ==> IsBatch(tables[i], f, batches[i]))
    && (forall i :: 0 <= i < |batches| ==> tables[i + 1] == tables[i] + {Candidate(f, batches[i])})
  }

  function First(f: Format): nat { Max(f.startAt, 1) }

  /** The identifiers of the format in `table` are those of the numbers from the first up to `n`. */
  ghost predicate HoldsUpTo(table: set<string>, f: Format, n: nat) {
    && (forall m: nat :: First(f) <= m < n ==> Identifier(f, m) in table)
    && (forall id :: id in table && Matches(f, id) ==>
          First(f) <= Number(f, id) < n && id == Identifier(f, Number(f, id)))
  }

  /** The numbers of a format's width: below ten to it, or below ten if there is no padding. */
  function Limit(f: Format): nat { Pow10(Max(f.width, 1)) }

  lemma WidthBelowLimit(f: Format, n: nat)
    requires n < Limit(f)
    ensures |Padded(n, f.width)| == Max(f.width, 1)
  {
    PaddedSpells(n, f.width);
    if |Padded(n, f.width)| > Max(f.width, 1) { Pow10Grows(Max(f.width, 1), |Padded(n, f.width)| - 1); }
  }

  /** Main result: the identifiers of numbers below the limit have one width. */
  lemma IssuedHasOneWidth(table: set<string>, f: Format, n: nat)
    requires HoldsUpTo(table, f, n) && n <= Limit(f)
    ensures OneWidth(table, f)
  {
    forall a | a in table && Matches(f, a) ensures |a| == |f.prefix| + Max(f.width, 1) + |f.suffix| {
      WidthBelowLimit(f, Number(f, a));
    }
  }

  /** So the next one is the next number, and it is new. */
  lemma NextInOrder(table: set<string>, f: Format, rows: seq<string>, n: nat)
    requires HoldsUpTo(table, f, n) && IsBatch(table, f, rows) && First(f) <= n <= Limit(f)
    ensures Candidate(f, rows) == Identifier(f, n) && Candidate(f, rows) !in table
    ensures HoldsUpTo(table + {Candidate(f, rows)}, f, n + 1)
  {
    IssuedHasOneWidth(table, f, n);
    OneWidthIsFresh(table, f, rows);
    if n > First(f) { LastIsListed(table, f, rows, n); } else { NothingListed(table, f, rows, n); }
    hide IsBatch, HoldsUpTo, OneWidth, Matches, Identifier;
    OneMoreHeld(table, f, n);
  }

  lemma OneMoreHeld(table: set<string>, f: Format, n: nat)
    requires HoldsUpTo(table, f, n) && First(f) <= n
    ensures HoldsUpTo(table + {Identifier(f, n)}, f, n + 1)
  {
    NumberOfIdentifier(f, n);
    hide Matches, Identifier;
  }

  lemma NothingListed(table: set<string>, f: Format, rows: seq<string>, n: nat)
    requires HoldsUpTo(table, f, n) && IsBatch(table, f, rows) && n == First(f)
    ensures rows == []
  {
    assert forall id :: id in table ==> !Matches(f, id);
    assert forall r :: r in rows ==> r in table && Matches(f, r);
    NoMemberNoRow(rows);
  }

  lemma NoMemberNoRow(rows: seq<string>)
    ensures (forall r :: r !in rows) ==> rows == []
  {
    if rows != [] { assert rows[0] in rows; }
  }

  lemma LastIsListed(table: set<string>, f: Format, rows: seq<string>, n: nat)
    requires HoldsUpTo(table, f, n) && IsBatch(table, f, rows) && First(f) < n
    requires Exceeds(NextSeq(ExistingMax(f, rows), f.startAt), table, f)
    ensures NextSeq(ExistingMax(f, rows), f.startAt) == n
  {
    ExistingMaxIs(f, rows);
    NumberOfIdentifier(f, n - 1);
    assert Identifier(f, n - 1) in table;
    assert Number(f, Identifier(f, n - 1)) == n - 1;
    if rows != [] {
      var i :| 0 <= i < |rows| && Number(f, rows[i]) == ExistingMax(f, rows).value;
      assert rows[i] in table;
    }
  }

  /**
   * Main result: from an empty start the generator issues every number in turn, the first
   * of one digit more than its width included, and each is new when it is issued.
   */
  lemma {:induction false} IssuedInOrder(f: Format, tables: seq<set<string>>, batches: seq<seq<string>>, k: nat)
    requires Issuing(f, tables, batches) && k <= |batches| && First(f) + k <= Limit(f) + 1
    ensures HoldsUpTo(tables[k], f, First(f) + k)
    ensures k < |batches| && First(f) + k <= Limit(f) ==>
              Candidate(f, batches[k]) == Identifier(f, First(f) + k) && Candidate(f, batches[k]) !in tables[k]
  {
    if k > 0 {
      IssuedInOrder(f, tables, batches, k - 1);
      NextInOrder(tables[k - 1], f, batches[k - 1], First(f) + k - 1);
    }
    if k < |batches| && First(f) + k <= Limit(f) { NextInOrder(tables[k], f, batches[k], First(f) + k); }
  }

  // ---------------------------------------------------------------- and when its width runs out

  /** With a width of at least two, the first number of one digit more sorts below fifty that are smaller. */
  lemma OverLimitSortsLow(f: Format, n: nat)
    requires f.width >= 2 && Limit(f) - BATCH <= n < Limit(f)
    ensures Less(Identifier(f, Limit(f)), Identifier(f, n))
  {
    var over, x := Padded(Limit(f), f.width), Padded(n, f.width);
    LimitStartsWithOne(f);
    WidthBelowLimit(f, n);
    ValueOfPadded(n, f.width);
    HighNumbersStartHigh(x, f.width);
    hide Padded, Limit;
    var a, b := over + f.suffix, x + f.suffix;
    assert a[0] == '1' && b[0] > '1';
    assert Identifier(f, Limit(f)) == f.prefix + a && Identifier(f, n) == f.prefix + b;
    LessAfterPrefix(f.prefix, a, b);
  }

  lemma LimitStartsWithOne(f: Format)
    requires f.width >= 2
    ensures Padded(Limit(f), f.width) != "" && Padded(Limit(f), f.width)[0] == '1'
  {
    var digits := "1" + Zeros(f.width);
    ValueOfZeros(f.width);
    assert digits[1..] == Zeros(f.width);
    assert Value(digits) == Limit(f);
    RenderedExactly(f, Limit(f), digits);
    SameMiddle(f.prefix, Padded(Limit(f), f.width), digits, f.suffix);
  }

  lemma {:induction false} ValueOfZeros(n: nat)
    ensures Value(Zeros(n)) == 0
  {
    if n > 0 {
      assert Zeros(n)[1..] == Zeros(n - 1);
      ValueOfZeros(n - 1);
    }
  }

  /** Within fifty of the limit the leading digit is at least five. */
  lemma HighNumbersStartHigh(x: string, width: nat)
    requires width >= 2 && AllDigits(x) && |x| == width && Value(x) >= Pow10(width) - BATCH
    ensures x[0] > '1'
  {
    ValueBound(x[1..]);
    Pow10Grows(1, width - 1);
    if DigitValue(x[0]) <= 1 { ScaleMonotone(DigitValue(x[0]), 1, Pow10(width - 1)); }
  }

  /** The fifty identifiers below the limit. */
  ghost function LastFifty(f: Format): (ids: seq<string>)
    requires Limit(f) >= BATCH
    ensures |ids| == BATCH && forall i :: 0 <= i < BATCH ==> ids[i] == Identifier(f, Limit(f) - BATCH + i)
  {
    seq(BATCH, i requires 0 <= i < BATCH => Identifier(f, Limit(f) - BATCH + i))
  }

  lemma IdentifiersDiffer(f: Format, m: nat, n: nat)
    requires Identifier(f, m) == Identifier(f, n)
    ensures m == n
  {
    NumberOfIdentifier(f, m);
    NumberOfIdentifier(f, n);
  }

  lemma LastFiftyDiffer(f: Format)
    requires Limit(f) >= BATCH
    ensures forall i, j :: 0 <= i < j < BATCH ==> LastFifty(f)[i] != LastFifty(f)[j]
  {
    forall i, j | 0 <= i < j < BATCH ensures LastFifty(f)[i] != LastFifty(f)[j] {
      if LastFifty(f)[i] == LastFifty(f)[j] {
        IdentifiersDiffer(f, Limit(f) - BATCH + i, Limit(f) - BATCH + j);
      }
    }
  }

  lemma LastFiftyAbove(table: set<string>, f: Format, i: nat)
    requires HoldsUpTo(table, f, Limit(f) + 1) && f.width >= 2 && First(f) + BATCH <= Limit(f) && i < BATCH
    ensures LastFifty(f)[i] in Above(table, f, Identifier(f, Limit(f)))
  {
    NumberOfIdentifier(f, Limit(f) - BATCH + i);
    OverLimitSortsLow(f, Limit(f) - BATCH + i);
    hide Identifier, Matches, Less, Limit;
  }

  lemma OverLimitUnlisted(table: set<string>, f: Format, rows: seq<string>)
    requires HoldsUpTo(table, f, Limit(f) + 1) && IsBatch(table, f, rows)
    requires f.width >= 2 && First(f) + BATCH <= Limit(f)
    ensures Identifier(f, Limit(f)) !in rows
  {
    var over, ids := Identifier(f, Limit(f)), LastFifty(f);
    NumberOfIdentifier(f, Limit(f));
    assert over in table;
    LastFiftyDiffer(f);
    forall i | 0 <= i < BATCH ensures ids[i] in Above(table, f, over) { LastFiftyAbove(table, f, i); }
    hide Identifier, Matches, Less, Limit, HoldsUpTo, Above, IsBatch, First, LastFifty;
    ManyAbove(table, f, over, ids);
    InBatchExactly(table, f, rows, over);
  }

  lemma ManyAbove(table: set<string>, f: Format, id: string, ids: seq<string>)
    requires forall i, j :: 0 <= i < j < |ids| ==> ids[i] != ids[j]
    requires forall i :: 0 <= i < |ids| ==> ids[i] in Above(table, f, id)
    ensures |Above(table, f, id)| >= |ids|
  {
    FirstAsSet(ids, |ids|);
    hide Above;
    SubsetIsNoLarger((set i | 0 <= i < |ids| :: ids[i]), Above(table, f, id));
  }

  lemma LastBelowLimitListed(table: set<string>, f: Format, rows: seq<string>)
    requires HoldsUpTo(table, f, Limit(f) + 1) && IsBatch(table, f, rows)
    requires f.width >= 2 && First(f) + BATCH <= Limit(f)
    ensures Identifier(f, Limit(f) - 1) in rows
  {
    var top := Identifier(f, Limit(f) - 1);
    NumberOfIdentifier(f, Limit(f) - 1);
    forall x | x in table && Matches(f, x) ensures !Less(top, x) { NothingSortsAbove(table, f, x); }
    assert Above(table, f, top) == {};
    InBatchExactly(table, f, rows, top);
  }

  lemma NothingSortsAbove(table: set<string>, f: Format, x: string)
    requires HoldsUpTo(table, f, Limit(f) + 1) && f.width >= 2 && First(f) + BATCH <= Limit(f)
    requires x in table && Matches(f, x)
    ensures !Less(Identifier(f, Limit(f) - 1), x)
  {
    TopSortsHighest(f, Number(f, x));
    hide Less, Identifier, Limit;
  }

  lemma TopSortsHighest(f: Format, n: nat)
    requires f.width >= 2 && BATCH <= Limit(f) && n <= Limit(f)
    ensures !Less(Identifier(f, Limit(f) - 1), Identifier(f, n))
  {
    hide Less, Identifier;
    if n == Limit(f) {
      OverLimitSortsLow(f, Limit(f) - 1);
      LessOneWay(Identifier(f, n), Identifier(f, Limit(f) - 1));
    } else {
      LowerSortsLower(f, n, Limit(f) - 1);
    }
  }

  lemma LessOneWay(a: string, b: string)
    requires Less(a, b)
    ensures !Less(b, a)
  {
    if Less(b, a) { LessIsTransitive(a, b, a); }
    LessIsIrreflexive(a);
  }

  lemma LowerSortsLower(f: Format, m: nat, n: nat)
    requires m <= n < Limit(f)
    ensures !Less(Identifier(f, n), Identifier(f, m))
  {
    NumberOfIdentifier(f, m);
    NumberOfIdentifier(f, n);
    WidthBelowLimit(f, m);
    WidthBelowLimit(f, n);
    StringOrderIsNumberOrder(f, Identifier(f, n), Identifier(f, m));
  }

  lemma RowsBelowLimit(table: set<string>, f: Format, rows: seq<string>)
    requires HoldsUpTo(table, f, Limit(f) + 1) && IsBatch(table, f, rows)
    requires f.width >= 2 && First(f) + BATCH <= Limit(f)
    ensures forall i :: 0 <= i < |rows| ==> Matches(f, rows[i]) && Number(f, rows[i]) <= Limit(f) - 1
  {
    OverLimitUnlisted(table, f, rows);
    hide Identifier, Limit, First, Less;
    forall i | 0 <= i < |rows| ensures Matches(f, rows[i]) && Number(f, rows[i]) <= Limit(f) - 1 {
      assert rows[i] in table;
    }
  }

  lemma TopRow(table: set<string>, f: Format, rows: seq<string>) returns (i: nat)
    requires HoldsUpTo(table, f, Limit(f) + 1) && IsBatch(table, f, rows)
    requires f.width >= 2 && First(f) + BATCH <= Limit(f)
    ensures i < |rows| && Matches(f, rows[i]) && Number(f, rows[i]) == Limit(f) - 1
  {
    LastBelowLimitListed(table, f, rows);
    NumberOfIdentifier(f, Limit(f) - 1);
    hide Identifier, Limit, First, HoldsUpTo, IsBatch, Matches;
    i :| 0 <= i < |rows| && rows[i] == Identifier(f, Limit(f) - 1);
  }

  /** From then on the candidate is the one number that is taken and not listed. */
  lemma StallsAtLimit(table: set<string>, f: Format, rows: seq<string>)
    requires HoldsUpTo(table, f, Limit(f) + 1) && IsBatch(table, f, rows)
    requires f.width >= 2 && First(f) + BATCH <= Limit(f)
    ensures Candidate(f, rows) == Identifier(f, Limit(f)) && Candidate(f, rows) in table
  {
    RowsBelowLimit(table, f, rows);
    var i := TopRow(table, f, rows);
    assert Identifier(f, Limit(f)) in table;
    hide Identifier, Limit, IsBatch, HoldsUpTo, Matches;
    NextIsLeast(f, rows, Limit(f));
  }

  /**
   * Main result: a generator left to itself issues each number in turn up to the first of
   * one digit more than its template's width, and nothing ever after: every later candidate
   * is that same number, which is taken. With the default SA-{seq:4} that is number 10000.
   */
  lemma {:induction false} IssuesUpToItsLimitExactly(f: Format, tables: seq<set<string>>, batches: seq<seq<string>>,
                                                     k: nat)
    requires Issuing(f, tables, batches) && k < |batches| && f.width >= 2 && First(f) + BATCH <= Limit(f)
    ensures Candidate(f, batches[k]) == Identifier(f, if First(f) + k <= Limit(f) then First(f) + k else Limit(f))
    ensures Candidate(f, batches[k]) !in tables[k] <==> First(f) + k <= Limit(f)
    ensures First(f) + k > Limit(f) ==> HoldsUpTo(tables[k], f, Limit(f) + 1) && tables[k + 1] == tables[k]
  {
    if First(f) + k <= Limit(f) {
      IssuedInOrder(f, tables, batches, k);
    } else {
      if First(f) + k == Limit(f) + 1 {
        IssuedInOrder(f, tables, batches, k);
      } else {
        IssuesUpToItsLimitExactly(f, tables, batches, k - 1);
      }
      StallsAtLimit(tables[k], f, batches[k]);
      assert tables[k + 1] == tables[k] + {Candidate(f, batches[k])};
    }
  }
}
