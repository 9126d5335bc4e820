/**
 * packages/api/src/bill-generation/stabilize-pdf.ts: the bytes of a PDF that vary from one
 * generation to the next, pinned. A file is its latin1 text, one character a byte.
 */
module StabilizePdf {
  import opened Common
  import opened Decimals

  predicate IsHex(c: char) { IsDigit(c) || 'a' <= c <= 'f' || 'A' <= c <= 'F' }

  /** \s over latin1 text: tab to carriage return, space and the no-break space. */
  predicate IsSpace(c: char) { 9 <= c as int <= 13 || c == ' ' || c as int == 160 }

  // ---------------------------------------------------------------- dates

  const FIXED_DIGITS := "20000101000000"

  /** \(D:\d{14} at the start of `s`. */
  predicate DateHere(s: string) {
    |s| >= 17 && s[0] == '(' && s[1] == 'D' && s[2] == ':' && forall i :: 3 <= i < 17 ==> IsDigit(s[i])
  }

  function PinDates(s: string): string {
    if s == "" then ""
    else if DateHere(s) then "(D:" + FIXED_DIGITS + PinDates(s[17..])
    else [s[0]] + PinDates(s[1..])
  }

  ghost predicate DateAt(s: string, d: int) { 0 <= d <= |s| && DateHere(s[d..]) }

  /** Position `i` is one of the 14 digits of a date. */
  ghost predicate InDate(s: string, i: int) { exists d :: d + 3 <= i < d + 17 && DateAt(s, d) }

  lemma DateShift(s: string, k: nat, d: int)
    requires k <= |s| && k <= d
    ensures DateAt(s, d) <==> DateAt(s[k..], d - k)
  {
    if d <= |s| { assert s[k..][d - k..] == s[d..]; }
  }

  lemma DateText(s: string, d: int)
    requires DateAt(s, d)
    ensures d + 17 <= |s| && s[d] == '(' && s[d + 1] == 'D' && s[d + 2] == ':'
    ensures forall i :: d + 3 <= i < d + 17 ==> IsDigit(s[i])
    ensures forall i :: d < i < d + 17 ==> s[i] != '(' && s[i] != '/'
  {
    forall i | 0 <= i < 17 ensures s[d..][i] == s[d + i] {}
    forall i | d + 3 <= i < d + 17 ensures IsDigit(s[i]) { assert s[d..][i - d] == s[i]; }
  }

  lemma {:induction false} PinnedInDate(s: string, d: int, i: int)
    requires DateAt(s, d) && d + 3 <= i < d + 17
    ensures |PinDates(s)| == |s| && i < |s| && PinDates(s)[i] == FIXED_DIGITS[i - d - 3]
    decreases |s|
  {
    DateText(s, d);
    PinDatesLength(s);
    assert s[0..] == s;
    if d == 0 {
      assert PinDates(s)[..17] == "(D:" + FIXED_DIGITS;
      assert PinDates(s)[..17][i] == FIXED_DIGITS[i - 3];
    } else {
      var k := if DateHere(s) then 17 else 1;
      NoDateInsideADate(s, k, d);
      DateShift(s, k, d);
      PinnedInDate(s[k..], d - k, i - k);
      assert PinDates(s)[k..] == PinDates(s[k..]);
      assert PinDates(s)[k..][i - k] == PinDates(s)[i];
    }
  }

  lemma {:induction false} PinDatesLength(s: string)
    ensures |PinDates(s)| == |s|
    decreases |s|
  {
    if s != "" { PinDatesLength(s[if DateHere(s) then 17 else 1..]); }
  }

  lemma {:induction false} KeptOutsideDates(s: string, i: int)
    requires 0 <= i < |s| && !InDate(s, i)
    ensures |PinDates(s)| == |s| && PinDates(s)[i] == s[i]
    decreases |s|
  {
    PinDatesLength(s);
    var k := if DateHere(s) then 17 else 1;
    assert s[0..] == s;
    assert DateHere(s) ==> DateAt(s, 0);
    if i >= k {
      if InDate(s[k..], i - k) {
        var d :| d + 3 <= i - k < d + 17 && DateAt(s[k..], d);
        DateShift(s, k, d + k);
        assert false;
      }
      KeptOutsideDates(s[k..], i - k);
      assert PinDates(s)[k..] == PinDates(s[k..]);
      assert PinDates(s)[k..][i - k] == PinDates(s)[i];
    }
  }

  /** Main result: in place, every date's digits become the fixed ones and nothing else changes. */
  lemma PinDatesExactly(s: string)
    ensures |PinDates(s)| == |s|
    ensures forall d, i :: DateAt(s, d) && d + 3 <= i < d + 17 ==> i < |s| && PinDates(s)[i] == FIXED_DIGITS[i - d - 3]
    ensures forall i :: 0 <= i < |s| && !InDate(s, i) ==> PinDates(s)[i] == s[i]
  {
    PinDatesLength(s);
    forall d, i | DateAt(s, d) && d + 3 <= i < d + 17 ensures i < |s| && PinDates(s)[i] == FIXED_DIGITS[i - d - 3] {
      PinnedInDate(s, d, i);
    }
    forall i | 0 <= i < |s| && !InDate(s, i) ensures PinDates(s)[i] == s[i] { KeptOutsideDates(s, i); }
  }

  lemma NoDateInsideADate(s: string, k: nat, d: int)
    requires s != "" && k == if DateHere(s) then 17 else 1
    requires DateAt(s, d) && d > 0
    ensures d >= k
  {
    DateText(s, d);
  }

  ghost predicate DatesPinned(s: string) {
    forall d, i :: DateAt(s, d) && d + 3 <= i < d + 17 ==> s[i] == FIXED_DIGITS[i - d - 3]
  }

  lemma PinnedDatesStay(s: string)
    requires DatesPinned(s)
    ensures PinDates(s) == s
  {
    PinDatesExactly(s);
    forall i | 0 <= i < |s| ensures PinDates(s)[i] == s[i] {
      if InDate(s, i) {
        var d :| d + 3 <= i < d + 17 && DateAt(s, d);
        assert PinDates(s)[i] == FIXED_DIGITS[i - d - 3];
      }
    }
  }

  ghost predicate DigitsAside(s: string, t: string) {
    |s| == |t| && forall i :: 0 <= i < |s| ==> s[i] == t[i] || (IsDigit(s[i]) && IsDigit(t[i]))
  }

  lemma DigitsAsideSameDates(s: string, t: string, d: int)
    requires DigitsAside(s, t) && DateAt(s, d)
    ensures DateAt(t, d)
  {
    DateText(s, d);
    forall i | 0 <= i < 17 ensures t[d..][i] == t[d + i] {}
  }

  lemma PinnedCharacter(s: string, i: int)
    requires 0 <= i < |s|
    ensures |PinDates(s)| == |s| && (s[i] == PinDates(s)[i] || (IsDigit(s[i]) && IsDigit(PinDates(s)[i])))
  {
    hide PinDates, DateAt;
    if InDate(s, i) {
      var d :| d + 3 <= i < d + 17 && DateAt(s, d);
      DateText(s, d);
      PinnedInDate(s, d, i);
    } else {
      KeptOutsideDates(s, i);
    }
  }

  lemma PinDatesChangesDigitsOnly(s: string)
    ensures DigitsAside(s, PinDates(s))
  {
    hide PinDates;
    PinDatesLength(s);
    forall i | 0 <= i < |s| ensures s[i] == PinDates(s)[i] || (IsDigit(s[i]) && IsDigit(PinDates(s)[i])) {
      PinnedCharacter(s, i);
    }
  }

  lemma PinningKeepsDates(s: string, d: int)
    ensures DateAt(PinDates(s), d) <==> DateAt(s, d)
  {
    PinDatesChangesDigitsOnly(s);
    if DateAt(s, d) { DigitsAsideSameDates(s, PinDates(s), d); }
    if DateAt(PinDates(s), d) { DigitsAsideSameDates(PinDates(s), s, d); }
  }

  lemma PinDatesPins(s: string)
    ensures DatesPinned(PinDates(s))
  {
    PinDatesExactly(s);
    forall d, i | DateAt(PinDates(s), d) && d + 3 <= i < d + 17 ensures PinDates(s)[i] == FIXED_DIGITS[i - d - 3] {
      PinningKeepsDates(s, d);
    }
  }

  // ---------------------------------------------------------------- the document id

  /** A run of one class of characters, then `close`, which is not in it. */
  datatype Step = Step(hex: bool, close: char)

  predicate InClass(c: char, hex: bool) { if hex then IsHex(c) else IsSpace(c) }

  const OPEN := Step(false, '[')
  const MARK := Step(false, '<')
  const HEX := Step(true, '>')
  const CLOSE := Step(false, ']')

  /** From `from` up to `end`: characters of the step's class, then its closing character. */
  predicate Run(s: string, from: nat, end: nat, step: Step) {
    from < end <= |s| && s[end - 1] == step.close && forall j :: from <= j < end - 1 ==> InClass(s[j], step.hex)
  }

  /** Where the run from `i` ends, or 0 if there is none. */
  function RunEnd(s: string, i: nat, step: Step): (end: nat)
    ensures end > 0 ==> Run(s, i, end, step)
    decreases |s| - i
  {
    if i >= |s| then 0
    else if s[i] == step.close then i + 1
    else if InClass(s[i], step.hex) then RunEnd(s, i + 1, step)
    else 0
  }

  /** Reading greedily finds the run if there is one, and there is only one to find. */
  lemma {:induction false} RunEndFinds(s: string, i: nat, end: nat, step: Step)
    requires Run(s, i, end, step) && !InClass(step.close, step.hex)
    ensures RunEnd(s, i, step) == end
    decreases |s| - i
  {
    if i < end - 1 { RunEndFinds(s, i + 1, end, step); }
  }

  /** Where the marks of an id end: its bracket, the hex strings' angle brackets, and its closing bracket. */
  datatype IdMatch = IdMatch(bracket: nat, aFrom: nat, aEnd: nat, bFrom: nat, bEnd: nat, end: nat)

  predicate StartsId(s: string) { |s| >= 3 && s[0] == '/' && s[1] == 'I' && s[2] == 'D' }

  /** The expression, declaratively: /ID, then \s*[, \s*<, hex*>, \s*<, hex*> and \s*]. */
  predicate IsId(s: string, m: IdMatch) {
    && StartsId(s)
    && Run(s, 3, m.bracket, OPEN) && Run(s, m.bracket, m.aFrom, MARK) && Run(s, m.aFrom, m.aEnd, HEX)
    && Run(s, m.aEnd, m.bFrom, MARK) && Run(s, m.bFrom, m.bEnd, HEX) && Run(s, m.bEnd, m.end, CLOSE)
  }

  function MatchId(s: string): (m: Option<IdMatch>)
    ensures m.Some? ==> IsId(s, m.value)
  {
    if !StartsId(s) then None
    else
      var bracket := RunEnd(s, 3, OPEN);
      if bracket == 0 then None
      else
        var aFrom := RunEnd(s, bracket, MARK);
        if aFrom == 0 then None
        else
          var aEnd := RunEnd(s, aFrom, HEX);
          if aEnd == 0 then None
          else
            var bFrom := RunEnd(s, aEnd, MARK);
            if bFrom == 0 then None
            else
              var bEnd := RunEnd(s, bFrom, HEX);
              if bEnd == 0 then None
              else
                var end := RunEnd(s, bEnd, CLOSE);
                if end == 0 then None else Some(IdMatch(bracket, aFrom, aEnd, bFrom, bEnd, end))
  }

  /** The scan finds a match exactly where the expression has one. */
  lemma MatchIdExactly(s: string, m: IdMatch)
    ensures MatchId(s) == Some(m) <==> IsId(s, m)
  {
    if IsId(s, m) {
      RunEndFinds(s, 3, m.bracket, OPEN);
      RunEndFinds(s, m.bracket, m.aFrom, MARK);
      RunEndFinds(s, m.aFrom, m.aEnd, HEX);
      RunEndFinds(s, m.aEnd, m.bFrom, MARK);
      RunEndFinds(s, m.bFrom, m.bEnd, HEX);
      RunEndFinds(s, m.bEnd, m.end, CLOSE);
    }
  }

  predicate Ordered(m: IdMatch) { 3 < m.bracket < m.aFrom < m.aEnd < m.bFrom < m.bEnd < m.end }

  function HexA(m: IdMatch): nat requires Ordered(m) { m.aEnd - 1 - m.aFrom }

  function HexB(m: IdMatch): nat requires Ordered(m) { m.bEnd - 1 - m.bFrom }

  /** How many whitespace characters the match spans. */
  function Spacing(m: IdMatch): int
    requires Ordered(m)
  {
    (m.bracket - 4) + (m.aFrom - 1 - m.bracket) + (m.bFrom - 1 - m.aEnd) + (m.end - 1 - m.bEnd)
  }

  function Canonical(m: IdMatch): (r: string)
    requires Ordered(m)
    ensures |r| == 11 + HexA(m) + HexB(m)
  {
    "/ID [<" + Zeros(HexA(m)) + "> <" + Zeros(HexB(m)) + ">]"
  }

  function PinIds(s: string): string
    decreases |s|
  {
    if s == "" then ""
    else
      var m := MatchId(s);
      if m.Some? then Canonical(m.value) + PinIds(s[m.value.end..]) else [s[0]] + PinIds(s[1..])
  }

  function Stabilize(pdf: string): string { PinIds(PinDates(pdf)) }

  /** A match depends on its own text alone. */
  lemma MatchIsLocal(s: string, t: string)
    requires MatchId(s).Some? && MatchId(s).value.end <= |t|
    requires forall i :: 0 <= i < MatchId(s).value.end ==> s[i] == t[i]
    ensures MatchId(t) == MatchId(s)
  {
    MatchIdExactly(t, MatchId(s).value);
  }

  /** The text of a match holds no further solidus and no parenthesis. */
  lemma MatchIsPlain(s: string)
    requires MatchId(s).Some?
    ensures s[0] == '/' && forall i :: 0 < i < MatchId(s).value.end ==> s[i] != '/' && s[i] != '('
    ensures var m := MatchId(s).value;
            forall i :: m.aFrom <= i < m.aEnd - 1 || m.bFrom <= i < m.bEnd - 1 ==> IsHex(s[i])
  {
    var m := MatchId(s).value;
    RunIsPlain(s, 3, m.bracket, OPEN);
    RunIsPlain(s, m.bracket, m.aFrom, MARK);
    RunIsPlain(s, m.aFrom, m.aEnd, HEX);
    RunIsPlain(s, m.aEnd, m.bFrom, MARK);
    RunIsPlain(s, m.bFrom, m.bEnd, HEX);
    RunIsPlain(s, m.bEnd, m.end, CLOSE);
  }

  lemma RunIsPlain(s: string, from: nat, end: nat, step: Step)
    requires Run(s, from, end, step) && step.close != '/' && step.close != '('
    ensures forall i :: from <= i < end ==> s[i] != '/' && s[i] != '('
  {}

  lemma CanonicalMatches(m: IdMatch, rest: string)
    requires Ordered(m)
    ensures var a, b := HexA(m), HexB(m);
            MatchId(Canonical(m) + rest) == Some(IdMatch(5, 6, 7 + a, 9 + a, 10 + a + b, 11 + a + b))
  {
    var a, b := HexA(m), HexB(m);
    var c := IdMatch(5, 6, 7 + a, 9 + a, 10 + a + b, 11 + a + b);
    CanonicalText(m, rest);
    MatchIdExactly(Canonical(m) + rest, c);
  }

  lemma CanonicalText(m: IdMatch, rest: string)
    requires Ordered(m)
    ensures var a, b, s := HexA(m), HexB(m), Canonical(m) + rest;
            IsId(s, IdMatch(5, 6, 7 + a, 9 + a, 10 + a + b, 11 + a + b))
  {
    var a, b := Zeros(HexA(m)), Zeros(HexB(m));
    assert Canonical(m) + rest == "/ID [<" + a + "> <" + b + ">]" + rest;
    FirstRuns(a, "> <" + b + ">]" + rest);
    assert "/ID [<" + a + "> <" + b + ">]" + rest == "/ID [<" + a + ("> <" + b + ">]" + rest);
    LastRuns("/ID [<" + a + ">", b, rest);
    assert "/ID [<" + a + "> <" + b + ">]" + rest == ("/ID [<" + a + ">") + " <" + b + ">]" + rest;
  }

  lemma FirstRuns(a: string, after: string)
    requires (forall i :: 0 <= i < |a| ==> IsHex(a[i])) && after != "" && after[0] == '>'
    ensures var s := "/ID [<" + a + after;
            StartsId(s) && Run(s, 3, 5, OPEN) && Run(s, 5, 6, MARK) && Run(s, 6, 7 + |a|, HEX)
  {
    var s := "/ID [<" + a + after;
    assert s == "/ID" + " " + "[" + ("<" + a + after) && s == "/ID [" + "" + "<" + (a + after);
    assert s == "/ID [<" + a + ">" + after[1..];
    RunText("/ID", " ", "<" + a + after, OPEN);
    RunText("/ID [", "", a + after, MARK);
    RunText("/ID [<", a, after[1..], HEX);
  }

  lemma LastRuns(before: string, b: string, rest: string)
    requires forall i :: 0 <= i < |b| ==> IsHex(b[i])
    ensures var s, n := before + " <" + b + ">]" + rest, |before|;
            Run(s, n, n + 2, MARK) && Run(s, n + 2, n + 3 + |b|, HEX) && Run(s, n + 3 + |b|, n + 4 + |b|, CLOSE)
  {
    var s := before + " <" + b + ">]" + rest;
    assert s == before + " " + "<" + (b + ">]" + rest) && s == (before + " <") + b + ">" + ("]" + rest);
    assert s == (before + " <" + b + ">") + "" + "]" + rest;
    RunText(before, " ", b + ">]" + rest, MARK);
    RunText(before + " <", b, "]" + rest, HEX);
    RunText(before + " <" + b + ">", "", rest, CLOSE);
  }

  lemma RunText(before: string, body: string, after: string, step: Step)
    requires forall i :: 0 <= i < |body| ==> InClass(body[i], step.hex)
    ensures Run(before + body + [step.close] + after, |before|, |before| + |body| + 1, step)
  {}

  // ---------------------------------------------------------------- idempotence

  /** Up to its first solidus, the output is the input. */
  lemma {:induction false} PlainPrefixIsKept(s: string, n: nat)
    requires n <= |PinIds(s)| && forall i :: 0 <= i < n ==> PinIds(s)[i] != '/'
    ensures n <= |s| && forall i :: 0 <= i < n ==> s[i] == PinIds(s)[i]
    decreases |s|
  {
    if n > 0 {
      RewrittenIdText(s);
      assert PinIds(s)[1..] == PinIds(s[1..]);
      forall i | 0 <= i < n - 1 ensures PinIds(s[1..])[i] != '/' { assert PinIds(s[1..])[i] == PinIds(s)[i + 1]; }
      PlainPrefixIsKept(s[1..], n - 1);
      forall i | 0 <= i < n ensures s[i] == PinIds(s)[i] {
        if i > 0 { assert s[i] == s[1..][i - 1] && PinIds(s)[i] == PinIds(s[1..])[i - 1]; }
      }
    }
  }

  lemma RewrittenIdText(s: string)
    requires s != ""
    ensures MatchId(s).Some? ==>
              PinIds(s)[0] == '/' && forall i :: 0 <= i < |Canonical(MatchId(s).value)| ==> PinIds(s)[i] != '('
  {
    if MatchId(s).Some? {
      var m := MatchId(s).value;
      CanonicalMatches(m, PinIds(s[m.end..]));
      MatchIsPlain(Canonical(m) + PinIds(s[m.end..]));
    }
  }

  lemma MatchEnds(s: string)
    requires MatchId(s).Some?
    ensures 0 < MatchId(s).value.end <= |s|
  {}

  lemma NoMatchAppears(s: string)
    requires s != "" && MatchId(s).None?
    ensures MatchId([s[0]] + PinIds(s[1..])).None?
  {
    var out := [s[0]] + PinIds(s[1..]);
    if MatchId(out).Some? {
      MatchIsPlain(out);
      MatchEnds(out);
      hide MatchId, IsId;
      var end := MatchId(out).value.end;
      forall i | 0 <= i < end - 1 ensures PinIds(s[1..])[i] != '/' { assert PinIds(s[1..])[i] == out[i + 1]; }
      PlainPrefixIsKept(s[1..], end - 1);
      forall i | 0 <= i < end ensures out[i] == s[i] {
        if i > 0 { assert s[i] == s[1..][i - 1]; }
      }
      MatchIsLocal(out, s);
    }
  }

  lemma {:induction false} PinIdsTwice(s: string)
    ensures PinIds(PinIds(s)) == PinIds(s)
    decreases |s|
  {
    if s != "" {
      if MatchId(s).Some? {
        var m := MatchId(s).value;
        var rest := PinIds(s[m.end..]);
        PinIdsTwice(s[m.end..]);
        CanonicalMatches(m, rest);
        var c := MatchId(Canonical(m) + rest).value;
        assert HexA(c) == HexA(m) && HexB(c) == HexB(m) && (Canonical(m) + rest)[c.end..] == rest;
      } else {
        PinIdsTwice(s[1..]);
        NoMatchAppears(s);
        assert ([s[0]] + PinIds(s[1..]))[1..] == PinIds(s[1..]);
      }
    }
  }

  lemma {:induction false} PinIdsKeepsDatesPinned(s: string)
    requires DatesPinned(s)
    ensures DatesPinned(PinIds(s))
    decreases |s|
  {
    if s != "" {
      var k := if MatchId(s).Some? then MatchId(s).value.end else 1;
      var out, rest := PinIds(s), PinIds(s[k..]);
      var head := |out| - |rest|;
      PinnedTail(s, k);
      PinIdsKeepsDatesPinned(s[k..]);
      assert out[head..] == rest;
      forall d, i | DateAt(out, d) && d + 3 <= i < d + 17 ensures out[i] == FIXED_DIGITS[i - d - 3] {
        assert out[d..][0] == out[d];
        if d >= head {
          DateShift(out, head, d);
          assert out[i] == rest[i - head];
        } else {
          DateInHeadWasThere(s, d);
          assert s[i] == out[i];
        }
      }
    }
  }

  lemma PinnedTail(s: string, k: nat)
    requires k <= |s| && DatesPinned(s)
    ensures DatesPinned(s[k..])
  {
    forall d, i | DateAt(s[k..], d) && d + 3 <= i < d + 17 ensures s[k..][i] == FIXED_DIGITS[i - d - 3] {
      DateShift(s, k, d + k);
      assert s[k..][i] == s[i + k];
    }
  }

  /** A date starting where the scan copies a character, or none can start in a rewritten id. */
  lemma DateInHeadWasThere(s: string, d: int)
    requires s != ""
    requires DateAt(PinIds(s), d)
    requires d < if MatchId(s).Some? then |Canonical(MatchId(s).value)| else 1
    ensures MatchId(s).None? && d == 0 && DateAt(s, 0) && forall i :: 0 <= i < 17 ==> s[i] == PinIds(s)[i]
  {
    var out := PinIds(s);
    assert out[d..][0] == out[d] == '(';
    RewrittenIdText(s);
    assert out[0..] == out && s[0..] == s;
    PlainPrefixIsKept(s, 17);
  }

  /** Main result: stabilizing a second time changes nothing. */
  lemma StabilizeIsIdempotent(pdf: string)
    ensures Stabilize(Stabilize(pdf)) == Stabilize(pdf)
  {
    PinDatesPins(pdf);
    PinIdsKeepsDatesPinned(PinDates(pdf));
    PinnedDatesStay(Stabilize(pdf));
    PinIdsTwice(PinDates(pdf));
  }

  // ---------------------------------------------------------------- length

  /** One id keeps its length exactly when its spacing is as wide as the canonical one's. */
  lemma IdKeepsLengthExactly(s: string)
    requires MatchId(s).Some?
    ensures |Canonical(MatchId(s).value)| == MatchId(s).value.end <==> Spacing(MatchId(s).value) == 2
  {}

  ghost predicate IdAt(s: string, d: int) { 0 <= d <= |s| && MatchId(s[d..]).Some? }

  /** What rewriting the ids that end at or before `i` adds to the text before it. */
  ghost function DriftBefore(s: string, i: int): int
    decreases |s|
  {
    if s == "" || i <= 0 then 0
    else
      var m := MatchId(s);
      if m.None? then DriftBefore(s[1..], i - 1)
      else if m.value.end <= i then 2 - Spacing(m.value) + DriftBefore(s[m.value.end..], i - m.value.end)
      else 0
  }

  /** Position `i` is in the text of some id. */
  ghost predicate InId(s: string, i: int) { exists d :: IdSpans(s, d, i) }

  ghost predicate IdSpans(s: string, d: int, i: int) { IdAt(s, d) && d <= i < d + MatchId(s[d..]).value.end }

  lemma IdShift(s: string, k: nat, d: int)
    requires k <= |s| && k <= d
    ensures IdAt(s, d) <==> IdAt(s[k..], d - k)
    ensures IdAt(s, d) ==> MatchId(s[d..]) == MatchId(s[k..][d - k..])
  {
    if d <= |s| { assert s[k..][d - k..] == s[d..]; }
  }

  lemma InIdTail(s: string, k: nat, i: int)
    requires k <= |s| && k <= i
    ensures InId(s[k..], i - k) ==> InId(s, i)
  {
    if InId(s[k..], i - k) {
      var d :| IdSpans(s[k..], d, i - k);
      IdShift(s, k, d + k);
      assert IdSpans(s, d + k, i);
    }
  }

  lemma InIdHead(s: string, i: int)
    ensures MatchId(s).Some? && 0 <= i < MatchId(s).value.end ==> InId(s, i)
  {
    assert s[0..] == s;
    assert MatchId(s).Some? && 0 <= i < MatchId(s).value.end ==> IdSpans(s, 0, i);
  }

  /** How far the scan moves at the start of `s`, in the input and in the output. */
  function StepIn(s: string): (k: nat)
    requires s != ""
    ensures 0 < k <= |s|
  {
    if MatchId(s).Some? then MatchId(s).value.end else 1
  }

  function StepOut(s: string): nat
    requires s != ""
  {
    if MatchId(s).Some? then |Canonical(MatchId(s).value)| else 1
  }

  /** What the scan writes for its first step. */
  function Written(s: string): string
    requires s != ""
  {
    if MatchId(s).Some? then Canonical(MatchId(s).value) else [s[0]]
  }

  lemma OneStep(s: string, i: int)
    requires s != ""
    ensures StepOut(s) <= |PinIds(s)| && PinIds(s)[StepOut(s)..] == PinIds(s[StepIn(s)..])
    ensures i >= StepIn(s) ==> DriftBefore(s, i) == StepOut(s) - StepIn(s) + DriftBefore(s[StepIn(s)..], i - StepIn(s))
  {
    hide PinIds, MatchId, Canonical, StepOut, StepIn, DriftBefore;
    Scanned(s);
    DriftStep(s, i);
    DropsHead(Written(s), PinIds(s[StepIn(s)..]));
  }

  lemma DriftStep(s: string, i: int)
    requires s != ""
    ensures |Written(s)| == StepOut(s)
    ensures i >= StepIn(s) ==> DriftBefore(s, i) == StepOut(s) - StepIn(s) + DriftBefore(s[StepIn(s)..], i - StepIn(s))
  {
    Lengths(s);
    hide MatchId, Canonical, IsId;
  }

  lemma DropsHead(a: string, b: string)
    ensures (a + b)[|a|..] == b
  {}

  /** A rewritten id is longer than it was by what its whitespace falls short of two characters. */
  lemma Lengths(s: string)
    ensures MatchId(s).Some? ==> 0 < MatchId(s).value.end <= |s|
    ensures MatchId(s).Some? ==> |Canonical(MatchId(s).value)| == MatchId(s).value.end + 2 - Spacing(MatchId(s).value)
  {}

  /**
   * Main result: whatever the file's ids look like, a byte outside them is found in the
   * output at its own offset plus the drift before it, and everything up to it is the
   * rewriting of everything up to it.
   */
  lemma {:induction false} IdsMoveBytesByDrift(s: string, i: int)
    requires 0 <= i <= |s| && !InId(s, i)
    ensures 0 <= i + DriftBefore(s, i) <= |PinIds(s)|
    ensures i < |s| ==> i + DriftBefore(s, i) < |PinIds(s)| && PinIds(s)[i + DriftBefore(s, i)] == s[i]
    ensures PinIds(s[..i]) == PinIds(s)[..i + DriftBefore(s, i)]
    decreases |s|
  {
    hide PinIds, DriftBefore, MatchId, InId, StepIn, StepOut;
    if i == 0 {
      FirstByteStays(s);
    } else {
      StepIsBefore(s, i);
      var k, n := StepIn(s), StepOut(s);
      OneStep(s, i);
      InIdTail(s, k, i);
      IdsMoveBytesByDrift(s[k..], i - k);
      PrefixStep(s, i);
      JoinStep(s, k, PinIds(s), n, PinIds(s[k..]), i, DriftBefore(s[k..], i - k), PinIds(s[..i]),
               PinIds(s[k..][..i - k]));
    }
  }

  lemma FirstByteStays(s: string)
    requires !InId(s, 0)
    ensures DriftBefore(s, 0) == 0 && PinIds(s[..0]) == ""
    ensures s != "" ==> PinIds(s) != "" && PinIds(s)[0] == s[0]
  {
    InIdHead(s, 0);
  }

  lemma StepIsBefore(s: string, i: int)
    requires 0 < i <= |s| && !InId(s, i)
    ensures s != "" && StepIn(s) <= i
  {
    InIdHead(s, i);
  }

  /** One step of the scan in front of text whose bytes move by `drift`. */
  lemma JoinStep(s: string, k: nat, out: string, n: nat, rest: string, i: int, drift: int, cut: string, cutRest: string)
    requires n <= |out| && out[n..] == rest && k <= i <= |s| && 0 <= i - k + drift <= |rest|
    requires i < |s| ==> i - k + drift < |rest| && rest[i - k + drift] == s[k..][i - k]
    requires cutRest == rest[..i - k + drift] && cut == out[..n] + cutRest
    ensures 0 <= i + (n - k + drift) <= |out| && cut == out[..i + (n - k + drift)]
    ensures i < |s| ==> i + (n - k + drift) < |out| && out[i + (n - k + drift)] == s[i]
  {}

  /** Cutting the text at `i`, past the first step, leaves that step as it was. */
  lemma PrefixStep(s: string, i: nat)
    requires s != "" && StepIn(s) <= i <= |s|
    ensures PinIds(s[..i]) == PinIds(s)[..StepOut(s)] + PinIds(s[StepIn(s)..][..i - StepIn(s)])
  {
    hide PinIds, MatchId, Canonical;
    PrefixMatches(s, i);
    var k := StepIn(s);
    assert s[..i][k..] == s[k..][..i - k];
    Scanned(s);
    Scanned(s[..i]);
  }

  lemma PrefixMatches(s: string, i: nat)
    requires s != "" && StepIn(s) <= i <= |s|
    ensures MatchId(s[..i]) == MatchId(s)
  {
    hide IsId;
    if MatchId(s).Some? {
      MatchIsLocal(s, s[..i]);
    } else if MatchId(s[..i]).Some? {
      MatchEnds(s[..i]);
      MatchIsLocal(s[..i], s);
    }
  }

  lemma Scanned(s: string)
    requires s != ""
    ensures PinIds(s) == Written(s) + PinIds(s[StepIn(s)..]) && PinIds(s)[..StepOut(s)] == Written(s)
  {}

  lemma NoIdPastEnd(s: string, i: int)
    ensures InId(s, i) ==> 0 <= i < |s|
  {
    if InId(s, i) {
      var d :| IdSpans(s, d, i);
      MatchEnds(s[d..]);
    }
  }

  // ---------------------------------------------------------------- what is forgotten

  predicate HexOf(m: IdMatch, j: int) { m.aFrom <= j < m.aEnd - 1 || m.bFrom <= j < m.bEnd - 1 }

  /** The same id, but for its hex digits, is at `d` in both, and `i` is one of those digits. */
  ghost predicate SharedIdAt(s: string, t: string, d: int, i: int) {
    IdAt(s, d) && IdAt(t, d) && MatchId(s[d..]) == MatchId(t[d..]) && HexOf(MatchId(s[d..]).value, i - d)
  }

  ghost predicate SharedIdHex(s: string, t: string, i: int) {
    exists d :: SharedIdAt(s, t, d, i)
  }

  /** Two files of one length that differ only in date digits and in the hex digits of their ids. */
  ghost predicate SameButStamps(s: string, t: string) {
    && |s| == |t|
    && forall i :: 0 <= i < |s| ==> s[i] == t[i] || (InDate(s, i) && InDate(t, i)) || SharedIdHex(s, t, i)
  }

  lemma IdText(s: string, d: int)
    requires IdAt(s, d)
    ensures var m := MatchId(s[d..]).value;
            && d + m.end <= |s| && s[d] == '/' && (forall i :: d < i < d + m.end ==> s[i] != '/' && s[i] != '(')
            && forall i :: d + m.aFrom <= i < d + m.aEnd - 1 || d + m.bFrom <= i < d + m.bEnd - 1 ==> IsHex(s[i])
  {
    MatchIsPlain(s[d..]);
    var m := MatchId(s[d..]).value;
    forall i | d <= i < d + m.end ensures s[d..][i - d] == s[i] {}
    forall i | d < i < d + m.end ensures s[i] != '/' && s[i] != '(' { assert s[d..][i - d] == s[i]; }
    forall i | d + m.aFrom <= i < d + m.aEnd - 1 || d + m.bFrom <= i < d + m.bEnd - 1
      ensures IsHex(s[i])
    {
      assert s[d..][i - d] == s[i];
    }
  }

  /** A date and an id never overlap. */
  lemma DateAndIdApart(s: string, d: int, e: int)
    requires DateAt(s, d) && IdAt(s, e)
    ensures d + 17 <= e || e + MatchId(s[e..]).value.end <= d
  {
    DateText(s, d);
    IdText(s, e);
  }

  lemma SameDates(s: string, t: string, d: int)
    requires SameButStamps(s, t) && DateAt(s, d)
    ensures DateAt(t, d)
  {
    DateText(s, d);
    forall i | d <= i < d + 17 ensures s[i] == t[i] || (i >= d + 3 && IsDigit(t[i])) {
      if s[i] != t[i] {
        if SharedIdHex(s, t, i) {
          var e :| SharedIdAt(s, t, e, i);
          DateAndIdApart(s, d, e);
        } else {
          var e :| e + 3 <= i < e + 17 && DateAt(s, e);
          var f :| f + 3 <= i < f + 17 && DateAt(t, f);
          DateText(s, e);
          DateText(t, f);
        }
      }
    }
    forall i | 0 <= i < 17 ensures t[d..][i] == t[d + i] {}
  }

  lemma SharedIdSymmetric(s: string, t: string, i: int)
    requires SharedIdHex(s, t, i)
    ensures SharedIdHex(t, s, i)
  {
    var d :| SharedIdAt(s, t, d, i);
    assert SharedIdAt(t, s, d, i);
  }

  /** Pinning dates leaves every id as it was. */
  lemma PinDatesKeepsIds(s: string, d: int)
    requires IdAt(s, d)
    ensures IdAt(PinDates(s), d) && MatchId(PinDates(s)[d..]) == MatchId(s[d..])
  {
    PinDatesExactly(s);
    IdText(s, d);
    var p, m := PinDates(s), MatchId(s[d..]).value;
    forall i | 0 <= i < m.end ensures s[d..][i] == p[d..][i] {
      if InDate(s, d + i) {
        var e :| e + 3 <= d + i < e + 17 && DateAt(s, e);
        DateAndIdApart(s, e, d);
      }
      assert s[d..][i] == s[d + i] && p[d..][i] == p[d + i];
    }
    MatchIsLocal(s[d..], p[d..]);
  }

  ghost predicate SameButIds(s: string, t: string) {
    |s| == |t| && forall i :: 0 <= i < |s| ==> s[i] == t[i] || SharedIdHex(s, t, i)
  }

  lemma PinDatesForgetsDatesAt(s: string, t: string, i: int)
    requires SameButStamps(s, t) && SameButStamps(t, s) && 0 <= i < |s|
    ensures |PinDates(s)| == |PinDates(t)| == |s|
    ensures PinDates(s)[i] == PinDates(t)[i] || SharedIdHex(PinDates(s), PinDates(t), i)
  {
    PinDatesExactly(s);
    PinDatesExactly(t);
    if InDate(s, i) {
      var d :| d + 3 <= i < d + 17 && DateAt(s, d);
      SameDates(s, t, d);
    } else if InDate(t, i) {
      var d :| d + 3 <= i < d + 17 && DateAt(t, d);
      SameDates(t, s, d);
    } else if s[i] != t[i] {
      var d :| SharedIdAt(s, t, d, i);
      PinDatesKeepsIds(s, d);
      PinDatesKeepsIds(t, d);
      assert SharedIdAt(PinDates(s), PinDates(t), d, i);
    }
  }

  lemma PinDatesForgetsDates(s: string, t: string)
    requires SameButStamps(s, t)
    ensures SameButIds(PinDates(s), PinDates(t))
  {
    StampsSymmetric(s, t);
    PinDatesExactly(s);
    PinDatesExactly(t);
    forall i | 0 <= i < |s| ensures PinDates(s)[i] == PinDates(t)[i] || SharedIdHex(PinDates(s), PinDates(t), i) {
      PinDatesForgetsDatesAt(s, t, i);
    }
  }

  lemma StampsSymmetric(s: string, t: string)
    requires SameButStamps(s, t)
    ensures SameButStamps(t, s)
  {
    forall i | 0 <= i < |s| ensures t[i] == s[i] || (InDate(t, i) && InDate(s, i)) || SharedIdHex(t, s, i) {
      if SharedIdHex(s, t, i) { SharedIdSymmetric(s, t, i); }
    }
  }

  /** A match at the start of one file is a match at the start of the other. */
  lemma SameFirstId(s: string, t: string)
    requires SameButIds(s, t) && MatchId(s).Some?
    ensures MatchId(t) == MatchId(s)
  {
    assert s[0..] == s && t[0..] == t;
    MatchIsPlain(s);
    var m := MatchId(s).value;
    if i :| 0 <= i < m.end && SharedIdHex(s, t, i) {
      var d :| SharedIdAt(s, t, d, i);
      IdText(s, d);
    } else {
      MatchIsLocal(s, t);
    }
  }

  lemma SharedIdTail(s: string, t: string, k: nat, i: nat)
    requires s != "" && |s| == |t| && k == (if MatchId(s).Some? then MatchId(s).value.end else 1)
    requires SharedIdHex(s, t, k + i)
    ensures SharedIdHex(s[k..], t[k..], i)
  {
    assert s[0..] == s;
    var d :| SharedIdAt(s, t, d, k + i);
    NoIdInsideAnId(s, k, d);
    IdShift(s, k, d);
    IdShift(t, k, d);
    assert SharedIdAt(s[k..], t[k..], d - k, i);
  }

  lemma NoIdInsideAnId(s: string, k: nat, d: int)
    requires s != "" && k == (if MatchId(s).Some? then MatchId(s).value.end else 1)
    requires IdAt(s, d) && d + MatchId(s[d..]).value.end > k
    ensures d >= k
  {
    assert s[0..] == s;
    IdText(s, d);
    if MatchId(s).Some? { MatchIsPlain(s); }
  }

  lemma SameButIdsTail(s: string, t: string, k: nat)
    requires s != "" && SameButIds(s, t)
    requires k == if MatchId(s).Some? then MatchId(s).value.end else 1
    ensures SameButIds(s[k..], t[k..])
  {
    hide SharedIdHex, MatchId;
    forall i | 0 <= i < |s| - k ensures s[k..][i] == t[k..][i] || SharedIdHex(s[k..], t[k..], i) {
      if s[i + k] != t[i + k] { SharedIdTail(s, t, k, i); }
    }
  }

  lemma {:induction false} PinIdsForgetsIds(s: string, t: string)
    requires SameButIds(s, t)
    ensures PinIds(s) == PinIds(t)
    decreases |s|
  {
    if s != "" {
      assert s[0..] == s && t[0..] == t;
      if MatchId(s).Some? {
        SameFirstId(s, t);
      } else if MatchId(t).Some? {
        forall i | 0 <= i < |s| ensures t[i] == s[i] || SharedIdHex(t, s, i) {
          if SharedIdHex(s, t, i) { SharedIdSymmetric(s, t, i); }
        }
        SameFirstId(t, s);
      }
      var k := if MatchId(s).Some? then MatchId(s).value.end else 1;
      SameButIdsTail(s, t, k);
      PinIdsForgetsIds(s[k..], t[k..]);
      NoHexAtStart(s, t);
    }
  }

  lemma NoHexAtStart(s: string, t: string)
    ensures !SharedIdHex(s, t, 0)
  {
    forall d ensures !SharedIdAt(s, t, d, 0) {}
  }

  /** Main result: files that differ only in their stamps stabilize to the same bytes. */
  lemma SameButStampsSameBytes(s: string, t: string)
    requires SameButStamps(s, t)
    ensures Stabilize(s) == Stabilize(t)
  {
    PinDatesForgetsDates(s, t);
    PinIdsForgetsIds(PinDates(s), PinDates(t));
  }

  // ---------------------------------------------------------------- where each byte of the file goes

  /** The same ids, at the same places. */
  ghost predicate SameIds(s: string, t: string) {
    |s| == |t| && forall d :: (IdAt(s, d) <==> IdAt(t, d)) && (IdAt(s, d) ==> MatchId(s[d..]) == MatchId(t[d..]))
  }

  lemma {:induction false} SameIdsSameDrift(s: string, t: string, i: int)
    requires SameIds(s, t)
    ensures DriftBefore(s, i) == DriftBefore(t, i)
    decreases |s|
  {
    if s != "" && i > 0 {
      assert s[0..] == s && t[0..] == t;
      assert IdAt(s, 0) <==> IdAt(t, 0);
      var k := StepIn(s);
      forall d
        ensures (IdAt(s[k..], d) <==> IdAt(t[k..], d))
                && (IdAt(s[k..], d) ==> MatchId(s[k..][d..]) == MatchId(t[k..][d..]))
      {
        if d >= 0 {
          IdShift(s, k, d + k);
          IdShift(t, k, d + k);
        }
      }
      SameIdsSameDrift(s[k..], t[k..], i - k);
    }
  }

  lemma PinDatesMakesNoId(s: string, d: int)
    requires IdAt(PinDates(s), d)
    ensures IdAt(s, d) && MatchId(s[d..]) == MatchId(PinDates(s)[d..])
  {
    PinDatesExactly(s);
    var p := PinDates(s);
    IdText(p, d);
    var m := MatchId(p[d..]).value;
    forall i | 0 <= i < m.end ensures p[d..][i] == s[d..][i] {
      if InDate(s, d + i) {
        var e :| e + 3 <= d + i < e + 17 && DateAt(s, e);
        PinningKeepsDates(s, e);
        DateAndIdApart(p, e, d);
      }
      assert s[d..][i] == s[d + i] && p[d..][i] == p[d + i];
    }
    MatchIsLocal(p[d..], s[d..]);
  }

  lemma PinDatesKeepsDrift(s: string)
    ensures SameIds(s, PinDates(s))
    ensures forall i :: DriftBefore(PinDates(s), i) == DriftBefore(s, i) && (InId(PinDates(s), i) <==> InId(s, i))
  {
    PinDatesLength(s);
    forall d
      ensures (IdAt(s, d) <==> IdAt(PinDates(s), d)) && (IdAt(s, d) ==> MatchId(s[d..]) == MatchId(PinDates(s)[d..]))
    {
      if IdAt(s, d) { PinDatesKeepsIds(s, d); }
      if IdAt(PinDates(s), d) { PinDatesMakesNoId(s, d); }
    }
    forall i ensures DriftBefore(PinDates(s), i) == DriftBefore(s, i) && (InId(PinDates(s), i) <==> InId(s, i)) {
      SameIdsSameDrift(s, PinDates(s), i);
      assert forall d :: IdSpans(s, d, i) <==> IdSpans(PinDates(s), d, i);
    }
  }

  /** Where in the output the byte at `i` is written: after the rewriting of everything before it. */
  function OutputOffset(pdf: string, i: nat): nat
    requires i <= |PinDates(pdf)|
  {
    |PinIds(PinDates(pdf)[..i])|
  }

  /**
   * Main result: for every file, a byte outside its ids is written at its own offset plus the
   * drift before it, as itself, or as a fixed digit if it is a date's.
   */
  lemma BytesMoveByDrift(pdf: string, i: nat)
    requires i < |pdf| && !InId(pdf, i)
    ensures |PinDates(pdf)| == |pdf| && OutputOffset(pdf, i) == i + DriftBefore(pdf, i) < |Stabilize(pdf)|
    ensures Stabilize(pdf)[OutputOffset(pdf, i)] == PinDates(pdf)[i]
    ensures !InDate(pdf, i) ==> Stabilize(pdf)[OutputOffset(pdf, i)] == pdf[i]
  {
    PinDatesExactly(pdf);
    PinDatesKeepsDrift(pdf);
    IdsMoveBytesByDrift(PinDates(pdf), i);
  }

  /** Main result: a byte outside the ids keeps its offset exactly when the ids before it drift by nothing in all. */
  lemma OffsetsKeptExactly(pdf: string)
    ensures |PinDates(pdf)| == |pdf|
    ensures (forall i :: 0 <= i < |pdf| && !InId(pdf, i) ==> OutputOffset(pdf, i) == i) <==>
            (forall i :: 0 <= i < |pdf| && !InId(pdf, i) ==> DriftBefore(pdf, i) == 0)
  {
    PinDatesLength(pdf);
    forall i | 0 <= i < |pdf| && !InId(pdf, i) ensures OutputOffset(pdf, i) == i + DriftBefore(pdf, i) {
      BytesMoveByDrift(pdf, i);
    }
  }

  /** The file's length changes by the drift before its end. */
  lemma LengthChangesByDrift(pdf: string)
    ensures |Stabilize(pdf)| == |pdf| + DriftBefore(pdf, |pdf|)
  {
    PinDatesLength(pdf);
    var p := PinDates(pdf);
    NoIdPastEnd(p, |p|);
    IdsMoveBytesByDrift(p, |p|);
    assert p[..|p|] == p;
    PinDatesKeepsDrift(pdf);
  }

  lemma {:induction false} CanonicalIdsDoNotDrift(s: string, i: int)
    requires forall d :: IdAt(s, d) ==> Spacing(MatchId(s[d..]).value) == 2
    ensures DriftBefore(s, i) == 0
    decreases |s|
  {
    if s != "" && i > 0 {
      assert s[0..] == s;
      assert MatchId(s).Some? ==> IdAt(s, 0);
      var k := StepIn(s);
      forall d | IdAt(s[k..], d) ensures Spacing(MatchId(s[k..][d..]).value) == 2 { IdShift(s, k, d + k); }
      CanonicalIdsDoNotDrift(s[k..], i - k);
    }
  }

  /** In particular when every id's whitespace is two characters, which is how the generator writes it. */
  lemma CanonicalSpacingKeepsOffsets(pdf: string, i: nat)
    requires forall d :: IdAt(pdf, d) ==> Spacing(MatchId(pdf[d..]).value) == 2
    requires i < |pdf| && !InId(pdf, i)
    ensures |Stabilize(pdf)| == |pdf| == |PinDates(pdf)| && Stabilize(pdf)[i] == PinDates(pdf)[i]
  {
    hide InDate, InId, PinIds, PinDates, Stabilize, DriftBefore, OutputOffset;
    CanonicalIdsDoNotDrift(pdf, i);
    CanonicalIdsDoNotDrift(pdf, |pdf|);
    BytesMoveByDrift(pdf, i);
    LengthChangesByDrift(pdf);
  }

  const TIGHT := "/ID[<0A><0B>]"

  /** An id written without spaces grows by two bytes, and what follows it moves. */
  lemma TightIdMovesWhatFollows()
    ensures !InId(TIGHT + "x", 13) && DriftBefore(TIGHT + "x", 13) == 2 && |Stabilize(TIGHT + "x")| == 16
    ensures Stabilize(TIGHT + "x")[15] == 'x'
  {
    var pdf := TIGHT + "x";
    TightIdDrifts();
    forall d ensures !DateAt(pdf, d) {
      if DateAt(pdf, d) { DateText(pdf, d); }
    }
    PinnedDatesStay(pdf);
    hide MatchId, PinIds, DriftBefore, Stabilize, InId;
    BytesMoveByDrift(pdf, 13);
    LengthChangesByDrift(pdf);
  }

  lemma TightIdDrifts()
    ensures var pdf := TIGHT + "x"; !InId(pdf, 13) && DriftBefore(pdf, 13) == 2 && DriftBefore(pdf, 14) == 2
  {
    var pdf := TIGHT + "x";
    TightIdMatches();
    MatchIsLocal(TIGHT, pdf);
    hide MatchId;
    assert pdf[0..] == pdf && pdf[13..] == "x" && MatchId(pdf) == Some(IdMatch(4, 5, 8, 9, 12, 13));
    assert DriftBefore("x", 0) == 0 && DriftBefore("x", 1) == 0 by { NoIdInX(); }
    forall d ensures !IdSpans(pdf, d, 13) {
      if IdAt(pdf, d) { IdText(pdf, d); }
    }
  }

  lemma NoIdInX()
    ensures MatchId("x").None? && DriftBefore("x", 0) == 0 && DriftBefore("x", 1) == 0
  {}

  lemma TightIdMatches()
    ensures MatchId(TIGHT) == Some(IdMatch(4, 5, 8, 9, 12, 13))
  {
    FirstTightRuns();
    LastTightRuns();
    MatchIdExactly(TIGHT, IdMatch(4, 5, 8, 9, 12, 13));
  }

  lemma FirstTightRuns()
    ensures var s := "/ID[<0A><0B>]"; Run(s, 3, 4, OPEN) && Run(s, 4, 5, MARK) && Run(s, 5, 8, HEX)
  {
    RunText("/ID", "", "<0A><0B>]", OPEN);
    RunText("/ID[", "", "0A><0B>]", MARK);
    RunText("/ID[<", "0A", "<0B>]", HEX);
    assert "/ID[<0A><0B>]" == "/ID" + "" + "[" + "<0A><0B>]" == "/ID[" + "" + "<" + "0A><0B>]";
    assert "/ID[<0A><0B>]" == "/ID[<" + "0A" + ">" + "<0B>]";
  }

  lemma LastTightRuns()
    ensures var s := "/ID[<0A><0B>]"; Run(s, 8, 9, MARK) && Run(s, 9, 12, HEX) && Run(s, 12, 13, CLOSE)
  {
    RunText("/ID[<0A>", "", "0B>]", MARK);
    RunText("/ID[<0A><", "0B", "]", HEX);
    RunText("/ID[<0A><0B>", "", "", CLOSE);
    assert "/ID[<0A><0B>]" == "/ID[<0A>" + "" + "<" + "0B>]" == "/ID[<0A><" + "0B" + ">" + "]";
    assert "/ID[<0A><0B>]" == "/ID[<0A><0B>" + "" + "]" + "";
  }
}
