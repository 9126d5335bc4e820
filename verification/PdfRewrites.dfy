/**
 * The two rewrites of packages/api/src/bill-generation/stabilize-pdf.ts, said of the text
 * they find: the dates and the ids of a file and nothing else.
 */
module PdfRewrites {
  import opened Common
  import opened Decimals
  import opened StabilizePdf

  ghost predicate Numerals(s: string) { forall i :: 0 <= i < |s| ==> s[i] in "0123456789" }

  ghost predicate Hexadecimal(s: string) { forall i :: 0 <= i < |s| ==> s[i] in "0123456789abcdefABCDEF" }

  /** Tab, line feed, vertical tab, form feed, carriage return, space and the no-break space. */
  ghost predicate Blank(s: string) { forall i :: 0 <= i < |s| ==> s[i] as int in {9, 10, 11, 12, 13, 32, 160} }

  // ---------------------------------------------------------------- dates

  /** `(D:` and fourteen digits, and the text after them. */
  ghost predicate DateParts(s: string, digits: string, rest: string) {
    |digits| == 14 && Numerals(digits) && s == "(D:" + digits + rest
  }

  lemma DateHereIsParts(s: string)
    ensures DateHere(s) <==> exists digits, rest :: DateParts(s, digits, rest)
  {
    if DateHere(s) {
      assert s == "(D:" + s[3..17] + s[17..];
      assert DateParts(s, s[3..17], s[17..]);
    }
    if digits, rest :| DateParts(s, digits, rest) {
      forall i | 3 <= i < 17 ensures IsDigit(s[i]) { assert s[i] == digits[i - 3]; }
    }
  }

  /** Main result: a date's digits become those of midnight on 1 January 2000, and any other character stays. */
  lemma DatesAreRewritten(s: string)
    requires s != ""
    ensures forall digits, rest :: DateParts(s, digits, rest) ==>
                                   PinDates(s) == "(D:" + "20000101000000" + PinDates(rest)
    ensures (forall digits, rest :: !DateParts(s, digits, rest)) ==> PinDates(s) == [s[0]] + PinDates(s[1..])
  {
    DateHereIsParts(s);
    forall digits, rest | DateParts(s, digits, rest)
      ensures PinDates(s) == "(D:" + "20000101000000" + PinDates(rest)
    {
      assert s[17..] == rest;
    }
  }

  // ---------------------------------------------------------------- ids

  /** /ID, then [ < hex > < hex > ] with any blanks before the brackets, and the text after it. */
  ghost predicate IdParts(s: string, w1: string, w2: string, a: string, w3: string, b: string, w4: string,
                          rest: string)
  {
    && Blank(w1) && Blank(w2) && Blank(w3) && Blank(w4) && Hexadecimal(a) && Hexadecimal(b)
    && s == "/ID" + w1 + "[" + w2 + "<" + a + ">" + w3 + "<" + b + ">" + w4 + "]" + rest
  }

  lemma BlankClass(c: char)
    ensures IsSpace(c) <==> c as int in {9, 10, 11, 12, 13, 32, 160}
  {}

  lemma HexClass(c: char)
    ensures IsHex(c) <==> c in "0123456789abcdefABCDEF"
  {}

  ghost predicate OfClass(w: string, step: Step) { if step.hex then Hexadecimal(w) else Blank(w) }

  /** A run is text of its class and then its closing character. */
  lemma RunIsText(s: string, from: nat, end: nat, step: Step)
    requires from < end <= |s|
    ensures Run(s, from, end, step) <==> OfClass(s[from..end - 1], step) && s[end - 1] == step.close
  {
    var w := s[from..end - 1];
    forall j | from <= j < end - 1 ensures InClass(s[j], step.hex) <==>
        if step.hex then s[j] in "0123456789abcdefABCDEF" else s[j] as int in {9, 10, 11, 12, 13, 32, 160} {
      BlankClass(s[j]);
      HexClass(s[j]);
    }
    forall i | 0 <= i < |w| ensures w[i] == s[from + i] {}
    assert forall j :: from <= j < end - 1 ==> s[j] == w[j - from];
  }

  /** A step's text within a file: what is before it, its run, its closing character, and what is after. */
  lemma StepText(s: string, before: string, body: string, close: string, after: string, step: Step)
    requires s == before + body + close + after && close == [step.close] && OfClass(body, step)
    ensures Run(s, |before|, |before| + |body| + 1, step)
  {
    var from, end := |before|, |before| + |body| + 1;
    assert s[from..end - 1] == body && s[end - 1] == close[0];
    RunIsText(s, from, end, step);
  }

  /** The marks of an id whose parts are given. */
  function MarksOf(w1: string, w2: string, a: string, w3: string, b: string, w4: string): (m: IdMatch)
    ensures Ordered(m) && HexA(m) == |a| && HexB(m) == |b|
  {
    var bracket := 4 + |w1|;
    var aFrom := bracket + |w2| + 1;
    var aEnd := aFrom + |a| + 1;
    var bFrom := aEnd + |w3| + 1;
    var bEnd := bFrom + |b| + 1;
    IdMatch(bracket, aFrom, aEnd, bFrom, bEnd, bEnd + |w4| + 1)
  }

  lemma Associates(x: string, y: string, z: string)
    ensures (x + y) + z == x + (y + z)
  {}

  /** The text from a step on, nested to the right. */
  function Tail(body: string, close: string, after: string): string { body + (close + after) }

  lemma OneStepIn(s: string, before: string, body: string, close: string, after: string)
    requires s == before + body + close + after
    ensures s == before + Tail(body, close, after)
  {
    Associates(before + body, close, after);
    Associates(before, body, close + after);
  }

  lemma OneStepOut(s: string, before: string, body: string, close: string, after: string)
    requires s == before + Tail(body, close, after)
    ensures s == before + body + close + after
  {
    Associates(before, body, close + after);
    Associates(before + body, close, after);
  }

  lemma PartsMatch(s: string, w1: string, w2: string, a: string, w3: string, b: string, w4: string, rest: string)
    requires IdParts(s, w1, w2, a, w3, b, w4, rest)
    ensures var m := MarksOf(w1, w2, a, w3, b, w4);
            MatchId(s) == Some(m) && m.end <= |s| && s[m.end..] == rest
  {
    var m := MarksOf(w1, w2, a, w3, b, w4);
    var t1 := "/ID" + w1 + "[";
    var t2 := t1 + w2 + "<";
    var t3 := t2 + a + ">";
    var t4 := t3 + w3 + "<";
    var t5 := t4 + b + ">";
    var r5 := Tail(w4, "]", rest);
    var r4 := Tail(b, ">", r5);
    var r3 := Tail(w3, "<", r4);
    var r2 := Tail(a, ">", r3);
    var r1 := Tail(w2, "<", r2);
    assert s == t5 + w4 + "]" + rest;
    hide Tail, MatchId, Run, OfClass;
    assert s[m.end..] == rest;
    OneStepIn(s, t5, w4, "]", rest);
    OneStepIn(s, t4, b, ">", r5);
    OneStepIn(s, t3, w3, "<", r4);
    OneStepIn(s, t2, a, ">", r3);
    OneStepIn(s, t1, w2, "<", r2);
    StepsRun(s, w1, w2, a, w3, b, w4, rest, t1, t2, t3, t4, t5, r1, r2, r3, r4, r5);
    assert s[..3] == "/ID";
    MatchIdExactly(s, m);
  }

  /** The six runs of an id, from the text before and after each. */
  lemma StepsRun(s: string, w1: string, w2: string, a: string, w3: string, b: string, w4: string, rest: string,
                 t1: string, t2: string, t3: string, t4: string, t5: string,
                 r1: string, r2: string, r3: string, r4: string, r5: string)
    requires Blank(w1) && Blank(w2) && Blank(w3) && Blank(w4) && Hexadecimal(a) && Hexadecimal(b)
    requires s == "/ID" + w1 + "[" + r1 && s == t1 + w2 + "<" + r2 && s == t2 + a + ">" + r3
    requires s == t3 + w3 + "<" + r4 && s == t4 + b + ">" + r5 && s == t5 + w4 + "]" + rest
    requires var m := MarksOf(w1, w2, a, w3, b, w4);
             |t1| == m.bracket && |t2| == m.aFrom && |t3| == m.aEnd && |t4| == m.bFrom && |t5| == m.bEnd
    ensures var m := MarksOf(w1, w2, a, w3, b, w4);
            && Run(s, 3, m.bracket, OPEN) && Run(s, m.bracket, m.aFrom, MARK) && Run(s, m.aFrom, m.aEnd, HEX)
            && Run(s, m.aEnd, m.bFrom, MARK) && Run(s, m.bFrom, m.bEnd, HEX) && Run(s, m.bEnd, m.end, CLOSE)
  {
    hide Run, Blank, Hexadecimal;
    StepText(s, "/ID", w1, "[", r1, OPEN);
    StepText(s, t1, w2, "<", r2, MARK);
    StepText(s, t2, a, ">", r3, HEX);
    StepText(s, t3, w3, "<", r4, MARK);
    StepText(s, t4, b, ">", r5, HEX);
    StepText(s, t5, w4, "]", rest, CLOSE);
  }

  /** The text of a match, one run further in. */
  lemma TakeRun(s: string, from: nat, end: nat, step: Step) returns (body: string, after: string)
    requires Run(s, from, end, step)
    ensures end <= |s| && after == s[end..] && OfClass(body, step) && s[from..] == Tail(body, [step.close], after)
  {
    RunIsText(s, from, end, step);
    body, after := s[from..end - 1], s[end..];
    assert s[from..] == body + ([step.close] + after);
  }

  lemma MatchHasParts(s: string)
    requires MatchId(s).Some?
    ensures exists w1, w2, a, w3, b, w4, rest :: IdParts(s, w1, w2, a, w3, b, w4, rest)
  {
    var m := MatchId(s).value;
    assert s[..3] == "/ID" && s == s[..3] + s[3..];
    hide MatchId, Run, Tail, Blank, Hexadecimal, IdParts;
    var w1, r1 := TakeRun(s, 3, m.bracket, OPEN);
    var w2, r2 := TakeRun(s, m.bracket, m.aFrom, MARK);
    var a, r3 := TakeRun(s, m.aFrom, m.aEnd, HEX);
    var w3, r4 := TakeRun(s, m.aEnd, m.bFrom, MARK);
    var b, r5 := TakeRun(s, m.bFrom, m.bEnd, HEX);
    var w4, rest := TakeRun(s, m.bEnd, m.end, CLOSE);
    TextsJoin(s, w1, w2, a, w3, b, w4, rest);
  }

  lemma TextsJoin(s: string, w1: string, w2: string, a: string, w3: string, b: string, w4: string, rest: string)
    requires Blank(w1) && Blank(w2) && Blank(w3) && Blank(w4) && Hexadecimal(a) && Hexadecimal(b)
    requires s == "/ID" + Tail(w1, "[", Tail(w2, "<", Tail(a, ">", Tail(w3, "<", Tail(b, ">", Tail(w4, "]", rest))))))
    ensures IdParts(s, w1, w2, a, w3, b, w4, rest)
  {
    hide Tail, Blank, Hexadecimal;
    var r5 := Tail(w4, "]", rest);
    var r4 := Tail(b, ">", r5);
    var r3 := Tail(w3, "<", r4);
    var r2 := Tail(a, ">", r3);
    OneStepOut(s, "/ID", w1, "[", Tail(w2, "<", r2));
    OneStepOut(s, "/ID" + w1 + "[", w2, "<", r2);
    OneStepOut(s, "/ID" + w1 + "[" + w2 + "<", a, ">", r3);
    OneStepOut(s, "/ID" + w1 + "[" + w2 + "<" + a + ">", w3, "<", r4);
    OneStepOut(s, "/ID" + w1 + "[" + w2 + "<" + a + ">" + w3 + "<", b, ">", r5);
    OneStepOut(s, "/ID" + w1 + "[" + w2 + "<" + a + ">" + w3 + "<" + b + ">", w4, "]", rest);
  }

  /**
   * Main result: an id, whatever blanks and hex digits of either case it is written with,
   * becomes `/ID [<0...0> <0...0>]` with as many zeros as there were digits.
   */
  lemma IdsAreRewritten(s: string, w1: string, w2: string, a: string, w3: string, b: string, w4: string, rest: string)
    requires IdParts(s, w1, w2, a, w3, b, w4, rest)
    ensures PinIds(s) == "/ID [<" + Zeros(|a|) + "> <" + Zeros(|b|) + ">]" + PinIds(rest)
  {
    PartsMatch(s, w1, w2, a, w3, b, w4, rest);
    hide MatchId, IdParts;
  }

  /** Main result: any character that no id starts at stays. */
  lemma NothingElseIsRewritten(s: string)
    requires s != "" && forall w1, w2, a, w3, b, w4, rest :: !IdParts(s, w1, w2, a, w3, b, w4, rest)
    ensures PinIds(s) == [s[0]] + PinIds(s[1..])
  {
    hide IdParts, MatchId;
    if MatchId(s).Some? { MatchHasParts(s); }
  }
}
