/**
 * Concrete grammars and inputs: the behaviours the engine is documented to
 * have, worked out on small cases.
 */
module Examples {
  import opened Peg
  import Location
  import Primitives
  import Repetition

  /** Callables that leave values alone and a matcher that never matches;
      none of the examples below depends on them. */
  const Inert: Actions := Actions((f, v) => v, (f, b) => NoValue, (pattern, rest) => None)

  const NoRules: Grammar := map[]

  /** A literal is not a prefix of a text it differs from at some offset. */
  lemma Mismatch(lit: string, s: string, i: nat)
    requires i < |lit| && i < |s| && lit[i] != s[i]
    ensures !(lit <= s)
  {
  }

  lemma LiteralExamples()
    ensures Parse(NoRules, Inert, Raw("foo"), Input("foo", 0), 1) == Success(Str("foo"), map[], Input("foo", 3))
    ensures Parse(NoRules, Inert, Raw("foo"), Input("bar", 0), 1) == Failure(Input("bar", 0), [Raw("foo")], false)
    ensures Parse(NoRules, Inert, Raw("foo"), Input("fo", 0), 1) == Failure(Input("fo", 0), [Raw("foo")], false)
  {
    assert "foo"[0..] == "foo";
    Mismatch("foo", "bar"[0..], 0);
    assert |"fo"[0..]| < |"foo"|;
  }

  /** Sequencing two captures on "ab" outputs both literals and binds both names. */
  lemma SeqBindingExample()
    ensures var p := Seq([Step(BindTo(Raw("a"), "x")), Step(BindTo(Raw("b"), "y"))]);
            Parse(NoRules, Inert, p, Input("ab", 0), 1)
              == Success(List([Str("a"), Str("b")]), map["x" := Str("a"), "y" := Str("b")], Input("ab", 2))
  {
    var p := Seq([Step(BindTo(Raw("a"), "x")), Step(BindTo(Raw("b"), "y"))]);
    assert "ab"[0..] == "ab";
    assert "ab"[1..] == "b";
    assert Parse(NoRules, Inert, Raw("a"), Input("ab", 0), 1) == Success(Str("a"), map[], Input("ab", 1));
    assert Parse(NoRules, Inert, Raw("b"), Input("ab", 1), 1) == Success(Str("b"), map[], Input("ab", 2));
    var b1: Bindings := map["x" := Str("a")];
    var b2: Bindings := map["y" := Str("b")];
    assert Parse(NoRules, Inert, Binder(Raw("a"), "x"), Input("ab", 0), 1) == Success(Str("a"), b1, Input("ab", 1));
    assert Parse(NoRules, Inert, Binder(Raw("b"), "y"), Input("ab", 1), 1) == Success(Str("b"), b2, Input("ab", 2));
    assert p.children[1] == Step(Binder(Raw("b"), "y"));
    assert [Str("a")] + [Str("b")] == [Str("a"), Str("b")];
    assert [] + [Str("a")] == [Str("a")];
    assert SeqLoop(NoRules, Inert, p, 1, Input("ab", 1), false, [Str("a")], b1, 1)
        == Success(List([Str("a"), Str("b")]), b1 + b2, Input("ab", 2));
    assert SeqLoop(NoRules, Inert, p, 0, Input("ab", 0), false, [], map[], 1)
        == Success(List([Str("a"), Str("b")]), b1 + b2, Input("ab", 2));
    assert b1 + b2 == map["x" := Str("a"), "y" := Str("b")];
  }

  /** After "a" and a cut, the failure of "b" on "ac" is fatal, so the
      alternative "ac" is never tried; without the cut it is. */
  lemma CutExample()
    ensures var committed := Seq([Step(Raw("a")), Cut, Step(Raw("b"))]);
            Parse(NoRules, Inert, Or([committed, Raw("ac")]), Input("ac", 0), 1)
              == Failure(Input("ac", 1), [Or([committed, Raw("ac")]), committed, Raw("b")], true)
    ensures var plain := Seq([Step(Raw("a")), Step(Raw("b"))]);
            Parse(NoRules, Inert, Or([plain, Raw("ac")]), Input("ac", 0), 1)
              == Success(Str("ac"), map[], Input("ac", 2))
  {
    var committed := Seq([Step(Raw("a")), Cut, Step(Raw("b"))]);
    var plain := Seq([Step(Raw("a")), Step(Raw("b"))]);
    var at1 := Input("ac", 1);
    assert "ac"[0..] == "ac";
    Mismatch("b", "ac"[1..], 0);
    assert Parse(NoRules, Inert, Raw("a"), Input("ac", 0), 1) == Success(Str("a"), map[], at1);
    assert Parse(NoRules, Inert, Raw("b"), at1, 1) == Failure(at1, [Raw("b")], false);
    assert [] + [Str("a")] == [Str("a")];
    assert SeqLoop(NoRules, Inert, committed, 2, at1, true, [Str("a")], map[], 1)
        == Failure(at1, [committed, Raw("b")], true);
    assert SeqLoop(NoRules, Inert, committed, 1, at1, false, [Str("a")], map[], 1)
        == Failure(at1, [committed, Raw("b")], true);
    assert Parse(NoRules, Inert, committed, Input("ac", 0), 1) == Failure(at1, [committed, Raw("b")], true);
    assert Parse(NoRules, Inert, plain, Input("ac", 0), 1) == Failure(at1, [Raw("b")], false);
    assert Parse(NoRules, Inert, Raw("ac"), Input("ac", 0), 1) == Success(Str("ac"), map[], Input("ac", 2));
    var alt := Or([committed, Raw("ac")]);
    assert [alt] + [committed, Raw("b")] == [alt, committed, Raw("b")];
    assert OrLoop(NoRules, Inert, alt, 0, Input("ac", 0), 1) == Failure(at1, [alt, committed, Raw("b")], true);
    var alt' := Or([plain, Raw("ac")]);
    assert OrLoop(NoRules, Inert, alt', 1, Input("ac", 0), 1) == Success(Str("ac"), map[], Input("ac", 2));
    assert OrLoop(NoRules, Inert, alt', 0, Input("ac", 0), 1) == Success(Str("ac"), map[], Input("ac", 2));
  }

  /** Zero-or-more matches nothing on empty text, and as much as it can otherwise. */
  lemma RepExample()
    ensures Parse(NoRules, Inert, Rep(Raw("a")), Input("", 0), 1) == Success(List([]), map[], Input("", 0))
    ensures Parse(NoRules, Inert, Rep(Raw("a")), Input("aab", 0), 1)
              == Success(List([Str("a"), Str("a")]), map[], Input("aab", 2))
  {
    var p := Rep(Raw("a"));
    assert |""[0..]| < |"a"|;
    assert "aab"[0..] == "aab";
    assert "aab"[1..] == "ab";
    Mismatch("a", "aab"[2..], 0);
    assert Accumulate(map[], map[]) == map[];
    assert AsLists(map[]) == map[];
    assert [] + [Str("a")] == [Str("a")];
    assert [Str("a")] + [Str("a")] == [Str("a"), Str("a")];
    assert Parse(NoRules, Inert, Raw("a"), Input("aab", 0), 1) == Success(Str("a"), map[], Input("aab", 1));
    assert Parse(NoRules, Inert, Raw("a"), Input("aab", 1), 1) == Success(Str("a"), map[], Input("aab", 2));
    assert Parse(NoRules, Inert, Raw("a"), Input("aab", 2), 1).Failure?;
    assert RepLoop(NoRules, Inert, p, Input("aab", 1), [Str("a")], map[], 1)
        == Success(List([Str("a"), Str("a")]), map[], Input("aab", 2));
  }

  /** Exactly three: two are not enough, three are. */
  lemma RepNExample()
    ensures Parse(NoRules, Inert, RepN(Raw("x"), 3), Input("xx", 0), 1)
              == Failure(Input("xx", 2), [RepN(Raw("x"), 3), Raw("x")], false)
    ensures Parse(NoRules, Inert, RepN(Raw("x"), 3), Input("xxx", 0), 1)
              == Success(List([Str("x"), Str("x"), Str("x")]), map[], Input("xxx", 3))
  {
    var p := RepN(Raw("x"), 3);
    assert "xx"[0..] == "xx";
    assert "xx"[1..] == "x";
    assert |"xx"[2..]| < |"x"|;
    assert "xxx"[0..] == "xxx";
    assert "xxx"[1..] == "xx";
    assert "xxx"[2..] == "x";
    assert Accumulate(map[], map[]) == map[];
    assert AsLists(map[]) == map[];
    assert [] + [Str("x")] == [Str("x")];
    assert [Str("x")] + [Str("x")] == [Str("x"), Str("x")];
    assert [Str("x"), Str("x")] + [Str("x")] == [Str("x"), Str("x"), Str("x")];
    assert Parse(NoRules, Inert, Raw("x"), Input("xx", 2), 1) == Failure(Input("xx", 2), [Raw("x")], false);
    assert RepNLoop(NoRules, Inert, p, 1, Input("xx", 1), [Str("x")], map[], 1)
        == Failure(Input("xx", 2), [p, Raw("x")], false);
    assert Parse(NoRules, Inert, Raw("x"), Input("xxx", 2), 1) == Success(Str("x"), map[], Input("xxx", 3));
    assert RepNLoop(NoRules, Inert, p, 1, Input("xxx", 1), [Str("x")], map[], 1)
        == Success(List([Str("x"), Str("x"), Str("x")]), map[], Input("xxx", 3));
  }

  /** A partial parse may leave text over; a whole-text parse may not. */
  lemma FullExample()
    ensures ParsePartial(NoRules, Inert, Raw("a"), "ab", 1) == Success(Str("a"), map[], Input("ab", 1))
    ensures ParseString(NoRules, Inert, Raw("a"), "ab", 1) == Failure(Input("ab", 1), [Full(Raw("a"))], false)
  {
    assert "ab"[0..] == "ab";
  }

  /** Balanced parentheses through a recursive rule. */
  const Parens: Grammar := map["parens" := Rep(Seq([Step(Raw("(")), Step(Lazy("parens")), Step(Raw(")"))]))]

  const ParenPair: Parser := Seq([Step(Raw("(")), Step(Lazy("parens")), Step(Raw(")"))])

  /** No pair starts where the text holds no opening parenthesis. */
  lemma NoPair(t: string, i: nat, f: nat)
    requires i <= |t| && (i == |t| || t[i] != '(')
    ensures Parse(Parens, Inert, ParenPair, Input(t, i), f) == Failure(Input(t, i), [Raw("(")], false)
  {
    Primitives.RawMatches(Parens, Inert, "(", Input(t, i), f);
    if i < |t| {
      assert i + 1 <= |t| ==> t[i..i + 1] == [t[i]];
    }
    assert Parse(Parens, Inert, ParenPair, Input(t, i), f)
        == SeqLoop(Parens, Inert, ParenPair, 0, Input(t, i), false, [], map[], f);
  }

  /** Where no pair can start, the rule matches nothing. */
  lemma RuleEmpty(t: string, i: nat, f: nat)
    requires f >= 1 && i <= |t|
    requires Recoverable(Parse(Parens, Inert, ParenPair, Input(t, i), f - 1))
    ensures Parse(Parens, Inert, Lazy("parens"), Input(t, i), f) == Success(List([]), map[], Input(t, i))
  {
    assert Parens["parens"] == Rep(ParenPair);
    Repetition.RepZero(Parens, Inert, ParenPair, Input(t, i), f - 1);
    Primitives.LazyDelegates(Parens, Inert, "parens", Input(t, i), f);
  }

  /** One pair followed by no further pair: the rule's list holds that pair. */
  lemma RuleOnePair(t: string, i: nat, f: nat, v: Value, m: nat)
    requires f >= 1 && i < m <= |t| && (m == |t| || t[m] != '(')
    requires Parse(Parens, Inert, ParenPair, Input(t, i), f - 1) == Success(v, map[], Input(t, m))
    ensures Parse(Parens, Inert, Lazy("parens"), Input(t, i), f) == Success(List([v]), map[], Input(t, m))
  {
    assert Parens["parens"] == Rep(ParenPair);
    NoPair(t, m, f - 1);
    Repetition.RepZero(Parens, Inert, ParenPair, Input(t, m), f - 1);
    Repetition.RepUnfold(Parens, Inert, ParenPair, Input(t, i), f - 1);
    assert Accumulate(map[], map[]) == map[];
    assert Repetition.Extend(map[], map[]) == map[];
    assert [v] + [] == [v];
    Primitives.LazyDelegates(Parens, Inert, "parens", Input(t, i), f);
  }

  /** An opening parenthesis, the rule, and a closing parenthesis make a pair. */
  lemma PairCloses(t: string, i: nat, f: nat, v: Value, m: nat)
    requires i < |t| && t[i] == '(' && i + 1 <= m < |t| && t[m] == ')'
    requires Parse(Parens, Inert, Lazy("parens"), Input(t, i + 1), f) == Success(v, map[], Input(t, m))
    ensures Parse(Parens, Inert, ParenPair, Input(t, i), f) == Success(List([Str("("), v, Str(")")]), map[], Input(t, m + 1))
  {
    var e: Bindings := map[];
    assert t[i..i + 1] == [t[i]];
    assert t[m..m + 1] == [t[m]];
    Primitives.RawMatches(Parens, Inert, "(", Input(t, i), f);
    Primitives.RawMatches(Parens, Inert, ")", Input(t, m), f);
    assert e + e == e;
    assert [] + [Str("(")] == [Str("(")];
    assert [Str("(")] + [v] == [Str("("), v];
    assert [Str("("), v] + [Str(")")] == [Str("("), v, Str(")")];
    assert SeqLoop(Parens, Inert, ParenPair, 2, Input(t, m), false, [Str("("), v], e, f)
        == Success(List([Str("("), v, Str(")")]), e, Input(t, m + 1));
    assert SeqLoop(Parens, Inert, ParenPair, 1, Input(t, i + 1), false, [Str("(")], e, f)
        == Success(List([Str("("), v, Str(")")]), e, Input(t, m + 1));
    assert Parse(Parens, Inert, ParenPair, Input(t, i), f)
        == SeqLoop(Parens, Inert, ParenPair, 0, Input(t, i), false, [], e, f);
  }

  /** Without its closing parenthesis a pair fails, recoverably, where the
      closing parenthesis was expected. */
  lemma PairUnclosed(t: string, i: nat, f: nat, v: Value, m: nat)
    requires i < |t| && t[i] == '(' && i + 1 <= m <= |t| && (m == |t| || t[m] != ')')
    requires Parse(Parens, Inert, Lazy("parens"), Input(t, i + 1), f) == Success(v, map[], Input(t, m))
    ensures Parse(Parens, Inert, ParenPair, Input(t, i), f) == Failure(Input(t, m), [Raw(")")], false)
  {
    var e: Bindings := map[];
    assert t[i..i + 1] == [t[i]];
    assert m + 1 <= |t| ==> t[m..m + 1] == [t[m]];
    Primitives.RawMatches(Parens, Inert, "(", Input(t, i), f);
    Primitives.RawMatches(Parens, Inert, ")", Input(t, m), f);
    assert e + e == e;
    assert SeqLoop(Parens, Inert, ParenPair, 2, Input(t, m), false, [Str("("), v], e, f)
        == Failure(Input(t, m), [Raw(")")], false);
    assert SeqLoop(Parens, Inert, ParenPair, 1, Input(t, i + 1), false, [] + [Str("(")], e + e, f)
        == Failure(Input(t, m), [Raw(")")], false);
    assert Parse(Parens, Inert, ParenPair, Input(t, i), f)
        == SeqLoop(Parens, Inert, ParenPair, 0, Input(t, i), false, [], e, f);
  }

  /** "()" is one pair with nothing inside. */
  lemma BalancedExample()
    ensures ParseString(Parens, Inert, Lazy("parens"), "()", 2)
              == Success(List([List([Str("("), List([]), Str(")")])]), map[], Input("()", 2))
  {
    var t := "()";
    NoPair(t, 1, 0);
    RuleEmpty(t, 1, 1);
    PairCloses(t, 0, 1, List([]), 1);
    RuleOnePair(t, 0, 2, List([Str("("), List([]), Str(")")]), 2);
    Primitives.FullRejectsTrailing(Parens, Inert, Lazy("parens"), Input(t, 0), 2);
  }

  /** A text whose offset 1 starts "()", with no pair right after it: from
      offset 1 the rule matches that one empty pair. */
  lemma InnerPair(t: string)
    requires |t| >= 3 && t[1] == '(' && t[2] == ')' && (|t| == 3 || t[3] != '(')
    ensures Parse(Parens, Inert, Lazy("parens"), Input(t, 1), 2)
              == Success(List([List([Str("("), List([]), Str(")")])]), map[], Input(t, 3))
  {
    NoPair(t, 2, 0);
    RuleEmpty(t, 2, 1);
    PairCloses(t, 1, 1, List([]), 2);
    RuleOnePair(t, 1, 2, List([Str("("), List([]), Str(")")]), 3);
  }

  /** "(())" is one pair holding one pair. */
  lemma NestedExample()
    ensures ParseString(Parens, Inert, Lazy("parens"), "(())", 3)
              == Success(List([List([Str("("), List([List([Str("("), List([]), Str(")")])]), Str(")")])]),
                         map[], Input("(())", 4))
  {
    var t := "(())";
    var inner := List([Str("("), List([]), Str(")")]);
    InnerPair(t);
    PairCloses(t, 0, 2, List([inner]), 3);
    RuleOnePair(t, 0, 3, List([Str("("), List([inner]), Str(")")]), 4);
    Primitives.FullRejectsTrailing(Parens, Inert, Lazy("parens"), Input(t, 0), 3);
  }

  /** "(()" is refused: the outer pair never closes, so the rule matches
      nothing and the whole-text parse fails at the start. */
  lemma UnbalancedExample()
    ensures ParseString(Parens, Inert, Lazy("parens"), "(()", 3)
              == Failure(Input("(()", 0), [Full(Lazy("parens"))], false)
  {
    var t := "(()";
    InnerPair(t);
    PairUnclosed(t, 0, 2, List([List([Str("("), List([]), Str(")")])]), 3);
    RuleEmpty(t, 0, 3);
    Primitives.FullRejectsTrailing(Parens, Inert, Lazy("parens"), Input(t, 0), 3);
  }

  /** The error raised for a failure inside a rule names the rule in its
      trace and sits at line 1, column 1. */
  lemma RuleErrorExample()
    ensures ParseText(map["x" := Raw("b")], Inert, Lazy("x"), "a", 1)
              == Raised(ParseError(Failure(Input("a", 0), [Lazy("x"), Raw("b")], false), 0, 1, 1, ["x"]))
  {
    var g := map["x" := Raw("b")];
    var failure := Failure(Input("a", 0), [Lazy("x"), Raw("b")], false);
    assert ParseString(g, Inert, Lazy("x"), "a", 1) == failure by {
      Mismatch("b", "a"[0..], 0);
      assert Parse(g, Inert, Raw("b"), Input("a", 0), 0) == Failure(Input("a", 0), [Raw("b")], false);
      assert Parse(g, Inert, Lazy("x"), Input("a", 0), 1) == failure;
    }
    assert Location.Line("a", 0) == 1 && Location.ColumnAsWritten("a", 0) == 1 by {
      assert "a"[..0] == [];
    }
    assert Trace(failure.failed) == ["x"] by {
      assert Trace([Raw("b")]) == TraceName(Raw("b")) + Trace([]);
      assert Trace([Lazy("x"), Raw("b")]) == ["x"] + Trace([Raw("b")]);
    }
  }

  /** Just before the newline of "a\nb" the position is line 1, column 2;
      macropy's column computation gives 0 there. */
  lemma NewlineLocation()
    ensures Location.Line("a\nb", 1) == 1
    ensures Location.Column("a\nb", 1) == 2
    ensures Location.ColumnAsWritten("a\nb", 1) == 0
  {
    assert "a\nb"[..1] == "a";
    assert "a"[1..] == [];
    assert Location.LastNewlineBefore("a\nb", 0) == -1;
  }

  /** A rule that stops before the newline leaves trailing text, whose
      trace is empty. */
  lemma NewlineParse()
    ensures ParseString(map["x" := Raw("a")], Inert, Lazy("x"), "a\nb", 1)
              == Failure(Input("a\nb", 1), [Full(Lazy("x"))], false)
    ensures Trace([Full(Lazy("x"))]) == []
  {
    var g := map["x" := Raw("a")];
    assert "a\nb"[0..] == "a\nb";
    assert Parse(g, Inert, Raw("a"), Input("a\nb", 0), 0) == Success(Str("a"), map[], Input("a\nb", 1));
    assert Parse(g, Inert, Lazy("x"), Input("a\nb", 0), 1) == Success(Str("a"), map[], Input("a\nb", 1));
    assert Trace([Full(Lazy("x"))]) == TraceName(Full(Lazy("x"))) + Trace([]);
  }

  /** The error for a whole-text failure on the newline of "a\nb": `parse`
      reports line 1, column 0. */
  lemma NewlineErrorExample()
    ensures ParseText(map["x" := Raw("a")], Inert, Lazy("x"), "a\nb", 1)
              == Raised(ParseError(Failure(Input("a\nb", 1), [Full(Lazy("x"))], false), 1, 1, 0, []))
  {
    var g := map["x" := Raw("a")];
    var t := "a\nb";
    var f := Failure(Input(t, 1), [Full(Lazy("x"))], false);
    assert ParseString(g, Inert, Lazy("x"), t, 1) == f && Trace(f.failed) == [] by { NewlineParse(); }
    assert Location.Line(t, 1) == 1 && Location.ColumnAsWritten(t, 1) == 0 by { NewlineLocation(); }
  }

  /** The corrected `parse` puts the same failure at column 2, the end of the
      first line. */
  lemma NewlineCorrectedExample()
    ensures ParseTextCorrected(map["x" := Raw("a")], Inert, Lazy("x"), "a\nb", 1)
              == Raised(ParseError(Failure(Input("a\nb", 1), [Full(Lazy("x"))], false), 1, 1, 2, []))
  {
    var g := map["x" := Raw("a")];
    var t := "a\nb";
    var f := Failure(Input(t, 1), [Full(Lazy("x"))], false);
    assert ParseString(g, Inert, Lazy("x"), t, 1) == f && Trace(f.failed) == [] by { NewlineParse(); }
    assert Location.Line(t, 1) == 1 && Location.Column(t, 1) == 2 by { NewlineLocation(); }
  }
}
