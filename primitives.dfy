/**
 * Laws of the leaf parsers (literals, regular expressions, Succeed, Fail),
 * of the single-child wrappers (Full, Transform, TransformBound, Binder,
 * Lazy), of the entry points, and of failure traces.
 */
module Primitives {
  import opened Peg
  import Location

  /** Prefix test spelled out as a slice comparison. */
  lemma PrefixAsSlice(lit: string, s: string)
    ensures lit <= s <==> |lit| <= |s| && s[..|lit|] == lit
  {
    if |lit| <= |s| && s[..|lit|] == lit {
      assert forall i :: 0 <= i < |lit| ==> lit[i] == s[..|lit|][i];
    }
  }

  /** A literal matches exactly where the text holds it at the cursor: it
      then outputs itself, binds nothing and moves past itself; otherwise it
      fails recoverably at the cursor with itself as the only frame. */
  lemma RawMatches(g: Grammar, acts: Actions, lit: string, inp: Cursor, fuel: nat)
    ensures var r := Parse(g, acts, Raw(lit), inp, fuel);
            var here := inp.index + |lit| <= |inp.text| && inp.text[inp.index..inp.index + |lit|] == lit;
            && (r.Success? <==> here)
            && (r.Success? ==> r == Success(Str(lit), map[], Input(inp.text, inp.index + |lit|)))
            && (!r.Success? ==> r == Failure(inp, [Raw(lit)], false))
  {
    var rest := inp.text[inp.index..];
    PrefixAsSlice(lit, rest);
    if |lit| <= |rest| {
      assert rest[..|lit|] == inp.text[inp.index..inp.index + |lit|];
    }
  }

  /** A regular expression succeeds exactly when the matcher reports an
      anchored match within the rest of the text; the output is the matched
      text and the cursor moves past it. */
  lemma RegexMatches(g: Grammar, acts: Actions, pattern: string, inp: Cursor, fuel: nat)
    ensures var r := Parse(g, acts, Regex(pattern), inp, fuel);
            var m := acts.matchRegex(pattern, inp.text[inp.index..]);
            && (r.Success? <==> m.Some? && inp.index + m.value <= |inp.text|)
            && (r.Success? ==>
                  && r.output == Str(inp.text[inp.index..inp.index + m.value])
                  && r.bindings == map[]
                  && r.remaining == Input(inp.text, inp.index + m.value))
            && (!r.Success? ==> r == Failure(inp, [Regex(pattern)], false))
  {
    var rest := inp.text[inp.index..];
    var m := acts.matchRegex(pattern, rest);
    if m.Some? && m.value <= |rest| {
      assert rest[..m.value] == inp.text[inp.index..inp.index + m.value];
    }
  }

  /** `Succeed` consumes nothing and outputs its value; `Fail` fails
      recoverably where it stands, with itself as the only frame, which
      contributes no trace label. */
  lemma SucceedAndFail(g: Grammar, acts: Actions, v: Value, inp: Cursor, fuel: nat)
    ensures Parse(g, acts, Succeed(v), inp, fuel) == Success(v, map[], inp)
    ensures Parse(g, acts, Fail, inp, fuel) == Failure(inp, [Fail], false)
    ensures Trace(Parse(g, acts, Fail, inp, fuel).failed) == []
  {
    assert Trace([Fail]) == TraceName(Fail) + Trace([]);
  }

  /** `Full` succeeds exactly when its parser succeeds and consumes the whole
      text, with the parser's own result; trailing text becomes a recoverable
      failure at the point where the parser stopped, and the parser's own
      failures and aborts pass through untouched. */
  lemma FullRejectsTrailing(g: Grammar, acts: Actions, p: Parser, inp: Cursor, fuel: nat)
    ensures var r := Parse(g, acts, Full(p), inp, fuel);
            var c := Parse(g, acts, p, inp, fuel);
            && (r.Success? <==> c.Success? && c.remaining.index == |inp.text|)
            && (r.Success? ==> r == c)
            && (c.Success? && c.remaining.index < |inp.text| ==> r == Failure(c.remaining, [Full(p)], false))
            && (!c.Success? ==> r == c)
  {
  }

  /** `parse_string` is `parse_partial` required to consume the whole text. */
  lemma ParseStringIsWholePartial(g: Grammar, acts: Actions, p: Parser, text: string, fuel: nat)
    ensures var whole := ParseString(g, acts, p, text, fuel);
            var part := ParsePartial(g, acts, p, text, fuel);
            && (whole.Success? <==> part.Success? && part.remaining.index == |text|)
            && (whole.Success? ==> whole == part)
  {
    FullRejectsTrailing(g, acts, p, Input(text, 0), fuel);
  }

  /** Transform maps a success's output through the callable, keeping its
      bindings and cursor, and frames any failure with itself. */
  lemma TransformMaps(g: Grammar, acts: Actions, p: Parser, f: nat, inp: Cursor, fuel: nat)
    ensures var r := Parse(g, acts, Transform(p, f), inp, fuel);
            var c := Parse(g, acts, p, inp, fuel);
            && (r.Success? <==> c.Success?)
            && (c.Success? ==> r == c.(output := acts.apply(f, c.output)))
            && (!c.Success? ==> r == Wrap(Transform(p, f), c))
  {
  }

  /** Two transforms in a row apply their callables one after the other. */
  lemma TransformCompose(g: Grammar, acts: Actions, p: Parser, f1: nat, f2: nat, inp: Cursor, fuel: nat)
    ensures var r := Parse(g, acts, Transform(Transform(p, f1), f2), inp, fuel);
            var c := Parse(g, acts, p, inp, fuel);
            c.Success? ==> r == c.(output := acts.apply(f2, acts.apply(f1, c.output)))
  {
  }

  /** TransformBound hands the callable the success's bindings and hides
      them: the result binds nothing, whatever the parser bound. */
  lemma TransformBoundConsumes(g: Grammar, acts: Actions, p: Parser, f: nat, inp: Cursor, fuel: nat)
    ensures var r := Parse(g, acts, TransformBound(p, f), inp, fuel);
            var c := Parse(g, acts, p, inp, fuel);
            && (r.Success? <==> c.Success?)
            && (c.Success? ==> r == Success(acts.applyBound(f, c.bindings), map[], c.remaining))
            && (!c.Success? ==> r == Wrap(TransformBound(p, f), c))
  {
  }

  /** `bind_to`: a success additionally binds the name to its output,
      overriding any inner binding of the same name and keeping all others. */
  lemma BinderCaptures(g: Grammar, acts: Actions, p: Parser, name: string, inp: Cursor, fuel: nat)
    ensures var r := Parse(g, acts, BindTo(p, name), inp, fuel);
            var c := Parse(g, acts, p, inp, fuel);
            && (r.Success? <==> c.Success?)
            && (r.Success? ==>
                  && r.output == c.output && r.remaining == c.remaining
                  && name in r.bindings && r.bindings[name] == c.output
                  && r.bindings.Keys == c.bindings.Keys + {name}
                  && forall k :: k in c.bindings && k != name ==> r.bindings[k] == c.bindings[k])
            && (!c.Success? ==> r == Wrap(Binder(p, name), c))
  {
  }

  /** A rule reference stands for its rule's body one recursion level down:
      successes and aborts are the body's, and a failure keeps its cursor and
      fatal flag with the reference as its outermost frame, so the rule's name
      heads the failure's trace. Undefined rules and exhausted fuel abort. */
  lemma LazyDelegates(g: Grammar, acts: Actions, name: string, inp: Cursor, fuel: nat)
    ensures fuel == 0 ==> Parse(g, acts, Lazy(name), inp, fuel) == Aborted(OutOfFuel)
    ensures fuel > 0 && name !in g ==> Parse(g, acts, Lazy(name), inp, fuel) == Aborted(UndefinedRule(name))
    ensures fuel > 0 && name in g ==>
              var r := Parse(g, acts, Lazy(name), inp, fuel);
              var body := Parse(g, acts, g[name], inp, fuel - 1);
              && (!body.Failure? ==> r == body)
              && (body.Failure? ==>
                    && r.remaining == body.remaining && r.fatal == body.fatal
                    && r.failed == [Lazy(name)] + body.failed
                    && Trace(r.failed) == [name] + Trace(body.failed))
  {
    if fuel > 0 && name in g {
      var body := Parse(g, acts, g[name], inp, fuel - 1);
      if body.Failure? {
        var fl := [Lazy(name)] + body.failed;
        assert fl[1..] == body.failed;
      }
    }
  }

  /** Traces of concatenated frame lists concatenate. */
  lemma {:induction false} TraceAppend(a: seq<Parser>, b: seq<Parser>)
    ensures Trace(a + b) == Trace(a) + Trace(b)
  {
    if a != [] {
      assert (a + b)[1..] == a[1..] + b;
      TraceAppend(a[1..], b);
    } else {
      assert a + b == b;
    }
  }

  /** A trace lists exactly the rule names of the failure's Lazy frames,
      outermost first: each label comes from some rule reference among the
      frames, and each rule reference contributes its name. */
  lemma {:induction false} TraceNamesRules(failed: seq<Parser>)
    ensures forall x :: x in Trace(failed) ==> exists i :: 0 <= i < |failed| && failed[i] == Lazy(x)
    ensures forall i :: 0 <= i < |failed| && failed[i].Lazy? ==> failed[i].rule in Trace(failed)
  {
    if failed != [] {
      TraceNamesRules(failed[1..]);
      assert Trace(failed) == TraceName(failed[0]) + Trace(failed[1..]);
      forall x | x in Trace(failed)
        ensures exists i :: 0 <= i < |failed| && failed[i] == Lazy(x)
      {
        if x in Trace(failed[1..]) {
          var i :| 0 <= i < |failed[1..]| && failed[1..][i] == Lazy(x);
          assert failed[i + 1] == Lazy(x);
        } else {
          assert failed[0] == Lazy(x);
        }
      }
      forall i | 0 <= i < |failed| && failed[i].Lazy?
        ensures failed[i].rule in Trace(failed)
      {
        if i > 0 {
          assert failed[1..][i - 1] == failed[i];
        }
      }
    }
  }

  /** The corrected `parse` differs from macropy's `parse` only in the column it
      reports, and only where the failure sits on a newline character. */
  lemma CorrectedColumnOnly(g: Grammar, acts: Actions, p: Parser, text: string, fuel: nat)
    ensures var a := ParseText(g, acts, p, text, fuel);
            var b := ParseTextCorrected(g, acts, p, text, fuel);
            && (!a.Raised? ==> b == a)
            && (a.Raised? ==> b.Raised? && b.error == a.error.(column := Location.Column(text, a.error.index)))
            && (a.Raised? && (a.error.index == |text| || text[a.error.index] != '\n') ==> b == a)
  {
    var r := ParseString(g, acts, p, text, fuel);
    if r.Failure? && (r.remaining.index == |text| || text[r.remaining.index] != '\n') {
      Location.ColumnsAgreeOffNewline(text, r.remaining.index);
    }
  }
}
