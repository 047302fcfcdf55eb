/**
 * Laws of ordered choice (`Or`), conjunction (`And`) and negative
 * lookahead (`Not`), and of the `opt` builder made from them.
 */
module Choice {
  import opened Peg

  /** The alternatives before `j` all fail recoverably at `inp`. */
  predicate AllRecoverable(g: Grammar, acts: Actions, alts: seq<Parser>, inp: Cursor, fuel: nat, j: nat)
    requires j <= |alts|
  {
    forall i :: 0 <= i < j ==> Recoverable(Parse(g, acts, alts[i], inp, fuel))
  }

  /** Recoverable failures are skipped: the loop moves past them unchanged. */
  lemma {:induction false} OrSkipsRecoverable(g: Grammar, acts: Actions, self: Parser, k: nat, j: nat,
                                              inp: Cursor, fuel: nat)
    requires self.Or? && k <= j <= |self.alternatives|
    requires forall i :: k <= i < j ==> Recoverable(Parse(g, acts, self.alternatives[i], inp, fuel))
    ensures OrLoop(g, acts, self, k, inp, fuel) == OrLoop(g, acts, self, j, inp, fuel)
    decreases j - k
  {
    if k < j {
      OrSkipsRecoverable(g, acts, self, k + 1, j, inp, fuel);
    }
  }

  /** Ordered choice: the first alternative that does not fail recoverably
      decides. A success (or abort) is returned unchanged; a fatal failure
      stops the search and is returned with the choice prepended. */
  lemma OrFirstDecisive(g: Grammar, acts: Actions, alts: seq<Parser>, inp: Cursor, fuel: nat, j: nat)
    requires j < |alts| && AllRecoverable(g, acts, alts, inp, fuel, j)
    requires !Recoverable(Parse(g, acts, alts[j], inp, fuel))
    ensures Parse(g, acts, Or(alts), inp, fuel) == Wrap(Or(alts), Parse(g, acts, alts[j], inp, fuel))
  {
    OrSkipsRecoverable(g, acts, Or(alts), 0, j, inp, fuel);
  }

  /** When the loop from `k` fails recoverably, so did every alternative from `k` on. */
  lemma {:induction false} OrRecoverableOnlyIfAll(g: Grammar, acts: Actions, self: Parser, k: nat, inp: Cursor, fuel: nat)
    requires self.Or? && k <= |self.alternatives|
    requires Recoverable(OrLoop(g, acts, self, k, inp, fuel))
    ensures forall i :: k <= i < |self.alternatives| ==> Recoverable(Parse(g, acts, self.alternatives[i], inp, fuel))
    ensures OrLoop(g, acts, self, k, inp, fuel) == Failure(inp, [self], false)
    decreases |self.alternatives| - k
  {
    if k < |self.alternatives| {
      OrRecoverableOnlyIfAll(g, acts, self, k + 1, inp, fuel);
    }
  }

  /** A choice fails recoverably exactly when every alternative does, and
      then it reports a fresh failure at its own input with itself as the
      only frame, forgetting the alternatives' traces. */
  lemma OrAllFail(g: Grammar, acts: Actions, alts: seq<Parser>, inp: Cursor, fuel: nat)
    ensures var r := Parse(g, acts, Or(alts), inp, fuel);
            && (Recoverable(r) <==> AllRecoverable(g, acts, alts, inp, fuel, |alts|))
            && (Recoverable(r) ==> r == Failure(inp, [Or(alts)], false))
  {
    if AllRecoverable(g, acts, alts, inp, fuel, |alts|) {
      OrSkipsRecoverable(g, acts, Or(alts), 0, |alts|, inp, fuel);
    }
    if Recoverable(Parse(g, acts, Or(alts), inp, fuel)) {
      OrRecoverableOnlyIfAll(g, acts, Or(alts), 0, inp, fuel);
    }
  }

  /** The results of running every parser of `ps` on the same input. */
  function Outcomes(g: Grammar, acts: Actions, ps: seq<Parser>, inp: Cursor, fuel: nat): (rs: seq<Result>)
    ensures |rs| == |ps|
  {
    if ps == [] then [] else [Parse(g, acts, ps[0], inp, fuel)] + Outcomes(g, acts, ps[1..], inp, fuel)
  }

  lemma {:induction false} OutcomesAt(g: Grammar, acts: Actions, ps: seq<Parser>, inp: Cursor, fuel: nat, i: nat)
    requires i < |ps|
    ensures Outcomes(g, acts, ps, inp, fuel)[i] == Parse(g, acts, ps[i], inp, fuel)
  {
    if i > 0 {
      OutcomesAt(g, acts, ps[1..], inp, fuel, i - 1);
    }
  }

  lemma OutcomesSuffix(g: Grammar, acts: Actions, ps: seq<Parser>, k: nat, inp: Cursor, fuel: nat)
    requires k < |ps|
    ensures Outcomes(g, acts, ps[k..], inp, fuel)
         == [Parse(g, acts, ps[k], inp, fuel)] + Outcomes(g, acts, ps[k + 1..], inp, fuel)
  {
    assert ps[k..][1..] == ps[k + 1..];
  }

  lemma {:induction false} FirstFailureAt(results: seq<Result>, j: nat)
    requires j <= |results| && forall i :: 0 <= i < j ==> !results[i].Failure?
    requires j < |results| ==> results[j].Failure?
    ensures FirstFailure(results) == j
  {
    if j > 0 {
      FirstFailureAt(results[1..], j - 1);
    }
  }

  /** Without aborts, And's loop ends in `Conjoin` of all results. */
  lemma {:induction false} AndLoopConjoins(g: Grammar, acts: Actions, self: Parser, k: nat, inp: Cursor,
                                           results: seq<Result>, fuel: nat)
    requires self.And? && k <= |self.conjuncts|
    requires forall i :: 0 <= i < |results| ==> Advances(inp, results[i]) && !results[i].Aborted?
    requires forall i :: k <= i < |self.conjuncts| ==> !Parse(g, acts, self.conjuncts[i], inp, fuel).Aborted?
    ensures AndLoop(g, acts, self, k, inp, results, fuel)
         == Conjoin(self, results + Outcomes(g, acts, self.conjuncts[k..], inp, fuel))
    decreases |self.conjuncts| - k
  {
    var cs := self.conjuncts;
    if k == |cs| {
      assert results + Outcomes(g, acts, self.conjuncts[k..], inp, fuel) == results;
    } else {
      var res := Parse(g, acts, cs[k], inp, fuel);
      assert !res.Aborted? && Advances(inp, res);
      assert AndLoop(g, acts, self, k, inp, results, fuel) == AndLoop(g, acts, self, k + 1, inp, results + [res], fuel);
      AndLoopConjoins(g, acts, self, k + 1, inp, results + [res], fuel);
      OutcomesSuffix(g, acts, cs, k, inp, fuel);
      assert results + [res] + Outcomes(g, acts, cs[k + 1..], inp, fuel)
          == results + Outcomes(g, acts, cs[k..], inp, fuel);
    }
  }

  /** Without aborts, a conjunction chooses among the results of all its
      conjuncts on the same input. */
  lemma AndIsConjoin(g: Grammar, acts: Actions, cs: seq<Parser>, inp: Cursor, fuel: nat)
    requires forall i :: 0 <= i < |cs| ==> !Parse(g, acts, cs[i], inp, fuel).Aborted?
    ensures Parse(g, acts, And(cs), inp, fuel) == Conjoin(And(cs), Outcomes(g, acts, cs, inp, fuel))
  {
    var self := And(cs);
    assert Parse(g, acts, self, inp, fuel) == AndLoop(g, acts, self, 0, inp, [], fuel);
    AndLoopConjoins(g, acts, self, 0, inp, [], fuel);
    assert cs[0..] == cs;
    assert [] + Outcomes(g, acts, cs, inp, fuel) == Outcomes(g, acts, cs, inp, fuel);
  }

  lemma ConjoinAt(self: Parser, results: seq<Result>, j: nat)
    requires j <= |results| && forall i :: 0 <= i < j ==> !results[i].Failure?
    requires j < |results| ==> results[j].Failure?
    ensures j < |results| ==> Conjoin(self, results) == Wrap(self, results[j])
    ensures j == |results| && results != [] ==> Conjoin(self, results) == results[0]
    ensures results == [] ==> Conjoin(self, results) == Aborted(EmptyConjunction)
  {
    FirstFailureAt(results, j);
  }

  /** Conjunction, when no conjunct aborts: every conjunct runs on the same
      input; if all succeed the answer is the first conjunct's result, and
      otherwise it is the first failure with the conjunction prepended. */
  lemma AndFirstFailure(g: Grammar, acts: Actions, cs: seq<Parser>, inp: Cursor, fuel: nat, j: nat)
    requires forall i :: 0 <= i < |cs| ==> !Parse(g, acts, cs[i], inp, fuel).Aborted?
    requires j <= |cs| && forall i :: 0 <= i < j ==> Parse(g, acts, cs[i], inp, fuel).Success?
    requires j < |cs| ==> Parse(g, acts, cs[j], inp, fuel).Failure?
    ensures j == |cs| && cs != [] ==> Parse(g, acts, And(cs), inp, fuel) == Parse(g, acts, cs[0], inp, fuel)
    ensures j < |cs| ==> Parse(g, acts, And(cs), inp, fuel) == Wrap(And(cs), Parse(g, acts, cs[j], inp, fuel))
    ensures cs == [] ==> Parse(g, acts, And(cs), inp, fuel) == Aborted(EmptyConjunction)
  {
    AndIsConjoin(g, acts, cs, inp, fuel);
    var all := Outcomes(g, acts, cs, inp, fuel);
    forall i | 0 <= i < |cs|
      ensures all[i] == Parse(g, acts, cs[i], inp, fuel)
    {
      OutcomesAt(g, acts, cs, inp, fuel, i);
    }
    ConjoinAt(And(cs), all, j);
  }

  /** The first conjunct to abort decides, even after an earlier failure:
      all conjuncts are evaluated before any failure is reported. */
  lemma {:induction false} AndLoopFirstAbort(g: Grammar, acts: Actions, self: Parser, k: nat, inp: Cursor,
                                             results: seq<Result>, fuel: nat, j: nat)
    requires self.And? && k <= j < |self.conjuncts|
    requires forall i :: 0 <= i < |results| ==> Advances(inp, results[i]) && !results[i].Aborted?
    requires forall i :: k <= i < j ==> !Parse(g, acts, self.conjuncts[i], inp, fuel).Aborted?
    requires Parse(g, acts, self.conjuncts[j], inp, fuel).Aborted?
    ensures AndLoop(g, acts, self, k, inp, results, fuel) == Parse(g, acts, self.conjuncts[j], inp, fuel)
    decreases j - k
  {
    if k < j {
      AndLoopFirstAbort(g, acts, self, k + 1, inp, results + [Parse(g, acts, self.conjuncts[k], inp, fuel)], fuel, j);
    }
  }

  lemma AndFirstAbort(g: Grammar, acts: Actions, cs: seq<Parser>, inp: Cursor, fuel: nat, j: nat)
    requires j < |cs| && forall i :: 0 <= i < j ==> !Parse(g, acts, cs[i], inp, fuel).Aborted?
    requires Parse(g, acts, cs[j], inp, fuel).Aborted?
    ensures Parse(g, acts, And(cs), inp, fuel) == Parse(g, acts, cs[j], inp, fuel)
  {
    AndLoopFirstAbort(g, acts, And(cs), 0, inp, [], fuel, j);
  }

  /** Conjoining a parser with itself changes nothing but the failure frames:
      it succeeds exactly when the parser does, with the identical result. */
  lemma AndIdempotent(g: Grammar, acts: Actions, p: Parser, inp: Cursor, fuel: nat)
    ensures Parse(g, acts, And([p, p]), inp, fuel) == Wrap(And([p, p]), Parse(g, acts, p, inp, fuel))
  {
    var r := Parse(g, acts, p, inp, fuel);
    if r.Aborted? {
      AndFirstAbort(g, acts, [p, p], inp, fuel, 0);
    } else if r.Success? {
      AndFirstFailure(g, acts, [p, p], inp, fuel, 2);
    } else {
      AndFirstFailure(g, acts, [p, p], inp, fuel, 0);
    }
  }

  /** Negative lookahead never moves the cursor; it succeeds, with no output
      and no bindings, exactly when its parser fails (even fatally), and
      fails recoverably, with itself as the only frame, exactly when its
      parser succeeds. */
  lemma NotZeroWidth(g: Grammar, acts: Actions, p: Parser, inp: Cursor, fuel: nat)
    ensures var r := Parse(g, acts, Not(p), inp, fuel);
            var c := Parse(g, acts, p, inp, fuel);
            && (!r.Aborted? ==> r.remaining == inp)
            && (r.Success? <==> c.Failure?)
            && (r.Success? ==> r.output == NoValue && r.bindings == map[])
            && (r.Failure? <==> c.Success?)
            && (r.Failure? ==> r.failed == [Not(p)] && !r.fatal)
            && (r.Aborted? <==> c.Aborted?)
  {
  }

  /** `opt`: an optional parser never fails recoverably; where its parser
      fails recoverably it matches the empty string in place, and otherwise
      it is its parser's answer (a fatal failure under its own frame). */
  lemma OptNeverRecoverable(g: Grammar, acts: Actions, p: Parser, inp: Cursor, fuel: nat)
    ensures var r := Parse(g, acts, Opt(p), inp, fuel);
            && !Recoverable(r)
            && (Recoverable(Parse(g, acts, p, inp, fuel)) ==> r == Success(Str(""), map[], inp))
    ensures var c := Parse(g, acts, p, inp, fuel);
            !Recoverable(c) ==> Parse(g, acts, Opt(p), inp, fuel) == Wrap(Opt(p), c)
  {
    var c := Parse(g, acts, p, inp, fuel);
    if Recoverable(c) {
      assert "" <= inp.text[inp.index..];
      OrFirstDecisive(g, acts, [p, Raw("")], inp, fuel, 1);
    } else {
      OrFirstDecisive(g, acts, [p, Raw("")], inp, fuel, 0);
    }
  }
}
