/**
 * Fuel is only a bound on rule recursion, not part of the semantics: once a
 * parse finishes without running out of fuel, any larger amount of fuel
 * gives the very same result. So the model's answers are those of the
 * unbounded Python code wherever that code terminates on rule recursion.
 */
module Fuel {
  import opened Peg

  /** A result the recursion bound did not cut short. */
  predicate Finished(r: Result) {
    r != Aborted(OutOfFuel)
  }

  lemma {:induction false} FuelMonotone(g: Grammar, acts: Actions, p: Parser, inp: Cursor, f1: nat, f2: nat)
    requires f1 <= f2 && Finished(Parse(g, acts, p, inp, f1))
    ensures Parse(g, acts, p, inp, f2) == Parse(g, acts, p, inp, f1)
    decreases f1, p, 1, 0
  {
    match p
    case Full(q) => FuelMonotone(g, acts, q, inp, f1, f2);
    case Seq(_) => SeqLoopFuel(g, acts, p, 0, inp, false, [], map[], f1, f2);
    case Or(_) => OrLoopFuel(g, acts, p, 0, inp, f1, f2);
    case And(_) => AndLoopFuel(g, acts, p, 0, inp, [], f1, f2);
    case Not(q) => FuelMonotone(g, acts, q, inp, f1, f2);
    case Rep(_) => RepLoopFuel(g, acts, p, inp, [], map[], f1, f2);
    case RepN(_, _) => RepNLoopFuel(g, acts, p, 0, inp, [], map[], f1, f2);
    case Transform(q, _) => FuelMonotone(g, acts, q, inp, f1, f2);
    case TransformBound(q, _) => FuelMonotone(g, acts, q, inp, f1, f2);
    case Binder(q, _) => FuelMonotone(g, acts, q, inp, f1, f2);
    case Lazy(name) =>
      if name in g {
        FuelMonotone(g, acts, g[name], inp, f1 - 1, f2 - 1);
      }
    case Raw(_) =>
    case Regex(_) =>
    case Succeed(_) =>
    case Fail =>
  }

  lemma {:induction false} SeqLoopFuel(g: Grammar, acts: Actions, self: Parser, k: nat, cur: Cursor, committed: bool,
                                       results: seq<Value>, bindings: Bindings, f1: nat, f2: nat)
    requires self.Seq? && k <= |self.children|
    requires f1 <= f2 && Finished(SeqLoop(g, acts, self, k, cur, committed, results, bindings, f1))
    ensures SeqLoop(g, acts, self, k, cur, committed, results, bindings, f2)
         == SeqLoop(g, acts, self, k, cur, committed, results, bindings, f1)
    decreases f1, self, 0, |self.children| - k
  {
    if k < |self.children| {
      match self.children[k]
      case Cut =>
        SeqLoopFuel(g, acts, self, k + 1, cur, true, results, bindings, f1, f2);
      case Step(q) =>
        FuelMonotone(g, acts, q, cur, f1, f2);
        var res := Parse(g, acts, q, cur, f1);
        if res.Success? {
          SeqLoopFuel(g, acts, self, k + 1, res.remaining, committed, results + [res.output],
                      bindings + res.bindings, f1, f2);
        }
    }
  }

  lemma {:induction false} OrLoopFuel(g: Grammar, acts: Actions, self: Parser, k: nat, inp: Cursor, f1: nat, f2: nat)
    requires self.Or? && k <= |self.alternatives|
    requires f1 <= f2 && Finished(OrLoop(g, acts, self, k, inp, f1))
    ensures OrLoop(g, acts, self, k, inp, f2) == OrLoop(g, acts, self, k, inp, f1)
    decreases f1, self, 0, |self.alternatives| - k
  {
    if k < |self.alternatives| {
      FuelMonotone(g, acts, self.alternatives[k], inp, f1, f2);
      if Recoverable(Parse(g, acts, self.alternatives[k], inp, f1)) {
        OrLoopFuel(g, acts, self, k + 1, inp, f1, f2);
      }
    }
  }

  lemma {:induction false} AndLoopFuel(g: Grammar, acts: Actions, self: Parser, k: nat, inp: Cursor,
                                       results: seq<Result>, f1: nat, f2: nat)
    requires self.And? && k <= |self.conjuncts|
    requires forall i :: 0 <= i < |results| ==> Advances(inp, results[i]) && !results[i].Aborted?
    requires f1 <= f2 && Finished(AndLoop(g, acts, self, k, inp, results, f1))
    ensures AndLoop(g, acts, self, k, inp, results, f2) == AndLoop(g, acts, self, k, inp, results, f1)
    decreases f1, self, 0, |self.conjuncts| - k
  {
    if k < |self.conjuncts| {
      FuelMonotone(g, acts, self.conjuncts[k], inp, f1, f2);
      var res := Parse(g, acts, self.conjuncts[k], inp, f1);
      if !res.Aborted? {
        AndLoopFuel(g, acts, self, k + 1, inp, results + [res], f1, f2);
      }
    }
  }

  lemma {:induction false} RepLoopFuel(g: Grammar, acts: Actions, self: Parser, cur: Cursor,
                                       results: seq<Value>, acc: map<string, seq<Value>>, f1: nat, f2: nat)
    requires self.Rep?
    requires f1 <= f2 && Finished(RepLoop(g, acts, self, cur, results, acc, f1))
    ensures RepLoop(g, acts, self, cur, results, acc, f2) == RepLoop(g, acts, self, cur, results, acc, f1)
    decreases f1, self, 0, |cur.text| - cur.index
  {
    FuelMonotone(g, acts, self.parser, cur, f1, f2);
    var res := Parse(g, acts, self.parser, cur, f1);
    if res.Success? && res.remaining.index != cur.index {
      RepLoopFuel(g, acts, self, res.remaining, results + [res.output], Accumulate(acc, res.bindings), f1, f2);
    }
  }

  lemma {:induction false} RepNLoopFuel(g: Grammar, acts: Actions, self: Parser, i: nat, cur: Cursor,
                                        results: seq<Value>, acc: map<string, seq<Value>>, f1: nat, f2: nat)
    requires self.RepN?
    requires f1 <= f2 && Finished(RepNLoop(g, acts, self, i, cur, results, acc, f1))
    ensures RepNLoop(g, acts, self, i, cur, results, acc, f2) == RepNLoop(g, acts, self, i, cur, results, acc, f1)
    decreases f1, self, 0, if i < self.n then self.n - i else 0
  {
    if i < self.n {
      FuelMonotone(g, acts, self.parser, cur, f1, f2);
      var res := Parse(g, acts, self.parser, cur, f1);
      if res.Success? {
        RepNLoopFuel(g, acts, self, i + 1, res.remaining, results + [res.output], Accumulate(acc, res.bindings), f1, f2);
      }
    }
  }

  /** The answer of `parse` does not depend on the recursion bound once it
      is large enough to finish. */
  lemma ParseTextFuel(g: Grammar, acts: Actions, p: Parser, text: string, f1: nat, f2: nat)
    requires f1 <= f2 && ParseText(g, acts, p, text, f1) != Crashed(OutOfFuel)
    ensures ParseText(g, acts, p, text, f2) == ParseText(g, acts, p, text, f1)
  {
    FuelMonotone(g, acts, Full(p), Input(text, 0), f1, f2);
  }
}
