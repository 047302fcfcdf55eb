/**
 * The engine as macropy's code runs it: `parse_input` with the loops of Seq,
 * Or, And, Rep and RepN written as loops over mutable locals (the running
 * cursor, the output list, the binding dictionary, the `committed` flag).
 * Each method is proved to compute exactly the reference interpreter
 * `Peg.Parse`, so every law proved about `Parse` holds of the engine.
 */
module Engine {
  import opened Peg

  /** `parse_input` of any parser variant. */
  method ParseInput(g: Grammar, acts: Actions, p: Parser, inp: Cursor, fuel: nat) returns (r: Result)
    ensures r == Parse(g, acts, p, inp, fuel)
    decreases fuel, p, 1, 0
  {
    match p {
      case Full(q) =>
        var res := ParseInput(g, acts, q, inp, fuel);
        if res.Success? && res.remaining.index < |inp.text| {
          r := Failure(res.remaining, [p], false);
        } else {
          r := res;
        }
      case Seq(_) =>
        r := ParseSeq(g, acts, p, inp, fuel);
      case Or(_) =>
        r := ParseOr(g, acts, p, inp, fuel);
      case And(_) =>
        r := ParseAnd(g, acts, p, inp, fuel);
      case Not(q) =>
        var res := ParseInput(g, acts, q, inp, fuel);
        if res.Success? {
          r := Failure(inp, [p], false);
        } else if res.Failure? {
          r := Success(NoValue, map[], inp);
        } else {
          r := res;
        }
      case Rep(_) =>
        r := ParseRep(g, acts, p, inp, fuel);
      case RepN(_, _) =>
        r := ParseRepN(g, acts, p, inp, fuel);
      case Transform(q, f) =>
        r := ParseInput(g, acts, q, inp, fuel);
        if r.Success? {
          r := r.(output := acts.apply(f, r.output));
        } else {
          r := Wrap(p, r);
        }
      case TransformBound(q, f) =>
        r := ParseInput(g, acts, q, inp, fuel);
        if r.Success? {
          r := r.(output := acts.applyBound(f, r.bindings), bindings := map[]);
        } else {
          r := Wrap(p, r);
        }
      case Binder(q, name) =>
        r := ParseInput(g, acts, q, inp, fuel);
        if r.Success? {
          r := r.(bindings := r.bindings[name := r.output]);
        } else {
          r := Wrap(p, r);
        }
      case Lazy(name) =>
        if fuel == 0 {
          r := Aborted(OutOfFuel);
        } else if name !in g {
          r := Aborted(UndefinedRule(name));
        } else {
          r := ParseInput(g, acts, g[name], inp, fuel - 1);
          r := Wrap(p, r);
        }
      case _ =>
        // Raw, Regex, Succeed and Fail are single expressions.
        r := Parse(g, acts, p, inp, fuel);
    }
  }

  /** Seq: thread the cursor through the children, collecting outputs and
      overwriting bindings; a cut commits the rest of the sequence. */
  method ParseSeq(g: Grammar, acts: Actions, self: Parser, inp: Cursor, fuel: nat) returns (r: Result)
    requires self.Seq?
    ensures r == Parse(g, acts, self, inp, fuel)
    decreases fuel, self, 0, 0
  {
    var current := inp;
    var results: seq<Value> := [];
    var resultDict: Bindings := map[];
    var committed := false;
    for k := 0 to |self.children|
      invariant SeqLoop(g, acts, self, k, current, committed, results, resultDict, fuel)
                == Parse(g, acts, self, inp, fuel)
    {
      match self.children[k] {
        case Cut =>
          committed := true;
        case Step(child) =>
          var res := ParseInput(g, acts, child, current, fuel);
          if res.Aborted? {
            return res;
          }
          if res.Failure? {
            if committed || res.fatal {
              return Failure(res.remaining, [self] + res.failed, true);
            }
            return res;
          }
          current := res.remaining;
          results := results + [res.output];
          resultDict := resultDict + res.bindings;
      }
    }
    r := Success(List(results), resultDict, current);
  }

  /** Or: try each alternative on the choice's own input. */
  method ParseOr(g: Grammar, acts: Actions, self: Parser, inp: Cursor, fuel: nat) returns (r: Result)
    requires self.Or?
    ensures r == Parse(g, acts, self, inp, fuel)
    decreases fuel, self, 0, 0
  {
    for k := 0 to |self.alternatives|
      invariant OrLoop(g, acts, self, k, inp, fuel) == Parse(g, acts, self, inp, fuel)
    {
      var res := ParseInput(g, acts, self.alternatives[k], inp, fuel);
      if res.Success? || res.Aborted? {
        return res;
      }
      if res.fatal {
        return Wrap(self, res);
      }
    }
    r := Failure(inp, [self], false);
  }

  /** And: run every conjunct on the same input, then pick the first
      failure, or the first result when nothing failed. */
  method ParseAnd(g: Grammar, acts: Actions, self: Parser, inp: Cursor, fuel: nat) returns (r: Result)
    requires self.And?
    ensures r == Parse(g, acts, self, inp, fuel)
    decreases fuel, self, 0, 0
  {
    var results: seq<Result> := [];
    for k := 0 to |self.conjuncts|
      invariant forall i :: 0 <= i < |results| ==> Advances(inp, results[i]) && !results[i].Aborted?
      invariant AndLoop(g, acts, self, k, inp, results, fuel) == Parse(g, acts, self, inp, fuel)
    {
      var res := ParseInput(g, acts, self.conjuncts[k], inp, fuel);
      if res.Aborted? {
        return res;
      }
      results := results + [res];
    }
    var j := 0;
    while j < |results| && !results[j].Failure?
      invariant j <= |results|
      invariant FailureFreeBefore(results, j)
    {
      j := j + 1;
    }
    assert Parse(g, acts, self, inp, fuel) == Conjoin(self, results) by {
      assert AndLoop(g, acts, self, |self.conjuncts|, inp, results, fuel) == Conjoin(self, results);
    }
    if j < |results| {
      r := Wrap(self, results[j]);
    } else if results == [] {
      r := Aborted(EmptyConjunction);
    } else {
      r := results[0];
    }
  }

  /** Rep: apply the child until it fails, accumulating each binding name's
      values into a list. */
  method ParseRep(g: Grammar, acts: Actions, self: Parser, inp: Cursor, fuel: nat) returns (r: Result)
    requires self.Rep?
    ensures r == Parse(g, acts, self, inp, fuel)
    decreases fuel, self, 0, 0
  {
    var current := inp;
    var results: seq<Value> := [];
    var resultDict: map<string, seq<Value>> := map[];
    while true
      invariant RepLoop(g, acts, self, current, results, resultDict, fuel) == Parse(g, acts, self, inp, fuel)
      decreases |current.text| - current.index
    {
      var res := ParseInput(g, acts, self.parser, current, fuel);
      if res.Aborted? {
        return res;
      }
      if res.Failure? {
        if res.fatal {
          return Wrap(self, res);
        }
        return Success(List(results), AsLists(resultDict), current);
      }
      if res.remaining.index == current.index {
        // macropy's loop would now repeat this very step forever
        return Aborted(NoProgress);
      }
      current := res.remaining;
      resultDict := Accumulate(resultDict, res.bindings);
      results := results + [res.output];
    }
  }

  /** RepN: exactly `n` applications of the child. */
  method ParseRepN(g: Grammar, acts: Actions, self: Parser, inp: Cursor, fuel: nat) returns (r: Result)
    requires self.RepN?
    ensures r == Parse(g, acts, self, inp, fuel)
    decreases fuel, self, 0, 0
  {
    var current := inp;
    var results: seq<Value> := [];
    var resultDict: map<string, seq<Value>> := map[];
    var i := 0;
    while i < self.n
      invariant RepNLoop(g, acts, self, i, current, results, resultDict, fuel) == Parse(g, acts, self, inp, fuel)
      decreases self.n - i
    {
      var res := ParseInput(g, acts, self.parser, current, fuel);
      if !res.Success? {
        return Wrap(self, res);
      }
      current := res.remaining;
      resultDict := Accumulate(resultDict, res.bindings);
      results := results + [res.output];
      i := i + 1;
    }
    r := Success(List(results), AsLists(resultDict), current);
  }
}
