/**
 * Laws of repetition: zero-or-more (`Rep`), exactly-n (`RepN`) and the
 * one-or-more builder `rep1`, including how each binding name collects the
 * list of its values across iterations.
 */
module Repetition {
  import opened Peg
  import Sequencing
  import Choice

  /** The values a returned binding holds under `k`, if it is a list. */
  function ItemsOf(b: Bindings, k: string): seq<Value> {
    if k in b && b[k].List? then b[k].items else []
  }

  /** Per-name concatenation of two accumulations. */
  function Concat(a: map<string, seq<Value>>, b: map<string, seq<Value>>): map<string, seq<Value>> {
    map k | k in a.Keys + b.Keys :: Get(a, k) + Get(b, k)
  }

  /** Earlier iterations' lists `acc` in front of the lists of a later result. */
  function Extend(acc: map<string, seq<Value>>, b: Bindings): Bindings {
    map k | k in acc.Keys + b.Keys :: List(Get(acc, k) + ItemsOf(b, k))
  }

  /** A repetition's result with earlier iterations' outputs and binding
      lists put in front; failures and aborts are left as they are. */
  function Prefixed(r: Result, results: seq<Value>, acc: map<string, seq<Value>>): Result {
    if r.Success? && r.output.List? then
      Success(List(results + r.output.items), Extend(acc, r.bindings), r.remaining)
    else r
  }


  lemma ExtendNothing(acc: map<string, seq<Value>>)
    ensures Extend(acc, AsLists(map[])) == AsLists(acc)
  {
    var e, a := Extend(acc, AsLists(map[])), AsLists(acc);
    forall k | k in e ensures e[k] == a[k] {
      assert ItemsOf(AsLists(map[]), k) == [];
      assert acc[k] + [] == acc[k] && [] + acc[k] == acc[k];
    }
    assert e == a;
  }

  /** What one iteration adds to the list under `k`. */
  function Added(b: Bindings, k: string): seq<Value> {
    if k in b then [b[k]] else []
  }

  lemma AccumulateAt(acc: map<string, seq<Value>>, b: Bindings, k: string)
    ensures k in Accumulate(acc, b) <==> k in acc || k in b
    ensures Get(Accumulate(acc, b), k) == Get(acc, k) + Added(b, k)
  {
    assert Get(acc, k) + [] == Get(acc, k) && [] + Get(acc, k) == Get(acc, k);
    assert Added(b, k) + [] == Added(b, k) && [] + Added(b, k) == Added(b, k);
  }

  lemma AccumulateIsConcat(acc: map<string, seq<Value>>, b: Bindings)
    ensures Accumulate(acc, b) == Concat(acc, Accumulate(map[], b))
  {
    var x, y := Accumulate(acc, b), Concat(acc, Accumulate(map[], b));
    forall k ensures (k in x <==> k in y) && (k in x ==> x[k] == y[k]) {
      AccumulateAt(acc, b, k);
      AccumulateAt(map[], b, k);
      GetConcat(acc, Accumulate(map[], b), k);
      assert Added(b, k) + [] == Added(b, k) && [] + Added(b, k) == Added(b, k);
    }
    assert x == y;
  }

  lemma GetConcat(a: map<string, seq<Value>>, b: map<string, seq<Value>>, k: string)
    ensures k in Concat(a, b) <==> k in a || k in b
    ensures Get(Concat(a, b), k) == Get(a, k) + Get(b, k)
  {
    if k !in a && k !in b {
      assert k !in Concat(a, b);
    }
  }

  lemma ExtendAt(acc: map<string, seq<Value>>, b: Bindings, k: string)
    ensures k in Extend(acc, b) <==> k in acc || k in b
    ensures k in Extend(acc, b) ==> Extend(acc, b)[k] == List(Get(acc, k) + ItemsOf(b, k))
    ensures ItemsOf(Extend(acc, b), k) == Get(acc, k) + ItemsOf(b, k)
  {
  }

  lemma ConcatThenExtendAt(a2: map<string, seq<Value>>, a1: map<string, seq<Value>>, b: Bindings, k: string)
    requires k in Extend(Concat(a2, a1), b)
    ensures k in a2 || k in a1 || k in b
    ensures Extend(Concat(a2, a1), b)[k] == List((Get(a2, k) + Get(a1, k)) + ItemsOf(b, k))
  {
    GetConcat(a2, a1, k);
    ExtendAt(Concat(a2, a1), b, k);
  }

  lemma ExtendTwiceAt(a2: map<string, seq<Value>>, a1: map<string, seq<Value>>, b: Bindings, k: string)
    requires k in a2 || k in a1 || k in b
    ensures k in Extend(a2, Extend(a1, b))
    ensures Extend(a2, Extend(a1, b))[k] == List(Get(a2, k) + (Get(a1, k) + ItemsOf(b, k)))
  {
    ExtendAt(a1, b, k);
    ExtendAt(a2, Extend(a1, b), k);
  }

  lemma ExtendConcatAt(a2: map<string, seq<Value>>, a1: map<string, seq<Value>>, b: Bindings, k: string)
    requires k in Extend(Concat(a2, a1), b)
    ensures k in Extend(a2, Extend(a1, b))
    ensures Extend(Concat(a2, a1), b)[k] == Extend(a2, Extend(a1, b))[k]
  {
    ConcatThenExtendAt(a2, a1, b, k);
    ExtendTwiceAt(a2, a1, b, k);
    ListAssociative(Get(a2, k), Get(a1, k), ItemsOf(b, k));
  }

  lemma ListAssociative(x: seq<Value>, y: seq<Value>, z: seq<Value>)
    ensures List((x + y) + z) == List(x + (y + z))
  {
    assert (x + y) + z == x + (y + z);
  }

  lemma ExtendConcat(a2: map<string, seq<Value>>, a1: map<string, seq<Value>>, b: Bindings)
    ensures Extend(Concat(a2, a1), b) == Extend(a2, Extend(a1, b))
  {
    var x, y := Extend(Concat(a2, a1), b), Extend(a2, Extend(a1, b));
    forall k | k in x ensures k in y && x[k] == y[k] {
      ExtendConcatAt(a2, a1, b, k);
    }
    assert x.Keys <= y.Keys;
    assert y.Keys <= x.Keys;
    assert x == y;
  }

  lemma PrefixedTwice(x: Result, r1: seq<Value>, a1: map<string, seq<Value>>, r2: seq<Value>, a2: map<string, seq<Value>>)
    ensures Prefixed(Prefixed(x, r1, a1), r2, a2) == Prefixed(x, r2 + r1, Concat(a2, a1))
  {
    if x.Success? && x.output.List? {
      assert (r2 + r1) + x.output.items == r2 + (r1 + x.output.items);
      ExtendConcat(a2, a1, x.bindings);
    }
  }

  /** Rep's loop with outputs and binding lists already gathered is the
      loop started afresh, with those put in front. */
  lemma {:induction false} RepLoopPrefixed(g: Grammar, acts: Actions, self: Parser, cur: Cursor,
                                           results: seq<Value>, acc: map<string, seq<Value>>, fuel: nat)
    requires self.Rep?
    ensures RepLoop(g, acts, self, cur, results, acc, fuel)
         == Prefixed(RepLoop(g, acts, self, cur, [], map[], fuel), results, acc)
    decreases |cur.text| - cur.index
  {
    match Parse(g, acts, self.parser, cur, fuel)
    case Aborted(_) =>
    case Failure(_, _, fatal) =>
      if !fatal {
        ExtendNothing(acc);
        assert results + [] == results;
      }
    case Success(o, b, c) =>
      if c.index != cur.index {
        var again := RepLoop(g, acts, self, c, [], map[], fuel);
        RepLoopPrefixed(g, acts, self, c, results + [o], Accumulate(acc, b), fuel);
        RepLoopPrefixed(g, acts, self, c, [o], Accumulate(map[], b), fuel);
        assert [] + [o] == [o];
        assert Accumulate(map[], b) == Accumulate(map[], b);
        PrefixedTwice(again, [o], Accumulate(map[], b), results, acc);
        AccumulateIsConcat(acc, b);
      }
  }

  /** Unfolding `Rep(p)` into `p Rep(p)`: after a first iteration that
      consumes input, the repetition is the repetition from where that
      iteration stopped, with the iteration's output put in front of the
      output list and each of its bindings in front of that name's list. */
  lemma RepUnfold(g: Grammar, acts: Actions, p: Parser, inp: Cursor, fuel: nat)
    requires Parse(g, acts, p, inp, fuel).Success?
    requires Parse(g, acts, p, inp, fuel).remaining.index > inp.index
    ensures var first := Parse(g, acts, p, inp, fuel);
            Parse(g, acts, Rep(p), inp, fuel)
              == Prefixed(Parse(g, acts, Rep(p), first.remaining, fuel), [first.output], Accumulate(map[], first.bindings))
  {
    var first := Parse(g, acts, p, inp, fuel);
    var results, acc := [first.output], Accumulate(map[], first.bindings);
    assert Parse(g, acts, Rep(p), inp, fuel) == RepLoop(g, acts, Rep(p), first.remaining, results, acc, fuel) by {
      assert [] + [first.output] == results;
    }
    RepLoopPrefixed(g, acts, Rep(p), first.remaining, results, acc, fuel);
  }

  /** Zero iterations are a success: where the child fails recoverably the
      repetition matches nothing, with an empty list and no bindings. */
  lemma RepZero(g: Grammar, acts: Actions, p: Parser, inp: Cursor, fuel: nat)
    requires Recoverable(Parse(g, acts, p, inp, fuel))
    ensures Parse(g, acts, Rep(p), inp, fuel) == Success(List([]), map[], inp)
  {
    assert AsLists(map[]) == map[];
  }

  /** A child that succeeds without consuming input makes the repetition
      run forever. */
  lemma RepNoProgress(g: Grammar, acts: Actions, p: Parser, inp: Cursor, fuel: nat)
    requires Parse(g, acts, p, inp, fuel).Success?
    requires Parse(g, acts, p, inp, fuel).remaining.index == inp.index
    ensures Parse(g, acts, Rep(p), inp, fuel) == Aborted(NoProgress)
  {
  }

  lemma {:induction false} RepLoopShape(g: Grammar, acts: Actions, self: Parser, cur: Cursor,
                                        results: seq<Value>, acc: map<string, seq<Value>>, fuel: nat)
    requires self.Rep?
    ensures var r := RepLoop(g, acts, self, cur, results, acc, fuel);
            && (r.Failure? ==> r.fatal && r.failed != [] && r.failed[0] == self)
            && (r.Success? ==> r.output.List? && forall k :: k in r.bindings ==> r.bindings[k].List?)
    decreases |cur.text| - cur.index
  {
    var res := Parse(g, acts, self.parser, cur, fuel);
    if res.Success? && res.remaining.index != cur.index {
      RepLoopShape(g, acts, self, res.remaining, results + [res.output], Accumulate(acc, res.bindings), fuel);
    }
  }

  /** A repetition never fails recoverably: its only failures are fatal
      failures of the child, with the repetition prepended; its successes
      output a list and bind every name to a list. A first iteration that
      fails fatally or aborts is the repetition's answer, a failure kept at
      the child's cursor with the repetition ahead of the child's frames.
      (Later iterations reduce to this case through `RepUnfold`.) */
  lemma RepShape(g: Grammar, acts: Actions, p: Parser, inp: Cursor, fuel: nat)
    ensures var r := Parse(g, acts, Rep(p), inp, fuel);
            && !Recoverable(r)
            && (r.Failure? ==> r.fatal && r.failed != [] && r.failed[0] == Rep(p))
            && (r.Success? ==> r.output.List? && forall k :: k in r.bindings ==> r.bindings[k].List?)
    ensures var first := Parse(g, acts, p, inp, fuel);
            first.Aborted? || (first.Failure? && first.fatal) ==>
              Parse(g, acts, Rep(p), inp, fuel) == Wrap(Rep(p), first)
  {
    assert Parse(g, acts, Rep(p), inp, fuel) == RepLoop(g, acts, Rep(p), inp, [], map[], fuel);
    RepLoopShape(g, acts, Rep(p), inp, [], map[], fuel);
  }

  /** `m` copies of `p` (none when `m` is not positive). */
  function Repeat(p: Parser, m: int): (ps: seq<Parser>)
    ensures |ps| == if m <= 0 then 0 else m
    decreases if m <= 0 then 0 else m
  {
    if m <= 0 then [] else [p] + Repeat(p, m - 1)
  }


  lemma {:induction false} RepNLoopBindings(g: Grammar, acts: Actions, self: Parser, i: nat, cur: Cursor,
                                            results: seq<Value>, acc: map<string, seq<Value>>, fuel: nat)
    requires self.RepN?
    ensures var r := RepNLoop(g, acts, self, i, cur, results, acc, fuel);
            r.Success? ==> forall k :: k in r.bindings ==> r.bindings[k].List?
    decreases if i < self.n then self.n - i else 0
  {
    if i < self.n {
      var res := Parse(g, acts, self.parser, cur, fuel);
      if res.Success? {
        RepNLoopBindings(g, acts, self, i + 1, res.remaining, results + [res.output],
                         Accumulate(acc, res.bindings), fuel);
      }
    }
  }

  /** The counted loop with outputs and binding lists already gathered is
      the loop from the same iteration started afresh, with those put in
      front; failures and aborts do not depend on what was gathered. */
  lemma {:induction false} RepNLoopPrefixed(g: Grammar, acts: Actions, self: Parser, i: nat, cur: Cursor,
                                            results: seq<Value>, acc: map<string, seq<Value>>, fuel: nat)
    requires self.RepN?
    ensures RepNLoop(g, acts, self, i, cur, results, acc, fuel)
         == Prefixed(RepNLoop(g, acts, self, i, cur, [], map[], fuel), results, acc)
    decreases if i < self.n then self.n - i else 0
  {
    if self.n <= i {
      ExtendNothing(acc);
      assert results + [] == results && [] + results == results;
      assert AsLists(map[]) == map[];
    } else {
      var res := Parse(g, acts, self.parser, cur, fuel);
      if res.Success? {
        var o, b := res.output, res.bindings;
        var again := RepNLoop(g, acts, self, i + 1, res.remaining, [], map[], fuel);
        assert RepNLoop(g, acts, self, i, cur, results, acc, fuel)
            == RepNLoop(g, acts, self, i + 1, res.remaining, results + [o], Accumulate(acc, b), fuel);
        assert RepNLoop(g, acts, self, i, cur, [], map[], fuel)
            == RepNLoop(g, acts, self, i + 1, res.remaining, [] + [o], Accumulate(map[], b), fuel);
        RepNLoopPrefixed(g, acts, self, i + 1, res.remaining, results + [o], Accumulate(acc, b), fuel);
        RepNLoopPrefixed(g, acts, self, i + 1, res.remaining, [o], Accumulate(map[], b), fuel);
        assert [] + [o] == [o];
        PrefixedTwice(again, [o], Accumulate(map[], b), results, acc);
        AccumulateIsConcat(acc, b);
      }
    }
  }

  /** Iteration `i + 1` of `n` runs succeed exactly as iteration `i` of
      `n - 1` runs: the same runs remain, only the frame a failure is
      given differs. */
  lemma {:induction false} RepNLoopShift(g: Grammar, acts: Actions, p: Parser, n: int, i: nat, cur: Cursor,
                                         results: seq<Value>, acc: map<string, seq<Value>>, fuel: nat)
    ensures var a := RepNLoop(g, acts, RepN(p, n), i + 1, cur, results, acc, fuel);
            var b := RepNLoop(g, acts, RepN(p, n - 1), i, cur, results, acc, fuel);
            (a.Success? <==> b.Success?) && (a.Success? ==> a == b)
    decreases if i < n - 1 then n - 1 - i else 0
  {
    if i < n - 1 {
      var res := Parse(g, acts, p, cur, fuel);
      if res.Success? {
        RepNLoopShift(g, acts, p, n, i + 1, res.remaining, results + [res.output],
                      Accumulate(acc, res.bindings), fuel);
      }
    }
  }

  /** Unfolding `RepN(p, n)` into `p RepN(p, n - 1)`: after a successful
      first run, the counted repetition succeeds exactly when the remaining
      `n - 1` runs do from where it stopped, and then has the first run's
      output in front of their list and each of its bindings in front of
      that name's list. No runs at all is an empty success. */
  lemma RepNUnfold(g: Grammar, acts: Actions, p: Parser, n: int, inp: Cursor, fuel: nat)
    ensures n <= 0 ==> Parse(g, acts, RepN(p, n), inp, fuel) == Success(List([]), map[], inp)
    ensures var first := Parse(g, acts, p, inp, fuel);
            var r := Parse(g, acts, RepN(p, n), inp, fuel);
            n > 0 && first.Success? ==>
              var rest := Parse(g, acts, RepN(p, n - 1), first.remaining, fuel);
              && (r.Success? <==> rest.Success?)
              && (r.Success? ==> r == Prefixed(rest, [first.output], Accumulate(map[], first.bindings)))
  {
    var self := RepN(p, n);
    assert Parse(g, acts, self, inp, fuel) == RepNLoop(g, acts, self, 0, inp, [], map[], fuel);
    if n <= 0 {
      assert AsLists(map[]) == map[];
    } else {
      var first := Parse(g, acts, p, inp, fuel);
      if first.Success? {
        var rem := first.remaining;
        var acc1 := Accumulate(map[], first.bindings);
        var s := RepNLoop(g, acts, self, 1, rem, [], map[], fuel);
        var rest := Parse(g, acts, RepN(p, n - 1), rem, fuel);
        assert Parse(g, acts, self, inp, fuel) == RepNLoop(g, acts, self, 1, rem, [first.output], acc1, fuel) by {
          assert [] + [first.output] == [first.output];
        }
        assert RepNLoop(g, acts, self, 1, rem, [first.output], acc1, fuel) == Prefixed(s, [first.output], acc1) by {
          RepNLoopPrefixed(g, acts, self, 1, rem, [first.output], acc1, fuel);
        }
        assert (s.Success? <==> rest.Success?) && (s.Success? ==> s == rest) by {
          RepNLoopShift(g, acts, p, n, 0, rem, [], map[], fuel);
          assert rest == RepNLoop(g, acts, RepN(p, n - 1), 0, rem, [], map[], fuel);
        }
      }
    }
  }

  /** The relation of the counted loop to the chain, as it is passed from
      one iteration to the previous one. */
  predicate LoopMatchesChain(self: Parser, r: Result, results: seq<Value>, c: Result) {
    && (r.Success? <==> c.Success?)
    && (c.Success? ==> c.output.List? && r.output == List(results + c.output.items) && r.remaining == c.remaining)
    && (!c.Success? ==> r == Wrap(self, c))
  }

  lemma StepMatchesChain(self: Parser, r: Result, results: seq<Value>, o: Value, b: Bindings, more: Result, c: Result)
    requires LoopMatchesChain(self, r, results + [o], more)
    requires more.Success? ==> more.output.List?
    requires !more.Success? ==> c == more
    requires more.Success? ==> c == Success(List([o] + more.output.items), b + more.bindings, more.remaining)
    ensures LoopMatchesChain(self, r, results, c)
  {
    if more.Success? {
      assert (results + [o]) + more.output.items == results + ([o] + more.output.items);
    }
  }

  lemma {:induction false} RepNLoopIsChain(g: Grammar, acts: Actions, self: Parser, i: nat, cur: Cursor,
                                           results: seq<Value>, acc: map<string, seq<Value>>, fuel: nat)
    requires self.RepN?
    ensures LoopMatchesChain(self, RepNLoop(g, acts, self, i, cur, results, acc, fuel), results,
                             Sequencing.Chain(g, acts, Repeat(self.parser, self.n - i), cur, fuel))
    decreases if i < self.n then self.n - i else 0
  {
    var p := self.parser;
    if self.n <= i {
      assert results + [] == results && [] + results == results;
    } else {
      var rest := Repeat(p, self.n - (i + 1));
      assert Repeat(p, self.n - i) == [p] + rest;
      Sequencing.ChainStep(g, acts, p, rest, cur, fuel);
      var res := Parse(g, acts, p, cur, fuel);
      if res.Success? {
        var r' := RepNLoop(g, acts, self, i + 1, res.remaining, results + [res.output],
                           Accumulate(acc, res.bindings), fuel);
        assert RepNLoop(g, acts, self, i, cur, results, acc, fuel) == r';
        RepNLoopIsChain(g, acts, self, i + 1, res.remaining, results + [res.output],
                        Accumulate(acc, res.bindings), fuel);
        StepMatchesChain(self, r', results, res.output, res.bindings,
                         Sequencing.Chain(g, acts, rest, res.remaining, fuel),
                         Sequencing.Chain(g, acts, [p] + rest, cur, fuel));
      } else {
        assert RepNLoop(g, acts, self, i, cur, results, acc, fuel) == Wrap(self, res);
      }
    }
  }

  /** Exactly-n repetition is `n` consecutive runs of the child: it succeeds
      exactly when they all succeed, then outputs their `n` outputs (none
      for a non-positive `n`) and stops where the last stopped, binding every
      name to a list; any failure among the runs is returned with the
      repetition prepended, its cursor and fatal flag kept. */
  lemma RepNIsRepeatedChain(g: Grammar, acts: Actions, p: Parser, n: int, inp: Cursor, fuel: nat)
    ensures var r := Parse(g, acts, RepN(p, n), inp, fuel);
            var c := Sequencing.Chain(g, acts, Repeat(p, n), inp, fuel);
            && (r.Success? <==> c.Success?)
            && (r.Success? ==> r.output == c.output && r.remaining == c.remaining)
            && (r.Success? ==> r.output.List? && |r.output.items| == (if n <= 0 then 0 else n))
            && (r.Success? ==> forall k :: k in r.bindings ==> r.bindings[k].List?)
            && (!c.Success? ==> r == Wrap(RepN(p, n), c))
  {
    var self := RepN(p, n);
    var r := Parse(g, acts, self, inp, fuel);
    assert r == RepNLoop(g, acts, self, 0, inp, [], map[], fuel);
    var c := Sequencing.Chain(g, acts, Repeat(p, n), inp, fuel);
    assert LoopMatchesChain(self, r, [], c) by {
      RepNLoopIsChain(g, acts, self, 0, inp, [], map[], fuel);
    }
    assert r.Success? ==> forall k :: k in r.bindings ==> r.bindings[k].List? by {
      RepNLoopBindings(g, acts, self, 0, inp, [], map[], fuel);
    }
    if c.Success? {
      assert c.output.items + [] == c.output.items && [] + c.output.items == c.output.items;
    }
  }

  /** `rep1`: one or more. Where the zero-or-more repetition matches at
      least once, `rep1` is that repetition's result; where the child fails
      recoverably, `rep1` fails with that failure under its own frame. A
      success is the repetition's result and its list starts with the
      child's first output. */
  lemma Rep1NonEmpty(g: Grammar, acts: Actions, p: Parser, inp: Cursor, fuel: nat)
    ensures var r := Parse(g, acts, Rep1(p), inp, fuel);
            r.Success? ==>
              && Parse(g, acts, p, inp, fuel).Success?
              && r == Parse(g, acts, Rep(p), inp, fuel)
              && r.output.List? && |r.output.items| >= 1
              && r.output.items[0] == Parse(g, acts, p, inp, fuel).output
    ensures var many := Parse(g, acts, Rep(p), inp, fuel);
            many.Success? && many.output.List? && many.output.items != [] ==>
              Parse(g, acts, Rep1(p), inp, fuel) == many
    ensures var one := Parse(g, acts, p, inp, fuel);
            Recoverable(one) ==> Parse(g, acts, Rep1(p), inp, fuel) == Wrap(Rep1(p), one)
  {
    var cs := [Rep(p), p];
    var many := Parse(g, acts, Rep(p), inp, fuel);
    var one := Parse(g, acts, p, inp, fuel);
    RepShape(g, acts, p, inp, fuel);
    if one.Aborted? {
      Choice.AndFirstAbort(g, acts, cs, inp, fuel, 0);
    } else if one.Failure? && one.fatal {
      Choice.AndFirstFailure(g, acts, cs, inp, fuel, 0);
    } else if one.Failure? {
      RepZero(g, acts, p, inp, fuel);
      Choice.AndFirstFailure(g, acts, cs, inp, fuel, 1);
    } else if one.remaining.index == inp.index {
      RepNoProgress(g, acts, p, inp, fuel);
      Choice.AndFirstAbort(g, acts, cs, inp, fuel, 0);
    } else if many.Aborted? {
      Choice.AndFirstAbort(g, acts, cs, inp, fuel, 0);
    } else if many.Failure? {
      Choice.AndFirstFailure(g, acts, cs, inp, fuel, 0);
    } else {
      assert Parse(g, acts, Rep1(p), inp, fuel) == many by {
        Choice.AndFirstFailure(g, acts, cs, inp, fuel, 2);
      }
      assert many.output.List? && |many.output.items| >= 1 && many.output.items[0] == one.output by {
        RepUnfold(g, acts, p, inp, fuel);
        RepShape(g, acts, p, one.remaining, fuel);
      }
    }
  }
}
