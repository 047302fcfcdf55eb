/**
 * Laws of `Seq`: how a sequence threads its cursor, what it outputs, how it
 * merges bindings, and how a cut turns later failures into fatal ones.
 */
module Sequencing {
  import opened Peg

  /** The real parsers among a sequence's children, in order (cuts dropped). */
  function Steps(cs: seq<Child>): (ps: seq<Parser>)
    ensures |ps| <= |cs|
  {
    if cs == [] then []
    else (if cs[0].Step? then [cs[0].parser] else []) + Steps(cs[1..])
  }

  /** Index of the first cut among the children, or their number if none. */
  function FirstCut(cs: seq<Child>): (j: nat)
    ensures j <= |cs|
    ensures forall i :: 0 <= i < j ==> cs[i].Step?
    ensures j < |cs| ==> cs[j].Cut?
  {
    if cs == [] || cs[0].Cut? then 0 else 1 + FirstCut(cs[1..])
  }

  /** The real parsers ahead of the first cut. */
  function BeforeCut(cs: seq<Child>): (ps: seq<Parser>)
    ensures |ps| <= |cs|
  {
    Steps(cs[..FirstCut(cs)])
  }

  /** The reference meaning of running parsers one after another: each starts
      where the previous stopped; the outputs form a list in order; later
      bindings overwrite earlier ones; the first non-success is the answer. */
  function Chain(g: Grammar, acts: Actions, steps: seq<Parser>, inp: Cursor, fuel: nat): (r: Result)
    ensures r.Success? ==> r.output.List? && |r.output.items| == |steps|
    ensures Advances(inp, r)
  {
    if steps == [] then Success(List([]), map[], inp)
    else
      match Parse(g, acts, steps[0], inp, fuel)
      case Success(o, b, c) =>
        (match Chain(g, acts, steps[1..], c, fuel)
         case Success(os, bs, rem) => Success(List([o] + os.items), b + bs, rem)
         case other => other)
      case other => other
  }

  /** The real parsers from child `k` on: child `k`'s parser, if it is one,
      then those after it. */
  lemma StepsAt(cs: seq<Child>, k: nat)
    requires k < |cs|
    ensures Steps(cs[k..]) == (if cs[k].Step? then [cs[k].parser] else []) + Steps(cs[k + 1..])
  {
    assert cs[k..][1..] == cs[k + 1..];
  }

  /** The parsers ahead of the first cut from child `k` on: none if child
      `k` is a cut, else its parser and those ahead of the cut after it. */
  lemma BeforeCutAt(cs: seq<Child>, k: nat)
    requires k < |cs|
    ensures cs[k].Cut? ==> BeforeCut(cs[k..]) == []
    ensures cs[k].Step? ==> BeforeCut(cs[k..]) == [cs[k].parser] + BeforeCut(cs[k + 1..])
  {
    var d := cs[k..];
    assert d[0] == cs[k];
    assert d[1..] == cs[k + 1..];
    if cs[k].Step? {
      var m := FirstCut(d[1..]);
      assert FirstCut(d) == 1 + m;
      assert d[..1 + m][0] == cs[k];
      assert d[..1 + m][1..] == d[1..][..m];
    } else {
      assert d[..0] == [];
    }
  }

  /** How a chain of a first parser and the rest unfolds. */
  lemma ChainStep(g: Grammar, acts: Actions, p: Parser, rest: seq<Parser>, cur: Cursor, fuel: nat)
    ensures var first := Parse(g, acts, p, cur, fuel);
            var c := Chain(g, acts, [p] + rest, cur, fuel);
            && (!first.Success? ==> c == first)
            && (first.Success? ==>
                  var more := Chain(g, acts, rest, first.remaining, fuel);
                  && (!more.Success? ==> c == more)
                  && (more.Success? ==>
                        c == Success(List([first.output] + more.output.items), first.bindings + more.bindings, more.remaining)))
  {
    assert ([p] + rest)[0] == p;
    assert ([p] + rest)[1..] == rest;
  }

  /** A loop result `r` that agrees with the chain `c` on success and puts
      the accumulated outputs and bindings in front of the chain's. */
  predicate ExtendsChain(r: Result, results: seq<Value>, bindings: Bindings, c: Result) {
    && (r.Success? <==> c.Success?)
    && (c.Success? ==> c.output.List? && r == Success(List(results + c.output.items), bindings + c.bindings, c.remaining))
  }

  lemma ExtendsChainStep(r: Result, results: seq<Value>, bindings: Bindings, o: Value, b: Bindings,
                         more: Result, c: Result)
    requires ExtendsChain(r, results + [o], bindings + b, more)
    requires !more.Success? ==> !c.Success?
    requires more.Success? ==>
               more.output.List? && c == Success(List([o] + more.output.items), b + more.bindings, more.remaining)
    ensures ExtendsChain(r, results, bindings, c)
  {
    if more.Success? {
      assert (results + [o]) + more.output.items == results + ([o] + more.output.items);
      assert bindings + (b + more.bindings) == (bindings + b) + more.bindings;
    }
  }

  /** SeqLoop from child `k` on agrees with the chain of the remaining real
      children on whether it succeeds, and then extends the accumulated
      outputs and bindings with the chain's. */
  lemma {:induction false} SeqLoopIsChain(g: Grammar, acts: Actions, self: Parser, k: nat, cur: Cursor,
                                          committed: bool, results: seq<Value>, bindings: Bindings, fuel: nat)
    requires self.Seq? && k <= |self.children|
    ensures ExtendsChain(SeqLoop(g, acts, self, k, cur, committed, results, bindings, fuel), results, bindings,
                         Chain(g, acts, Steps(self.children[k..]), cur, fuel))
    decreases |self.children| - k
  {
    var cs := self.children;
    if k == |cs| {
      assert cs[k..] == [];
      assert results + [] == results;
      assert bindings + map[] == bindings;
    } else {
      StepsAt(cs, k);
      match cs[k]
      case Cut =>
        assert Steps(cs[k..]) == Steps(cs[k + 1..]);
        assert SeqLoop(g, acts, self, k, cur, committed, results, bindings, fuel)
            == SeqLoop(g, acts, self, k + 1, cur, true, results, bindings, fuel);
        SeqLoopIsChain(g, acts, self, k + 1, cur, true, results, bindings, fuel);
      case Step(q) =>
        var rest := Steps(cs[k + 1..]);
        ChainStep(g, acts, q, rest, cur, fuel);
        var res := Parse(g, acts, q, cur, fuel);
        if res.Success? {
          assert SeqLoop(g, acts, self, k, cur, committed, results, bindings, fuel)
              == SeqLoop(g, acts, self, k + 1, res.remaining, committed, results + [res.output],
                         bindings + res.bindings, fuel);
          SeqLoopIsChain(g, acts, self, k + 1, res.remaining, committed, results + [res.output],
                         bindings + res.bindings, fuel);
          ExtendsChainStep(SeqLoop(g, acts, self, k, cur, committed, results, bindings, fuel), results, bindings,
                           res.output, res.bindings, Chain(g, acts, rest, res.remaining, fuel),
                           Chain(g, acts, [q] + rest, cur, fuel));
        } else {
          assert !SeqLoop(g, acts, self, k, cur, committed, results, bindings, fuel).Success?;
        }
    }
  }

  /** A sequence succeeds exactly when its real children, run one after
      another, all succeed; then its output lists their outputs in order,
      its bindings merge theirs with later ones winning, and it stops where
      the last child stopped. Cuts play no part in a success. */
  lemma SeqSuccessIsChain(g: Grammar, acts: Actions, cs: seq<Child>, inp: Cursor, fuel: nat)
    ensures var r := Parse(g, acts, Seq(cs), inp, fuel);
            var c := Chain(g, acts, Steps(cs), inp, fuel);
            && (r.Success? <==> c.Success?)
            && (c.Success? ==> r == c)
  {
    var self := Seq(cs);
    assert Parse(g, acts, self, inp, fuel) == SeqLoop(g, acts, self, 0, inp, false, [], map[], fuel);
    SeqLoopIsChain(g, acts, self, 0, inp, false, [], map[], fuel);
    assert cs[0..] == cs;
    var c := Chain(g, acts, Steps(cs), inp, fuel);
    if c.Success? {
      assert [] + c.output.items == c.output.items;
      assert map[] + c.bindings == c.bindings;
    }
  }

  /** One output per real child: a successful sequence's output list is as
      long as its children without the cuts. */
  lemma SeqOutputLength(g: Grammar, acts: Actions, cs: seq<Child>, inp: Cursor, fuel: nat)
    ensures var r := Parse(g, acts, Seq(cs), inp, fuel);
            r.Success? ==> r.output.List? && |r.output.items| == |Steps(cs)|
  {
    SeqSuccessIsChain(g, acts, cs, inp, fuel);
  }

  /** Binding merge: on a name two children both bind, the later child's
      value is the one a successful sequence of the two keeps. */
  lemma SeqLaterBindingWins(g: Grammar, acts: Actions, p: Parser, q: Parser, inp: Cursor, fuel: nat, name: string)
    requires Parse(g, acts, p, inp, fuel).Success?
    requires var first := Parse(g, acts, p, inp, fuel);
             var second := Parse(g, acts, q, first.remaining, fuel);
             second.Success? && name in second.bindings
    ensures var first := Parse(g, acts, p, inp, fuel);
            var second := Parse(g, acts, q, first.remaining, fuel);
            var r := Parse(g, acts, Seq([Step(p), Step(q)]), inp, fuel);
            && r == Success(List([first.output, second.output]), first.bindings + second.bindings, second.remaining)
            && r.bindings[name] == second.bindings[name]
  {
    var cs := [Step(p), Step(q)];
    SeqSuccessIsChain(g, acts, cs, inp, fuel);
    assert cs[1..] == [Step(q)];
    assert cs[1..][1..] == [];
    assert Steps(cs) == [p, q];
    assert Steps(cs)[1..] == [q];
    assert Steps(cs)[1..][1..] == [];
    var first := Parse(g, acts, p, inp, fuel);
    var second := Parse(g, acts, q, first.remaining, fuel);
    assert second.bindings + map[] == second.bindings;
    assert Chain(g, acts, [q], first.remaining, fuel) == Success(List([second.output]), second.bindings, second.remaining);
  }

  /** After a cut nothing can fail recoverably: the loop once committed
      yields only successes, fatal failures and aborts. */
  lemma {:induction false} CommittedNeverRecoverable(g: Grammar, acts: Actions, self: Parser, k: nat, cur: Cursor,
                                                     results: seq<Value>, bindings: Bindings, fuel: nat)
    requires self.Seq? && k <= |self.children|
    ensures !Recoverable(SeqLoop(g, acts, self, k, cur, true, results, bindings, fuel))
    decreases |self.children| - k
  {
    if k < |self.children| {
      match self.children[k]
      case Cut =>
        CommittedNeverRecoverable(g, acts, self, k + 1, cur, results, bindings, fuel);
      case Step(q) =>
        var res := Parse(g, acts, q, cur, fuel);
        if res.Success? {
          CommittedNeverRecoverable(g, acts, self, k + 1, res.remaining, results + [res.output],
                                    bindings + res.bindings, fuel);
        }
    }
  }

  /** Running the same children up to the first cut, two sequences agree on
      every recoverable failure: a recoverable failure of one is the other's. */
  lemma {:induction false} PrefixAgreesOnRecoverable(g: Grammar, acts: Actions, self: Parser, prefix: Parser, k: nat,
                                                     cur: Cursor, results: seq<Value>, bindings: Bindings, fuel: nat)
    requires self.Seq? && prefix.Seq?
    requires prefix.children == self.children[..FirstCut(self.children)]
    requires k <= |prefix.children|
    ensures var r := SeqLoop(g, acts, self, k, cur, false, results, bindings, fuel);
            var s := SeqLoop(g, acts, prefix, k, cur, false, results, bindings, fuel);
            (Recoverable(r) || Recoverable(s)) ==> r == s
    decreases |prefix.children| - k
  {
    var cs := self.children;
    if k == |prefix.children| {
      if k < |cs| {
        CommittedNeverRecoverable(g, acts, self, k + 1, cur, results, bindings, fuel);
      }
    } else {
      assert cs[k] == prefix.children[k];
      var q := cs[k].parser;
      var res := Parse(g, acts, q, cur, fuel);
      if res.Success? {
        PrefixAgreesOnRecoverable(g, acts, self, prefix, k + 1, res.remaining, results + [res.output],
                                  bindings + res.bindings, fuel);
      }
    }
  }

  /** Every fatal failure of the loop has the sequence itself as its first frame. */
  lemma {:induction false} SeqLoopFatalFrame(g: Grammar, acts: Actions, self: Parser, k: nat, cur: Cursor,
                                             committed: bool, results: seq<Value>, bindings: Bindings, fuel: nat)
    requires self.Seq? && k <= |self.children|
    ensures var r := SeqLoop(g, acts, self, k, cur, committed, results, bindings, fuel);
            r.Failure? && r.fatal ==> r.failed != [] && r.failed[0] == self
    decreases |self.children| - k
  {
    if k < |self.children| {
      match self.children[k]
      case Cut =>
        SeqLoopFatalFrame(g, acts, self, k + 1, cur, true, results, bindings, fuel);
      case Step(q) =>
        var res := Parse(g, acts, q, cur, fuel);
        if res.Success? {
          SeqLoopFatalFrame(g, acts, self, k + 1, res.remaining, committed, results + [res.output],
                            bindings + res.bindings, fuel);
        }
    }
  }

  /** The failure half of the loop from child `k` on: when the chain of the
      remaining real children does not succeed, an abort passes through; a
      failure is escalated (made fatal, with the sequence as its outermost
      frame, at the child's cursor) when the loop is already committed, when
      the children ahead of the next cut have all matched, or when the
      child's failure is itself fatal; otherwise it is returned unchanged. */
  lemma {:induction false} SeqLoopFailure(g: Grammar, acts: Actions, self: Parser, k: nat, cur: Cursor,
                                          committed: bool, results: seq<Value>, bindings: Bindings, fuel: nat)
    requires self.Seq? && k <= |self.children|
    ensures var r := SeqLoop(g, acts, self, k, cur, committed, results, bindings, fuel);
            var c := Chain(g, acts, Steps(self.children[k..]), cur, fuel);
            var before := Chain(g, acts, BeforeCut(self.children[k..]), cur, fuel);
            !c.Success? ==>
              r == if c.Aborted? || (!committed && !before.Success? && !c.fatal) then c
                   else Failure(c.remaining, [self] + c.failed, true)
    decreases |self.children| - k
  {
    var cs := self.children;
    if k == |cs| {
      assert cs[k..] == [];
    } else {
      StepsAt(cs, k);
      BeforeCutAt(cs, k);
      match cs[k]
      case Cut =>
        assert Steps(cs[k..]) == Steps(cs[k + 1..]);
        assert SeqLoop(g, acts, self, k, cur, committed, results, bindings, fuel)
            == SeqLoop(g, acts, self, k + 1, cur, true, results, bindings, fuel);
        SeqLoopFailure(g, acts, self, k + 1, cur, true, results, bindings, fuel);
      case Step(q) =>
        ChainStep(g, acts, q, Steps(cs[k + 1..]), cur, fuel);
        ChainStep(g, acts, q, BeforeCut(cs[k + 1..]), cur, fuel);
        var res := Parse(g, acts, q, cur, fuel);
        if res.Success? {
          assert SeqLoop(g, acts, self, k, cur, committed, results, bindings, fuel)
              == SeqLoop(g, acts, self, k + 1, res.remaining, committed, results + [res.output],
                         bindings + res.bindings, fuel);
          SeqLoopFailure(g, acts, self, k + 1, res.remaining, committed, results + [res.output],
                         bindings + res.bindings, fuel);
        }
    }
  }

  /** What a failing sequence returns. With `c` the chain of its real
      children and `before` the chain of those ahead of the first cut: an
      abort is returned as it is; a recoverable child failure before the cut
      is returned unchanged; any other failure (after the cut, or fatal
      itself) becomes `Failure(child's cursor, [Seq(cs)] + child's frames,
      fatal)`. */
  lemma SeqFailure(g: Grammar, acts: Actions, cs: seq<Child>, inp: Cursor, fuel: nat)
    ensures var r := Parse(g, acts, Seq(cs), inp, fuel);
            var c := Chain(g, acts, Steps(cs), inp, fuel);
            var before := Chain(g, acts, BeforeCut(cs), inp, fuel);
            !c.Success? ==>
              r == if c.Aborted? || (!before.Success? && !c.fatal) then c
                   else Failure(c.remaining, [Seq(cs)] + c.failed, true)
  {
    var self := Seq(cs);
    assert Parse(g, acts, self, inp, fuel) == SeqLoop(g, acts, self, 0, inp, false, [], map[], fuel);
    SeqLoopFailure(g, acts, self, 0, inp, false, [], map[], fuel);
    assert cs[0..] == cs;
  }

  /** The cut rule. A sequence fails recoverably only with the unchanged
      failure of one of its children (the chain's failure), and only through
      a child before its first cut, giving the same failure as the children
      before the cut alone; once those have matched, the sequence can no
      longer fail recoverably. */
  lemma SeqCutRule(g: Grammar, acts: Actions, cs: seq<Child>, inp: Cursor, fuel: nat)
    ensures var r := Parse(g, acts, Seq(cs), inp, fuel);
            var before := Parse(g, acts, Seq(cs[..FirstCut(cs)]), inp, fuel);
            && (Recoverable(r) ==> r == Chain(g, acts, Steps(cs), inp, fuel))
            && (Recoverable(r) || Recoverable(before) ==> r == before)
            && (before.Success? ==> !Recoverable(r))
  {
    PrefixAgreesOnRecoverable(g, acts, Seq(cs), Seq(cs[..FirstCut(cs)]), 0, inp, [], map[], fuel);
    SeqSuccessIsChain(g, acts, cs, inp, fuel);
    SeqFailure(g, acts, cs, inp, fuel);
  }

  /** Escalation: a fatal sequence failure is the failing child's failure,
      at the child's cursor, with the sequence as its outermost frame ahead
      of the child's frames. */
  lemma SeqFatalFrame(g: Grammar, acts: Actions, cs: seq<Child>, inp: Cursor, fuel: nat)
    ensures var r := Parse(g, acts, Seq(cs), inp, fuel);
            var c := Chain(g, acts, Steps(cs), inp, fuel);
            r.Failure? && r.fatal ==> c.Failure? && r == Failure(c.remaining, [Seq(cs)] + c.failed, true)
  {
    SeqSuccessIsChain(g, acts, cs, inp, fuel);
    SeqFailure(g, acts, cs, inp, fuel);
  }
}
