/**
 * The PEG combinator engine: cursors, results, the parser variants and the
 * reference interpreter `Parse` that gives each variant its meaning.
 *
 * Every variant of macropy's `Parser` class hierarchy is a constructor of `Parser`;
 * `parse_input` is the single function `Parse`, one `match` arm per variant.
 * The loops of `Seq`, `Or`, `And`, `Rep` and `RepN` are written here as
 * tail-recursive functions (`SeqLoop`, ...) whose parameters are exactly the
 * loop's local variables; module `Engine` runs the same loops as `while`
 * statements and is proved equal to these functions.
 */
module Peg {
  import Location

  datatype Option<T> = None | Some(value: T)

  /** Parse outputs: literal text, the lists built by Seq/Rep/RepN, Python's
      None (from Not), and opaque values produced by user callables. */
  datatype Value = NoValue | Str(s: string) | List(items: seq<Value>) | Opaque(tag: nat)

  /** Named captures of one successful parse. */
  type Bindings = map<string, Value>

  /** A position in the text being parsed. */
  datatype Input = Input(text: string, index: nat)

  /** The invariant every cursor keeps: the offset lies inside the text. */
  type Cursor = c: Input | c.index <= |c.text| witness Input([], 0)

  /** A child of `Seq`: a real parser, or the `cut` sentinel. */
  datatype Child = Cut | Step(parser: Parser)

  datatype Parser =
    | Full(parser: Parser)
    | Raw(literal: string)
    | Regex(pattern: string)
    | Seq(children: seq<Child>)
    | Or(alternatives: seq<Parser>)
    | And(conjuncts: seq<Parser>)
    | Not(parser: Parser)
    | Rep(parser: Parser)
    | RepN(parser: Parser, n: int)
    | Transform(parser: Parser, func: nat)
    | TransformBound(parser: Parser, func: nat)
    | Binder(parser: Parser, name: string)
    | Lazy(rule: string)
    | Succeed(value: Value)
    | Fail

  /** The rules a `Lazy` reference may name. */
  type Grammar = map<string, Parser>

  /** The user callables and the regular-expression engine, left uninterpreted:
      `apply(f, v)` is `func(v)` of a Transform, `applyBound(f, b)` is
      `func(**b)` of a TransformBound, and `matchRegex(pattern, rest)` is the
      length of the match anchored at the start of `rest`, if any. */
  datatype Actions = Actions(
    apply: (nat, Value) -> Value,
    applyBound: (nat, Bindings) -> Value,
    matchRegex: (string, string) -> Option<nat>)

  /** Ways in which macropy's code never returns a result. */
  datatype Abort =
    | OutOfFuel               // rule recursion deeper than the fuel allows
    | NoProgress              // Rep's child succeeded without consuming: an endless loop
    | UndefinedRule(name: string)  // a Lazy reference to a rule the grammar lacks
    | EmptyConjunction        // And with no children indexes an empty list

  datatype Result =
    | Success(output: Value, bindings: Bindings, remaining: Cursor)
    | Failure(remaining: Cursor, failed: seq<Parser>, fatal: bool)
    | Aborted(reason: Abort)
  {
    /** The offset at which a failure (or success) left the input. */
    function Index(): (i: nat)
      requires !Aborted?
      ensures i <= |remaining.text|
    {
      remaining.index
    }
  }

  /** A failure that an enclosing ordered choice may recover from. */
  predicate Recoverable(r: Result) {
    r.Failure? && !r.fatal
  }

  /** Results never move the cursor backwards nor change the text. */
  predicate Advances(inp: Cursor, r: Result) {
    r.Aborted? || (r.remaining.text == inp.text && inp.index <= r.remaining.index)
  }

  /** The failure-wrapping step shared by most combinators: a failure gets
      `self` prepended to its frames, keeping its cursor and fatal flag;
      successes and aborts pass through unchanged. */
  function Wrap(self: Parser, r: Result): (w: Result)
    ensures w.Failure? <==> r.Failure?
    ensures r.Failure? ==> w == Failure(r.remaining, [self] + r.failed, r.fatal)
    ensures !r.Failure? ==> w == r
  {
    match r
    case Failure(c, fl, fatal) => Failure(c, [self] + fl, fatal)
    case _ => r
  }

  /** The label a frame contributes to a trace: only Lazy rules are named. */
  function TraceName(p: Parser): (n: seq<string>)
    ensures |n| <= 1 && (n != [] <==> p.Lazy?)
    ensures p.Lazy? ==> n == [p.rule]
  {
    if p.Lazy? then [p.rule] else []
  }

  /** The flattened labels of a failure's frames, outermost first. */
  function Trace(failed: seq<Parser>): (t: seq<string>)
    ensures |t| <= |failed|
    ensures failed != [] && failed[0].Lazy? ==> t != [] && t[0] == failed[0].rule
  {
    if failed == [] then [] else TraceName(failed[0]) + Trace(failed[1..])
  }

  /** The list gathered so far under `k` (none if absent). */
  function Get(acc: map<string, seq<Value>>, k: string): seq<Value> {
    if k in acc then acc[k] else []
  }

  /** Rep's per-name accumulation (a defaultdict of lists): every binding of
      this iteration is appended to the list under its name. */
  function Accumulate(acc: map<string, seq<Value>>, b: Bindings): (r: map<string, seq<Value>>)
    ensures r.Keys == acc.Keys + b.Keys
    ensures forall k :: k in b ==> r[k] == Get(acc, k) + [b[k]]
    ensures forall k :: k in acc && k !in b ==> r[k] == acc[k]
  {
    map k | k in acc.Keys + b.Keys ::
      if k in b then Get(acc, k) + [b[k]] else acc[k]
  }

  /** The accumulated lists, as the binding values Rep and RepN return. */
  function AsLists(acc: map<string, seq<Value>>): (b: Bindings)
    ensures b.Keys == acc.Keys
    ensures forall k :: k in acc ==> b[k] == List(acc[k])
  {
    map k | k in acc :: List(acc[k])
  }

  /** `parse_input`: what a parser does at a cursor, given the grammar its
      Lazy references resolve in and the meaning of its user callables.
      Every rule reference spends one unit of fuel. */
  function Parse(g: Grammar, acts: Actions, p: Parser, inp: Cursor, fuel: nat): (r: Result)
    ensures Advances(inp, r)
    decreases fuel, p, 1, 0
  {
    match p
    case Full(q) =>
      var res := Parse(g, acts, q, inp, fuel);
      if res.Success? && res.remaining.index < |inp.text| then Failure(res.remaining, [p], false)
      else res
    case Raw(lit) =>
      if lit <= inp.text[inp.index..] then
        Success(Str(lit), map[], Input(inp.text, inp.index + |lit|))
      else Failure(inp, [p], false)
    case Regex(pattern) =>
      var rest := inp.text[inp.index..];
      (match acts.matchRegex(pattern, rest)
       case Some(k) =>
         if k <= |rest| then Success(Str(rest[..k]), map[], Input(inp.text, inp.index + k))
         else Failure(inp, [p], false)
       case None => Failure(inp, [p], false))
    case Seq(_) => SeqLoop(g, acts, p, 0, inp, false, [], map[], fuel)
    case Or(_) => OrLoop(g, acts, p, 0, inp, fuel)
    case And(_) => AndLoop(g, acts, p, 0, inp, [], fuel)
    case Not(q) =>
      (match Parse(g, acts, q, inp, fuel)
       case Success(_, _, _) => Failure(inp, [p], false)
       case Failure(_, _, _) => Success(NoValue, map[], inp)
       case Aborted(why) => Aborted(why))
    case Rep(_) => RepLoop(g, acts, p, inp, [], map[], fuel)
    case RepN(_, _) => RepNLoop(g, acts, p, 0, inp, [], map[], fuel)
    case Transform(q, f) =>
      (match Parse(g, acts, q, inp, fuel)
       case Success(o, b, c) => Success(acts.apply(f, o), b, c)
       case res => Wrap(p, res))
    case TransformBound(q, f) =>
      (match Parse(g, acts, q, inp, fuel)
       case Success(o, b, c) => Success(acts.applyBound(f, b), map[], c)
       case res => Wrap(p, res))
    case Binder(q, name) =>
      (match Parse(g, acts, q, inp, fuel)
       case Success(o, b, c) => Success(o, b[name := o], c)
       case res => Wrap(p, res))
    case Lazy(name) =>
      if fuel == 0 then Aborted(OutOfFuel)
      else if name !in g then Aborted(UndefinedRule(name))
      else Wrap(p, Parse(g, acts, g[name], inp, fuel - 1))
    case Succeed(v) => Success(v, map[], inp)
    case Fail => Failure(inp, [p], false)
  }

  /** Seq's loop: children from `k` on, at cursor `cur`, with the outputs and
      bindings gathered so far and whether a cut has been passed. */
  function SeqLoop(g: Grammar, acts: Actions, self: Parser, k: nat, cur: Cursor, committed: bool,
                   results: seq<Value>, bindings: Bindings, fuel: nat): (r: Result)
    requires self.Seq? && k <= |self.children|
    ensures Advances(cur, r)
    decreases fuel, self, 0, |self.children| - k
  {
    if k == |self.children| then Success(List(results), bindings, cur)
    else
      match self.children[k]
      case Cut => SeqLoop(g, acts, self, k + 1, cur, true, results, bindings, fuel)
      case Step(q) =>
        match Parse(g, acts, q, cur, fuel)
        case Aborted(why) => Aborted(why)
        case Failure(c, fl, fatal) =>
          if committed || fatal then Failure(c, [self] + fl, true) else Failure(c, fl, fatal)
        case Success(o, b, c) =>
          SeqLoop(g, acts, self, k + 1, c, committed, results + [o], bindings + b, fuel)
  }

  /** Or's loop: alternatives from `k` on, each on the same input. */
  function OrLoop(g: Grammar, acts: Actions, self: Parser, k: nat, inp: Cursor, fuel: nat): (r: Result)
    requires self.Or? && k <= |self.alternatives|
    ensures Advances(inp, r)
    decreases fuel, self, 0, |self.alternatives| - k
  {
    if k == |self.alternatives| then Failure(inp, [self], false)
    else
      match Parse(g, acts, self.alternatives[k], inp, fuel)
      case Success(o, b, c) => Success(o, b, c)
      case Failure(c, fl, fatal) =>
        if fatal then Failure(c, [self] + fl, true) else OrLoop(g, acts, self, k + 1, inp, fuel)
      case Aborted(why) => Aborted(why)
  }

  /** Index of the first failure among `results`, or `|results|` if none. */
  function FirstFailure(results: seq<Result>): (j: nat)
    ensures j <= |results|
    ensures forall i :: 0 <= i < j ==> !results[i].Failure?
    ensures j < |results| ==> results[j].Failure?
  {
    if results == [] then 0
    else if results[0].Failure? then 0
    else 1 + FirstFailure(results[1..])
  }

  /** No result before position `j` is a failure. */
  predicate FailureFreeBefore(results: seq<Result>, j: int)
    requires j <= |results|
  {
    forall i :: 0 <= i < j ==> !results[i].Failure?
  }

  /** And's choice once every child has run: the first result if none
      failed, otherwise the first failure with `self` prepended. */
  function Conjoin(self: Parser, results: seq<Result>): (r: Result)
    ensures results == [] ==> r == Aborted(EmptyConjunction)
    ensures results != [] && (forall i :: 0 <= i < |results| ==> !results[i].Failure?) ==> r == results[0]
    ensures forall j :: 0 <= j < |results| && results[j].Failure? && FailureFreeBefore(results, j) ==>
              r == Failure(results[j].remaining, [self] + results[j].failed, results[j].fatal)
  {
    var j := FirstFailure(results);
    if j == |results| then
      if results == [] then Aborted(EmptyConjunction) else results[0]
    else Wrap(self, results[j])
  }

  /** And's loop: every conjunct runs on the same input, in order; the
      results are kept until all have run. */
  function AndLoop(g: Grammar, acts: Actions, self: Parser, k: nat, inp: Cursor,
                   results: seq<Result>, fuel: nat): (r: Result)
    requires self.And? && k <= |self.conjuncts|
    requires forall i :: 0 <= i < |results| ==> Advances(inp, results[i]) && !results[i].Aborted?
    ensures Advances(inp, r)
    decreases fuel, self, 0, |self.conjuncts| - k
  {
    if k == |self.conjuncts| then
      assert results != [] ==> Advances(inp, results[0]);
      assert FirstFailure(results) < |results| ==> Advances(inp, results[FirstFailure(results)]);
      Conjoin(self, results)
    else
      match Parse(g, acts, self.conjuncts[k], inp, fuel)
      case Aborted(why) => Aborted(why)
      case res => AndLoop(g, acts, self, k + 1, inp, results + [res], fuel)
  }

  /** Rep's loop: apply the child until it fails; a success that consumes
      nothing would repeat forever. */
  function RepLoop(g: Grammar, acts: Actions, self: Parser, cur: Cursor,
                   results: seq<Value>, acc: map<string, seq<Value>>, fuel: nat): (r: Result)
    requires self.Rep?
    ensures Advances(cur, r)
    decreases fuel, self, 0, |cur.text| - cur.index
  {
    match Parse(g, acts, self.parser, cur, fuel)
    case Aborted(why) => Aborted(why)
    case Failure(c, fl, fatal) =>
      if fatal then Failure(c, [self] + fl, true) else Success(List(results), AsLists(acc), cur)
    case Success(o, b, c) =>
      if c.index == cur.index then Aborted(NoProgress)
      else RepLoop(g, acts, self, c, results + [o], Accumulate(acc, b), fuel)
  }

  /** RepN's loop: iteration `i` of `range(n)`. */
  function RepNLoop(g: Grammar, acts: Actions, self: Parser, i: nat, cur: Cursor,
                    results: seq<Value>, acc: map<string, seq<Value>>, fuel: nat): (r: Result)
    requires self.RepN?
    ensures Advances(cur, r)
    decreases fuel, self, 0, if i < self.n then self.n - i else 0
  {
    if self.n <= i then Success(List(results), AsLists(acc), cur)
    else
      match Parse(g, acts, self.parser, cur, fuel)
      case Success(o, b, c) => RepNLoop(g, acts, self, i + 1, c, results + [o], Accumulate(acc, b), fuel)
      case res => Wrap(self, res)
  }

  // ---------------------------------------------------------------------
  // Derived builders
  // ---------------------------------------------------------------------

  /** One or more: a conjunction of zero-or-more with one mandatory match. */
  function Rep1(p: Parser): (q: Parser)
    ensures q.And? && |q.conjuncts| == 2 && q.conjuncts[0] == Rep(p) && q.conjuncts[1] == p
  {
    And([Rep(p), p])
  }

  /** Optional: the parser, or else the empty literal. */
  function Opt(p: Parser): (q: Parser)
    ensures q.Or? && |q.alternatives| == 2 && q.alternatives[0] == p && q.alternatives[1] == Raw("")
  {
    Or([p, Raw("")])
  }

  /** Capture the parser's output under `name`. */
  function BindTo(p: Parser, name: string): (q: Parser)
    ensures q.Binder? && q.parser == p && q.name == name
  {
    Binder(p, name)
  }

  // ---------------------------------------------------------------------
  // Entry points
  // ---------------------------------------------------------------------

  /** Run the grammar once from offset 0; trailing input is allowed. */
  function ParsePartial(g: Grammar, acts: Actions, p: Parser, text: string, fuel: nat): (r: Result)
    ensures !r.Aborted? ==> r.remaining.text == text
  {
    Parse(g, acts, p, Input(text, 0), fuel)
  }

  /** Run the grammar wrapped in `Full`: only a parse of the whole text succeeds. */
  function ParseString(g: Grammar, acts: Actions, p: Parser, text: string, fuel: nat): (r: Result)
    ensures r.Success? ==> r.remaining == Input(text, |text|)
  {
    Parse(g, acts, Full(p), Input(text, 0), fuel)
  }

  /** The diagnostic raised for a failed parse: the failure itself, its
      position and the labels of its trace. */
  datatype ParseError = ParseError(failure: Result, index: nat, line: nat, column: int, trace: seq<string>)

  datatype Answer = Parsed(value: Value) | Raised(error: ParseError) | Crashed(reason: Abort)

  /** `parse`: the output of a whole-text parse, or the error describing where
      and why it failed. The column is computed as macropy's code does, so
      it is 0 exactly when the failure sits on a newline character. */
  function ParseText(g: Grammar, acts: Actions, p: Parser, text: string, fuel: nat): (a: Answer)
    ensures a.Parsed? <==> ParseString(g, acts, p, text, fuel).Success?
    ensures a.Raised? <==> ParseString(g, acts, p, text, fuel).Failure?
    ensures a.Crashed? <==> ParseString(g, acts, p, text, fuel).Aborted?
    ensures a.Parsed? ==> a.value == ParseString(g, acts, p, text, fuel).output
    ensures a.Crashed? ==> a.reason == ParseString(g, acts, p, text, fuel).reason
    ensures a.Raised? ==> a.error.failure == ParseString(g, acts, p, text, fuel)
    ensures a.Raised? ==> a.error.index == a.error.failure.remaining.index <= |text|
    ensures a.Raised? ==> a.error.line == Location.Line(text, a.error.index)
    ensures a.Raised? ==> a.error.column == Location.ColumnAsWritten(text, a.error.index)
    ensures a.Raised? ==> a.error.trace == Trace(a.error.failure.failed)
    ensures a.Raised? ==> (a.error.column == 0 <==> a.error.index < |text| && text[a.error.index] == '\n')
  {
    match ParseString(g, acts, p, text, fuel)
    case Success(o, _, _) => Parsed(o)
    case Failure(c, fl, fatal) =>
      Raised(ParseError(Failure(c, fl, fatal), c.index,
                        Location.Line(text, c.index), Location.ColumnAsWritten(text, c.index), Trace(fl)))
    case Aborted(why) => Crashed(why)
  }

  /** `parse` with the column corrected: the raised line and column always
      lead back to the failure's offset. */
  function ParseTextCorrected(g: Grammar, acts: Actions, p: Parser, text: string, fuel: nat): (a: Answer)
    ensures a.Parsed? <==> ParseString(g, acts, p, text, fuel).Success?
    ensures a.Raised? <==> ParseString(g, acts, p, text, fuel).Failure?
    ensures a.Crashed? <==> ParseString(g, acts, p, text, fuel).Aborted?
    ensures a.Parsed? ==> a.value == ParseString(g, acts, p, text, fuel).output
    ensures a.Crashed? ==> a.reason == ParseString(g, acts, p, text, fuel).reason
    ensures a.Raised? ==> a.error.failure == ParseString(g, acts, p, text, fuel)
    ensures a.Raised? ==> a.error.index == a.error.failure.remaining.index <= |text|
    ensures a.Raised? ==> a.error.line == Location.Line(text, a.error.index)
    ensures a.Raised? ==> a.error.column == Location.Column(text, a.error.index)
    ensures a.Raised? ==> a.error.trace == Trace(a.error.failure.failed)
    ensures a.Raised? ==> a.error.line >= 1
    ensures a.Raised? ==> Location.LineStart(text, a.error.line) + a.error.column - 1 == a.error.index
  {
    match ParseString(g, acts, p, text, fuel)
    case Success(o, _, _) => Parsed(o)
    case Failure(c, fl, fatal) =>
      Location.LocateRoundTrip(text, c.index);
      Raised(ParseError(Failure(c, fl, fatal), c.index,
                        Location.Line(text, c.index), Location.Column(text, c.index), Trace(fl)))
    case Aborted(why) => Crashed(why)
  }
}
