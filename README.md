# A verified model of macropy's PEG combinator engine

This project models the parsing-expression-grammar engine of
`macropy/experimental/peg.py`. It covers:

- the immutable cursor `Input(string, index)`;
- the two results, `Success(output, bindings, remaining_input)` and
  `Failure(remaining_input, failed, fatal)`, with the failure's `index` and `trace`;
- `parse_input` of all fifteen parser variants, including the `cut` marker
  inside `Seq`;
- the entry points `parse_partial`, `parse_string` and `parse`;
- the builders `rep1`, `opt` and `bind_to`;
- the line and column that `ParseError` reports for a failure.

The project is split into these modules:

- `Peg` (peg.dfy) holds the data model and the reference interpreter
  `Parse`, with one `match` arm per variant. The loops of `Seq`, `Or`, `And`,
  `Rep` and `RepN` appear as tail-recursive functions whose parameters are the
  loop's local variables.
- `Engine` (engine.dfy) runs those loops as macropy's code does. They are
  `for`/`while` loops over a running cursor, an output list, a binding
  dictionary and the `committed` flag. Each method is proved to return exactly
  what `Parse` returns, so every law below also holds of the engine.
- `Sequencing`, `Choice`, `Repetition` and `Primitives` hold the laws of the
  variants. Sequences are compared with an independent reference definition,
  `Chain`, which runs parsers one after another.
- `Fuel` shows that the recursion bound never changes a result it lets finish.
- `Location` is the line and column arithmetic of `ParseError`.
- `Examples` works out small grammars on concrete texts.

macropy's code can fail to return at all. It recurses without bound through
rule references. It loops forever when `rep` repeats a child that consumes
nothing. It raises an exception on an undefined rule or on an `And` with no
children. The model makes each of these an explicit third result,
`Aborted(reason)`, which every combinator passes straight up. Rule references
carry a fuel bound. `Fuel.FuelMonotone` proves that any result other than
"out of fuel" stays the same under more fuel.

## Model

| member | source | states |
|---|---|---|
| Peg.Parse | macropy/experimental/peg.py:150-154 | no parser moves the cursor backwards or changes the text it parses |
| Peg.Result.Index | macropy/experimental/peg.py:94-96 | a result's index is its remaining input's offset, which lies within the text |
| Peg.Wrap | macropy/experimental/peg.py:320-323 | the `res.copy(failed=[self] + res.failed)` step: a failure keeps its cursor and fatal flag and gains `self` as outermost frame; successes and aborts pass through unchanged |
| Peg.TraceName | macropy/experimental/peg.py:146-148 | a frame contributes at most one trace label: a rule reference its rule's name, every other parser none (whole traces: `Primitives.TraceNamesRules`) |
| Peg.Trace | macropy/experimental/peg.py:97-100 | a trace has at most one label per frame, and a failure whose outermost frame is a rule reference names that rule first |
| Peg.Accumulate | macropy/experimental/peg.py:289-290 | after an iteration, each name it bound has that value appended to its list, and every other name keeps its list |
| Peg.FirstFailure | macropy/experimental/peg.py:255-262 | the index of the first failure among the results, with no failure before it, or the number of results if none failed |
| Peg.SeqLoop | macropy/experimental/peg.py:216-238 | the sequence loop never moves the cursor back |
| Peg.OrLoop | macropy/experimental/peg.py:242-250 | the choice loop never moves the cursor back |
| Peg.Conjoin | macropy/experimental/peg.py:255-262 | And's choice after all conjuncts ran: an empty conjunction raises; with no failure the first result; otherwise the first failure, at its own cursor and fatal flag, with the conjunction prepended (as a law of `And`: `Choice.AndFirstFailure`) |
| Peg.AndLoop | macropy/experimental/peg.py:253-262 | the conjunction loop never moves the cursor back |
| Peg.RepLoop | macropy/experimental/peg.py:274-292 | the repetition loop never moves the cursor back |
| Peg.RepNLoop | macropy/experimental/peg.py:296-313 | the counted loop never moves the cursor back |
| Peg.Rep1 | macropy/experimental/peg.py:162-164 | `rep1` is the conjunction of `Rep(p)` and `p`, in that order (its law: `Repetition.Rep1NonEmpty`) |
| Peg.Opt | macropy/experimental/peg.py:170-172 | `opt` is the choice of `p`, then the empty literal (its law: `Choice.OptNeverRecoverable`) |
| Peg.BindTo | macropy/experimental/peg.py:130-131 | `bind_to` wraps the parser in a `Binder` under the given name (its law: `Primitives.BinderCaptures`) |
| Peg.ParsePartial | macropy/experimental/peg.py:133-134 | a partial parse's result refers to the given text (it agrees with `parse_string` on whole-text successes: `Primitives.ParseStringIsWholePartial`) |
| Peg.ParseString | macropy/experimental/peg.py:136-137 | a whole-text parse succeeds only with its cursor at the end of the text |
| Peg.ParseText | macropy/experimental/peg.py:103-144 | `parse` returns an output exactly when the whole-text parse succeeds, and that output is the parse's; it raises exactly when that parse fails, with that failure, its offset inside the text, the line `count('\n', 0, index) + 1`, the column macropy's code computes (0 exactly when the offset holds a newline) and the failure's trace; it crashes exactly when that parse aborts, for the same reason |
| Peg.ParseTextCorrected | macropy/experimental/peg.py:103-144 | the same answers as `parse`, tied to the whole-text parse in the same way, except that the raised column is the corrected one: the raised line is at least 1, and the raised line and column always lead back to the failure's offset |
| Engine.ParseInput | macropy/experimental/peg.py:187-364 | `parse_input` of every variant returns exactly the reference interpreter's result |
| Engine.ParseSeq | macropy/experimental/peg.py:214-238 | the sequence loop (cursor, outputs, overwritten bindings, `committed` after a cut) computes `Parse` of the sequence |
| Engine.ParseOr | macropy/experimental/peg.py:241-250 | the choice loop with early returns computes `Parse` of the choice |
| Engine.ParseAnd | macropy/experimental/peg.py:252-262 | running every conjunct, then picking the first failure or else the first result, computes `Parse` of the conjunction |
| Engine.ParseRep | macropy/experimental/peg.py:273-292 | the `while True` repetition loop computes `Parse` of the repetition, and stops where macropy's loop would run forever |
| Engine.ParseRepN | macropy/experimental/peg.py:295-313 | the loop over `range(n)` computes `Parse` of the counted repetition |
| Sequencing.FirstCut | macropy/experimental/peg.py:220-222 | the index of the first cut among the children, or their number; only real parsers come before it |
| Sequencing.Chain | macropy/experimental/peg.py:214-238 | reference sequencing: a success lists one output per parser and never moves the cursor back |
| Sequencing.SeqLoopIsChain | macropy/experimental/peg.py:216-238 | from any child on, the loop succeeds exactly when the chain of the remaining real children does, and then extends the outputs and bindings gathered so far with the chain's |
| Sequencing.SeqSuccessIsChain | macropy/experimental/peg.py:214-238 | a sequence succeeds exactly when its real children succeed one after another; its success is the chain's, with outputs in child order, later bindings winning, and the last child's cursor (the input itself when there are no real children) |
| Sequencing.SeqOutputLength | macropy/experimental/peg.py:233-238 | a successful sequence outputs one entry per child that is not a cut |
| Sequencing.SeqLaterBindingWins | macropy/experimental/peg.py:235-236 | when two children bind the same name, the later child's value is the one kept |
| Sequencing.CommittedNeverRecoverable | macropy/experimental/peg.py:220-231 | after a cut, the loop never yields a non-fatal failure |
| Sequencing.PrefixAgreesOnRecoverable | macropy/experimental/peg.py:220-231 | up to the first cut, the sequence and its children before the cut share every non-fatal failure |
| Sequencing.SeqLoopFailure | macropy/experimental/peg.py:216-231 | when the remaining real children do not succeed one after another, the loop passes an abort through; it returns a non-fatal child failure unchanged only when it is not yet committed and the failure falls before the next cut; every other failure becomes fatal, at the child's cursor, with the sequence ahead of the child's frames |
| Sequencing.SeqFailure | macropy/experimental/peg.py:214-231 | a failing sequence returns the chain's abort as it is, a non-fatal child failure before the first cut unchanged, and any other child failure as `Failure(child's cursor, [self] + child's frames, fatal)` |
| Sequencing.SeqCutRule | macropy/experimental/peg.py:220-231 | a sequence fails non-fatally only with the unchanged failure of one of its children, the chain's failure, and only through a child before its first cut, where it equals the failure of those children alone; once those children match, no failure of the sequence is recoverable |
| Sequencing.SeqLoopFatalFrame | macropy/experimental/peg.py:226-229 | every fatal failure of the loop has the sequence as its outermost frame |
| Sequencing.SeqFatalFrame | macropy/experimental/peg.py:226-229 | a fatal failure of a sequence comes from a failing child: it sits at the child's cursor and lists the sequence ahead of the child's frames |
| Choice.OrSkipsRecoverable | macropy/experimental/peg.py:243-249 | alternatives that fail non-fatally are skipped without effect |
| Choice.OrFirstDecisive | macropy/experimental/peg.py:241-250 | every alternative runs on the choice's own input; the first one that does not fail non-fatally decides: a success unchanged, a fatal failure with the choice prepended |
| Choice.OrRecoverableOnlyIfAll | macropy/experimental/peg.py:243-250 | the loop fails non-fatally only when every remaining alternative does, with `Failure(input, [self])` |
| Choice.OrAllFail | macropy/experimental/peg.py:241-250 | a choice fails non-fatally exactly when all its alternatives do, and then at its input with trace `[self]` |
| Choice.AndLoopConjoins | macropy/experimental/peg.py:253-262 | without aborts, the loop ends by choosing among the results of all conjuncts on the same input |
| Choice.AndIsConjoin | macropy/experimental/peg.py:252-262 | when no conjunct aborts, the conjunction's answer is decided by the outcomes of all its conjuncts on the same input, in order |
| Choice.AndFirstFailure | macropy/experimental/peg.py:252-262 | with every conjunct run on the same input: if none fails the answer is the first result, otherwise the first failure with the conjunction prepended; an empty conjunction raises |
| Choice.AndLoopFirstAbort | macropy/experimental/peg.py:254 | the first conjunct that does not return decides the loop, even after earlier failures |
| Choice.AndFirstAbort | macropy/experimental/peg.py:254 | the first conjunct that does not return decides the conjunction |
| Choice.AndIdempotent | macropy/experimental/peg.py:252-262 | a parser conjoined with itself behaves as the parser, apart from the extra failure frame |
| Choice.NotZeroWidth | macropy/experimental/peg.py:265-270 | `Not(p)` never moves the cursor; it succeeds with None and no bindings iff `p` fails, and fails non-fatally with trace `[self]` iff `p` succeeds |
| Choice.OptNeverRecoverable | macropy/experimental/peg.py:170-172 | `opt` never fails non-fatally; where its parser fails non-fatally it matches the empty text; otherwise it is its parser's answer, a fatal failure gaining `opt` as outer frame |
| Repetition.RepLoopPrefixed | macropy/experimental/peg.py:279-292 | the loop with outputs and lists already gathered is the fresh loop with those put in front |
| Repetition.RepUnfold | macropy/experimental/peg.py:273-292 | after a first iteration that consumes input, `Rep(p)` is `Rep(p)` from there, with that iteration's output and bindings put at the front of the lists |
| Repetition.RepZero | macropy/experimental/peg.py:280-285 | where the child fails non-fatally, the repetition succeeds with `[]`, no bindings and the unchanged input |
| Repetition.RepNoProgress | macropy/experimental/peg.py:279-292 | a child that succeeds without consuming makes the repetition run forever |
| Repetition.RepLoopShape | macropy/experimental/peg.py:279-292 | the loop fails only fatally, with the repetition as outermost frame; a success outputs a list and binds every name to a list |
| Repetition.RepShape | macropy/experimental/peg.py:273-292 | a repetition never fails non-fatally, and fails only fatally with `self` as the outermost frame; a success outputs a list and binds every name to a list; a first iteration that fails fatally or aborts is the answer, wrapped with `self` at the child's cursor |
| Repetition.RepNLoopPrefixed | macropy/experimental/peg.py:299-313 | the counted loop with outputs and binding lists already gathered is the loop from the same iteration started afresh, with those put in front |
| Repetition.RepNLoopShift | macropy/experimental/peg.py:299-313 | iteration `i + 1` of `n` runs succeeds exactly when iteration `i` of `n - 1` runs does, with the same result |
| Repetition.RepNUnfold | macropy/experimental/peg.py:295-313 | no runs is an empty success; after a successful first run, `RepN(p, n)` succeeds iff `RepN(p, n - 1)` does from where the first run stopped, and then has the first run's output and bindings at the front of the lists |
| Repetition.RepNLoopBindings | macropy/experimental/peg.py:308-309 | every name a successful counted loop binds maps to a list |
| Repetition.RepNLoopIsChain | macropy/experimental/peg.py:299-313 | from iteration `i`, the loop succeeds exactly when `n - i` further runs of the child succeed one after another, and otherwise returns their failure with `self` prepended |
| Repetition.RepNIsRepeatedChain | macropy/experimental/peg.py:295-313 | `RepN(p, n)` succeeds iff `n` consecutive runs of `p` succeed; it then outputs exactly `n` entries (none when `n <= 0`) and stops where they stop; any failure keeps its cursor and fatal flag, with `self` prepended |
| Repetition.Rep1NonEmpty | macropy/experimental/peg.py:162-164 | where `Rep(p)` matches at least once, `rep1` is that repetition's result; where `p` fails non-fatally, `rep1` fails with that failure and itself as outer frame; a success is the repetition's, and its list is non-empty, starting with the child's output |
| Primitives.RawMatches | macropy/experimental/peg.py:197-202 | a literal succeeds iff the text at the cursor holds it; it then outputs itself, binds nothing and advances by its length; otherwise it fails non-fatally at the input with trace `[self]` |
| Primitives.RegexMatches | macropy/experimental/peg.py:204-211 | a regex succeeds iff the matcher finds an anchored match in the rest of the text; it outputs the matched text and advances past it |
| Primitives.SucceedAndFail | macropy/experimental/peg.py:357-364 | `Succeed` outputs its value, binds nothing and does not consume; `Fail` is `Failure(input, [self], non-fatal)`, whose trace is empty |
| Primitives.FullRejectsTrailing | macropy/experimental/peg.py:187-193 | `Full(p)` succeeds iff `p` succeeds at the end of the text; trailing text gives a non-fatal `Failure(p's cursor, [self])`; anything else is `p`'s result unchanged |
| Primitives.ParseStringIsWholePartial | macropy/experimental/peg.py:133-137 | `parse_string` succeeds iff `parse_partial` succeeds and consumes the whole text, with the same result |
| Primitives.TransformMaps | macropy/experimental/peg.py:315-323 | a success has its output replaced by the callable's value, keeping bindings and cursor; a failure is wrapped |
| Primitives.TransformCompose | macropy/experimental/peg.py:315-323 | two transforms in a row apply their callables in order |
| Primitives.TransformBoundConsumes | macropy/experimental/peg.py:326-335 | the callable receives the bindings, and the result binds nothing |
| Primitives.BinderCaptures | macropy/experimental/peg.py:337-344 | `bind_to` binds the name to the output and keeps every other binding, output and cursor |
| Primitives.LazyDelegates | macropy/experimental/peg.py:346-354 | a rule reference returns its rule's success as it is; a failure keeps its cursor and fatal flag, gains the reference as outer frame, and its trace starts with the rule's name |
| Primitives.TraceAppend | macropy/experimental/peg.py:97-100 | traces of concatenated frame lists concatenate |
| Primitives.CorrectedColumnOnly | macropy/experimental/peg.py:108-125 | the corrected `parse` gives the same answer as macropy's `parse` except for the column of a raised error, which is the corrected column, and the two agree whenever the failure is not on a newline |
| Primitives.TraceNamesRules | macropy/experimental/peg.py:97-100 | a trace lists exactly the names of the rule references among the frames |
| Fuel.FuelMonotone | macropy/experimental/peg.py:346-354 | a parse that does not run out of fuel gives the same result with any larger fuel |
| Fuel.SeqLoopFuel | macropy/experimental/peg.py:216-238 | the same for the sequence loop |
| Fuel.OrLoopFuel | macropy/experimental/peg.py:242-250 | the same for the choice loop |
| Fuel.AndLoopFuel | macropy/experimental/peg.py:253-262 | the same for the conjunction loop |
| Fuel.RepLoopFuel | macropy/experimental/peg.py:274-292 | the same for the repetition loop |
| Fuel.RepNLoopFuel | macropy/experimental/peg.py:296-313 | the same for the counted loop |
| Fuel.ParseTextFuel | macropy/experimental/peg.py:139-144 | the answer of `parse` does not depend on the recursion bound once that bound lets it finish |
| Location.LastNewlineBefore | macropy/experimental/peg.py:110 | `rfind('\n', 0, end)`: the last newline before `end`, or -1, with no newline after it |
| Location.Line | macropy/experimental/peg.py:116 | the line is one more than the newlines before the offset, at least 1 and at most offset + 1 |
| Location.ColumnAsWritten | macropy/experimental/peg.py:110-119 | the column as macropy's code computes it; it is 0 exactly when the offset holds a newline |
| Location.Column | macropy/experimental/peg.py:110-119 | the 1-based column: the distance back to the last newline before the offset, with no newline in between |
| Location.LocateRoundTrip | macropy/experimental/peg.py:110-119 | starting at the reported line and moving to the reported column gives back the offset |
| Location.LineOneWithoutNewline | macropy/experimental/peg.py:116 | with no newline before the offset, the line is 1 |
| Location.NewlineColumnCounterexample | macropy/experimental/peg.py:110-119 | on "a\nb" at offset 1, macropy's code reports line 1, column 0, which does not locate the offset; the corrected column is 2 |
| Location.ColumnsAgreeOffNewline | macropy/experimental/peg.py:110-119 | away from newline characters macropy's column and the corrected column agree |
| Examples.LiteralExamples | macropy/experimental/peg.py:197-202 | "foo" matches "foo" and fails at offset 0 on "bar" and on "fo" |
| Examples.SeqBindingExample | macropy/experimental/peg.py:214-238 | two captures in sequence on "ab" output both literals and bind both names |
| Examples.CutExample | macropy/experimental/peg.py:220-231 | after a cut, the failure on "ac" is fatal and the second alternative is not tried; without the cut it is |
| Examples.RepExample | macropy/experimental/peg.py:273-292 | a repetition of "a" matches nothing on "" and two items on "aab" |
| Examples.RepNExample | macropy/experimental/peg.py:295-313 | three "x" fail on "xx" and succeed on "xxx" |
| Examples.FullExample | macropy/experimental/peg.py:133-137 | a partial parse of "a" on "ab" succeeds; a whole-text parse fails at offset 1 |
| Examples.BalancedExample | macropy/experimental/peg.py:346-354 | a recursive rule for balanced parentheses parses "()" |
| Examples.NestedExample | macropy/experimental/peg.py:346-354 | the same rule parses "(())" as one pair holding one pair |
| Examples.UnbalancedExample | macropy/experimental/peg.py:346-354 | the same rule refuses "(()": the whole-text parse fails non-fatally at offset 0 |
| Examples.RuleErrorExample | macropy/experimental/peg.py:98-125 | a failure inside rule `x` on "a" is raised at index 0, line 1, column 1, with `x` as its whole trace |
| Examples.NewlineLocation | macropy/experimental/peg.py:108-121 | just before the newline of "a\nb" the position is line 1, column 2, where macropy's computation gives column 0 |
| Examples.NewlineErrorExample | macropy/experimental/peg.py:103-125 | a whole-text parse of "a\nb" that stops before the newline is raised at index 1, line 1, column 0, with an empty trace |
| Examples.NewlineCorrectedExample | macropy/experimental/peg.py:103-125 | the corrected `parse` raises the same failure at line 1, column 2 |

## Left out

- The `peg` block and expression macros and `_PegWalker` (peg.py:14-66) are an AST rewrite, not parsing. The operator sugar (`&`, `|`, unary `-`, `rep`, `r`, `*`, `//`, `>>`) only builds a variant, and the model writes that variant directly.
- `__pow__` (peg.py:182) unpacks the output into the callable's positional arguments. The model has only the plain `Transform` with an uninterpreted callable.
- Regular expressions are not matched. `Regex` asks an uninterpreted matcher for the length of an anchored match. A reported length beyond the rest of the text counts as no match, which Python's `re.match` never reports.
- The callables of `Transform` and `TransformBound` are uninterpreted functions, named by a number. Python exceptions raised inside them are not modelled.
- The in-place updates of a child's success by `Transform` and `Binder` (peg.py:320, 341) are modelled as building a new result. No other code holds the old object, so the difference cannot be observed.
- `Lazy` replaces its thunk with the parser it returns (peg.py:348-349). The model looks the rule up by name in a grammar table instead. The frame label is `[name]`, as the `peg` macro sets it. A thunk that raises is modelled as `Aborted(UndefinedRule)`.
- Non-termination and exceptions are made explicit results: running out of the recursion bound, a `rep` whose child consumes nothing, an undefined rule, and an empty `And`. Python's recursion limit is not modelled; the model's fuel stands for it.
- `Engine.ParseInput`: the leaf variants `Raw`, `Regex`, `Succeed` and `Fail` are single expressions, so the method evaluates `Parse` for them rather than repeating the expression.
- The `print` in `Failure.trace` (peg.py:99) is console output.
- The snippet and caret of the `ParseError` message (peg.py:112-123) are cosmetic. Only the offset, line, column and trace are modelled.
- `Peg.ParseText` reports the column as the code computes it, `index - rfind('\n', 0, index + 1)`: 1-based, except 0 on a newline. `Peg.ParseTextCorrected` is the same answer with the corrected column (see Findings).
- `macropy/core/compat.py`, `macropy/core/test/walkers.py` and `macropy/sphinx/macro_domain.py` are not part of this model.

## Findings

| source | as written | input that shows it | evidently intended | confidence | as-written member | corrected member |
|---|---|---|---|---|---|---|
| macropy/experimental/peg.py:110-119 | the column is `index - rfind('\n', 0, index+1)`, a search that includes the character at the offset, while the line count (peg.py:116) excludes it | text "a\nb", failure at offset 1 (the newline): the error reports line 1, column 0 | the column within the line that the reported line names: here 2, so that line and column lead back to the offset | high (not executed) | Peg.ParseText, Location.ColumnAsWritten, Location.NewlineColumnCounterexample, Examples.NewlineErrorExample | Peg.ParseTextCorrected, Location.Column, Location.LocateRoundTrip, Examples.NewlineCorrectedExample |
