/**
 * Line and column of a failure offset, as the parse error reports them.
 *
 * The line is one more than the number of newlines before the offset. The
 * column counts from 1: it is the distance from the last newline before the
 * offset (or from the virtual newline at -1). `ColumnAsWritten` is
 * macropy's computation, whose newline search also looks AT the offset; the
 * two disagree exactly on a newline character.
 */
module Location {

  /** Number of newline characters in `s` (Python's `s.count('\n')`). */
  function CountNewlines(s: string): (n: nat)
    ensures n <= |s|
  {
    if s == [] then 0 else (if s[0] == '\n' then 1 else 0) + CountNewlines(s[1..])
  }

  /** Python's `s.rfind('\n', 0, end)`: the last newline strictly before
      `end` (clamped to the length of `s`), or -1 if there is none. */
  function LastNewlineBefore(s: string, end: nat): (k: int)
    ensures -1 <= k < |s| && k < end
    ensures k >= 0 ==> s[k] == '\n'
    ensures forall j :: k < j < end && j < |s| ==> s[j] != '\n'
    decreases end
  {
    if |s| < end then LastNewlineBefore(s, |s|)
    else if end == 0 then -1
    else if s[end - 1] == '\n' then end - 1
    else LastNewlineBefore(s, end - 1)
  }

  /** 1-based line of `index`: newlines strictly before it, plus one. */
  function Line(s: string, index: nat): (line: nat)
    requires index <= |s|
    ensures 1 <= line <= index + 1
  {
    CountNewlines(s[..index]) + 1
  }

  /** The column as macropy's code computes it: `index - s.rfind('\n', 0, index + 1)`. */
  function ColumnAsWritten(s: string, index: nat): (col: int)
    requires index <= |s|
    ensures 0 <= col <= index + 1
    ensures col == 0 <==> index < |s| && s[index] == '\n'
  {
    index - LastNewlineBefore(s, index + 1)
  }

  /** The column counting from 1 within the line that contains `index`. */
  function Column(s: string, index: nat): (col: int)
    requires index <= |s|
    ensures 1 <= col <= index + 1
    ensures forall j :: index - col < j < index ==> s[j] != '\n'
    ensures index - col == -1 || s[index - col] == '\n'
  {
    index - LastNewlineBefore(s, index)
  }

  /** Offset of the first character of 1-based line `line`, found by scanning
      from the front of the text: an independent inverse of `Line`. */
  function LineStart(s: string, line: nat): int
    requires line >= 1
  {
    if line == 1 || s == [] then 0
    else if s[0] == '\n' then 1 + LineStart(s[1..], line - 1)
    else 1 + LineStart(s[1..], line)
  }

  /** Dropping the first character shifts the last newline before `end` by one. */
  lemma {:induction false} LastNewlineShift(s: string, end: nat)
    requires 1 <= end <= |s|
    ensures LastNewlineBefore(s, end) ==
      if s[0] == '\n' || LastNewlineBefore(s[1..], end - 1) >= 0
      then LastNewlineBefore(s[1..], end - 1) + 1
      else -1
  {
    var k := LastNewlineBefore(s, end);
    var k' := LastNewlineBefore(s[1..], end - 1);
    if k >= 1 {
      assert s[1..][k - 1] == '\n';
    }
    if k' >= 0 {
      assert s[k' + 1] == '\n';
    }
  }

  /** Reading the text from the front, the line of an offset and the column
      the model reports locate exactly that offset again. */
  lemma {:induction false} LocateRoundTrip(s: string, index: nat)
    requires index <= |s|
    ensures LineStart(s, Line(s, index)) + Column(s, index) - 1 == index
  {
    if index == 0 {
      assert s[..0] == [];
    } else {
      assert s[..index][1..] == s[1..][..index - 1];
      LastNewlineShift(s, index);
      LocateRoundTrip(s[1..], index - 1);
      if s[0] != '\n' && LastNewlineBefore(s[1..], index - 1) < 0 {
        LineOneWithoutNewline(s[1..], index - 1);
      }
    }
  }

  /** With no newline before `index`, the offset lies on line 1. */
  lemma {:induction false} LineOneWithoutNewline(s: string, index: nat)
    requires index <= |s|
    requires LastNewlineBefore(s, index) < 0
    ensures Line(s, index) == 1
  {
    if index > 0 {
      assert s[..index][1..] == s[1..][..index - 1];
      assert s[0] != '\n';
      LastNewlineShift(s, index);
      LineOneWithoutNewline(s[1..], index - 1);
    } else {
      assert s[..0] == [];
    }
  }

  /** macropy's column at an offset holding a newline is 0: the reported
      line then names the line that newline ends, yet the column has already
      restarted, so line and column no longer locate the offset. */
  lemma NewlineColumnCounterexample()
    ensures var s := "a\nb";
      && Line(s, 1) == 1 && ColumnAsWritten(s, 1) == 0
      && Column(s, 1) == 2
      && LineStart(s, Line(s, 1)) + ColumnAsWritten(s, 1) - 1 != 1
  {
    var s := "a\nb";
    assert s[..1] == "a";
    assert LastNewlineBefore(s, 2) == 1;
    assert LastNewlineBefore(s, 1) == -1;
  }

  /** Away from newline characters the two computations agree. */
  lemma ColumnsAgreeOffNewline(s: string, index: nat)
    requires index <= |s|
    requires index == |s| || s[index] != '\n'
    ensures ColumnAsWritten(s, index) == Column(s, index)
  {
  }
}
