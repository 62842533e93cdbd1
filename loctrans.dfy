/**
 * The location translator's conversion of a (line, column) position into
 * an offset (services/monto3-loctrans/src/main.rs, `one_pos_to_byte`).
 * Lines count from 1, columns from 0, and the offset counts characters:
 * the character at the position is included.
 */
module LocTrans {
  import opened Wrappers

  const LINE_ZERO: string := "Line must not be 0"
  const NO_COLUMN: string := "No such position (col)"
  const NO_POSITION: string := "No such position"

  /** The number of newlines in a text. */
  function Newlines(t: string): nat {
    if |t| == 0 then 0 else Newlines(t[..|t| - 1]) + (if t[|t| - 1] == '\n' then 1 else 0)
  }

  /** Counting from the front gives the same number. */
  lemma {:induction false} NewlinesFront(t: string)
    requires |t| > 0
    ensures Newlines(t) == (if t[0] == '\n' then 1 else 0) + Newlines(t[1..])
  {
    if |t| > 1 {
      NewlinesFront(t[..|t| - 1]);
      assert t[..|t| - 1][1..] == t[1..][..|t[1..]| - 1];
    } else {
      assert t[..|t| - 1] == [];
    }
  }

  /** A text has no more newlines than any text it is a prefix of. */
  lemma {:induction false} NewlinesPrefix(t: string, k: nat)
    requires k <= |t|
    ensures Newlines(t[..k]) <= Newlines(t)
    decreases |t|
  {
    if k < |t| {
      NewlinesPrefix(t[..|t| - 1], k);
      assert t[..|t| - 1][..k] == t[..k];
    } else {
      assert t[..k] == t;
    }
  }

  /** The offset at which line `line` (counting from 0) starts: just after
   *  its `line`-th newline. There is none when the text has fewer
   *  newlines. */
  function LineStart(buf: string, line: nat): (r: Option<nat>)
    ensures r.Some? ==> r.value <= |buf| && Newlines(buf[..r.value]) == line &&
                        (r.value == 0 || buf[r.value - 1] == '\n')
    ensures r.None? <==> Newlines(buf) < line
  {
    if line == 0 then
      assert buf[..0] == [];
      Some(0)
    else if |buf| == 0 then None
    else
      var rest := LineStart(buf[1..], if buf[0] == '\n' then line - 1 else line);
      NewlinesFront(buf);
      match rest
      case None => None
      case Some(s) =>
        assert buf[..s + 1][1..] == buf[1..][..s];
        NewlinesFront(buf[..s + 1]);
        assert s > 0 ==> buf[s] == buf[1..][s - 1];
        Some(s + 1)
  }

  /** A newline between two offsets makes the longer prefix hold more
   *  newlines. */
  lemma NewlineBetween(buf: string, a: nat, b: nat)
    ensures a < b <= |buf| && buf[b - 1] == '\n' ==> Newlines(buf[..a]) < Newlines(buf[..b])
  {
    if a < b <= |buf| && buf[b - 1] == '\n' {
      assert buf[..b][..b - 1] == buf[..b - 1];
      NewlinesPrefix(buf[..b - 1], a);
      assert buf[..b - 1][..a] == buf[..a];
    }
  }

  /** A line start is determined by the number of newlines before it. */
  lemma LineStartUnique(buf: string, line: nat, s: nat)
    requires s <= |buf| && Newlines(buf[..s]) == line && (s == 0 || buf[s - 1] == '\n')
    ensures LineStart(buf, line) == Some(s)
  {
    NewlinesPrefix(buf, s);
    var t := LineStart(buf, line).value;
    NewlineBetween(buf, t, s);
    NewlineBetween(buf, s, t);
  }

  /** What `one_pos_to_byte` computes, stated through line starts: the
   *  offset just past the character `col` places into line `line`; the
   *  end of the text when that is where the position falls; an error for
   *  line 0, a missing line, a line too short, or a text too short. */
  function PositionOffset(buf: string, line: nat, col: nat): (r: Result<nat, string>)
    ensures r.Ok? ==> r.value <= |buf|
    ensures r.Err? ==> r.error in {LINE_ZERO, NO_COLUMN, NO_POSITION}
  {
    if line == 0 then Err(LINE_ZERO)
    else
      match LineStart(buf, line - 1)
      case None => Err(NO_POSITION)
      case Some(s) =>
        if exists j :: s <= j < s + col && j < |buf| && buf[j] == '\n' then Err(NO_COLUMN)
        else if s + col > |buf| then Err(NO_POSITION)
        else if s + col < |buf| then Ok(s + col + 1)
        else Ok(s + col)
  }

  /** Within the target line, reaching the column before any newline
   *  gives the offset just past it. */
  lemma AtColumn(buf: string, line: nat, col: nat, start: nat, i: nat)
    requires line > 0 && LineStart(buf, line - 1) == Some(start)
    requires start <= i < |buf| && i - start == col
    requires forall j :: start <= j < i ==> buf[j] != '\n'
    ensures PositionOffset(buf, line, col) == Ok(i + 1)
  {
  }

  /** Within the target line, a newline before the column is reached is a
   *  column error. */
  lemma NewlineBeforeColumn(buf: string, line: nat, col: nat, start: nat, i: nat)
    requires line > 0 && LineStart(buf, line - 1) == Some(start)
    requires start <= i < |buf| && i - start < col && buf[i] == '\n'
    ensures PositionOffset(buf, line, col) == Err(NO_COLUMN)
  {
  }

  /** Running out of text inside the target line: the end of the text when
   *  the column is reached exactly there, otherwise no such position. */
  lemma EndInLine(buf: string, line: nat, col: nat, start: nat)
    requires line > 0 && LineStart(buf, line - 1) == Some(start)
    requires start <= |buf| && |buf| - start <= col
    requires forall j :: start <= j < |buf| ==> buf[j] != '\n'
    ensures PositionOffset(buf, line, col) == if |buf| - start == col then Ok(|buf|) else Err(NO_POSITION)
  {
  }

  /** Running out of text before the target line. */
  lemma EndBeforeLine(buf: string, line: nat, col: nat)
    requires line > 0 && Newlines(buf) < line - 1
    ensures PositionOffset(buf, line, col) == Err(NO_POSITION)
  {
  }

  /** `one_pos_to_byte`: one pass over the characters, counting each one
   *  before looking at it, first counting down the lines and then the
   *  columns. */
  method OnePosToByte(buf: string, line: nat, col: nat) returns (r: Result<nat, string>)
    ensures r == PositionOffset(buf, line, col)
  {
    var n := 0;
    if line == 0 {
      return Err(LINE_ZERO);
    }
    var curLine: nat := line - 1;
    var curCol: nat := col;
    ghost var start: nat := 0;
    var i := 0;
    assert buf[..0] == [];
    while i < |buf|
      invariant 0 <= i <= |buf| && n == i
      invariant curLine <= line - 1
      invariant curLine > 0 ==> Newlines(buf[..i]) + curLine == line - 1 && curCol == col
      invariant curLine == 0 ==>
        LineStart(buf, line - 1) == Some(start) && start <= i && i - start <= col &&
        curCol == col - (i - start) && forall j :: start <= j < i ==> buf[j] != '\n'
    {
      assert buf[..i + 1][..i] == buf[..i];
      var c := buf[i];
      n := n + 1;
      if curLine == 0 {
        if curCol == 0 {
          AtColumn(buf, line, col, start, i);
          return Ok(n);
        } else if c == '\n' {
          NewlineBeforeColumn(buf, line, col, start, i);
          return Err(NO_COLUMN);
        } else {
          curCol := curCol - 1;
        }
      } else if c == '\n' {
        curLine := curLine - 1;
        if curLine == 0 {
          start := i + 1;
          LineStartUnique(buf, line - 1, start);
        }
      }
      i := i + 1;
    }
    assert buf[..|buf|] == buf;
    if curLine == 0 {
      EndInLine(buf, line, col, start);
    } else {
      EndBeforeLine(buf, line, col);
    }
    if curLine == 0 && curCol == 0 {
      return Ok(n);
    } else {
      return Err(NO_POSITION);
    }
  }

  /** Line 0 is refused; the first character of a non-empty text is at
   *  offset 1; a position past a newline is refused as a column error,
   *  also for the text of the crate's own unit test, where the test
   *  expects the offset 5 instead. */
  lemma PositionExamples(buf: string)
    ensures PositionOffset(buf, 0, 0) == Err(LINE_ZERO)
    ensures |buf| > 0 ==> PositionOffset(buf, 1, 0) == Ok(1)
    ensures PositionOffset("a\nb", 1, 2) == Err(NO_COLUMN)
    ensures PositionOffset("a\nb", 2, 0) == Ok(3)
    ensures PositionOffset("a\n    fxfqw", 1, 2) == Err(NO_COLUMN)
  {
    assert "a\n    fxfqw"[1] == '\n';
    assert LineStart("a\nb", 1) == Some(2) by {
      assert "a\nb"[..2] == "a\n";
      assert "a\n"[..1] == "a";
      assert "a"[..0] == [];
      LineStartUnique("a\nb", 1, 2);
    }
    assert "a\nb"[1] == '\n';
  }
}
