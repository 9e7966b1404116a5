/**
 * Cursor searches of the creation page: moving on after a typed letter, moving back on
 * Backspace, arrow-key steps, the highlighted run and the three-stage search behind Enter.
 * The source writes every search twice, once for 'across' (rows) and once for 'down'
 * (columns); here each is written once over (line, offset) coordinates of a Direction.
 */
module Navigation {
  import opened Grid

  /** A cell the search may stop at: open, and also letterless when `needEmpty`. */
  predicate Matches(g: Board, x: Pos, needEmpty: bool)
  {
    IsOpen(g, x) && (needEmpty ==> g[x.row][x.col].letter == "")
  }

  /** `q` is the first matching cell, in `ord` reading order, on a line numbered `fromLine` or later. */
  ghost predicate FirstIn(g: Board, ord: Direction, fromLine: int, needEmpty: bool, q: Pos)
  {
    && Matches(g, q, needEmpty) && Line(ord, q) >= fromLine
    && forall x :: Matches(g, x, needEmpty) && Line(ord, x) >= fromLine ==> !Before(ord, x, q)
  }

  /** No matching cell lies on a line numbered `fromLine` or later. */
  ghost predicate NoneIn(g: Board, ord: Direction, fromLine: int, needEmpty: bool)
  {
    forall x :: Matches(g, x, needEmpty) ==> Line(ord, x) < fromLine
  }

  /** `q` is the last matching cell, in `ord` reading order, on a line numbered `toLine` or earlier. */
  ghost predicate LastIn(g: Board, ord: Direction, toLine: int, needEmpty: bool, q: Pos)
  {
    && Matches(g, q, needEmpty) && Line(ord, q) <= toLine
    && forall x :: Matches(g, x, needEmpty) && Line(ord, x) <= toLine ==> !Before(ord, q, x)
  }

  /** No matching cell lies on a line numbered `toLine` or earlier. */
  ghost predicate NoneUpTo(g: Board, ord: Direction, toLine: int, needEmpty: bool)
  {
    forall x :: Matches(g, x, needEmpty) ==> Line(ord, x) > toLine
  }

  /** A matching cell lies inside the grid, so its line and offset are in range. */
  lemma MatchInRange(g: Board, rows: int, cols: int, ord: Direction, x: Pos, needEmpty: bool)
    requires IsRect(g, rows, cols) && Matches(g, x, needEmpty)
    ensures 0 <= Line(ord, x) < Lines(ord, rows, cols) && 0 <= Off(ord, x) < Length(ord, rows, cols)
  {
  }

  /**
   * Scans whole lines from `fromLine` on, each from its first offset, and returns the first
   * matching cell (the nested for-loops of the source's line-by-line searches).
   */
  method ScanFirst(g: Board, rows: int, cols: int, ord: Direction, fromLine: int, needEmpty: bool)
    returns (q: Option<Pos>)
    requires IsRect(g, rows, cols)
    ensures q.Some? ==> FirstIn(g, ord, fromLine, needEmpty, q.value)
    ensures q.None? ==> NoneIn(g, ord, fromLine, needEmpty)
  {
    var lines, len := Lines(ord, rows, cols), Length(ord, rows, cols);
    var ln := fromLine;
    while ln < lines
      invariant forall x :: Matches(g, x, needEmpty) && Line(ord, x) >= fromLine ==> Line(ord, x) >= ln
    {
      var o := 0;
      while o < len
        invariant forall x :: Matches(g, x, needEmpty) && Line(ord, x) >= fromLine ==>
          Line(ord, x) > ln || (Line(ord, x) == ln && Off(ord, x) >= o)
      {
        var x := At(ord, ln, o);
        if Matches(g, x, needEmpty) {
          return Some(x);
        }
        o := o + 1;
      }
      ln := ln + 1;
    }
    forall x | Matches(g, x, needEmpty)
      ensures Line(ord, x) < fromLine
    {
      MatchInRange(g, rows, cols, ord, x, needEmpty);
    }
    return None;
  }

  /**
   * Scans whole lines from `toLine` down to line 0, each from its last offset, and returns the
   * last matching cell in reading order (the backward loops of findPreviousAvailableCell).
   */
  method ScanLast(g: Board, rows: int, cols: int, ord: Direction, toLine: int, needEmpty: bool)
    returns (q: Option<Pos>)
    requires IsRect(g, rows, cols)
    ensures q.Some? ==> LastIn(g, ord, toLine, needEmpty, q.value)
    ensures q.None? ==> NoneUpTo(g, ord, toLine, needEmpty)
  {
    var len := Length(ord, rows, cols);
    var ln := toLine;
    while ln >= 0
      invariant forall x :: Matches(g, x, needEmpty) && Line(ord, x) <= toLine ==> Line(ord, x) <= ln
    {
      var o := len - 1;
      while o >= 0
        invariant forall x :: Matches(g, x, needEmpty) && Line(ord, x) <= toLine ==>
          Line(ord, x) < ln || (Line(ord, x) == ln && Off(ord, x) <= o)
      {
        var x := At(ord, ln, o);
        if Matches(g, x, needEmpty) {
          return Some(x);
        }
        o := o - 1;
      }
      ln := ln - 1;
    }
    forall x | Matches(g, x, needEmpty)
      ensures Line(ord, x) > toLine
    {
      MatchInRange(g, rows, cols, ord, x, needEmpty);
    }
    return None;
  }

  /**
   * The nearest open cell on `p`'s line beyond `p`, towards higher offsets when `forward`
   * and lower ones otherwise; None when a grid edge comes first. (The rest-of-line loops of
   * moveToNextCell and findPreviousAvailableCell and the four arrow-key loops.)
   */
  method StepAlong(g: Board, rows: int, cols: int, d: Direction, p: Pos, forward: bool)
    returns (q: Option<Pos>)
    requires IsRect(g, rows, cols) && Inside(g, p)
    ensures q.Some? ==> IsOpen(g, q.value) && Line(d, q.value) == Line(d, p)
    ensures q.Some? && forward ==> Off(d, q.value) > Off(d, p)
    ensures q.Some? && forward ==>
      forall o :: Off(d, p) < o < Off(d, q.value) ==> !IsOpen(g, At(d, Line(d, p), o))
    ensures q.Some? && !forward ==> Off(d, q.value) < Off(d, p)
    ensures q.Some? && !forward ==>
      forall o :: Off(d, q.value) < o < Off(d, p) ==> !IsOpen(g, At(d, Line(d, p), o))
    ensures q.None? && forward ==> forall o :: Off(d, p) < o ==> !IsOpen(g, At(d, Line(d, p), o))
    ensures q.None? && !forward ==> forall o :: o < Off(d, p) ==> !IsOpen(g, At(d, Line(d, p), o))
  {
    var line, len := Line(d, p), Length(d, rows, cols);
    if forward {
      var o := Off(d, p) + 1;
      while o < len
        invariant Off(d, p) < o
        invariant forall k :: Off(d, p) < k < o ==> !IsOpen(g, At(d, line, k))
      {
        if IsOpen(g, At(d, line, o)) {
          return Some(At(d, line, o));
        }
        o := o + 1;
      }
      forall k | Off(d, p) < k
        ensures !IsOpen(g, At(d, line, k))
      {
        if k >= o {
          assert Off(d, At(d, line, k)) >= len;
        }
      }
    } else {
      var o := Off(d, p) - 1;
      while o >= 0
        invariant o < Off(d, p)
        invariant forall k :: o < k < Off(d, p) ==> !IsOpen(g, At(d, line, k))
      {
        if IsOpen(g, At(d, line, o)) {
          return Some(At(d, line, o));
        }
        o := o - 1;
      }
    }
    return None;
  }

  /**
   * moveToNextCell: after a letter at `p`, the first open cell after `p` in reading order -
   * the rest of `p`'s line, then the following lines. None (the cursor stays) at the end.
   */
  method NextOpenAfter(g: Board, rows: int, cols: int, d: Direction, p: Pos) returns (q: Option<Pos>)
    requires IsRect(g, rows, cols) && Inside(g, p)
    ensures q.Some? ==> IsOpen(g, q.value) && Before(d, p, q.value)
    ensures q.Some? ==> forall x :: IsOpen(g, x) && Before(d, p, x) ==> !Before(d, x, q.value)
    ensures q.None? <==> forall x :: IsOpen(g, x) ==> !Before(d, p, x)
  {
    q := StepAlong(g, rows, cols, d, p, true);
    if q.Some? {
      forall x | IsOpen(g, x) && Before(d, p, x) && Before(d, x, q.value)
        ensures false
      {
        PosFromCoords(d, x);
      }
      return;
    }
    forall x | IsOpen(g, x) && Line(d, x) == Line(d, p)
      ensures Off(d, x) <= Off(d, p)
    {
      PosFromCoords(d, x);
    }
    q := ScanFirst(g, rows, cols, d, Line(d, p) + 1, false);
  }

  /**
   * findPreviousAvailableCell: the last open cell before `p` in reading order - the start of
   * `p`'s line backwards, then the earlier lines from their ends. None when there is none.
   */
  method PrevOpenBefore(g: Board, rows: int, cols: int, d: Direction, p: Pos) returns (q: Option<Pos>)
    requires IsRect(g, rows, cols) && Inside(g, p)
    ensures q.Some? ==> IsOpen(g, q.value) && Before(d, q.value, p)
    ensures q.Some? ==> forall x :: IsOpen(g, x) && Before(d, x, p) ==> !Before(d, q.value, x)
    ensures q.None? <==> forall x :: IsOpen(g, x) ==> !Before(d, x, p)
  {
    q := StepAlong(g, rows, cols, d, p, false);
    if q.Some? {
      forall x | IsOpen(g, x) && Before(d, x, p) && Before(d, q.value, x)
        ensures false
      {
        PosFromCoords(d, x);
      }
      return;
    }
    forall x | IsOpen(g, x) && Line(d, x) == Line(d, p)
      ensures Off(d, x) >= Off(d, p)
    {
      PosFromCoords(d, x);
    }
    q := ScanLast(g, rows, cols, d, Line(d, p) - 1, false);
  }

  /**
   * findConnectedCells: the offsets `start`..`end` of the maximal stretch along `p`'s line
   * whose cells, other than `p` itself, are open.
   */
  method ConnectedRun(g: Board, rows: int, cols: int, d: Direction, p: Pos) returns (start: int, end: int)
    requires IsRect(g, rows, cols) && Inside(g, p)
    ensures 0 <= start <= Off(d, p) <= end < Length(d, rows, cols)
    ensures forall o :: start <= o <= end && o != Off(d, p) ==> IsOpen(g, At(d, Line(d, p), o))
    ensures start == 0 || !IsOpen(g, At(d, Line(d, p), start - 1))
    ensures end == Length(d, rows, cols) - 1 || !IsOpen(g, At(d, Line(d, p), end + 1))
  {
    var line, len := Line(d, p), Length(d, rows, cols);
    start := Off(d, p);
    while start > 0 && IsOpen(g, At(d, line, start - 1))
      invariant 0 <= start <= Off(d, p)
      invariant forall o :: start <= o < Off(d, p) ==> IsOpen(g, At(d, line, o))
    {
      start := start - 1;
    }
    end := Off(d, p);
    while end < len - 1 && IsOpen(g, At(d, line, end + 1))
      invariant Off(d, p) <= end < len
      invariant forall o :: Off(d, p) < o <= end ==> IsOpen(g, At(d, line, o))
    {
      end := end + 1;
    }
  }

  /** Where Enter sends the cursor, and whether the direction flips. */
  datatype Jump = Jump(pos: Pos, switchDirection: bool)

  /**
   * findFirstCellInNextLine: first the first empty open cell on the lines after the cursor's
   * (rows below it for Across, columns to its right for Down); failing that the first empty
   * open cell of the whole grid in the other direction's order, switching direction; failing
   * that the first open cell in that order, switching direction; None only if all are blocked.
   */
  method FirstCellInNextLine(g: Board, rows: int, cols: int, d: Direction, p: Pos) returns (j: Option<Jump>)
    requires IsRect(g, rows, cols) && Inside(g, p)
    ensures !NoneIn(g, d, Line(d, p) + 1, true) ==>
      j.Some? && !j.value.switchDirection && FirstIn(g, d, Line(d, p) + 1, true, j.value.pos)
    ensures NoneIn(g, d, Line(d, p) + 1, true) && !NoneIn(g, Flip(d), 0, true) ==>
      j.Some? && j.value.switchDirection && FirstIn(g, Flip(d), 0, true, j.value.pos)
    ensures NoneIn(g, d, Line(d, p) + 1, true) && NoneIn(g, Flip(d), 0, true) && j.Some? ==>
      j.value.switchDirection && FirstIn(g, Flip(d), 0, false, j.value.pos)
    ensures j.Some? ==> IsOpen(g, j.value.pos)
    ensures j.None? <==> forall x :: !IsOpen(g, x)
  {
    var q := ScanFirst(g, rows, cols, d, Line(d, p) + 1, true);
    if q.Some? {
      return Some(Jump(q.value, false));
    }
    q := ScanFirst(g, rows, cols, Flip(d), 0, true);
    if q.Some? {
      return Some(Jump(q.value, true));
    }
    q := ScanFirst(g, rows, cols, Flip(d), 0, false);
    if q.Some? {
      return Some(Jump(q.value, true));
    }
    forall x | IsOpen(g, x)
      ensures false
    {
      MatchInRange(g, rows, cols, Flip(d), x, false);
    }
    return None;
  }
}
