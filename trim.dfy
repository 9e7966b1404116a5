/** `removeUnusedOuterRowsAndColumns`: before numbering, the creation page strips outer rows and
  * columns holding no letter, bottom rows first, then top rows, right columns and left
  * columns, never going below three rows or three columns. */
module Trim {
  import opened Grid

  /** `isDisabledCell`: blocked, or holding no letter. */
  predicate Disabled(c: Cell)
  {
    c.isBlocked || c.letter == ""
  }

  /** `row.every(isDisabledCell)`. */
  predicate RowDisabled(row: seq<Cell>)
  {
    forall i :: 0 <= i < |row| ==> Disabled(row[i])
  }

  /** The part of the original grid a trimmed grid still shows: `rows` x `cols` cells whose top
    * left corner is (`top`, `left`). */
  datatype Frame = Frame(top: int, left: int, rows: int, cols: int)

  /** The frame lies inside a `rows` x `cols` grid. */
  predicate FrameIn(f: Frame, rows: int, cols: int)
  {
    0 <= f.top && 0 <= f.rows && f.top + f.rows <= rows &&
    0 <= f.left && 0 <= f.cols && f.left + f.cols <= cols
  }

  /** The cells of `g` the frame shows. */
  function Window(g: Board, rows: int, cols: int, f: Frame): (h: Board)
    requires IsRect(g, rows, cols) && FrameIn(f, rows, cols)
    ensures IsRect(h, f.rows, f.cols)
    ensures forall i, j :: 0 <= i < f.rows && 0 <= j < f.cols ==> h[i][j] == g[f.top + i][f.left + j]
  {
    seq(f.rows, i requires 0 <= i < f.rows => g[f.top + i][f.left..f.left + f.cols])
  }

  /** Row `r` has no letter in columns `left` .. `left + n - 1`. */
  ghost predicate RowClear(g: Board, left: int, n: int, r: int)
  {
    forall c :: left <= c < left + n && 0 <= r < |g| && 0 <= c < |g[r]| ==> Disabled(g[r][c])
  }

  /** Column `c` has no letter in rows `top` .. `top + n - 1`. */
  ghost predicate ColClear(g: Board, top: int, n: int, c: int)
  {
    forall r :: top <= r < top + n && 0 <= r < |g| && 0 <= c < |g[r]| ==> Disabled(g[r][c])
  }

  /** The bottom loop: drop the frame's last row while more than three remain and it is clear. */
  ghost function CutBottom(g: Board, rows: int, cols: int, f: Frame): (e: Frame)
    requires IsRect(g, rows, cols) && FrameIn(f, rows, cols)
    ensures FrameIn(e, rows, cols) && e.top == f.top && e.left == f.left && e.cols == f.cols
    ensures e.rows <= f.rows
    decreases f.rows
  {
    if f.rows > 3 && RowClear(g, f.left, f.cols, f.top + f.rows - 1) then CutBottom(g, rows, cols, f.(rows := f.rows - 1)) else f
  }

  /** The top loop: drop the frame's first row while more than three remain and it is clear. */
  ghost function CutTop(g: Board, rows: int, cols: int, f: Frame): (e: Frame)
    requires IsRect(g, rows, cols) && FrameIn(f, rows, cols)
    ensures FrameIn(e, rows, cols) && e.left == f.left && e.cols == f.cols
    ensures e.top + e.rows == f.top + f.rows && e.top >= f.top
    decreases f.rows
  {
    if f.rows > 3 && RowClear(g, f.left, f.cols, f.top) then CutTop(g, rows, cols, f.(top := f.top + 1, rows := f.rows - 1)) else f
  }

  /** The right loop: drop the frame's last column while more than three remain and it is clear. */
  ghost function CutRight(g: Board, rows: int, cols: int, f: Frame): (e: Frame)
    requires IsRect(g, rows, cols) && FrameIn(f, rows, cols)
    ensures FrameIn(e, rows, cols) && e.top == f.top && e.rows == f.rows && e.left == f.left
    ensures e.cols <= f.cols
    decreases f.cols
  {
    if f.cols > 3 && ColClear(g, f.top, f.rows, f.left + f.cols - 1) then CutRight(g, rows, cols, f.(cols := f.cols - 1)) else f
  }

  /** The left loop: drop the frame's first column while more than three remain and it is clear. */
  ghost function CutLeft(g: Board, rows: int, cols: int, f: Frame): (e: Frame)
    requires IsRect(g, rows, cols) && FrameIn(f, rows, cols)
    ensures FrameIn(e, rows, cols) && e.top == f.top && e.rows == f.rows
    ensures e.left + e.cols == f.left + f.cols && e.left >= f.left
    decreases f.cols
  {
    if f.cols > 3 && ColClear(g, f.top, f.rows, f.left) then CutLeft(g, rows, cols, f.(left := f.left + 1, cols := f.cols - 1)) else f
  }

  /** The frame the single pass bottom, top, right, left leaves of a `rows` x `cols` grid. */
  ghost function TrimFrame(g: Board, rows: int, cols: int): (f: Frame)
    requires IsRect(g, rows, cols) && rows >= 0 && cols >= 0
    ensures FrameIn(f, rows, cols)
  {
    var full := Frame(0, 0, rows, cols);
    var afterRows := CutTop(g, rows, cols, CutBottom(g, rows, cols, full));
    CutLeft(g, rows, cols, CutRight(g, rows, cols, afterRows))
  }

  /** The window's row `i` is disabled exactly when that row of the original is clear across the frame. */
  lemma WindowRow(g: Board, rows: int, cols: int, f: Frame, i: int)
    requires IsRect(g, rows, cols) && FrameIn(f, rows, cols) && 0 <= i < f.rows
    ensures RowDisabled(Window(g, rows, cols, f)[i]) <==> RowClear(g, f.left, f.cols, f.top + i)
  {
    var h := Window(g, rows, cols, f);
    var r := f.top + i;
    if RowDisabled(h[i]) {
      forall c | f.left <= c < f.left + f.cols
        ensures Disabled(g[r][c])
      {
        assert h[i][c - f.left] == g[r][c];
      }
    }
  }

  /** The window's column `j` is disabled exactly when that column of the original is clear down the frame. */
  lemma WindowCol(g: Board, rows: int, cols: int, f: Frame, j: int)
    requires IsRect(g, rows, cols) && FrameIn(f, rows, cols) && 0 <= j < f.cols
    ensures (forall i :: 0 <= i < f.rows ==> Disabled(Window(g, rows, cols, f)[i][j])) <==>
      ColClear(g, f.top, f.rows, f.left + j)
  {
    var h := Window(g, rows, cols, f);
    if forall i :: 0 <= i < f.rows ==> Disabled(h[i][j]) {
      forall r | f.top <= r < f.top + f.rows
        ensures Disabled(g[r][f.left + j])
      {
        assert h[r - f.top][j] == g[r][f.left + j];
      }
    }
  }

  /** The bottom loop removes only clear rows and stops at three rows or at a row with a letter. */
  lemma {:induction false} CutBottomFacts(g: Board, rows: int, cols: int, f: Frame)
    requires IsRect(g, rows, cols) && FrameIn(f, rows, cols)
    ensures var e := CutBottom(g, rows, cols, f);
      (e.rows < f.rows ==> e.rows >= 3) &&
      (e.rows > 3 ==> !RowClear(g, e.left, e.cols, e.top + e.rows - 1)) &&
      forall r :: e.top + e.rows <= r < f.top + f.rows ==> RowClear(g, f.left, f.cols, r)
    decreases f.rows
  {
    if f.rows > 3 && RowClear(g, f.left, f.cols, f.top + f.rows - 1) {
      CutBottomFacts(g, rows, cols, f.(rows := f.rows - 1));
    }
  }

  /** The top loop removes only clear rows and stops at three rows or at a row with a letter. */
  lemma {:induction false} CutTopFacts(g: Board, rows: int, cols: int, f: Frame)
    requires IsRect(g, rows, cols) && FrameIn(f, rows, cols)
    ensures var e := CutTop(g, rows, cols, f);
      (e.rows < f.rows ==> e.rows >= 3) &&
      (e.rows > 3 ==> !RowClear(g, e.left, e.cols, e.top)) &&
      forall r :: f.top <= r < e.top ==> RowClear(g, f.left, f.cols, r)
    decreases f.rows
  {
    if f.rows > 3 && RowClear(g, f.left, f.cols, f.top) {
      CutTopFacts(g, rows, cols, f.(top := f.top + 1, rows := f.rows - 1));
    }
  }

  /** The right loop removes only clear columns and stops at three columns or at a column with a letter. */
  lemma {:induction false} CutRightFacts(g: Board, rows: int, cols: int, f: Frame)
    requires IsRect(g, rows, cols) && FrameIn(f, rows, cols)
    ensures var e := CutRight(g, rows, cols, f);
      (e.cols < f.cols ==> e.cols >= 3) &&
      (e.cols > 3 ==> !ColClear(g, e.top, e.rows, e.left + e.cols - 1)) &&
      forall c :: e.left + e.cols <= c < f.left + f.cols ==> ColClear(g, f.top, f.rows, c)
    decreases f.cols
  {
    if f.cols > 3 && ColClear(g, f.top, f.rows, f.left + f.cols - 1) {
      CutRightFacts(g, rows, cols, f.(cols := f.cols - 1));
    }
  }

  /** The left loop removes only clear columns and stops at three columns or at a column with a letter. */
  lemma {:induction false} CutLeftFacts(g: Board, rows: int, cols: int, f: Frame)
    requires IsRect(g, rows, cols) && FrameIn(f, rows, cols)
    ensures var e := CutLeft(g, rows, cols, f);
      (e.cols < f.cols ==> e.cols >= 3) &&
      (e.cols > 3 ==> !ColClear(g, e.top, e.rows, e.left)) &&
      forall c :: f.left <= c < e.left ==> ColClear(g, f.top, f.rows, c)
    decreases f.cols
  {
    if f.cols > 3 && ColClear(g, f.top, f.rows, f.left) {
      CutLeftFacts(g, rows, cols, f.(left := f.left + 1, cols := f.cols - 1));
    }
  }

  /** Trimming never goes below three rows or three columns, and leaves smaller grids alone. */
  lemma TrimBounds(g: Board, rows: int, cols: int)
    requires IsRect(g, rows, cols) && rows >= 0 && cols >= 0
    ensures var f := TrimFrame(g, rows, cols);
      (rows <= 3 ==> f.rows == rows) && (rows >= 3 ==> 3 <= f.rows <= rows) &&
      (cols <= 3 ==> f.cols == cols) && (cols >= 3 ==> 3 <= f.cols <= cols)
  {
    var b := CutBottom(g, rows, cols, Frame(0, 0, rows, cols));
    var t := CutTop(g, rows, cols, b);
    var r := CutRight(g, rows, cols, t);
    CutBottomFacts(g, rows, cols, Frame(0, 0, rows, cols));
    CutTopFacts(g, rows, cols, b);
    CutRightFacts(g, rows, cols, t);
    CutLeftFacts(g, rows, cols, r);
  }

  /** Every cell the trimmed grid no longer shows was blocked or empty: no letter is lost. */
  lemma TrimDropsOnlyDisabled(g: Board, rows: int, cols: int)
    requires IsRect(g, rows, cols) && rows >= 0 && cols >= 0
    ensures var f := TrimFrame(g, rows, cols);
      forall r, c :: 0 <= r < rows && 0 <= c < cols && !(f.top <= r < f.top + f.rows && f.left <= c < f.left + f.cols) ==>
        Disabled(g[r][c])
  {
    var full := Frame(0, 0, rows, cols);
    var b := CutBottom(g, rows, cols, full);
    var t := CutTop(g, rows, cols, b);
    var rt := CutRight(g, rows, cols, t);
    var f := CutLeft(g, rows, cols, rt);
    CutBottomFacts(g, rows, cols, full);
    CutTopFacts(g, rows, cols, b);
    CutRightFacts(g, rows, cols, t);
    CutLeftFacts(g, rows, cols, rt);
    forall r, c | 0 <= r < rows && 0 <= c < cols && !(f.top <= r < f.top + f.rows && f.left <= c < f.left + f.cols)
      ensures Disabled(g[r][c])
    {
      if r >= b.top + b.rows {
        assert RowClear(g, 0, cols, r);
      } else if r < t.top {
        assert RowClear(g, 0, cols, r);
      } else if c >= rt.left + rt.cols {
        assert ColClear(g, t.top, t.rows, c);
      } else {
        assert ColClear(g, t.top, t.rows, c);
      }
    }
  }

  /** A row with a letter inside the columns keeps it when only clear columns are cut away. */
  lemma RowStaysUsed(g: Board, rows: int, cols: int, a: Frame, e: Frame, r: int)
    requires IsRect(g, rows, cols) && FrameIn(a, rows, cols) && FrameIn(e, rows, cols)
    requires a.top <= r < a.top + a.rows && !RowClear(g, a.left, a.cols, r)
    requires a.left <= e.left && e.left + e.cols <= a.left + a.cols
    requires forall c :: a.left <= c < e.left ==> ColClear(g, a.top, a.rows, c)
    requires forall c :: e.left + e.cols <= c < a.left + a.cols ==> ColClear(g, a.top, a.rows, c)
    ensures !RowClear(g, e.left, e.cols, r)
  {
    var c :| a.left <= c < a.left + a.cols && !Disabled(g[r][c]);
    assert !ColClear(g, a.top, a.rows, c);
  }

  /** Once trimmed, every edge of a grid larger than three in that direction holds a letter. */
  lemma TrimEdgesUsed(g: Board, rows: int, cols: int)
    requires IsRect(g, rows, cols) && rows >= 0 && cols >= 0
    ensures var f := TrimFrame(g, rows, cols);
      (f.rows > 3 ==> !RowClear(g, f.left, f.cols, f.top) && !RowClear(g, f.left, f.cols, f.top + f.rows - 1)) &&
      (f.cols > 3 ==> !ColClear(g, f.top, f.rows, f.left) && !ColClear(g, f.top, f.rows, f.left + f.cols - 1))
  {
    var full := Frame(0, 0, rows, cols);
    var b := CutBottom(g, rows, cols, full);
    var t := CutTop(g, rows, cols, b);
    var rt := CutRight(g, rows, cols, t);
    var f := CutLeft(g, rows, cols, rt);
    CutBottomFacts(g, rows, cols, full);
    CutTopFacts(g, rows, cols, b);
    CutRightFacts(g, rows, cols, t);
    CutLeftFacts(g, rows, cols, rt);
    if f.rows > 3 {
      assert forall c :: t.left <= c < f.left ==> ColClear(g, t.top, t.rows, c) by {
        forall c | t.left <= c < f.left
          ensures ColClear(g, t.top, t.rows, c)
        {
          assert ColClear(g, rt.top, rt.rows, c);
        }
      }
      RowStaysUsed(g, rows, cols, t, f, t.top);
      RowStaysUsed(g, rows, cols, t, f, t.top + t.rows - 1);
    }
  }

  /** Row `i` of the window is clear exactly when that row of the original is clear across the frame. */
  lemma WindowRowClear(g: Board, rows: int, cols: int, f: Frame, i: int)
    requires IsRect(g, rows, cols) && FrameIn(f, rows, cols) && 0 <= i < f.rows
    ensures RowClear(Window(g, rows, cols, f), 0, f.cols, i) <==> RowClear(g, f.left, f.cols, f.top + i)
  {
    var h := Window(g, rows, cols, f);
    var r := f.top + i;
    if RowClear(h, 0, f.cols, i) {
      forall c | f.left <= c < f.left + f.cols
        ensures Disabled(g[r][c])
      {
        assert h[i][c - f.left] == g[r][c];
      }
    }
  }

  /** Column `j` of the window is clear exactly when that column of the original is clear down the frame. */
  lemma WindowColClear(g: Board, rows: int, cols: int, f: Frame, j: int)
    requires IsRect(g, rows, cols) && FrameIn(f, rows, cols) && 0 <= j < f.cols
    ensures ColClear(Window(g, rows, cols, f), 0, f.rows, j) <==> ColClear(g, f.top, f.rows, f.left + j)
  {
    var h := Window(g, rows, cols, f);
    var c := f.left + j;
    if ColClear(h, 0, f.rows, j) {
      forall r | f.top <= r < f.top + f.rows
        ensures Disabled(g[r][c])
      {
        assert h[r - f.top][j] == g[r][c];
      }
    }
  }

  /** The trimmed grid's first and last rows hold a letter, so neither row loop cuts it again. */
  lemma TrimKeepsRows(g: Board, rows: int, cols: int)
    requires IsRect(g, rows, cols) && rows >= 0 && cols >= 0
    ensures var f := TrimFrame(g, rows, cols); var h := Window(g, rows, cols, f);
      CutBottom(h, f.rows, f.cols, Frame(0, 0, f.rows, f.cols)) == Frame(0, 0, f.rows, f.cols) &&
      CutTop(h, f.rows, f.cols, Frame(0, 0, f.rows, f.cols)) == Frame(0, 0, f.rows, f.cols)
  {
    var f := TrimFrame(g, rows, cols);
    TrimEdgesUsed(g, rows, cols);
    if f.rows > 3 {
      WindowRowClear(g, rows, cols, f, 0);
      WindowRowClear(g, rows, cols, f, f.rows - 1);
    }
  }

  /** The trimmed grid's first and last columns hold a letter, so neither column loop cuts it again. */
  lemma TrimKeepsCols(g: Board, rows: int, cols: int)
    requires IsRect(g, rows, cols) && rows >= 0 && cols >= 0
    ensures var f := TrimFrame(g, rows, cols); var h := Window(g, rows, cols, f);
      CutRight(h, f.rows, f.cols, Frame(0, 0, f.rows, f.cols)) == Frame(0, 0, f.rows, f.cols) &&
      CutLeft(h, f.rows, f.cols, Frame(0, 0, f.rows, f.cols)) == Frame(0, 0, f.rows, f.cols)
  {
    var f := TrimFrame(g, rows, cols);
    TrimEdgesUsed(g, rows, cols);
    if f.cols > 3 {
      WindowColClear(g, rows, cols, f, 0);
      WindowColClear(g, rows, cols, f, f.cols - 1);
    }
  }

  /** Trimming a trimmed grid removes nothing more. */
  lemma TrimIdempotent(g: Board, rows: int, cols: int)
    requires IsRect(g, rows, cols) && rows >= 0 && cols >= 0
    ensures var f := TrimFrame(g, rows, cols);
      TrimFrame(Window(g, rows, cols, f), f.rows, f.cols) == Frame(0, 0, f.rows, f.cols)
  {
    TrimKeepsRows(g, rows, cols);
    TrimKeepsCols(g, rows, cols);
  }

  /** Every row without its last cell. */
  function DropLastColumn(h: Board): (h': Board)
    requires forall i :: 0 <= i < |h| ==> |h[i]| > 0
    ensures |h'| == |h| && forall i :: 0 <= i < |h| ==> h'[i] == h[i][..|h[i]| - 1]
  {
    seq(|h|, i requires 0 <= i < |h| => h[i][..|h[i]| - 1])
  }

  /** Every row without its first cell. */
  function DropFirstColumn(h: Board): (h': Board)
    requires forall i :: 0 <= i < |h| ==> |h[i]| > 0
    ensures |h'| == |h| && forall i :: 0 <= i < |h| ==> h'[i] == h[i][1..]
  {
    seq(|h|, i requires 0 <= i < |h| => h[i][1..])
  }

  /** Dropping the last column of a window is the window one column narrower. */
  lemma WindowDropRight(g: Board, rows: int, cols: int, f: Frame)
    requires IsRect(g, rows, cols) && FrameIn(f, rows, cols) && f.cols > 0
    ensures DropLastColumn(Window(g, rows, cols, f)) == Window(g, rows, cols, f.(cols := f.cols - 1))
  {
    var h, e := Window(g, rows, cols, f), f.(cols := f.cols - 1);
    forall i | 0 <= i < f.rows
      ensures DropLastColumn(h)[i] == Window(g, rows, cols, e)[i]
    {
      assert h[i] == g[f.top + i][f.left..f.left + f.cols];
      assert h[i][..f.cols - 1] == g[f.top + i][f.left..f.left + f.cols - 1];
    }
  }

  /** Dropping the first column of a window is the window that starts one column further right. */
  lemma WindowDropLeft(g: Board, rows: int, cols: int, f: Frame)
    requires IsRect(g, rows, cols) && FrameIn(f, rows, cols) && f.cols > 0
    ensures DropFirstColumn(Window(g, rows, cols, f)) == Window(g, rows, cols, f.(left := f.left + 1, cols := f.cols - 1))
  {
    var h, e := Window(g, rows, cols, f), f.(left := f.left + 1, cols := f.cols - 1);
    forall i | 0 <= i < f.rows
      ensures DropFirstColumn(h)[i] == Window(g, rows, cols, e)[i]
    {
      assert h[i] == g[f.top + i][f.left..f.left + f.cols];
      assert h[i][1..] == g[f.top + i][f.left + 1..f.left + f.cols];
    }
  }

  /** One pass of the bottom loop: a clear last row goes, and what is left trims the same. */
  lemma BottomStep(g: Board, rows: int, cols: int, f: Frame)
    requires IsRect(g, rows, cols) && FrameIn(f, rows, cols) && f.rows > 3
    requires RowDisabled(Window(g, rows, cols, f)[f.rows - 1])
    ensures Window(g, rows, cols, f)[..f.rows - 1] == Window(g, rows, cols, f.(rows := f.rows - 1))
    ensures CutBottom(g, rows, cols, f.(rows := f.rows - 1)) == CutBottom(g, rows, cols, f)
  {
    WindowRow(g, rows, cols, f, f.rows - 1);
  }

  /** The bottom loop stops exactly where `CutBottom` stops. */
  lemma BottomStop(g: Board, rows: int, cols: int, f: Frame)
    requires IsRect(g, rows, cols) && FrameIn(f, rows, cols)
    requires f.rows > 3 ==> !RowDisabled(Window(g, rows, cols, f)[f.rows - 1])
    ensures CutBottom(g, rows, cols, f) == f
  {
    if f.rows > 3 {
      WindowRow(g, rows, cols, f, f.rows - 1);
    }
  }

  /** The first loop of `removeUnusedOuterRowsAndColumns`: remove bottom rows. */
  method RemoveBottomRows(ghost g: Board, ghost rows: int, ghost cols: int, ghost f: Frame, h: Board, n: int)
      returns (h': Board, n': int, removed: bool)
    requires IsRect(g, rows, cols) && FrameIn(f, rows, cols)
    requires h == Window(g, rows, cols, f) && n == f.rows
    ensures var e := CutBottom(g, rows, cols, f); h' == Window(g, rows, cols, e) && n' == e.rows
    ensures removed <==> n' != n
  {
    h', n', removed := h, n, false;
    ghost var cur := f;
    while n' > 3 && RowDisabled(h'[n' - 1])
      invariant FrameIn(cur, rows, cols) && cur.top == f.top && cur.left == f.left && cur.cols == f.cols
      invariant h' == Window(g, rows, cols, cur) && n' == cur.rows
      invariant CutBottom(g, rows, cols, cur) == CutBottom(g, rows, cols, f)
      invariant removed <==> n' != n
      decreases n'
    {
      BottomStep(g, rows, cols, cur);
      cur := cur.(rows := cur.rows - 1);
      h' := h'[..|h'| - 1];
      n' := n' - 1;
      removed := true;
    }
    BottomStop(g, rows, cols, cur);
  }

  /** One pass of the top loop: a clear first row goes, and what is left trims the same. */
  lemma TopStep(g: Board, rows: int, cols: int, f: Frame)
    requires IsRect(g, rows, cols) && FrameIn(f, rows, cols) && f.rows > 3
    requires RowDisabled(Window(g, rows, cols, f)[0])
    ensures Window(g, rows, cols, f)[1..] == Window(g, rows, cols, f.(top := f.top + 1, rows := f.rows - 1))
    ensures CutTop(g, rows, cols, f.(top := f.top + 1, rows := f.rows - 1)) == CutTop(g, rows, cols, f)
  {
    WindowRow(g, rows, cols, f, 0);
  }

  /** The top loop stops exactly where `CutTop` stops. */
  lemma TopStop(g: Board, rows: int, cols: int, f: Frame)
    requires IsRect(g, rows, cols) && FrameIn(f, rows, cols)
    requires f.rows > 3 ==> !RowDisabled(Window(g, rows, cols, f)[0])
    ensures CutTop(g, rows, cols, f) == f
  {
    if f.rows > 3 {
      WindowRow(g, rows, cols, f, 0);
    }
  }

  /** The second loop: remove top rows. */
  method RemoveTopRows(ghost g: Board, ghost rows: int, ghost cols: int, ghost f: Frame, h: Board, n: int)
      returns (h': Board, n': int, removed: bool)
    requires IsRect(g, rows, cols) && FrameIn(f, rows, cols)
    requires h == Window(g, rows, cols, f) && n == f.rows
    ensures var e := CutTop(g, rows, cols, f); h' == Window(g, rows, cols, e) && n' == e.rows
    ensures removed <==> n' != n
  {
    h', n', removed := h, n, false;
    ghost var cur := f;
    while n' > 3 && RowDisabled(h'[0])
      invariant FrameIn(cur, rows, cols) && cur.left == f.left && cur.cols == f.cols
      invariant h' == Window(g, rows, cols, cur) && n' == cur.rows
      invariant CutTop(g, rows, cols, cur) == CutTop(g, rows, cols, f)
      invariant removed <==> n' != n
      decreases n'
    {
      TopStep(g, rows, cols, cur);
      cur := cur.(top := cur.top + 1, rows := cur.rows - 1);
      h' := h'[1..];
      n' := n' - 1;
      removed := true;
    }
    TopStop(g, rows, cols, cur);
  }

  /** `grid.every(row => isDisabledCell(row[j]))`: column `j` of `h` is disabled. */
  predicate ColDisabled(h: Board, j: int)
  {
    forall i :: 0 <= i < |h| && 0 <= j < |h[i]| ==> Disabled(h[i][j])
  }

  /** One pass of the right loop: a clear last column goes, and what is left trims the same. */
  lemma RightStep(g: Board, rows: int, cols: int, f: Frame)
    requires IsRect(g, rows, cols) && FrameIn(f, rows, cols) && f.cols > 3
    requires ColDisabled(Window(g, rows, cols, f), f.cols - 1)
    ensures DropLastColumn(Window(g, rows, cols, f)) == Window(g, rows, cols, f.(cols := f.cols - 1))
    ensures CutRight(g, rows, cols, f.(cols := f.cols - 1)) == CutRight(g, rows, cols, f)
  {
    WindowCol(g, rows, cols, f, f.cols - 1);
    WindowDropRight(g, rows, cols, f);
  }

  /** The right loop stops exactly where `CutRight` stops. */
  lemma RightStop(g: Board, rows: int, cols: int, f: Frame)
    requires IsRect(g, rows, cols) && FrameIn(f, rows, cols)
    requires f.cols > 3 ==> !ColDisabled(Window(g, rows, cols, f), f.cols - 1)
    ensures CutRight(g, rows, cols, f) == f
  {
    if f.cols > 3 {
      WindowCol(g, rows, cols, f, f.cols - 1);
    }
  }

  /** The third loop: remove rightmost columns. */
  method RemoveRightColumns(ghost g: Board, ghost rows: int, ghost cols: int, ghost f: Frame, h: Board, n: int)
      returns (h': Board, n': int, removed: bool)
    requires IsRect(g, rows, cols) && FrameIn(f, rows, cols)
    requires h == Window(g, rows, cols, f) && n == f.cols
    ensures var e := CutRight(g, rows, cols, f); h' == Window(g, rows, cols, e) && n' == e.cols
    ensures removed <==> n' != n
  {
    h', n', removed := h, n, false;
    ghost var cur := f;
    while n' > 3 && ColDisabled(h', n' - 1)
      invariant FrameIn(cur, rows, cols) && cur.top == f.top && cur.rows == f.rows && cur.left == f.left
      invariant h' == Window(g, rows, cols, cur) && n' == cur.cols
      invariant CutRight(g, rows, cols, cur) == CutRight(g, rows, cols, f)
      invariant removed <==> n' != n
      decreases n'
    {
      RightStep(g, rows, cols, cur);
      cur := cur.(cols := cur.cols - 1);
      h' := DropLastColumn(h');
      n' := n' - 1;
      removed := true;
    }
    RightStop(g, rows, cols, cur);
  }

  /** One pass of the left loop: a clear first column goes, and what is left trims the same. */
  lemma LeftStep(g: Board, rows: int, cols: int, f: Frame)
    requires IsRect(g, rows, cols) && FrameIn(f, rows, cols) && f.cols > 3
    requires ColDisabled(Window(g, rows, cols, f), 0)
    ensures DropFirstColumn(Window(g, rows, cols, f)) == Window(g, rows, cols, f.(left := f.left + 1, cols := f.cols - 1))
    ensures CutLeft(g, rows, cols, f.(left := f.left + 1, cols := f.cols - 1)) == CutLeft(g, rows, cols, f)
  {
    WindowCol(g, rows, cols, f, 0);
    WindowDropLeft(g, rows, cols, f);
  }

  /** The left loop stops exactly where `CutLeft` stops. */
  lemma LeftStop(g: Board, rows: int, cols: int, f: Frame)
    requires IsRect(g, rows, cols) && FrameIn(f, rows, cols)
    requires f.cols > 3 ==> !ColDisabled(Window(g, rows, cols, f), 0)
    ensures CutLeft(g, rows, cols, f) == f
  {
    if f.cols > 3 {
      WindowCol(g, rows, cols, f, 0);
    }
  }

  /** The fourth loop: remove leftmost columns. */
  method RemoveLeftColumns(ghost g: Board, ghost rows: int, ghost cols: int, ghost f: Frame, h: Board, n: int)
      returns (h': Board, n': int, removed: bool)
    requires IsRect(g, rows, cols) && FrameIn(f, rows, cols)
    requires h == Window(g, rows, cols, f) && n == f.cols
    ensures var e := CutLeft(g, rows, cols, f); h' == Window(g, rows, cols, e) && n' == e.cols
    ensures removed <==> n' != n
  {
    h', n', removed := h, n, false;
    ghost var cur := f;
    while n' > 3 && ColDisabled(h', 0)
      invariant FrameIn(cur, rows, cols) && cur.top == f.top && cur.rows == f.rows
      invariant h' == Window(g, rows, cols, cur) && n' == cur.cols
      invariant CutLeft(g, rows, cols, cur) == CutLeft(g, rows, cols, f)
      invariant removed <==> n' != n
      decreases n'
    {
      LeftStep(g, rows, cols, cur);
      cur := cur.(left := cur.left + 1, cols := cur.cols - 1);
      h' := DropFirstColumn(h');
      n' := n' - 1;
      removed := true;
    }
    LeftStop(g, rows, cols, cur);
  }

  /** `removeUnusedOuterRowsAndColumns`: the trimmed grid is the window of the original grid
    * that the four loops leave, and `changed` says whether anything was removed. */
  method RemoveUnusedOuterRowsAndColumns(g: Board, rows: int, cols: int)
      returns (h: Board, newRows: int, newCols: int, changed: bool)
    requires IsRect(g, rows, cols) && rows >= 0 && cols >= 0
    ensures var f := TrimFrame(g, rows, cols); h == Window(g, rows, cols, f) && newRows == f.rows && newCols == f.cols
    ensures IsRect(h, newRows, newCols)
    ensures changed <==> (newRows, newCols) != (rows, cols)
  {
    ghost var f := Frame(0, 0, rows, cols);
    assert forall r :: 0 <= r < rows ==> g[r][0..cols] == g[r];
    assert g == Window(g, rows, cols, f);
    var b, t, r, l: bool;
    h, newRows, b := RemoveBottomRows(g, rows, cols, f, g, rows);
    f := CutBottom(g, rows, cols, f);
    h, newRows, t := RemoveTopRows(g, rows, cols, f, h, newRows);
    f := CutTop(g, rows, cols, f);
    h, newCols, r := RemoveRightColumns(g, rows, cols, f, h, cols);
    f := CutRight(g, rows, cols, f);
    h, newCols, l := RemoveLeftColumns(g, rows, cols, f, h, newCols);
    changed := b || t || r || l;
  }
}
