/** The creation page's editor: the grid being drawn, the selected cell and typing direction,
  * the keyboard, the row and column buttons, the step from drawing to writing hints, and
  * publishing. */
module Editor {
  import opened Grid
  import opened Text
  import opened Navigation
  import opened Validation
  import opened Connectivity
  import opened Trim
  import opened Numbering
  import opened Hints

  /** `mode`: the grid is drawn while creating and frozen while hints are written. */
  datatype Mode = Creating | Hinting

  /** `crosswordData`: what is sent when the puzzle is published. */
  datatype CrosswordData = CrosswordData(title: string, description: string, cells: seq<seq<ApiCell>>,
                                         hints: seq<ApiHint>, status: string)

  // ---------------------------------------------------------------------------------------
  // Row and column buttons, cell toggling

  /** `addRow`: a blank row of `cols` cells below the grid. */
  function WithRow(g: Board, cols: nat): (h: Board)
    ensures |h| == |g| + 1 && forall r :: 0 <= r < |g| ==> h[r] == g[r]
    ensures |h[|g|]| == cols && forall c :: 0 <= c < cols ==> h[|g|][c] == BlankCell()
  {
    g + [seq(cols, _ => BlankCell())]
  }

  /** `addColumn`: every row gets a blank cell at its end. */
  function WithColumn(g: Board): (h: Board)
    ensures |h| == |g|
    ensures forall r :: 0 <= r < |g| ==> |h[r]| == |g[r]| + 1 && h[r][..|g[r]|] == g[r] && h[r][|g[r]|] == BlankCell()
  {
    seq(|g|, r requires 0 <= r < |g| => g[r] + [BlankCell()])
  }

  /** `removeRow`: the grid without its last row. */
  function WithoutLastRow(g: Board): (h: Board)
    requires |g| >= 1
    ensures |h| == |g| - 1 && forall r :: 0 <= r < |h| ==> h[r] == g[r]
  {
    g[..|g| - 1]
  }

  /** `removeColumn`: every row without its last cell. */
  function WithoutLastColumn(g: Board): (h: Board)
    requires forall r :: 0 <= r < |g| ==> |g[r]| >= 1
    ensures |h| == |g|
    ensures forall r :: 0 <= r < |g| ==> |h[r]| == |g[r]| - 1 && forall c :: 0 <= c < |h[r]| ==> h[r][c] == g[r][c]
  {
    seq(|g|, r requires 0 <= r < |g| => g[r][..|g[r]| - 1])
  }

  /** Removing the row just added gives the grid back. */
  lemma RemoveRowUndoesAdd(g: Board, rows: int, cols: nat)
    requires IsRect(g, rows, cols)
    ensures WithoutLastRow(WithRow(g, cols)) == g
  {
    var h := WithoutLastRow(WithRow(g, cols));
    assert |h| == |g|;
    assert forall r :: 0 <= r < |g| ==> h[r] == g[r];
  }

  /** Removing the column just added gives the grid back. */
  lemma RemoveColumnUndoesAdd(g: Board, rows: int, cols: nat)
    requires IsRect(g, rows, cols)
    ensures WithoutLastColumn(WithColumn(g)) == g
  {
    var h := WithoutLastColumn(WithColumn(g));
    forall r | 0 <= r < |g|
      ensures h[r] == g[r]
    {
      assert |h[r]| == |g[r]|;
      assert forall c :: 0 <= c < |g[r]| ==> h[r][c] == WithColumn(g)[r][c] == g[r][c];
    }
  }

  /** `handleCellClick`: the cell's blocked flag flips and its letter is cleared. */
  function Toggled(g: Board, p: Pos): (h: Board)
    requires Inside(g, p)
    ensures |h| == |g| && forall r :: 0 <= r < |g| ==> |h[r]| == |g[r]|
    ensures h[p.row][p.col].isBlocked == !g[p.row][p.col].isBlocked && h[p.row][p.col].letter == ""
    ensures h[p.row][p.col].isWordStart == g[p.row][p.col].isWordStart
    ensures forall r, c :: 0 <= r < |g| && 0 <= c < |g[r]| && (r, c) != (p.row, p.col) ==> h[r][c] == g[r][c]
  {
    var cell := g[p.row][p.col];
    SetCell(g, p, cell.(isBlocked := !cell.isBlocked, letter := ""))
  }

  /** The cell with its letter cleared (Backspace and Delete). */
  function Erased(g: Board, p: Pos): (h: Board)
    requires Inside(g, p)
    ensures |h| == |g| && forall r :: 0 <= r < |g| ==> |h[r]| == |g[r]|
    ensures h[p.row][p.col] == g[p.row][p.col].(letter := "")
    ensures forall r, c :: 0 <= r < |g| && 0 <= c < |g[r]| && (r, c) != (p.row, p.col) ==> h[r][c] == g[r][c]
  {
    SetCell(g, p, g[p.row][p.col].(letter := ""))
  }

  /** Toggling a cell twice restores its blocked flag; only its letter is lost. */
  lemma ToggleTwice(g: Board, p: Pos)
    requires Inside(g, p)
    ensures Toggled(Toggled(g, p), p) == Erased(g, p)
  {
    var a := Toggled(Toggled(g, p), p);
    var b := Erased(g, p);
    forall r | 0 <= r < |g|
      ensures a[r] == b[r]
    {
      assert |a[r]| == |b[r]|;
      forall c | 0 <= c < |a[r]|
        ensures a[r][c] == b[r][c]
      {
        if (r, c) == (p.row, p.col) {
          var x: Cell, y: Cell := a[r][c], b[r][c];
          assert x.letter == y.letter && x.isBlocked == y.isBlocked && x.isWordStart == y.isWordStart;
        }
      }
    }
  }

  // ---------------------------------------------------------------------------------------
  // The keyboard

  /** `e.key.startsWith('Arrow')`. */
  predicate IsArrowKey(key: string)
  {
    |key| >= 5 && key[..5] == "Arrow"
  }

  /** The cell with an upper-case letter typed into it. */
  function Typed(g: Board, p: Pos, c: char): (h: Board)
    requires Inside(g, p) && IsAsciiLetter(c)
    ensures |h| == |g| && forall r :: 0 <= r < |g| ==> |h[r]| == |g[r]|
    ensures h[p.row][p.col] == g[p.row][p.col].(letter := [UpperAscii(c)])
    ensures forall r, c :: 0 <= r < |g| && 0 <= c < |g[r]| && (r, c) != (p.row, p.col) ==> h[r][c] == g[r][c]
  {
    SetCell(g, p, g[p.row][p.col].(letter := [UpperAscii(c)]))
  }

  /** An arrow key moves along `axis`, towards higher offsets when `forward`. */
  datatype Arrow = Arrow(axis: Direction, forward: bool)

  function ArrowOf(key: string): Option<Arrow>
  {
    if key == "ArrowRight" then Some(Arrow(Across, true))
    else if key == "ArrowLeft" then Some(Arrow(Across, false))
    else if key == "ArrowDown" then Some(Arrow(Down, true))
    else if key == "ArrowUp" then Some(Arrow(Down, false))
    else None
  }

  /** `q` is the nearest open cell of `p`'s line past `p` in the step's direction. */
  ghost predicate StepTarget(g: Board, d: Direction, p: Pos, forward: bool, q: Pos)
  {
    IsOpen(g, q) && Line(d, q) == Line(d, p) &&
    if forward then
      Off(d, p) < Off(d, q) && forall o :: Off(d, p) < o < Off(d, q) ==> !IsOpen(g, At(d, Line(d, p), o))
    else
      Off(d, q) < Off(d, p) && forall o :: Off(d, q) < o < Off(d, p) ==> !IsOpen(g, At(d, Line(d, p), o))
  }

  /** No open cell of `p`'s line lies past `p` in the step's direction. */
  ghost predicate NoStep(g: Board, d: Direction, p: Pos, forward: bool)
  {
    if forward then forall o :: Off(d, p) < o ==> !IsOpen(g, At(d, Line(d, p), o))
    else forall o :: o < Off(d, p) ==> !IsOpen(g, At(d, Line(d, p), o))
  }

  /** The arrow keys: along the typing direction they move to the nearest open cell of the line
    * (staying put at its end); across it they only turn the typing direction. Other keys
    * starting with "Arrow" do nothing. */
  ghost predicate ArrowPressed(g: Board, d0: Direction, p: Pos, key: string, d1: Direction, q: Pos)
  {
    match ArrowOf(key)
    case None => d1 == d0 && q == p
    case Some(a) =>
      if d0 == a.axis then d1 == d0 && (StepTarget(g, d0, p, a.forward, q) || (NoStep(g, d0, p, a.forward) && q == p))
      else d1 == a.axis && q == p
  }

  /** Enter: the first empty open cell of the following lines in reading order along `d0`;
    * failing that, the first empty open cell of the whole grid read along the other direction,
    * turning to it; failing that, its first open cell, turning as well. */
  ghost predicate EnterPressed(g: Board, d0: Direction, p: Pos, d1: Direction, q: Pos)
  {
    if forall x :: !IsOpen(g, x) then d1 == d0 && q == p
    else if !NoneIn(g, d0, Line(d0, p) + 1, true) then d1 == d0 && FirstIn(g, d0, Line(d0, p) + 1, true, q)
    else if !NoneIn(g, Flip(d0), 0, true) then d1 == Flip(d0) && FirstIn(g, Flip(d0), 0, true, q)
    else d1 == Flip(d0) && FirstIn(g, Flip(d0), 0, false, q)
  }

  /** `q` is the first open cell after `p` in `d`'s reading order, or `p` itself when there is none. */
  ghost predicate MovedForward(g: Board, d: Direction, p: Pos, q: Pos)
  {
    if forall x :: IsOpen(g, x) ==> !Before(d, p, x) then q == p
    else IsOpen(g, q) && Before(d, p, q) && forall x :: IsOpen(g, x) && Before(d, p, x) ==> !Before(d, x, q)
  }

  /** `q` is the last open cell before `p` in `d`'s reading order, or `p` itself when there is none. */
  ghost predicate MovedBack(g: Board, d: Direction, p: Pos, q: Pos)
  {
    if forall x :: IsOpen(g, x) ==> !Before(d, x, p) then q == p
    else IsOpen(g, q) && Before(d, q, p) && forall x :: IsOpen(g, x) && Before(d, x, p) ==> !Before(d, q, x)
  }

  /** What one key press does to the grid `g0`, the direction `d0` and the selected cell `p`. */
  ghost predicate KeyEffect(g0: Board, d0: Direction, p: Pos, key: string, g1: Board, d1: Direction, q: Pos)
    requires Inside(g0, p)
  {
    if IsArrowKey(key) then g1 == g0 && ArrowPressed(g0, d0, p, key, d1, q)
    else if key == "Enter" then g1 == g0 && EnterPressed(g0, d0, p, d1, q)
    else if key == "Backspace" then g1 == Erased(g0, p) && d1 == d0 && MovedBack(g0, d0, p, q)
    else if key == "Delete" then g1 == Erased(g0, p) && d1 == d0 && q == p
    else if IsLetterKey(key) then g1 == Typed(g0, p, key[0]) && d1 == d0 && MovedForward(g0, d0, p, q)
    else g1 == g0 && d1 == d0 && q == p
  }

  /** The four arrow keys. */
  method ArrowKey(g: Board, rows: int, cols: int, d: Direction, p: Pos, key: string)
      returns (d1: Direction, q: Pos)
    requires IsRect(g, rows, cols) && Inside(g, p)
    ensures ArrowPressed(g, d, p, key, d1, q)
  {
    d1, q := d, p;
    var a := ArrowOf(key);
    if key == "ArrowRight" || key == "ArrowLeft" {
      if d == Across {
        var s := StepAlong(g, rows, cols, Across, p, key == "ArrowRight");
        if s.Some? {
          q := s.value;
        }
      } else {
        d1 := Across;
      }
    } else if key == "ArrowDown" || key == "ArrowUp" {
      if d == Down {
        var s := StepAlong(g, rows, cols, Down, p, key == "ArrowDown");
        if s.Some? {
          q := s.value;
        }
      } else {
        d1 := Down;
      }
    }
  }

  /** Enter, through `findFirstCellInNextLine`. */
  method EnterKey(g: Board, rows: int, cols: int, d: Direction, p: Pos) returns (d1: Direction, q: Pos)
    requires IsRect(g, rows, cols) && Inside(g, p)
    ensures EnterPressed(g, d, p, d1, q)
  {
    d1, q := d, p;
    var j := FirstCellInNextLine(g, rows, cols, d, p);
    if j.Some? {
      q := j.value.pos;
      if j.value.switchDirection {
        d1 := Flip(d);
      }
    }
  }

  /** `handleKeyPress` once a cell is selected in creating mode. */
  method KeyPress(g: Board, rows: int, cols: int, d: Direction, p: Pos, key: string)
      returns (h: Board, d1: Direction, q: Pos)
    requires IsRect(g, rows, cols) && Inside(g, p)
    ensures IsRect(h, rows, cols) && Inside(h, q)
    ensures KeyEffect(g, d, p, key, h, d1, q)
  {
    h, d1, q := g, d, p;
    if IsArrowKey(key) {
      d1, q := ArrowKey(g, rows, cols, d, p, key);
      return;
    }
    if key == "Enter" {
      d1, q := EnterKey(g, rows, cols, d, p);
      return;
    }
    if key == "Backspace" {
      h := Erased(g, p);
      var prev := PrevOpenBefore(g, rows, cols, d, p);
      if prev.Some? {
        q := prev.value;
      }
    }
    if key == "Delete" {
      h := Erased(g, p);
    } else if IsLetterKey(key) {
      h := Typed(g, p, key[0]);
      var next := NextOpenAfter(g, rows, cols, d, p);
      if next.Some? {
        q := next.value;
      }
    }
  }

  /** No key changes which cells are blocked, and the selection only lands on open cells. */
  lemma KeysKeepLayout(g0: Board, d0: Direction, p: Pos, key: string, g1: Board, d1: Direction, q: Pos)
    requires Inside(g0, p) && KeyEffect(g0, d0, p, key, g1, d1, q)
    ensures |g1| == |g0| && forall r :: 0 <= r < |g0| ==> |g1[r]| == |g0[r]|
    ensures forall x :: IsOpen(g1, x) <==> IsOpen(g0, x)
    ensures q == p || IsOpen(g0, q)
  {
    if IsArrowKey(key) {
      assert g1 == g0;
    } else if key == "Enter" {
      assert g1 == g0;
    }
  }

  /** A typed letter fills its cell for the short-word check, and Backspace or Delete empties it again. */
  lemma TypedLetterCounts(g: Board, p: Pos, c: char)
    requires IsOpen(g, p) && IsAsciiLetter(c)
    ensures Filled(Typed(g, p, c), p) && HasLetter(Typed(g, p, c), p)
    ensures IsEmptyOpen(Erased(Typed(g, p, c), p), p)
  {
    var u := UpperAscii(c);
    assert !IsJsSpace(u);
    ValidLetterMeansNonBlank([u]);
  }

  // ---------------------------------------------------------------------------------------
  // From the drawn grid to hint writing

  /** The grid the trimming pass leaves. */
  ghost function Trimmed(g: Board, rows: int, cols: int): (h: Board)
    requires IsRect(g, rows, cols) && rows >= 0 && cols >= 0
  {
    Window(g, rows, cols, TrimFrame(g, rows, cols))
  }

  /** A window as large as the grid is the grid. */
  lemma WholeWindow(g: Board, rows: int, cols: int, f: Frame)
    requires IsRect(g, rows, cols) && FrameIn(f, rows, cols) && f.rows == rows && f.cols == cols
    ensures Window(g, rows, cols, f) == g
  {
    var h := Window(g, rows, cols, f);
    forall r | 0 <= r < rows
      ensures h[r] == g[r]
    {
      assert |h[r]| == |g[r]|;
    }
  }

  /** The errors the checks of `handleAddHints` report for a trimmed grid, in order. */
  ghost function ShapeErrors(g: Board): seq<string>
  {
    (if exists e :: Flagged(g, e) then ["Some words are less than 3 letters long"] else []) +
    (if !Connected(g) then ["The crossword puzzle is not fully connected"] else [])
  }

  /** The server cell `prepareGridForHints` builds for cell (`r`, `c`): its character, its label
    * and the numbers of the across and down words it belongs to. */
  ghost function ServerCell(g: Board, rows: int, cols: int, r: int, c: int): ApiCell
    requires IsRect(g, rows, cols) && 0 <= r < rows && 0 <= c < cols
  {
    ApiCell(Character(g[r][c]), LabelAt(g, rows, cols, Pos(r, c)),
            HintAt(g, rows, cols, Across, Pos(r, c)), HintAt(g, rows, cols, Down, Pos(r, c)))
  }

  /** The server cells of the whole grid. */
  ghost function ServerCells(g: Board, rows: int, cols: int): (cells: seq<seq<ApiCell>>)
    requires IsRect(g, rows, cols) && rows >= 0 && cols >= 0
  {
    seq(rows, r requires 0 <= r < rows => seq(cols, c requires 0 <= c < cols => ServerCell(g, rows, cols, r, c)))
  }

  /** The cells `prepareGridForHints` returns are exactly the server cells of the grid. */
  lemma PreparedCells(g: Board, rows: int, cols: int, cells: seq<seq<ApiCell>>)
    requires IsRect(g, rows, cols) && rows >= 0 && cols >= 0 && IsRect(cells, rows, cols)
    requires forall r, c :: 0 <= r < rows && 0 <= c < cols ==> cells[r][c] == ServerCell(g, rows, cols, r, c)
    ensures cells == ServerCells(g, rows, cols)
  {
    var s := ServerCells(g, rows, cols);
    forall r | 0 <= r < rows
      ensures cells[r] == s[r]
    {
      assert |cells[r]| == |s[r]|;
    }
  }

  /** The state hint writing starts from: `ws` is the word-start list of `g` (which the grid
    * determines, by `WordStartsUnique`), `hs` its hint inputs in clue order, and the puzzle data
    * holds the server cells of `g` and no title, description, hints or status yet. */
  ghost predicate HintingStart(g: Board, rows: int, cols: int, ws: seq<WordStart>, hs: seq<HintInput>,
                               data: Option<CrosswordData>)
    requires IsRect(g, rows, cols) && rows >= 0 && cols >= 0
  {
    WordStartsOf(g, rows, cols, ws) && hs == HintsOf(g, ws) && StrictlyOrdered(hs) && data.Some? &&
    data.value.title == "" && data.value.description == "" && data.value.hints == [] && data.value.status == "" &&
    data.value.cells == ServerCells(g, rows, cols)
  }

  /** `prepareGridForHints` followed by one hint input, with an empty hint, per word start and
    * direction; the list comes out in clue order. */
  method PrepareHints(g: Board, rows: int, cols: int)
      returns (cells: seq<seq<ApiCell>>, hs: seq<HintInput>, ghost ws: seq<WordStart>)
    requires IsRect(g, rows, cols) && rows >= 0 && cols >= 0
    ensures HintingStart(g, rows, cols, ws, hs, Some(CrosswordData("", "", cells, [], "")))
  {
    var starts;
    cells, starts := PrepareGridForHints(g, rows, cols);
    PreparedCells(g, rows, cols, cells);
    ws := starts;
    WordStartsInside(g, rows, cols, starts);
    hs := BuildHintInputs(g, rows, cols, starts);
    WordStartsNumbered(g, rows, cols, starts);
    HintsOfOrdered(g, starts);
  }

  /** The checks of `handleAddHints` after trimming: the short-word and connectivity errors, in
    * that order, and whether any open cell is still empty. */
  method CheckShape(g: Board, rows: int, cols: int) returns (errors: seq<string>, unusedLeft: bool)
    requires IsRect(g, rows, cols) && rows >= 0 && cols >= 0
    ensures errors == ShapeErrors(g)
    ensures unusedLeft <==> exists p :: IsEmptyOpen(g, p)
  {
    var unused := FindUnusedCells(g, rows, cols);
    var short := FindShortWords(g, rows, cols);
    var connected := IsGridConnected(g, rows, cols);
    ShortWordsListed(g, short);
    UnusedCellsListed(g, unused);
    var shortErrors: seq<string> := if |short| > 0 then ["Some words are less than 3 letters long"] else [];
    var linkErrors: seq<string> := if !connected then ["The crossword puzzle is not fully connected"] else [];
    errors := shortErrors + linkErrors;
    unusedLeft := |unused| > 0;
  }

  /** A complete list of the short words is non-empty exactly when some word is short. */
  lemma ShortWordsListed(g: Board, short: seq<ShortWord>)
    requires forall e :: e in short <==> Flagged(g, e)
    ensures |short| > 0 <==> exists e :: Flagged(g, e)
  {
    if |short| > 0 {
      assert Flagged(g, short[0]);
    }
  }

  /** A complete list of the unused cells is non-empty exactly when some open cell is empty. */
  lemma UnusedCellsListed(g: Board, unused: seq<Pos>)
    requires forall p :: p in unused <==> IsEmptyOpen(g, p)
    ensures |unused| > 0 <==> exists p :: IsEmptyOpen(g, p)
  {
    if |unused| > 0 {
      assert IsEmptyOpen(g, unused[0]);
    }
  }

  /** `prepareGridForHints`, the hint inputs, and their `sort` by number with ACROSS first. */
  method PrepareSortedHints(g: Board, rows: int, cols: int)
      returns (cells: seq<seq<ApiCell>>, hs: seq<HintInput>, ghost ws: seq<WordStart>)
    requires IsRect(g, rows, cols) && rows >= 0 && cols >= 0
    ensures HintingStart(g, rows, cols, ws, hs, Some(CrosswordData("", "", cells, [], "")))
  {
    cells, hs, ws := PrepareHints(g, rows, cols);
    // The list is already in that order, and a list sorted by the comparator with the same
    // elements can only be the list itself.
    OrderedIsSorted(hs);
    ghost var sorted :| SortedByCompare(sorted) && multiset(sorted) == multiset(hs);
    SortKeepsClueOrder(hs, sorted);
  }

  /** What `handleAddHints` decides about a trimmed, non-empty grid. */
  datatype Review = Invalid(errors: seq<string>) | Unused | Ready(cells: seq<seq<ApiCell>>, hints: seq<HintInput>)

  /** The decision of `handleAddHints` after trimming: short words and connectivity are errors;
    * then empty open cells send the user to the unused-cells dialog; otherwise the grid is
    * numbered and its hint inputs listed and sorted. */
  method ReviewTrimmed(g: Board, rows: int, cols: int) returns (review: Review, ghost ws: seq<WordStart>)
    requires IsRect(g, rows, cols) && rows >= 0 && cols >= 0
    ensures review.Invalid? <==> ShapeErrors(g) != []
    ensures review.Invalid? ==> review.errors == ShapeErrors(g)
    ensures review.Unused? <==> ShapeErrors(g) == [] && exists p :: IsEmptyOpen(g, p)
    ensures review.Ready? ==> HintingStart(g, rows, cols, ws, review.hints, Some(CrosswordData("", "", review.cells, [], "")))
  {
    ws := [];
    var errors, unusedLeft := CheckShape(g, rows, cols);
    if |errors| > 0 {
      review := Invalid(errors);
      return;
    }
    if unusedLeft {
      review := Unused;
      return;
    }
    var cells, hs;
    cells, hs, ws := PrepareSortedHints(g, rows, cols);
    review := Ready(cells, hs);
  }

  /** `handleDisableUnusedCells`: every empty open cell becomes blocked. */
  function BlockedUnused(g: Board): (h: Board)
    ensures |h| == |g| && forall r :: 0 <= r < |g| ==> |h[r]| == |g[r]|
  {
    seq(|g|, r requires 0 <= r < |g| =>
      seq(|g[r]|, c requires 0 <= c < |g[r]| =>
        if IsEmptyOpen(g, Pos(r, c)) then g[r][c].(isBlocked := true) else g[r][c]))
  }

  /** Cell by cell: the empty open cells are blocked and every other cell is as it was. */
  lemma BlockedUnusedCells(g: Board)
    ensures forall r, c :: 0 <= r < |g| && 0 <= c < |g[r]| ==>
      BlockedUnused(g)[r][c] == if IsEmptyOpen(g, Pos(r, c)) then g[r][c].(isBlocked := true) else g[r][c]
  {
  }

  /** Blocking the unused cells leaves none and keeps every letter. */
  lemma BlockingKeepsLetters(g: Board)
    ensures forall p :: !IsEmptyOpen(BlockedUnused(g), p)
    ensures forall p :: HasLetter(BlockedUnused(g), p) <==> HasLetter(g, p)
    ensures forall p :: Filled(BlockedUnused(g), p) <==> Filled(g, p)
    ensures HasAnyLetters(BlockedUnused(g)) == HasAnyLetters(g)
  {
    var h := BlockedUnused(g);
    BlockedUnusedCells(g);
    assert forall p :: HasLetter(h, p) <==> HasLetter(g, p);
    forall p
      ensures Filled(h, p) <==> Filled(g, p)
    {
      if IsOpen(g, p) && HasValidLetter(g[p.row][p.col].letter) {
        assert g[p.row][p.col].letter != "";
      }
    }
  }

  /** Blocking the unused cells changes neither check of `handleAddHints`: no word becomes
    * short and the lettered cells stay connected exactly when they were. */
  lemma BlockingKeepsShape(g: Board)
    ensures ShapeErrors(BlockedUnused(g)) == ShapeErrors(g)
  {
    BlockingKeepsShortWords(g);
    BlockingKeepsConnected(g);
  }

  lemma BlockingKeepsShortWords(g: Board)
    ensures forall e :: Flagged(BlockedUnused(g), e) <==> Flagged(g, e)
  {
    var h := BlockedUnused(g);
    BlockingKeepsLetters(g);
    forall e
      ensures Flagged(h, e) <==> Flagged(g, e)
    {
      assert MaximalRun(h, e.direction, e.pos, 2) <==> MaximalRun(g, e.direction, e.pos, 2);
    }
  }

  lemma BlockingKeepsConnected(g: Board)
    ensures Connected(BlockedUnused(g)) <==> Connected(g)
  {
    var h := BlockedUnused(g);
    BlockingKeepsLetters(g);
    assert forall path :: IsPath(h, path) <==> IsPath(g, path);
    assert forall a, b :: Reachable(h, a, b) <==> Reachable(g, a, b);
  }

  /** The loop of `handleDisableUnusedCells` over the cells `findUnusedCells` lists. */
  method DisableUnusedCells(g: Board, rows: int, cols: int) returns (h: Board)
    requires IsRect(g, rows, cols)
    ensures h == BlockedUnused(g)
  {
    var unused := FindUnusedCells(g, rows, cols);
    h := g;
    for i := 0 to |unused|
      invariant IsRect(h, rows, cols)
      invariant forall r, c :: 0 <= r < rows && 0 <= c < cols ==>
        h[r][c] == if Pos(r, c) in unused[..i] then g[r][c].(isBlocked := true) else g[r][c]
    {
      var p := unused[i];
      assert IsEmptyOpen(g, p);
      assert p !in unused[..i] by {
        forall k | 0 <= k < i
          ensures unused[k] != p
        {
          assert Before(Across, unused[k], unused[i]);
        }
      }
      assert unused[..i + 1] == unused[..i] + [p];
      h := SetCell(h, p, h[p.row][p.col].(isBlocked := true));
    }
    assert unused[..|unused|] == unused;
    var b := BlockedUnused(g);
    BlockedUnusedCells(g);
    forall r | 0 <= r < rows
      ensures h[r] == b[r]
    {
      assert |h[r]| == |b[r]|;
    }
  }

  /** The work of `handleDisableUnusedCells`: block the unused cells, then number the grid as it
    * now is and list its hint inputs. */
  method DisableAndPrepare(g: Board, rows: int, cols: int)
      returns (h: Board, cells: seq<seq<ApiCell>>, hs: seq<HintInput>, ghost ws: seq<WordStart>)
    requires IsRect(g, rows, cols) && rows >= 0 && cols >= 0
    ensures h == BlockedUnused(g) && IsRect(h, rows, cols)
    ensures HintingStart(h, rows, cols, ws, hs, Some(CrosswordData("", "", cells, [], "")))
  {
    h := DisableUnusedCells(g, rows, cols);
    cells, hs, ws := PrepareHints(h, rows, cols);
  }

  /** `!crosswordData?.title`: the title, when there is puzzle data. */
  function TitleOf(data: Option<CrosswordData>): (t: Option<string>)
    ensures t.Some? <==> data.Some?
    ensures t.Some? ==> t.value == data.value.title
  {
    if data.Some? then Some(data.value.title) else None
  }

  /** How the POST of a new crossword ends: created, a non-OK answer carrying the server's
    * `message` if it has one, or an exception with its message. */
  datatype PostAnswer = PostCreated | PostRefused(message: Option<string>) | PostThrew(error: string)

  /** Where the page goes after publishing: the sign-in dialog, the "my puzzles" list, or the
    * invalid-crossword dialog with the error. */
  datatype AfterPublish = AskSignIn | GoToMyPuzzles | ShowPublishError

  /** The error the page shows for a failed POST: the server's message unless it is missing or
    * empty (`errorData.message || ...`), otherwise the fixed fallback; an exception's own message. */
  function PostError(a: PostAnswer): string
    requires !a.PostCreated?
  {
    match a
    case PostRefused(m) => if m.Some? && m.value != "" then m.value else "Failed to create crossword"
    case PostThrew(m) => m
  }

  // ---------------------------------------------------------------------------------------
  // The page

  class CreatePage {
    var grid: Board
    var rows: int
    var cols: int
    var selected: Option<Pos>
    var direction: Direction
    var mode: Mode
    var hintInputs: seq<HintInput>
    var crossword: Option<CrosswordData>
    var validationErrors: seq<string>
    var showInvalidDialog: bool
    var showUnusedDialog: bool
    var status: string
    /** The word-start list behind `hintInputs` and the server cells. */
    ghost var wordStarts: seq<WordStart>

    /** The grid is a `rows` x `cols` rectangle of at least one cell and the selection lies on it. */
    ghost predicate Valid()
      reads this
    {
      1 <= rows && 1 <= cols && IsRect(grid, rows, cols) &&
      (selected.Some? ==> Inside(grid, selected.value))
    }

    /** The fields that drawing the grid never touches. */
    ghost function Session(): (seq<HintInput>, Option<CrosswordData>, seq<string>, bool, bool, string, seq<WordStart>)
      reads this
    {
      (hintInputs, crossword, validationErrors, showInvalidDialog, showUnusedDialog, status, wordStarts)
    }

    /** `initializeGrid` on a fresh page: a blank `r` x `c` grid, nothing selected, typing across. */
    constructor (r: int, c: int)
      requires 1 <= r && 1 <= c
      ensures Valid()
      ensures grid == BlankGrid(r, c) && rows == r && cols == c
      ensures selected == None && direction == Across && mode == Creating
      ensures hintInputs == [] && crossword == None && validationErrors == []
      ensures !showInvalidDialog && !showUnusedDialog && status == ""
    {
      grid := BlankGrid(r, c);
      rows, cols := r, c;
      selected := None;
      direction := Across;
      mode := Creating;
      hintInputs := [];
      crossword := None;
      validationErrors := [];
      showInvalidDialog, showUnusedDialog := false, false;
      status := "";
      wordStarts := [];
    }

    /** "+ Add Row". */
    method AddRow()
      requires Valid()
      modifies this
      ensures Valid()
      ensures grid == WithRow(old(grid), old(cols)) && rows == old(rows) + 1 && cols == old(cols)
      ensures selected == old(selected) && direction == old(direction) && mode == old(mode)
      ensures Session() == old(Session())
    {
      grid := WithRow(grid, cols);
      rows := rows + 1;
    }

    /** "+ Add Column". */
    method AddColumn()
      requires Valid()
      modifies this
      ensures Valid()
      ensures grid == WithColumn(old(grid)) && rows == old(rows) && cols == old(cols) + 1
      ensures selected == old(selected) && direction == old(direction) && mode == old(mode)
      ensures Session() == old(Session())
    {
      grid := WithColumn(grid);
      cols := cols + 1;
    }

    /** "-" for rows: nothing at three rows or fewer; otherwise the last row goes, and the
      * selection with it when it was there. */
    method RemoveRow()
      requires Valid()
      modifies this
      ensures Valid()
      ensures old(rows) <= 3 ==> grid == old(grid) && rows == old(rows) && selected == old(selected)
      ensures old(rows) > 3 ==> grid == WithoutLastRow(old(grid)) && rows == old(rows) - 1
      ensures old(rows) > 3 ==>
        selected == if old(selected).Some? && old(selected).value.row == old(rows) - 1 then None else old(selected)
      ensures cols == old(cols) && direction == old(direction) && mode == old(mode)
      ensures Session() == old(Session())
    {
      if rows <= 3 {
        return;
      }
      if selected.Some? && selected.value.row == rows - 1 {
        selected := None;
      }
      grid := WithoutLastRow(grid);
      rows := rows - 1;
    }

    /** "-" for columns: nothing at three columns or fewer; otherwise the last column goes, and
      * the selection with it when it was there. */
    method RemoveColumn()
      requires Valid()
      modifies this
      ensures Valid()
      ensures old(cols) <= 3 ==> grid == old(grid) && cols == old(cols) && selected == old(selected)
      ensures old(cols) > 3 ==> grid == WithoutLastColumn(old(grid)) && cols == old(cols) - 1
      ensures old(cols) > 3 ==>
        selected == if old(selected).Some? && old(selected).value.col == old(cols) - 1 then None else old(selected)
      ensures rows == old(rows) && direction == old(direction) && mode == old(mode)
      ensures Session() == old(Session())
    {
      if cols <= 3 {
        return;
      }
      if selected.Some? && selected.value.col == cols - 1 {
        selected := None;
      }
      grid := WithoutLastColumn(grid);
      cols := cols - 1;
    }

    /** `handleCellClick`: in creating mode the cell switches between blocked and open and loses
      * its letter; in hinting mode nothing happens. */
    method HandleCellClick(row: int, col: int)
      requires Valid() && 0 <= row < rows && 0 <= col < cols
      modifies this
      ensures Valid()
      ensures grid == if old(mode) == Hinting then old(grid) else Toggled(old(grid), Pos(row, col))
      ensures rows == old(rows) && cols == old(cols) && selected == old(selected)
      ensures direction == old(direction) && mode == old(mode)
      ensures Session() == old(Session())
    {
      if mode == Hinting {
        return;
      }
      grid := Toggled(grid, Pos(row, col));
    }

    /** `handleCellSelect`: in creating mode a new cell becomes the selection, and selecting the
      * selected cell again turns the typing direction. */
    method HandleCellSelect(row: int, col: int)
      requires Valid() && 0 <= row < rows && 0 <= col < cols
      modifies this
      ensures Valid()
      ensures old(mode) == Hinting ==> selected == old(selected) && direction == old(direction)
      ensures old(mode) == Creating && old(selected) != Some(Pos(row, col)) ==>
        selected == Some(Pos(row, col)) && direction == old(direction)
      ensures old(mode) == Creating && old(selected) == Some(Pos(row, col)) ==>
        selected == old(selected) && direction == Flip(old(direction))
      ensures grid == old(grid) && rows == old(rows) && cols == old(cols) && mode == old(mode)
      ensures Session() == old(Session())
    {
      if mode == Hinting {
        return;
      }
      if selected != Some(Pos(row, col)) {
        selected := Some(Pos(row, col));
      } else {
        direction := Flip(direction);
      }
    }

    /** `handleKeyPress`: ignored without a selection or in hinting mode; otherwise `KeyEffect`. */
    method HandleKeyPress(key: string)
      requires Valid()
      modifies this
      ensures Valid()
      ensures old(selected).None? || old(mode) == Hinting ==>
        grid == old(grid) && direction == old(direction) && selected == old(selected)
      ensures old(selected).Some? && old(mode) == Creating ==>
        selected.Some? && KeyEffect(old(grid), old(direction), old(selected).value, key, grid, direction, selected.value)
      ensures rows == old(rows) && cols == old(cols) && mode == old(mode)
      ensures Session() == old(Session())
    {
      if selected.None? || mode == Hinting {
        return;
      }
      var h, d, q := KeyPress(grid, rows, cols, direction, selected.value, key);
      grid, direction, selected := h, d, Some(q);
    }

    /** "Add Hints" (`handleAddHints`). */
    method HandleAddHints()
      requires Valid()
      modifies this
      ensures Valid() && selected == None && direction == old(direction)
      ensures !HasAnyLetters(old(grid)) ==>
        grid == old(grid) && rows == old(rows) && cols == old(cols) && mode == old(mode) &&
        validationErrors == ["The crossword puzzle is empty"] && showInvalidDialog &&
        showUnusedDialog == old(showUnusedDialog) && hintInputs == old(hintInputs) && crossword == old(crossword)
      ensures HasAnyLetters(old(grid)) ==>
        var f := TrimFrame(old(grid), old(rows), old(cols));
        grid == Trimmed(old(grid), old(rows), old(cols)) && rows == f.rows && cols == f.cols
      ensures HasAnyLetters(old(grid)) && ShapeErrors(grid) != [] ==>
        validationErrors == ShapeErrors(grid) && showInvalidDialog &&
        mode == old(mode) && showUnusedDialog == old(showUnusedDialog) &&
        hintInputs == old(hintInputs) && crossword == old(crossword)
      ensures HasAnyLetters(old(grid)) && ShapeErrors(grid) == [] && (exists p :: IsEmptyOpen(grid, p)) ==>
        showUnusedDialog && mode == old(mode) && validationErrors == old(validationErrors) &&
        showInvalidDialog == old(showInvalidDialog) && hintInputs == old(hintInputs) && crossword == old(crossword)
      ensures HasAnyLetters(old(grid)) && ShapeErrors(grid) == [] && (forall p :: !IsEmptyOpen(grid, p)) ==>
        mode == Hinting && HintingStart(grid, rows, cols, wordStarts, hintInputs, crossword) &&
        validationErrors == old(validationErrors) &&
        showInvalidDialog == old(showInvalidDialog) && showUnusedDialog == old(showUnusedDialog)
      ensures status == old(status)
    {
      selected := None;
      if !HasAnyLetters(grid) {
        validationErrors := ["The crossword puzzle is empty"];
        showInvalidDialog := true;
        return;
      }
      TrimGrid();
      var review;
      ghost var ws;
      review, ws := ReviewTrimmed(grid, rows, cols);
      ApplyReview(review, ws);
    }

    /** The trimming step of `handleAddHints` (`removeUnusedOuterRowsAndColumns`): the grid
      * shrinks to the smallest window holding every letter; the page state is only replaced
      * when that window is smaller than the grid. */
    method TrimGrid()
      requires Valid() && HasAnyLetters(grid) && selected == None
      modifies this
      ensures Valid()
      ensures var f := TrimFrame(old(grid), old(rows), old(cols));
        grid == Trimmed(old(grid), old(rows), old(cols)) && rows == f.rows && cols == f.cols
      ensures selected == old(selected) && direction == old(direction) && Session() == old(Session())
      ensures mode == old(mode)
    {
      var t, r, c, changed := RemoveUnusedOuterRowsAndColumns(grid, rows, cols);
      TrimBounds(grid, rows, cols);
      if changed {
        grid, rows, cols := t, r, c;
      } else {
        WholeWindow(grid, rows, cols, TrimFrame(grid, rows, cols));
      }
    }

    /** The end of `handleAddHints`: show the errors, or the unused-cells dialog, or start
      * writing hints. */
    method ApplyReview(review: Review, ghost ws: seq<WordStart>)
      modifies this
      ensures review.Invalid? ==>
        validationErrors == review.errors && showInvalidDialog &&
        mode == old(mode) && showUnusedDialog == old(showUnusedDialog) &&
        hintInputs == old(hintInputs) && crossword == old(crossword)
      ensures review.Unused? ==>
        showUnusedDialog && mode == old(mode) && validationErrors == old(validationErrors) &&
        showInvalidDialog == old(showInvalidDialog) && hintInputs == old(hintInputs) && crossword == old(crossword)
      ensures review.Ready? ==>
        mode == Hinting && hintInputs == review.hints && crossword == Some(CrosswordData("", "", review.cells, [], "")) &&
        wordStarts == ws &&
        validationErrors == old(validationErrors) &&
        showInvalidDialog == old(showInvalidDialog) && showUnusedDialog == old(showUnusedDialog)
      ensures grid == old(grid) && rows == old(rows) && cols == old(cols) && selected == old(selected)
      ensures direction == old(direction) && status == old(status)
    {
      match review {
        case Invalid(errors) =>
          validationErrors := errors;
          showInvalidDialog := true;
        case Unused =>
          showUnusedDialog := true;
        case Ready(cells, hs) =>
          EnterHinting(grid, cells, hs, ws);
      }
    }

    /** "Disable unused cells" (`handleDisableUnusedCells`): every empty open cell is blocked and
      * the page moves on to hint writing with the grid as it now is. The hint inputs are not
      * sorted here; they come out in clue order all the same. */
    method HandleDisableUnusedCells()
      requires Valid()
      modifies this
      ensures Valid()
      ensures grid == BlockedUnused(old(grid)) && rows == old(rows) && cols == old(cols)
      ensures !showUnusedDialog && mode == Hinting
      ensures HintingStart(grid, rows, cols, wordStarts, hintInputs, crossword)
      ensures selected == old(selected) && direction == old(direction)
      ensures validationErrors == old(validationErrors) && showInvalidDialog == old(showInvalidDialog)
      ensures status == old(status)
    {
      var h, cells, hs;
      ghost var ws;
      h, cells, hs, ws := DisableAndPrepare(grid, rows, cols);
      showUnusedDialog := false;
      EnterHinting(h, cells, hs, ws);
    }

    /** The state both hint buttons end with on success: the grid as numbered, its hint inputs,
      * fresh puzzle data carrying the numbered cells, and hinting mode. */
    method EnterHinting(h: Board, cells: seq<seq<ApiCell>>, hs: seq<HintInput>, ghost ws: seq<WordStart>)
      modifies this
      ensures grid == h && hintInputs == hs && crossword == Some(CrosswordData("", "", cells, [], ""))
      ensures wordStarts == ws && mode == Hinting
      ensures rows == old(rows) && cols == old(cols) && selected == old(selected) && direction == old(direction)
      ensures validationErrors == old(validationErrors) && showInvalidDialog == old(showInvalidDialog)
      ensures showUnusedDialog == old(showUnusedDialog) && status == old(status)
    {
      grid := h;
      hintInputs := hs;
      crossword := Some(CrosswordData("", "", cells, [], ""));
      wordStarts := ws;
      mode := Hinting;
    }

    /** Typing into the hint box of entry `i`. */
    method SetHint(i: int, text: string)
      requires Valid() && 0 <= i < |hintInputs|
      modifies this
      ensures Valid()
      ensures hintInputs == old(hintInputs)[i := old(hintInputs)[i].(hint := text)]
      ensures grid == old(grid) && rows == old(rows) && cols == old(cols) && selected == old(selected)
      ensures direction == old(direction) && mode == old(mode) && crossword == old(crossword)
      ensures validationErrors == old(validationErrors) && showInvalidDialog == old(showInvalidDialog)
      ensures showUnusedDialog == old(showUnusedDialog) && status == old(status)
    {
      hintInputs := hintInputs[i := hintInputs[i].(hint := text)];
    }

    /** The title box: changes the title only once there is puzzle data. */
    method SetTitle(text: string)
      requires Valid()
      modifies this
      ensures Valid()
      ensures crossword == if old(crossword).Some? then Some(old(crossword).value.(title := text)) else None
      ensures grid == old(grid) && rows == old(rows) && cols == old(cols) && selected == old(selected)
      ensures direction == old(direction) && mode == old(mode) && hintInputs == old(hintInputs)
      ensures validationErrors == old(validationErrors) && showInvalidDialog == old(showInvalidDialog)
      ensures showUnusedDialog == old(showUnusedDialog) && status == old(status)
    {
      if crossword.Some? {
        crossword := Some(crossword.value.(title := text));
      }
    }

    /** The description box: changes the description only once there is puzzle data. */
    method SetDescription(text: string)
      requires Valid()
      modifies this
      ensures Valid()
      ensures crossword == if old(crossword).Some? then Some(old(crossword).value.(description := text)) else None
      ensures grid == old(grid) && rows == old(rows) && cols == old(cols) && selected == old(selected)
      ensures direction == old(direction) && mode == old(mode) && hintInputs == old(hintInputs)
      ensures validationErrors == old(validationErrors) && showInvalidDialog == old(showInvalidDialog)
      ensures showUnusedDialog == old(showUnusedDialog) && status == old(status)
    {
      if crossword.Some? {
        crossword := Some(crossword.value.(description := text));
      }
    }

    /** The privacy selector. */
    method SetStatus(s: string)
      requires Valid()
      modifies this
      ensures Valid()
      ensures status == s
      ensures grid == old(grid) && rows == old(rows) && cols == old(cols) && selected == old(selected)
      ensures direction == old(direction) && mode == old(mode) && hintInputs == old(hintInputs)
      ensures crossword == old(crossword) && validationErrors == old(validationErrors)
      ensures showInvalidDialog == old(showInvalidDialog) && showUnusedDialog == old(showUnusedDialog)
    {
      status := s;
    }

    /** "Back to editing": the grid becomes editable again; the hint inputs are kept. */
    method BackToEditing()
      requires Valid()
      modifies this
      ensures Valid()
      ensures mode == Creating
      ensures grid == old(grid) && rows == old(rows) && cols == old(cols) && selected == old(selected)
      ensures direction == old(direction) && Session() == old(Session())
    {
      mode := Creating;
    }

    /** "Create Crossword": a title, every hint and a privacy status are required; otherwise the
      * errors are shown. On success the result carries what would be posted. */
    method CreateCrossword() returns (r: PublishOutcome)
      requires Valid()
      modifies this
      ensures Valid()
      ensures r.Submitted? <==>
        !TitleMissing(TitleOf(old(crossword))) && (forall i :: 0 <= i < |hintInputs| ==> !HintMissing(hintInputs[i])) &&
        status != ""
      ensures r.Submitted? ==>
        r.hints == ToApiHints(hintInputs) && r.status == status &&
        validationErrors == old(validationErrors) && showInvalidDialog == old(showInvalidDialog)
      ensures r.Rejected? ==>
        r.errors == TitleErrors(TitleOf(old(crossword))) + MissingHintErrors(hintInputs) +
                    (if status == "" then ["Privacy status is required"] else []) &&
        validationErrors == r.errors && showInvalidDialog
      ensures grid == old(grid) && rows == old(rows) && cols == old(cols) && selected == old(selected)
      ensures direction == old(direction) && mode == old(mode) && hintInputs == old(hintInputs)
      ensures crossword == old(crossword) && showUnusedDialog == old(showUnusedDialog) && status == old(status)
    {
      r := PublishCheck(TitleOf(crossword), hintInputs, status);
      if r.Rejected? {
        validationErrors := r.errors;
        showInvalidDialog := true;
      }
    }

    /** The rest of "Create Crossword" once the request is built: without a stored token (absent
      * or empty) the sign-in dialog opens and nothing is sent; a created puzzle leads to the
      * "my puzzles" list; a failed request shows its error alone in the invalid dialog. */
    method FinishPublish(hasToken: bool, answer: PostAnswer) returns (next: AfterPublish)
      requires Valid()
      modifies this
      ensures Valid()
      ensures next == AskSignIn <==> !hasToken
      ensures next == GoToMyPuzzles <==> hasToken && answer.PostCreated?
      ensures next == ShowPublishError ==> validationErrors == [PostError(answer)] && showInvalidDialog
      ensures next != ShowPublishError ==> validationErrors == old(validationErrors) && showInvalidDialog == old(showInvalidDialog)
      ensures grid == old(grid) && rows == old(rows) && cols == old(cols) && selected == old(selected)
      ensures direction == old(direction) && mode == old(mode) && hintInputs == old(hintInputs)
      ensures crossword == old(crossword) && showUnusedDialog == old(showUnusedDialog) && status == old(status)
    {
      if !hasToken {
        return AskSignIn;
      }
      if answer.PostCreated? {
        return GoToMyPuzzles;
      }
      validationErrors := [PostError(answer)];
      showInvalidDialog := true;
      return ShowPublishError;
    }
  }
}
