/** The solving page: the clue grid the server sends, the letters the player types, the cursor,
  * the clue list, the answer sent for checking and the like and favourite buttons. */
module Play {
  import opened Grid
  import opened Text
  import opened Hints

  /** A cell as the server sends it for play (`APICell`; `number` is its `label`). */
  datatype PlayCell = PlayCell(character: string, number: int, hintAcross: int, hintDown: int, isBlocked: bool)

  /** A cell of the answer sent for checking. */
  datatype AnswerCell = AnswerCell(character: string, number: int, hintAcross: int, hintDown: int)

  /** A clue as the page lists it. */
  datatype Clue = Clue(number: int, direction: Direction, hint: string)

  type Cells = seq<seq<PlayCell>>

  /** A cell of the grid that is not blocked. */
  predicate Free(cells: Cells, p: Pos)
  {
    0 <= p.row < |cells| && 0 <= p.col < |cells[p.row]| && !cells[p.row][p.col].isBlocked
  }

  // ---------------------------------------------------------------------------------------
  // Moving the cursor

  /** `a` is met before `b` on a walk in row-major order that starts just after `s`, wraps from
    * the last cell to the first, and ends on `s` itself. */
  predicate CyclicBefore(s: Pos, a: Pos, b: Pos)
  {
    if Before(Across, s, a) then !Before(Across, s, b) || Before(Across, a, b)
    else !Before(Across, s, b) && Before(Across, a, b)
  }

  /** `q` is where `findNextCell` from `s` lands: the first free cell on that walk. */
  ghost predicate IsNextCell(cells: Cells, s: Pos, q: Pos)
  {
    Free(cells, q) && forall p :: CyclicBefore(s, p, q) ==> !Free(cells, p)
  }

  /** The cells the walk from `s` has looked at once it stands on `cur`, having wrapped or not. */
  ghost predicate Scanned(s: Pos, wrapped: bool, cur: Pos, p: Pos)
  {
    if wrapped then Before(Across, s, p) || !Before(Across, cur, p)
    else Before(Across, s, p) && !Before(Across, cur, p)
  }

  /** One step of the walk on a rows x cols grid: the next cell in the row, the first cell of
    * the next row, or the first cell of the grid after the last one. */
  function Succ(rows: int, cols: int, p: Pos): Pos
  {
    if p.col + 1 < cols then Pos(p.row, p.col + 1)
    else if p.row + 1 < rows then Pos(p.row + 1, 0)
    else Pos(0, 0)
  }

  /** Short of the last cell, a step moves to the very next cell in row-major order: the cells
    * before the new one are the old one and those before it. */
  lemma SuccIsNext(rows: int, cols: int, cur: Pos, p: Pos)
    requires 0 <= cur.row < rows && 0 <= cur.col < cols && 0 <= p.row < rows && 0 <= p.col < cols
    requires cur.col + 1 < cols || cur.row + 1 < rows
    ensures Before(Across, cur, Succ(rows, cols, cur))
    ensures Before(Across, p, Succ(rows, cols, cur)) <==> Before(Across, p, cur) || p == cur
  {
  }

  /** `findNextCell`: the first unblocked cell after (`s.row`, `s.col`) in row-major order,
    * wrapping around and ending with the cell itself; none only when every cell is blocked. */
  method FindNextCell(cells: Cells, rows: int, cols: int, s: Pos) returns (q: Option<Pos>)
    requires IsRect(cells, rows, cols) && 0 <= s.row < rows && 0 <= s.col < cols
    ensures q.Some? ==> IsNextCell(cells, s, q.value)
    ensures q.None? <==> forall p :: !Free(cells, p)
  {
    var rr, cc := s.row, s.col;
    ghost var wrapped := false;
    while true
      invariant 0 <= rr < rows && 0 <= cc < cols
      invariant !wrapped ==> Pos(rr, cc) == s || Before(Across, s, Pos(rr, cc))
      invariant wrapped ==> Before(Across, Pos(rr, cc), s)
      invariant forall p :: Scanned(s, wrapped, Pos(rr, cc), p) ==> !Free(cells, p)
      decreases if wrapped then 0 else 1, rows - rr, cols - cc
    {
      ghost var cur := Pos(rr, cc);
      ghost var last := cur.col + 1 >= cols && cur.row + 1 >= rows;
      cc := cc + 1;
      if cc >= cols {
        cc := 0;
        rr := rr + 1;
        if rr >= rows {
          rr := 0;
          wrapped := true;
        }
      }
      ghost var n := Pos(rr, cc);
      assert n == Succ(rows, cols, cur);
      forall p | Scanned(s, wrapped, n, p) && Free(cells, p)
        ensures p == n
      {
        if !last {
          SuccIsNext(rows, cols, cur, p);
        }
      }
      if !cells[rr][cc].isBlocked {
        forall p | CyclicBefore(s, p, n) && Free(cells, p)
          ensures false
        {
          if !last {
            SuccIsNext(rows, cols, cur, p);
          }
        }
        assert Free(cells, n);
        return Some(Pos(rr, cc));
      }
      if rr == s.row && cc == s.col {
        return None;
      }
    }
  }

  /** The focus effect's scan: the first unblocked cell in row-major order, if any. */
  method FirstOpenCell(cells: Cells, rows: int, cols: int) returns (q: Option<Pos>)
    requires IsRect(cells, rows, cols)
    ensures q.Some? ==> Free(cells, q.value) && forall p :: Before(Across, p, q.value) ==> !Free(cells, p)
    ensures q.None? <==> forall p :: !Free(cells, p)
  {
    var r := 0;
    while r < rows
      invariant 0 <= r <= rows
      invariant forall p: Pos :: p.row < r ==> !Free(cells, p)
    {
      assert |cells[r]| == cols;
      var c := 0;
      while c < cols
        invariant 0 <= c <= cols
        invariant forall k :: 0 <= k < c ==> cells[r][k].isBlocked
      {
        if !cells[r][c].isBlocked {
          return Some(Pos(r, c));
        }
        c := c + 1;
      }
      r := r + 1;
    }
    return None;
  }

  /** The walk of `findNextCell` lands on a single cell: its result is determined. */
  lemma NextCellUnique(cells: Cells, s: Pos, q1: Pos, q2: Pos)
    requires IsNextCell(cells, s, q1) && IsNextCell(cells, s, q2)
    ensures q1 == q2
  {
  }

  /** When the current cell is the only unblocked one, the walk comes back to it. */
  lemma NextCellOnlyOpen(cells: Cells, s: Pos)
    requires Free(cells, s) && forall p :: Free(cells, p) ==> p == s
    ensures IsNextCell(cells, s, s)
  {
  }

  /** Seen from the last cell of the grid, the next cell is the first unblocked cell: the
    * focus effect and `findNextCell` agree. */
  lemma FirstIsNextAfterLast(cells: Cells, rows: int, cols: int, q: Pos)
    requires IsRect(cells, rows, cols) && rows >= 1 && cols >= 1
    requires Free(cells, q) && forall p :: Before(Across, p, q) ==> !Free(cells, p)
    ensures IsNextCell(cells, Pos(rows - 1, cols - 1), q)
  {
    forall p | CyclicBefore(Pos(rows - 1, cols - 1), p, q)
      ensures !Free(cells, p)
    {
    }
  }

  // ---------------------------------------------------------------------------------------
  // The player's letters and the answer

  /** `Array(rows).fill(null).map(() => Array(cols).fill(""))`. */
  function EmptyAnswers(rows: nat, cols: nat): (g: seq<seq<string>>)
    ensures IsRect(g, rows, cols)
    ensures forall r, c :: 0 <= r < rows && 0 <= c < cols ==> g[r][c] == ""
  {
    seq(rows, _ => seq(cols, _ => ""))
  }

  /** A copy of the letter grid with one entry written (`g[row][col] = value`). */
  function Put(g: seq<seq<string>>, p: Pos, v: string): (h: seq<seq<string>>)
    requires 0 <= p.row < |g| && 0 <= p.col < |g[p.row]|
    ensures |h| == |g| && forall r :: 0 <= r < |g| ==> |h[r]| == |g[r]|
    ensures h[p.row][p.col] == v
    ensures forall r, c :: 0 <= r < |g| && 0 <= c < |g[r]| && (r, c) != (p.row, p.col) ==> h[r][c] == g[r][c]
  {
    g[p.row := g[p.row][p.col := v]]
  }

  /** The grid `handleSubmit` sends: the clue numbers of each cell with the player's letter. */
  function AnswerGrid(raw: Cells, user: seq<seq<string>>, rows: int, cols: int): (a: seq<seq<AnswerCell>>)
    requires IsRect(raw, rows, cols) && IsRect(user, rows, cols) && rows >= 0 && cols >= 0
    ensures IsRect(a, rows, cols)
  {
    seq(rows, r requires 0 <= r < rows =>
      seq(cols, c requires 0 <= c < cols =>
        AnswerCell(user[r][c], raw[r][c].number, raw[r][c].hintAcross, raw[r][c].hintDown)))
  }

  /** Each answer cell carries the server's numbers for that cell and the player's letter there. */
  lemma AnswerCells(raw: Cells, user: seq<seq<string>>, rows: int, cols: int)
    requires IsRect(raw, rows, cols) && IsRect(user, rows, cols) && rows >= 0 && cols >= 0
    ensures forall r, c :: 0 <= r < rows && 0 <= c < cols ==>
      var a := AnswerGrid(raw, user, rows, cols)[r][c];
      a.character == user[r][c] && a.number == raw[r][c].number &&
      a.hintAcross == raw[r][c].hintAcross && a.hintDown == raw[r][c].hintDown
  {
  }

  /** A letter typed into a cell is what the answer sends for that cell; the other cells send
    * what they sent before. */
  lemma TypedLetterIsSent(raw: Cells, user: seq<seq<string>>, rows: int, cols: int, p: Pos, ch: char)
    requires IsRect(raw, rows, cols) && IsRect(user, rows, cols) && rows >= 0 && cols >= 0
    requires 0 <= p.row < rows && 0 <= p.col < cols && IsAsciiLetter(ch)
    ensures var before := AnswerGrid(raw, user, rows, cols);
      var after := AnswerGrid(raw, Put(user, p, [UpperAscii(ch)]), rows, cols);
      after[p.row][p.col].character == [UpperAscii(ch)] &&
      forall r, c :: 0 <= r < rows && 0 <= c < cols && (r, c) != (p.row, p.col) ==> after[r][c] == before[r][c]
  {
  }

  // ---------------------------------------------------------------------------------------
  // Clues and counters

  /** The hint mapping of the loader: the clue number the server sends as `label`. */
  function Clues(hs: seq<ApiHint>): (cs: seq<Clue>)
    ensures |cs| == |hs|
    ensures forall i :: 0 <= i < |hs| ==> cs[i].number == hs[i].number && cs[i].direction == hs[i].direction && cs[i].hint == hs[i].hint
  {
    seq(|hs|, i requires 0 <= i < |hs| => Clue(hs[i].number, hs[i].direction, hs[i].hint))
  }

  /** The clues the creation page publishes come back on the solving page with the same number,
    * direction and text, in the same order. */
  lemma PublishedCluesShown(inputs: seq<HintInput>)
    ensures |Clues(ToApiHints(inputs))| == |inputs|
    ensures forall i :: 0 <= i < |inputs| ==>
      Clues(ToApiHints(inputs))[i] == Clue(inputs[i].number, inputs[i].direction, inputs[i].hint)
  {
  }

  /** A successful like or favourite toggle: the flag flips and the count follows it. */
  function Toggle(on: bool, count: int): (r: (bool, int))
    ensures r.0 == !on
  {
    (!on, count + (if on then -1 else 1))
  }

  /** Toggling twice restores both the flag and the count. */
  lemma ToggleTwice(on: bool, count: int)
    ensures Toggle(Toggle(on, count).0, Toggle(on, count).1) == (on, count)
  {
  }

  /** The count goes up exactly when the flag is switched on. */
  lemma ToggleCounts(on: bool, count: int)
    ensures Toggle(on, count).1 == count + 1 <==> !on
    ensures Toggle(on, count).1 == count - 1 <==> on
  {
  }

  /** What the puzzle request can come back with. A 404 always arrives as `NotFound` (the page
    * tests it before any other non-OK status); `HttpError` carries every other one. */
  datatype Fetched =
    | NotFound
    | HttpError(status: int)
    | BadCells
    | BadHints
    | Failed
    | Loaded(cells: Cells, title: string, description: string, hints: seq<ApiHint>, likeCount: int, favoriteCount: int)

  /** The page's `puzzleData`: what it shows beside the grid. */
  datatype PuzzleData = PuzzleData(title: string, description: string, gridRows: int, gridCols: int,
                                   clues: seq<Clue>, likeCount: int, favoriteCount: int)

  /** The message the loader shows when the puzzle cannot be shown. */
  function LoadError(r: Fetched): string
    requires !r.Loaded?
  {
    match r
    case NotFound => "Puzzle not found."
    case HttpError(status) => "Error " + IntToString(status) + " loading puzzle."
    case BadCells => "Corrupted puzzle data."
    case BadHints => "Corrupted hints data."
    case Failed => "Error loading puzzle. Please try again later."
  }

  /** The number of columns the loader takes: the length of the first row, or 0. */
  function Width(cells: Cells): nat
  {
    if |cells| == 0 then 0 else |cells[0]|
  }

  /** The state of the solving page. */
  class PlayPage {
    var rawCells: Cells
    var rows: int
    var cols: int
    var userGrid: seq<seq<string>>
    var selected: Option<Pos>
    var puzzleData: Option<PuzzleData>
    var likeCount: int
    var favoriteCount: int
    var liked: bool
    var favorited: bool
    var message: string
    var showSuccess: bool
    var showFail: bool

    /** Both grids are rows x cols and the cursor, when there is one, is on an unblocked cell. */
    ghost predicate Valid()
      reads this
    {
      rows >= 0 && cols >= 0 && IsRect(rawCells, rows, cols) && IsRect(userGrid, rows, cols) &&
      (selected.Some? ==> Free(rawCells, selected.value))
    }

    /** The grid the player works on: the server's cells, their size, the letters and the cursor. */
    ghost function Board(): (Cells, int, int, seq<seq<string>>, Option<Pos>)
      reads this
    {
      (rawCells, rows, cols, userGrid, selected)
    }

    /** What the page shows about the puzzle and the player's like and favourite. */
    ghost function Standing(): (Option<PuzzleData>, int, int, bool, bool)
      reads this
    {
      (puzzleData, likeCount, favoriteCount, liked, favorited)
    }

    /** The message line and the two verdict dialogs. */
    ghost function Notices(): (string, bool, bool)
      reads this
    {
      (message, showSuccess, showFail)
    }

    /** The initial state of the page's hooks. */
    constructor()
      ensures Valid() && rawCells == [] && userGrid == [] && selected == None && puzzleData == None
      ensures likeCount == 0 && favoriteCount == 0 && !liked && !favorited
      ensures message == "" && !showSuccess && !showFail
    {
      rawCells, rows, cols, userGrid := [], 0, 0, [];
      selected, puzzleData := None, None;
      likeCount, favoriteCount, liked, favorited := 0, 0, false, false;
      message, showSuccess, showFail := "", false, false;
    }

    /** The loader (`fetchPuzzle`) once the request has come back: a message for each failure,
      * or the puzzle shown with an empty letter grid of its size. */
    method ReceivePuzzle(r: Fetched)
      requires Valid() && rawCells == [] && puzzleData == None
      requires r.Loaded? ==> IsRect(r.cells, |r.cells|, Width(r.cells))
      modifies this
      ensures Valid()
      ensures !r.Loaded? ==> message == LoadError(r) && Board() == old(Board()) && Standing() == old(Standing())
      ensures r.Loaded? ==> Shows(r) && message == ""
      ensures liked == old(liked) && favorited == old(favorited) && selected == old(selected)
      ensures showSuccess == old(showSuccess) && showFail == old(showFail)
    {
      message := "";
      if !r.Loaded? {
        message := LoadError(r);
        return;
      }
      ShowPuzzle(r);
    }

    /** The page after a puzzle has loaded: its grid, a letter grid of the same size holding
      * only empty strings, its clues and its counters. */
    ghost predicate Shows(r: Fetched)
      requires r.Loaded?
      reads this
    {
      var w := Width(r.cells);
      rawCells == r.cells && rows == |r.cells| && cols == w && userGrid == EmptyAnswers(|r.cells|, w) &&
      puzzleData == Some(PuzzleData(r.title, r.description, |r.cells|, w, Clues(r.hints), r.likeCount, r.favoriteCount)) &&
      likeCount == r.likeCount && favoriteCount == r.favoriteCount
    }

    /** The state updates of a successful load (`setPuzzleData`, `setRawCells`, `setUserGrid`
      * and the counters). */
    method ShowPuzzle(r: Fetched)
      requires r.Loaded? && IsRect(r.cells, |r.cells|, Width(r.cells)) && selected == None
      modifies this
      ensures Valid() && Shows(r)
      ensures liked == old(liked) && favorited == old(favorited) && selected == old(selected)
      ensures showSuccess == old(showSuccess) && showFail == old(showFail) && message == old(message)
    {
      var w := Width(r.cells);
      puzzleData := Some(PuzzleData(r.title, r.description, |r.cells|, w, Clues(r.hints), r.likeCount, r.favoriteCount));
      rawCells, rows, cols := r.cells, |r.cells|, w;
      userGrid := EmptyAnswers(|r.cells|, w);
      likeCount, favoriteCount := r.likeCount, r.favoriteCount;
    }

    /** The `/users/me` answer: whether this puzzle is among the liked and the favourite ones. */
    method ReceiveMembership(puzzleId: int, likedIds: seq<int>, favoriteIds: seq<int>)
      requires Valid()
      modifies this
      ensures Valid()
      ensures liked <==> puzzleId in likedIds
      ensures favorited <==> puzzleId in favoriteIds
      ensures Board() == old(Board()) && Notices() == old(Notices())
      ensures likeCount == old(likeCount) && favoriteCount == old(favoriteCount) && puzzleData == old(puzzleData)
    {
      liked := puzzleId in likedIds;
      favorited := puzzleId in favoriteIds;
    }

    /** The focus effect: the cursor goes to the first unblocked cell in row-major order. */
    method FocusFirstCell()
      requires Valid()
      modifies this
      ensures Valid()
      ensures (exists p :: Free(rawCells, p)) ==>
        selected.Some? && forall p :: Before(Across, p, selected.value) ==> !Free(rawCells, p)
      ensures (forall p :: !Free(rawCells, p)) ==> selected == old(selected)
      ensures rawCells == old(rawCells) && userGrid == old(userGrid) && rows == old(rows) && cols == old(cols)
      ensures Standing() == old(Standing()) && Notices() == old(Notices())
    {
      if |rawCells| == 0 {
        return;
      }
      var q := FirstOpenCell(rawCells, rows, cols);
      if q.Some? {
        selected := q;
      }
    }

    /** Clicking a cell selects it, unless it is blocked. */
    method HandleCellClick(p: Pos)
      requires Valid()
      modifies this
      ensures Valid()
      ensures selected == if Free(rawCells, p) then Some(p) else old(selected)
      ensures rawCells == old(rawCells) && userGrid == old(userGrid) && rows == old(rows) && cols == old(cols)
      ensures Standing() == old(Standing()) && Notices() == old(Notices())
    {
      if 0 <= p.row < |rawCells| && 0 <= p.col < |rawCells[p.row]| && !rawCells[p.row][p.col].isBlocked {
        selected := Some(p);
      }
    }

    /** `handleKeyPress`: a letter is written, upper-cased, into the selected cell and the cursor
      * moves on; Backspace clears the cell and stays; ArrowRight only moves; with no cell
      * selected, or any other key, nothing happens. */
    method HandleKeyPress(key: string)
      requires Valid()
      modifies this
      ensures Valid()
      ensures old(selected).None? || !(IsLetterKey(key) || key == "Backspace" || key == "ArrowRight") ==>
        userGrid == old(userGrid) && selected == old(selected)
      ensures old(selected).Some? && IsLetterKey(key) ==>
        userGrid == Put(old(userGrid), old(selected).value, [UpperAscii(key[0])]) &&
        selected.Some? && IsNextCell(rawCells, old(selected).value, selected.value)
      ensures old(selected).Some? && key == "Backspace" ==>
        userGrid == Put(old(userGrid), old(selected).value, "") && selected == old(selected)
      ensures old(selected).Some? && key == "ArrowRight" ==>
        userGrid == old(userGrid) && selected.Some? && IsNextCell(rawCells, old(selected).value, selected.value)
      ensures rawCells == old(rawCells) && rows == old(rows) && cols == old(cols)
      ensures Standing() == old(Standing()) && Notices() == old(Notices())
    {
      if selected.None? {
        return;
      }
      var p := selected.value;
      if IsLetterKey(key) {
        userGrid := Put(userGrid, p, [UpperAscii(key[0])]);
        var next := FindNextCell(rawCells, rows, cols, p);
        if next.Some? {
          selected := next;
        }
        return;
      }
      if key == "Backspace" {
        userGrid := Put(userGrid, p, "");
        return;
      }
      if key == "ArrowRight" {
        var next := FindNextCell(rawCells, rows, cols, p);
        if next.Some? {
          selected := next;
        }
      }
    }

    /** `handleSubmit`: the answer grid is sent and the verdict opens the success or the failure
      * dialog; a failed request only sets a message. Nothing is sent before the puzzle loads. */
    method HandleSubmit(verdict: Option<bool>) returns (sent: Option<seq<seq<AnswerCell>>>)
      requires Valid()
      modifies this
      ensures Valid()
      ensures puzzleData.None? ==> sent.None? && showSuccess == old(showSuccess) && showFail == old(showFail) && message == old(message)
      ensures puzzleData.Some? ==> sent == Some(AnswerGrid(rawCells, userGrid, rows, cols))
      ensures puzzleData.Some? && verdict == Some(true) ==> showSuccess && showFail == old(showFail) && message == old(message)
      ensures puzzleData.Some? && verdict == Some(false) ==> showFail && showSuccess == old(showSuccess) && message == old(message)
      ensures puzzleData.Some? && verdict.None? ==>
        message == "Error checking answer. Please try again." && showSuccess == old(showSuccess) && showFail == old(showFail)
      ensures Board() == old(Board()) && Standing() == old(Standing())
    {
      if puzzleData.None? {
        return None;
      }
      sent := Some(AnswerGrid(rawCells, userGrid, rows, cols));
      match verdict {
        case Some(complete) =>
          if complete {
            showSuccess := true;
          } else {
            showFail := true;
          }
        case None =>
          message := "Error checking answer. Please try again.";
      }
    }

    /** `handleLike`: with a puzzle and a token, a successful request toggles the like and moves
      * the count with it; a failed one only sets a message. */
    method HandleLike(hasToken: bool, ok: bool)
      requires Valid()
      modifies this
      ensures Valid()
      ensures puzzleData.Some? && hasToken && ok ==> (liked, likeCount) == Toggle(old(liked), old(likeCount))
      ensures !(puzzleData.Some? && hasToken && ok) ==> liked == old(liked) && likeCount == old(likeCount)
      ensures puzzleData.Some? && hasToken && !ok ==> message == "Could not update like. Please try again."
      ensures !(puzzleData.Some? && hasToken && !ok) ==> message == old(message)
      ensures favorited == old(favorited) && favoriteCount == old(favoriteCount) && puzzleData == old(puzzleData)
      ensures showSuccess == old(showSuccess) && showFail == old(showFail) && Board() == old(Board())
    {
      if puzzleData.None? || !hasToken {
        return;
      }
      if !ok {
        message := "Could not update like. Please try again.";
        return;
      }
      likeCount := likeCount + (if liked then -1 else 1);
      liked := !liked;
    }

    /** `handleFavorite`, the same as `handleLike` for favourites. */
    method HandleFavorite(hasToken: bool, ok: bool)
      requires Valid()
      modifies this
      ensures Valid()
      ensures puzzleData.Some? && hasToken && ok ==> (favorited, favoriteCount) == Toggle(old(favorited), old(favoriteCount))
      ensures !(puzzleData.Some? && hasToken && ok) ==> favorited == old(favorited) && favoriteCount == old(favoriteCount)
      ensures puzzleData.Some? && hasToken && !ok ==> message == "Could not update favorite. Please try again."
      ensures !(puzzleData.Some? && hasToken && !ok) ==> message == old(message)
      ensures liked == old(liked) && likeCount == old(likeCount) && puzzleData == old(puzzleData)
      ensures showSuccess == old(showSuccess) && showFail == old(showFail) && Board() == old(Board())
    {
      if puzzleData.None? || !hasToken {
        return;
      }
      if !ok {
        message := "Could not update favorite. Please try again.";
        return;
      }
      favoriteCount := favoriteCount + (if favorited then -1 else 1);
      favorited := !favorited;
    }
  }
}
