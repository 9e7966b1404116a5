/** The checks the creation page runs before numbering a grid: is anything written at all,
  * which open cells are still empty, and which words are shorter than three letters. */
module Validation {
  import opened Grid
  import opened Text

  /** `hasValidLetter`: the letter is present and not only whitespace. */
  predicate HasValidLetter(letter: string)
  {
    letter != "" && JsTrim(letter) != ""
  }

  /** An unblocked cell whose letter counts for the word-length check. */
  predicate Filled(g: Board, p: Pos)
  {
    IsOpen(g, p) && HasValidLetter(g[p.row][p.col].letter)
  }

  /** A letter is valid exactly when some character of it is not whitespace. */
  lemma ValidLetterMeansNonBlank(letter: string)
    ensures HasValidLetter(letter) <==> exists i :: 0 <= i < |letter| && !IsJsSpace(letter[i])
  {
    JsTrimEmpty(letter);
  }

  /** A cell none of whose four neighbours is filled. */
  predicate Isolated(g: Board, p: Pos)
  {
    !Filled(g, Pos(p.row, p.col - 1)) && !Filled(g, Pos(p.row, p.col + 1)) &&
    !Filled(g, Pos(p.row - 1, p.col)) && !Filled(g, Pos(p.row + 1, p.col))
  }

  /** How many filled cells follow one another from `p` along `d`. */
  function FilledLen(g: Board, d: Direction, p: Pos): (n: nat)
    ensures forall k :: 0 <= k < n ==> Filled(g, Along(d, p, k))
    ensures !Filled(g, Along(d, p, n))
    decreases if d == Across then (if 0 <= p.row < |g| then |g[p.row]| - p.col else 0) else |g| - p.row
  {
    if Filled(g, p) then
      var m := FilledLen(g, d, Next(d, p));
      assert forall k :: 1 <= k <= m ==> Along(d, p, k) == Along(d, Next(d, p), k - 1);
      assert Along(d, Next(d, p), m) == Along(d, p, m + 1);
      assert Along(d, p, 0) == p;
      1 + m
    else
      assert Along(d, p, 0) == p;
      0
  }

  /** A filled cell adds one to the run that follows it. */
  lemma FilledLenStep(g: Board, d: Direction, q: Pos)
    requires Filled(g, q)
    ensures FilledLen(g, d, q) == 1 + FilledLen(g, d, Next(d, q))
  {
  }

  /** `p` starts a maximal run of exactly `n` filled cells along `d`. */
  ghost predicate MaximalRun(g: Board, d: Direction, p: Pos, n: int)
  {
    n >= 1 && !Filled(g, Prev(d, p)) &&
    (forall k :: 0 <= k < n ==> Filled(g, Along(d, p, k))) &&
    !Filled(g, Along(d, p, n))
  }

  /** The counting loop measures exactly the maximal run that begins at a run start. */
  lemma MaximalRunIsFilledLen(g: Board, d: Direction, p: Pos, n: int)
    ensures MaximalRun(g, d, p, n) <==> Filled(g, p) && !Filled(g, Prev(d, p)) && FilledLen(g, d, p) == n
  {
    if MaximalRun(g, d, p, n) {
      var m := FilledLen(g, d, p);
      var atM, atN := Along(d, p, m), Along(d, p, n);
    }
  }

  /** One entry of `findShortWords`: a flagged cell and the direction it was flagged for. */
  datatype ShortWord = ShortWord(pos: Pos, direction: Direction)

  /** What `findShortWords` reports: a filled cell with no filled neighbour (as ACROSS), and the
    * start of every maximal filled run of length exactly two. */
  ghost predicate Flagged(g: Board, e: ShortWord)
  {
    Filled(g, e.pos) &&
    ((e.direction == Across && Isolated(g, e.pos)) || MaximalRun(g, e.direction, e.pos, 2))
  }

  /** Report order: row-major by cell, ACROSS before DOWN on the same cell. */
  predicate EntryBefore(a: ShortWord, b: ShortWord)
  {
    Before(Across, a.pos, b.pos) || (a.pos == b.pos && a.direction == Across && b.direction == Down)
  }

  /** Runs of three or more letters, and letters with a neighbour outside a two-letter run,
    * are never reported. */
  lemma LongRunsNotFlagged(g: Board, d: Direction, p: Pos, n: int)
    requires MaximalRun(g, d, p, n) && n >= 3
    ensures !Flagged(g, ShortWord(p, d))
  {
    assert Filled(g, Along(d, p, 1));
    assert Filled(g, Along(d, p, 2));
  }

  /** One pass of the counting loop: a filled cell moves the count on by one. */
  lemma RunStep(g: Board, d: Direction, p: Pos, n: nat)
    requires Filled(g, Along(d, p, n)) && FilledLen(g, d, Along(d, p, n)) + n == FilledLen(g, d, p)
    ensures FilledLen(g, d, Along(d, p, n + 1)) + n + 1 == FilledLen(g, d, p)
  {
    FilledLenStep(g, d, Along(d, p, n));
    assert Next(d, Along(d, p, n)) == Along(d, p, n + 1);
  }

  /** The counting loop stops at the edge or at a cell that is not filled: the count is the run. */
  lemma RunEnd(g: Board, rows: int, cols: int, d: Direction, p: Pos, n: nat)
    requires IsRect(g, rows, cols) && Inside(g, p) && FilledLen(g, d, Along(d, p, n)) + n == FilledLen(g, d, p)
    requires !(Off(d, p) + n < Length(d, rows, cols) && Filled(g, Along(d, p, n)))
    ensures n == FilledLen(g, d, p)
  {
    assert !Filled(g, Along(d, p, n));
  }

  /** The inner `while` of `findShortWords`: counts the filled cells from `p` along `d`. */
  method RunLength(g: Board, rows: int, cols: int, d: Direction, p: Pos) returns (n: nat)
    requires IsRect(g, rows, cols) && Inside(g, p)
    ensures n == FilledLen(g, d, p)
  {
    n := 0;
    assert Along(d, p, 0) == p;
    while Off(d, p) + n < Length(d, rows, cols) && Filled(g, Along(d, p, n))
      invariant 0 <= n <= Length(d, rows, cols) - Off(d, p)
      invariant FilledLen(g, d, Along(d, p, n)) + n == FilledLen(g, d, p)
    {
      RunStep(g, d, p, n);
      n := n + 1;
    }
    RunEnd(g, rows, cols, d, p, n);
  }

  /** A cell with no filled neighbour starts no run of two. */
  lemma IsolatedHasNoPair(g: Board, d: Direction, p: Pos)
    requires Isolated(g, p)
    ensures !MaximalRun(g, d, p, 2)
  {
    assert Along(d, p, 1) == if d == Across then Pos(p.row, p.col + 1) else Pos(p.row + 1, p.col);
  }

  /** `hasConnection` of `findShortWords`: some neighbour inside the grid is filled. */
  function HasConnection(g: Board, rows: int, cols: int, p: Pos): (b: bool)
    requires IsRect(g, rows, cols) && Inside(g, p)
    ensures b <==> !Isolated(g, p)
  {
    var row, col := p.row, p.col;
    (col > 0 && !g[row][col - 1].isBlocked && HasValidLetter(g[row][col - 1].letter)) ||
    (col < cols - 1 && !g[row][col + 1].isBlocked && HasValidLetter(g[row][col + 1].letter)) ||
    (row > 0 && !g[row - 1][col].isBlocked && HasValidLetter(g[row - 1][col].letter)) ||
    (row < rows - 1 && !g[row + 1][col].isBlocked && HasValidLetter(g[row + 1][col].letter))
  }

  /** One of the two run checks of `findShortWords`: at a run start along `d`, count the run
    * and report it when its length is exactly two. */
  method IsTwoLetterRun(g: Board, rows: int, cols: int, d: Direction, p: Pos) returns (flag: bool)
    requires IsRect(g, rows, cols) && Filled(g, p)
    ensures flag <==> MaximalRun(g, d, p, 2)
  {
    MaximalRunIsFilledLen(g, d, p, 2);
    var before := Prev(d, p);
    flag := false;
    if Off(d, p) == 0 || g[before.row][before.col].isBlocked || !HasValidLetter(g[before.row][before.col].letter) {
      var wordLength := RunLength(g, rows, cols, d, p);
      flag := wordLength < 3 && wordLength > 1;
    }
  }

  /** The body of `findShortWords` for one cell: what it reports about `p`, ACROSS first. */
  method ShortWordsAt(g: Board, rows: int, cols: int, p: Pos) returns (found: seq<ShortWord>)
    requires IsRect(g, rows, cols) && Inside(g, p)
    ensures ShortWord(p, Across) in found <==> Flagged(g, ShortWord(p, Across))
    ensures ShortWord(p, Down) in found <==> Flagged(g, ShortWord(p, Down))
    ensures forall e :: e in found ==> e.pos == p
    ensures forall i, j :: 0 <= i < j < |found| ==> EntryBefore(found[i], found[j])
  {
    found := [];
    if g[p.row][p.col].isBlocked || !HasValidLetter(g[p.row][p.col].letter) {
      return;
    }
    if !HasConnection(g, rows, cols, p) {
      IsolatedHasNoPair(g, Down, p);
      return [ShortWord(p, Across)];
    }
    var across := IsTwoLetterRun(g, rows, cols, Across, p);
    if across {
      found := found + [ShortWord(p, Across)];
    }
    var down := IsTwoLetterRun(g, rows, cols, Down, p);
    if down {
      found := found + [ShortWord(p, Down)];
    }
  }

  /** `findShortWords`: every reported entry is flagged, every flagged entry is reported, in
    * reading order without repetition. */
  method FindShortWords(g: Board, rows: int, cols: int) returns (out: seq<ShortWord>)
    requires IsRect(g, rows, cols)
    ensures forall e :: e in out <==> Flagged(g, e)
    ensures forall i, j :: 0 <= i < j < |out| ==> EntryBefore(out[i], out[j])
  {
    out := [];
    var row := 0;
    while row < rows
      invariant 0 <= row <= rows
      invariant forall e :: e in out <==> Flagged(g, e) && e.pos.row < row
      invariant forall i, j :: 0 <= i < j < |out| ==> EntryBefore(out[i], out[j])
    {
      assert |g[row]| == cols;
      var col := 0;
      while col < cols
        invariant 0 <= col <= cols
        invariant forall e :: e in out <==> Flagged(g, e) && Before(Across, e.pos, Pos(row, col))
        invariant forall i, j :: 0 <= i < j < |out| ==> EntryBefore(out[i], out[j])
      {
        var found := ShortWordsAt(g, rows, cols, Pos(row, col));
        out := out + found;
        assert forall e :: e in out <==> Flagged(g, e) && Before(Across, e.pos, Pos(row, col + 1)) by {
          forall e
            ensures e in out <==> Flagged(g, e) && Before(Across, e.pos, Pos(row, col + 1))
          {
            if e.pos == Pos(row, col) {
              assert e == ShortWord(e.pos, e.direction);
              assert e.direction == Across || e.direction == Down;
            }
          }
        }
        col := col + 1;
      }
      row := row + 1;
    }
  }

  /** `findUnusedCells`: exactly the open cells without a letter, in row-major order. */
  method FindUnusedCells(g: Board, rows: int, cols: int) returns (cells: seq<Pos>)
    requires IsRect(g, rows, cols)
    ensures forall p :: p in cells <==> IsEmptyOpen(g, p)
    ensures forall i, j :: 0 <= i < j < |cells| ==> Before(Across, cells[i], cells[j])
  {
    cells := [];
    var row := 0;
    while row < rows
      invariant 0 <= row <= rows
      invariant forall p :: p in cells <==> IsEmptyOpen(g, p) && p.row < row
      invariant forall i, j :: 0 <= i < j < |cells| ==> Before(Across, cells[i], cells[j])
    {
      assert |g[row]| == cols;
      var col := 0;
      while col < cols
        invariant 0 <= col <= cols
        invariant forall p :: p in cells <==> IsEmptyOpen(g, p) && Before(Across, p, Pos(row, col))
        invariant forall i, j :: 0 <= i < j < |cells| ==> Before(Across, cells[i], cells[j])
      {
        if !g[row][col].isBlocked && g[row][col].letter == "" {
          cells := cells + [Pos(row, col)];
        }
        col := col + 1;
      }
      row := row + 1;
    }
  }

  /** Some row holds an open cell with a (truthy) letter. */
  function RowsHaveLetter(g: Board, from: nat): (b: bool)
    requires from <= |g|
    ensures b <==> exists p :: HasLetter(g, p) && from <= p.row
    decreases |g| - from
  {
    if from == |g| then false
    else
      var here := RowHasLetter(g[from], 0);
      if here then
        var c :| 0 <= c < |g[from]| && !g[from][c].isBlocked && g[from][c].letter != "";
        assert HasLetter(g, Pos(from, c));
        true
      else
        assert forall p :: HasLetter(g, p) && from <= p.row ==> from + 1 <= p.row by {
          forall p: Pos | p.row == from && Inside(g, p)
            ensures !HasLetter(g, p)
          {
            assert !(from <= p.col < |g[from]| && !g[from][p.col].isBlocked && g[from][p.col].letter != "");
          }
        }
        RowsHaveLetter(g, from + 1)
  }

  /** `row.some(cell => !cell.isBlocked && cell.letter)` from column `from` on. */
  function RowHasLetter(row: seq<Cell>, from: nat): (b: bool)
    requires from <= |row|
    ensures b <==> exists c :: from <= c < |row| && !row[c].isBlocked && row[c].letter != ""
    decreases |row| - from
  {
    if from == |row| then false
    else (!row[from].isBlocked && row[from].letter != "") || RowHasLetter(row, from + 1)
  }

  /** `hasAnyLetters` of `handleAddHints`. */
  function HasAnyLetters(g: Board): (b: bool)
    ensures b <==> exists p :: HasLetter(g, p)
  {
    RowsHaveLetter(g, 0)
  }
}
