/** The crossword grid of the creation page: cells, directions, positions and reading order. */
module Grid {

  datatype Option<T> = None | Some(value: T)

  /** One square of the editing grid. `letter` is "" or what the user typed. */
  datatype Cell = Cell(letter: string, isBlocked: bool, isWordStart: bool)

  datatype Direction = Across | Down

  datatype Pos = Pos(row: int, col: int)

  type Board = seq<seq<Cell>>

  function Flip(d: Direction): (e: Direction)
    ensures e != d
  {
    if d == Across then Down else Across
  }

  /** A fresh, unblocked, letterless cell. */
  function BlankCell(): Cell
  {
    Cell("", false, false)
  }

  /** `rows` rows of exactly `cols` cells each. */
  predicate IsRect<T>(g: seq<seq<T>>, rows: int, cols: int)
  {
    |g| == rows && forall r :: 0 <= r < |g| ==> |g[r]| == cols
  }

  predicate Inside(g: Board, p: Pos)
  {
    0 <= p.row < |g| && 0 <= p.col < |g[p.row]|
  }

  /** Inside the grid and not blocked. Out-of-range positions are never open. */
  predicate IsOpen(g: Board, p: Pos)
  {
    Inside(g, p) && !g[p.row][p.col].isBlocked
  }

  /** Open and holding no letter: an unused cell. */
  predicate IsEmptyOpen(g: Board, p: Pos)
  {
    IsOpen(g, p) && g[p.row][p.col].letter == ""
  }

  /** Open and holding a letter (the `letter` string is truthy). */
  predicate HasLetter(g: Board, p: Pos)
  {
    IsOpen(g, p) && g[p.row][p.col].letter != ""
  }

  /** The line a position lies on for a direction: its row for Across, its column for Down. */
  function Line(d: Direction, p: Pos): int
  {
    if d == Across then p.row else p.col
  }

  /** The position along the line: its column for Across, its row for Down. */
  function Off(d: Direction, p: Pos): int
  {
    if d == Across then p.col else p.row
  }

  /** The position at `line`, `off` for a direction. */
  function At(d: Direction, line: int, off: int): (p: Pos)
    ensures Line(d, p) == line && Off(d, p) == off
  {
    if d == Across then Pos(line, off) else Pos(off, line)
  }

  /** How many lines there are for a direction: rows for Across, columns for Down. */
  function Lines(d: Direction, rows: int, cols: int): int
  {
    if d == Across then rows else cols
  }

  /** How long each line is for a direction. */
  function Length(d: Direction, rows: int, cols: int): int
  {
    if d == Across then cols else rows
  }

  /** Reading order: row-major for Across, column-major for Down. */
  predicate Before(d: Direction, a: Pos, b: Pos)
  {
    Line(d, a) < Line(d, b) || (Line(d, a) == Line(d, b) && Off(d, a) < Off(d, b))
  }

  /** The neighbour one step further along direction `d`. */
  function Next(d: Direction, p: Pos): (q: Pos)
    ensures Line(d, q) == Line(d, p) && Off(d, q) == Off(d, p) + 1
  {
    if d == Across then Pos(p.row, p.col + 1) else Pos(p.row + 1, p.col)
  }

  /** The position `k` steps further than `p` along direction `d`. */
  function Along(d: Direction, p: Pos, k: int): (q: Pos)
    ensures Line(d, q) == Line(d, p) && Off(d, q) == Off(d, p) + k
  {
    if d == Across then Pos(p.row, p.col + k) else Pos(p.row + k, p.col)
  }

  /** The neighbour one step back along direction `d`. */
  function Prev(d: Direction, p: Pos): (q: Pos)
    ensures Line(d, q) == Line(d, p) && Off(d, q) == Off(d, p) - 1
    ensures Next(d, q) == p
  {
    if d == Across then Pos(p.row, p.col - 1) else Pos(p.row - 1, p.col)
  }

  lemma PosFromCoords(d: Direction, p: Pos)
    ensures At(d, Line(d, p), Off(d, p)) == p
  {
  }

  /** On a rectangular grid, Inside is the coordinate range test. */
  lemma InsideRect(g: Board, rows: int, cols: int, p: Pos)
    requires IsRect(g, rows, cols)
    ensures Inside(g, p) <==> 0 <= p.row < rows && 0 <= p.col < cols
  {
  }

  /** Every rows x cols grid of blank cells, as initializeGrid, addRow and addColumn build them. */
  function BlankGrid(rows: nat, cols: nat): (g: Board)
    ensures IsRect(g, rows, cols)
    ensures forall r, c :: 0 <= r < rows && 0 <= c < cols ==> g[r][c] == BlankCell()
  {
    seq(rows, _ => seq(cols, _ => BlankCell()))
  }

  /** The grid with the cell at `p` replaced. */
  function SetCell(g: Board, p: Pos, cell: Cell): (h: Board)
    requires Inside(g, p)
    ensures |h| == |g| && forall r :: 0 <= r < |g| ==> |h[r]| == |g[r]|
    ensures h[p.row][p.col] == cell
    ensures forall r, c :: 0 <= r < |g| && 0 <= c < |g[r]| && (r, c) != (p.row, p.col) ==> h[r][c] == g[r][c]
  {
    g[p.row := g[p.row][p.col := cell]]
  }
}
