/** `prepareGridForHints` and `getWordAtPosition`: the creation page numbers the word starts of
  * a finished grid in row-major order and stamps every cell of a word with its number. */
module Numbering {
  import opened Grid

  /** One square of the grid sent to the server (`number` is its `label`): -1 means "no label" or "in no word". */
  datatype ApiCell = ApiCell(character: string, number: int, hintAcross: int, hintDown: int)

  /** A numbered cell and the directions of the words it opens. */
  datatype WordStart = WordStart(pos: Pos, number: int, directions: seq<Direction>)

  /** `p` opens a word along `d`: it is open, the cell before it is the edge or blocked, and the
    * cell after it exists and is open. */
  predicate StartsWord(g: Board, d: Direction, p: Pos)
  {
    IsOpen(g, p) && !IsOpen(g, Prev(d, p)) && IsOpen(g, Next(d, p))
  }

  /** The cell receives a label. */
  predicate Labelled(g: Board, p: Pos)
  {
    StartsWord(g, Across, p) || StartsWord(g, Down, p)
  }

  /** The `directions` list of a word start: ACROSS first, then DOWN. */
  function DirectionsAt(g: Board, p: Pos): seq<Direction>
  {
    (if StartsWord(g, Across, p) then [Across] else []) + (if StartsWord(g, Down, p) then [Down] else [])
  }

  /** How many labelled cells come before row `r`, column `c` in row-major order
    * (`c == cols` stands for the end of row `r`). */
  ghost function StartsBefore(g: Board, cols: int, r: int, c: int): nat
    requires 0 <= r && 0 <= c <= cols
    decreases r, c
  {
    if c > 0 then StartsBefore(g, cols, r, c - 1) + (if Labelled(g, Pos(r, c - 1)) then 1 else 0)
    else if r > 0 then StartsBefore(g, cols, r - 1, cols)
    else 0
  }

  /** The label a cell receives: one more than the number of labelled cells before it, or -1. */
  ghost function LabelAt(g: Board, rows: int, cols: int, p: Pos): int
    requires IsRect(g, rows, cols)
  {
    if Labelled(g, p) then StartsBefore(g, cols, p.row, p.col) + 1 else -1
  }

  /** The first cell of the open run along `d` that contains `p`. */
  ghost function RunStart(g: Board, d: Direction, p: Pos): (s: Pos)
    requires IsOpen(g, p)
    ensures IsOpen(g, s) && !IsOpen(g, Prev(d, s))
    ensures Line(d, s) == Line(d, p) && Off(d, s) <= Off(d, p)
    ensures p == Along(d, s, Off(d, p) - Off(d, s))
    decreases Off(d, p)
  {
    if IsOpen(g, Prev(d, p)) then
      var s := RunStart(g, d, Prev(d, p));
      assert Along(d, s, Off(d, p) - Off(d, s)) == Next(d, Prev(d, p));
      s
    else
      assert Along(d, p, 0) == p;
      p
  }

  /** The cell `k` steps from the start of `p`'s run, up to `p`, is open. */
  lemma {:induction false} RunOpen(g: Board, d: Direction, p: Pos, k: int)
    requires IsOpen(g, p) && 0 <= k <= Off(d, p) - Off(d, RunStart(g, d, p))
    ensures IsOpen(g, Along(d, RunStart(g, d, p), k))
    decreases Off(d, p)
  {
    var s := RunStart(g, d, p);
    if k == Off(d, p) - Off(d, s) {
      assert Along(d, s, k) == p;
    } else {
      var t := Prev(d, p);
      assert IsOpen(g, t) && s == RunStart(g, d, t);
      RunOpen(g, d, t, k);
    }
  }

  /** Every cell from the start of the run up to `p` is open. */
  lemma RunStartSpan(g: Board, d: Direction, p: Pos)
    requires IsOpen(g, p)
    ensures forall k :: 0 <= k <= Off(d, p) - Off(d, RunStart(g, d, p)) ==> IsOpen(g, Along(d, RunStart(g, d, p), k))
  {
    forall k | 0 <= k <= Off(d, p) - Off(d, RunStart(g, d, p)) {
      RunOpen(g, d, p, k);
    }
  }

  /** The `hint_across` / `hint_down` a cell receives: the label of the start of its run when
    * that run is a word along `d`, and -1 otherwise. */
  ghost function HintAt(g: Board, rows: int, cols: int, d: Direction, p: Pos): int
    requires IsRect(g, rows, cols)
  {
    if IsOpen(g, p) && StartsWord(g, d, RunStart(g, d, p)) then LabelAt(g, rows, cols, RunStart(g, d, p)) else -1
  }

  /** How many open cells follow one another from `p` along `d`. */
  function OpenLen(g: Board, d: Direction, p: Pos): (n: nat)
    ensures forall k :: 0 <= k < n ==> IsOpen(g, Along(d, p, k))
    ensures !IsOpen(g, Along(d, p, n))
    decreases if d == Across then (if 0 <= p.row < |g| then |g[p.row]| - p.col else 0) else |g| - p.row
  {
    if IsOpen(g, p) then
      var m := OpenLen(g, d, Next(d, p));
      assert forall k :: 1 <= k <= m ==> Along(d, p, k) == Along(d, Next(d, p), k - 1);
      assert Along(d, Next(d, p), m) == Along(d, p, m + 1);
      assert Along(d, p, 0) == p;
      1 + m
    else
      assert Along(d, p, 0) == p;
      0
  }

  /** Up to the end of the run, the cell `k` steps from `p` is open exactly when `k` is inside it. */
  lemma OpenAlong(g: Board, d: Direction, p: Pos, k: int)
    requires 0 <= k <= OpenLen(g, d, p)
    ensures IsOpen(g, Along(d, p, k)) <==> k < OpenLen(g, d, p)
  {
  }

  /** The cells whose run starts at `s` are exactly the open cells from `s` up to the next
    * blocked cell or the edge. */
  lemma {:induction false} RunIsSegment(g: Board, d: Direction, s: Pos, p: Pos)
    requires IsOpen(g, s) && !IsOpen(g, Prev(d, s))
    ensures (IsOpen(g, p) && RunStart(g, d, p) == s) <==>
      (Line(d, p) == Line(d, s) && Off(d, s) <= Off(d, p) < Off(d, s) + OpenLen(g, d, s))
    decreases if d == Across then p.col else p.row
  {
    var n := OpenLen(g, d, s);
    if IsOpen(g, p) && RunStart(g, d, p) == s {
      RunStartSpan(g, d, p);
      assert !IsOpen(g, Along(d, s, n));
    }
    if Line(d, p) == Line(d, s) && Off(d, s) <= Off(d, p) < Off(d, s) + n {
      var k := Off(d, p) - Off(d, s);
      assert p == Along(d, s, k);
      if k > 0 {
        assert Prev(d, p) == Along(d, s, k - 1);
        RunIsSegment(g, d, s, Prev(d, p));
      } else {
        assert p == s;
      }
    }
  }

  /** Counting never goes down along row-major order. */
  lemma {:induction false} StartsBeforeMono(g: Board, cols: int, r1: int, c1: int, r2: int, c2: int)
    requires 0 <= r1 && 0 <= c1 <= cols && 0 <= r2 && 0 <= c2 <= cols
    requires r1 < r2 || (r1 == r2 && c1 <= c2)
    ensures StartsBefore(g, cols, r1, c1) <= StartsBefore(g, cols, r2, c2)
    decreases r2, c2
  {
    if r1 == r2 && c1 == c2 {
    } else if c2 > 0 {
      StartsBeforeMono(g, cols, r1, c1, r2, c2 - 1);
    } else {
      StartsBeforeMono(g, cols, r1, c1, r2 - 1, cols);
    }
  }

  /** Labels are positive and strictly increase in row-major order. */
  lemma LabelsIncrease(g: Board, rows: int, cols: int, p: Pos, q: Pos)
    requires IsRect(g, rows, cols) && Labelled(g, p) && Labelled(g, q) && Before(Across, p, q)
    ensures 0 < LabelAt(g, rows, cols, p) < LabelAt(g, rows, cols, q)
  {
    assert StartsBefore(g, cols, p.row, p.col + 1) == StartsBefore(g, cols, p.row, p.col) + 1;
    StartsBeforeMono(g, cols, p.row, p.col + 1, q.row, q.col);
  }

  /** Two labelled cells share a label only if they are the same cell. */
  lemma LabelsDistinct(g: Board, rows: int, cols: int, p: Pos, q: Pos)
    requires IsRect(g, rows, cols) && Labelled(g, p) && Labelled(g, q)
    ensures LabelAt(g, rows, cols, p) == LabelAt(g, rows, cols, q) <==> p == q
  {
    if Before(Across, p, q) {
      LabelsIncrease(g, rows, cols, p, q);
    } else if Before(Across, q, p) {
      LabelsIncrease(g, rows, cols, q, p);
    }
  }

  /** Every labelled cell's label is at most the number of labelled cells. */
  lemma LabelAtMost(g: Board, rows: int, cols: int, p: Pos)
    requires IsRect(g, rows, cols) && rows >= 0 && Labelled(g, p)
    ensures LabelAt(g, rows, cols, p) <= StartsBefore(g, cols, rows, 0)
  {
    assert StartsBefore(g, cols, p.row, p.col + 1) == StartsBefore(g, cols, p.row, p.col) + 1;
    StartsBeforeMono(g, cols, p.row, p.col + 1, rows, 0);
  }

  /** For a word along `d` starting at `s`, the cells stamped with its number are exactly the
    * open cells from `s` to the next blocked cell or the edge. */
  lemma WordCellsCarryNumber(g: Board, rows: int, cols: int, d: Direction, s: Pos, p: Pos)
    requires IsRect(g, rows, cols) && StartsWord(g, d, s)
    ensures HintAt(g, rows, cols, d, p) == LabelAt(g, rows, cols, s) <==>
      (Line(d, p) == Line(d, s) && Off(d, s) <= Off(d, p) < Off(d, s) + OpenLen(g, d, s))
  {
    RunIsSegment(g, d, s, p);
    if HintAt(g, rows, cols, d, p) == LabelAt(g, rows, cols, s) {
      LabelsDistinct(g, rows, cols, s, RunStart(g, d, p));
    }
  }

  /** A word along `d` has at least two cells. */
  lemma WordsHaveTwoCells(g: Board, d: Direction, s: Pos)
    requires StartsWord(g, d, s)
    ensures OpenLen(g, d, s) >= 2
  {
    assert Along(d, s, 0) == s && Along(d, s, 1) == Next(d, s);
  }

  /** `character` of a server cell: a blocked cell sends "". */
  function Character(c: Cell): string
  {
    if c.isBlocked then "" else c.letter
  }

  /** `hasAcrossWord` / `hasDownWord` of the first pass, as the page computes them. */
  function HasWord(g: Board, rows: int, cols: int, d: Direction, p: Pos): (b: bool)
    requires IsRect(g, rows, cols) && IsOpen(g, p)
    ensures b <==> StartsWord(g, d, p)
  {
    if d == Across then
      assert Prev(d, p) == Pos(p.row, p.col - 1) && Next(d, p) == Pos(p.row, p.col + 1);
      (p.col == 0 || g[p.row][p.col - 1].isBlocked) && p.col + 1 < cols && !g[p.row][p.col + 1].isBlocked
    else
      assert Prev(d, p) == Pos(p.row - 1, p.col) && Next(d, p) == Pos(p.row + 1, p.col);
      (p.row == 0 || g[p.row - 1][p.col].isBlocked) && p.row + 1 < rows && !g[p.row + 1][p.col].isBlocked
  }

  /** The grid of server cells with the cell at `p` replaced. */
  function PutCell(cells: seq<seq<ApiCell>>, p: Pos, v: ApiCell): (h: seq<seq<ApiCell>>)
    requires 0 <= p.row < |cells| && 0 <= p.col < |cells[p.row]|
    ensures |h| == |cells| && forall r :: 0 <= r < |cells| ==> |h[r]| == |cells[r]|
    ensures h[p.row][p.col] == v
    ensures forall r, c :: 0 <= r < |cells| && 0 <= c < |cells[r]| && (r, c) != (p.row, p.col) ==> h[r][c] == cells[r][c]
  {
    cells[p.row := cells[p.row][p.col := v]]
  }

  /** The first loop of `prepareGridForHints`: every cell starts unlabelled and in no word. */
  method InitApiCells(g: Board, rows: int, cols: int) returns (cells: seq<seq<ApiCell>>)
    requires IsRect(g, rows, cols) && rows >= 0 && cols >= 0
    ensures IsRect(cells, rows, cols)
    ensures forall r, c :: 0 <= r < rows && 0 <= c < cols ==> cells[r][c] == ApiCell(Character(g[r][c]), -1, -1, -1)
  {
    cells := [];
    for row := 0 to rows
      invariant |cells| == row
      invariant forall r :: 0 <= r < row ==> |cells[r]| == cols
      invariant forall r, c :: 0 <= r < row && 0 <= c < cols ==> cells[r][c] == ApiCell(Character(g[r][c]), -1, -1, -1)
    {
      var line: seq<ApiCell> := [];
      for col := 0 to cols
        invariant |line| == col
        invariant forall c :: 0 <= c < col ==> line[c] == ApiCell(Character(g[row][c]), -1, -1, -1)
      {
        line := line + [ApiCell(if g[row][col].isBlocked then "" else g[row][col].letter, -1, -1, -1)];
      }
      cells := cells + [line];
    }
  }

  /** What the word-start list promises: entry `i` is the labelled cell numbered `i + 1`, with
    * its directions, and every labelled cell has its entry. */
  ghost predicate WordStartsOf(g: Board, rows: int, cols: int, ws: seq<WordStart>)
    requires IsRect(g, rows, cols) && rows >= 0 && cols >= 0
  {
    |ws| == StartsBefore(g, cols, rows, 0) && EntriesValid(g, rows, cols, ws)
  }

  /** Every labelled cell has its entry in the word-start list, at its label minus one. */
  lemma EntryOf(g: Board, rows: int, cols: int, ws: seq<WordStart>, p: Pos)
    requires IsRect(g, rows, cols) && rows >= 0 && cols >= 0 && WordStartsOf(g, rows, cols, ws) && Labelled(g, p)
    ensures 1 <= LabelAt(g, rows, cols, p) <= |ws| && ws[LabelAt(g, rows, cols, p) - 1].pos == p
  {
    LabelAtMost(g, rows, cols, p);
    var q := ws[LabelAt(g, rows, cols, p) - 1].pos;
    LabelsDistinct(g, rows, cols, p, q);
  }

  /** The grid determines its word-start list: two lists that both meet `WordStartsOf` are equal. */
  lemma WordStartsUnique(g: Board, rows: int, cols: int, ws1: seq<WordStart>, ws2: seq<WordStart>)
    requires IsRect(g, rows, cols) && rows >= 0 && cols >= 0
    requires WordStartsOf(g, rows, cols, ws1) && WordStartsOf(g, rows, cols, ws2)
    ensures ws1 == ws2
  {
    forall i | 0 <= i < |ws1|
      ensures ws1[i] == ws2[i]
    {
      LabelsDistinct(g, rows, cols, ws1[i].pos, ws2[i].pos);
    }
  }

  /** Every listed word start lies inside the grid. */
  lemma WordStartsInside(g: Board, rows: int, cols: int, ws: seq<WordStart>)
    requires IsRect(g, rows, cols) && rows >= 0 && cols >= 0 && WordStartsOf(g, rows, cols, ws)
    ensures forall i :: 0 <= i < |ws| ==> 0 <= ws[i].pos.row < rows && 0 <= ws[i].pos.col < cols
  {
    forall i | 0 <= i < |ws|
      ensures 0 <= ws[i].pos.row < rows && 0 <= ws[i].pos.col < cols
    {
      assert Labelled(g, ws[i].pos);
    }
  }

  /** The word-start list runs in row-major order. */
  lemma WordStartsInOrder(g: Board, rows: int, cols: int, ws: seq<WordStart>, i: int, j: int)
    requires IsRect(g, rows, cols) && rows >= 0 && cols >= 0 && WordStartsOf(g, rows, cols, ws)
    requires 0 <= i < j < |ws|
    ensures Before(Across, ws[i].pos, ws[j].pos)
  {
    var p, q := ws[i].pos, ws[j].pos;
    if p != q && !Before(Across, p, q) {
      LabelsIncrease(g, rows, cols, q, p);
    }
  }

  /** The first cell is before (`row`, `col`) in row-major order (`col == cols` means after the row). */
  predicate EarlierCell(r: int, c: int, row: int, col: int)
  {
    r < row || (r == row && c < col)
  }

  /** The cells before row `row`, column `col` carry their labels; the others are untouched. */
  ghost predicate LabelledUpTo(g: Board, rows: int, cols: int, cells0: seq<seq<ApiCell>>,
                               cells: seq<seq<ApiCell>>, row: int, col: int)
    requires IsRect(g, rows, cols)
  {
    IsRect(cells0, rows, cols) && IsRect(cells, rows, cols) &&
    forall r, c :: 0 <= r < rows && 0 <= c < cols ==>
      cells[r][c] == if Labelled(g, Pos(r, c)) && EarlierCell(r, c, row, col) then cells0[r][c].(number := LabelAt(g, rows, cols, Pos(r, c))) else cells0[r][c]
  }

  /** Entry `i` of the word-start list is the labelled cell numbered `i + 1`, with its directions. */
  ghost predicate EntriesValid(g: Board, rows: int, cols: int, ws: seq<WordStart>)
    requires IsRect(g, rows, cols)
  {
    forall i :: 0 <= i < |ws| ==>
      Labelled(g, ws[i].pos) && ws[i].number == i + 1 && LabelAt(g, rows, cols, ws[i].pos) == i + 1 &&
      ws[i].directions == DirectionsAt(g, ws[i].pos)
  }

  /** The state the second loop of `prepareGridForHints` has reached at row `row`, column `col`:
    * the cells before it carry their labels and the list holds their word starts. */
  ghost predicate NumberedUpTo(g: Board, rows: int, cols: int, cells0: seq<seq<ApiCell>>,
                               cells: seq<seq<ApiCell>>, ws: seq<WordStart>, row: int, col: int)
    requires IsRect(g, rows, cols) && rows >= 0 && cols >= 0 && 0 <= row && 0 <= col <= cols
  {
    |ws| == StartsBefore(g, cols, row, col) &&
    LabelledUpTo(g, rows, cols, cells0, cells, row, col) && EntriesValid(g, rows, cols, ws)
  }

  /** Passing over a cell that starts no word changes nothing. */
  lemma StepUnlabelled(g: Board, rows: int, cols: int, cells0: seq<seq<ApiCell>>, cells: seq<seq<ApiCell>>,
                       ws: seq<WordStart>, row: int, col: int)
    requires IsRect(g, rows, cols) && rows >= 0 && cols >= 0 && 0 <= row < rows && 0 <= col < cols
    requires NumberedUpTo(g, rows, cols, cells0, cells, ws, row, col) && !Labelled(g, Pos(row, col))
    ensures NumberedUpTo(g, rows, cols, cells0, cells, ws, row, col + 1)
  {
    assert |ws| == StartsBefore(g, cols, row, col + 1);
    CellsSkip(g, rows, cols, cells0, cells, row, col);
  }

  /** A cell that starts no word is labelled neither before nor after it is passed. */
  lemma CellsSkip(g: Board, rows: int, cols: int, cells0: seq<seq<ApiCell>>, cells: seq<seq<ApiCell>>, row: int, col: int)
    requires IsRect(g, rows, cols) && 0 <= row < rows && 0 <= col < cols
    requires LabelledUpTo(g, rows, cols, cells0, cells, row, col) && !Labelled(g, Pos(row, col))
    ensures LabelledUpTo(g, rows, cols, cells0, cells, row, col + 1)
  {
    forall r, c | 0 <= r < rows && 0 <= c < cols
      ensures cells[r][c] == if Labelled(g, Pos(r, c)) && EarlierCell(r, c, row, col + 1) then cells0[r][c].(number := LabelAt(g, rows, cols, Pos(r, c))) else cells0[r][c]
    {
      if (r, c) != (row, col) {
        assert EarlierCell(r, c, row, col + 1) == EarlierCell(r, c, row, col);
      }
    }
  }

  /** Labelling the cell at (`row`, `col`) extends the labelled prefix by one cell. */
  lemma CellsStep(g: Board, rows: int, cols: int, cells0: seq<seq<ApiCell>>, cells: seq<seq<ApiCell>>, row: int, col: int)
    requires IsRect(g, rows, cols) && 0 <= row < rows && 0 <= col < cols
    requires LabelledUpTo(g, rows, cols, cells0, cells, row, col) && Labelled(g, Pos(row, col))
    ensures LabelledUpTo(g, rows, cols, cells0,
      PutCell(cells, Pos(row, col), cells[row][col].(number := LabelAt(g, rows, cols, Pos(row, col)))), row, col + 1)
  {
    var cells' := PutCell(cells, Pos(row, col), cells[row][col].(number := LabelAt(g, rows, cols, Pos(row, col))));
    forall r, c | 0 <= r < rows && 0 <= c < cols
      ensures cells'[r][c] == if Labelled(g, Pos(r, c)) && EarlierCell(r, c, row, col + 1) then cells0[r][c].(number := LabelAt(g, rows, cols, Pos(r, c))) else cells0[r][c]
    {
      if (r, c) != (row, col) {
        assert EarlierCell(r, c, row, col + 1) == EarlierCell(r, c, row, col);
      }
    }
  }

  /** Appending the entry of the next labelled cell keeps the list valid. */
  lemma EntriesStep(g: Board, rows: int, cols: int, ws: seq<WordStart>, here: Pos)
    requires IsRect(g, rows, cols) && EntriesValid(g, rows, cols, ws)
    requires Labelled(g, here) && LabelAt(g, rows, cols, here) == |ws| + 1
    ensures EntriesValid(g, rows, cols, ws + [WordStart(here, |ws| + 1, DirectionsAt(g, here))])
  {
    var ws' := ws + [WordStart(here, |ws| + 1, DirectionsAt(g, here))];
    forall i | 0 <= i < |ws'|
      ensures Labelled(g, ws'[i].pos) && ws'[i].number == i + 1 && LabelAt(g, rows, cols, ws'[i].pos) == i + 1 &&
        ws'[i].directions == DirectionsAt(g, ws'[i].pos)
    {
      if i < |ws| {
        assert ws'[i] == ws[i];
      }
    }
  }

  /** Labelling a word start gives it the next number and appends its entry. */
  lemma StepLabelled(g: Board, rows: int, cols: int, cells0: seq<seq<ApiCell>>, cells: seq<seq<ApiCell>>,
                     ws: seq<WordStart>, row: int, col: int)
    requires IsRect(g, rows, cols) && rows >= 0 && cols >= 0 && 0 <= row < rows && 0 <= col < cols
    requires NumberedUpTo(g, rows, cols, cells0, cells, ws, row, col) && Labelled(g, Pos(row, col))
    ensures var here := Pos(row, col);
      NumberedUpTo(g, rows, cols, cells0, PutCell(cells, here, cells[row][col].(number := |ws| + 1)),
                   ws + [WordStart(here, |ws| + 1, DirectionsAt(g, here))], row, col + 1)
  {
    var here := Pos(row, col);
    assert LabelAt(g, rows, cols, here) == |ws| + 1;
    CellsStep(g, rows, cols, cells0, cells, row, col);
    EntriesStep(g, rows, cols, ws, here);
  }

  /** One step of the second loop: label the cell at (`row`, `col`) if it starts a word. */
  method NumberCell(g: Board, rows: int, cols: int, ghost cells0: seq<seq<ApiCell>>, cells: seq<seq<ApiCell>>,
                    ws: seq<WordStart>, currentNumber: int, row: int, col: int)
      returns (cells': seq<seq<ApiCell>>, ws': seq<WordStart>, nextNumber: int)
    requires IsRect(g, rows, cols) && rows >= 0 && cols >= 0 && 0 <= row < rows && 0 <= col < cols
    requires NumberedUpTo(g, rows, cols, cells0, cells, ws, row, col) && currentNumber == |ws| + 1
    ensures NumberedUpTo(g, rows, cols, cells0, cells', ws', row, col + 1) && nextNumber == |ws'| + 1
  {
    cells', ws', nextNumber := cells, ws, currentNumber;
    var here := Pos(row, col);
    if g[row][col].isBlocked {
      StepUnlabelled(g, rows, cols, cells0, cells, ws, row, col);
    } else {
      var hasAcrossWord := HasWord(g, rows, cols, Across, here);
      var hasDownWord := HasWord(g, rows, cols, Down, here);
      if hasAcrossWord || hasDownWord {
        var directions: seq<Direction> := [];
        if hasAcrossWord {
          directions := directions + [Across];
        }
        if hasDownWord {
          directions := directions + [Down];
        }
        assert directions == DirectionsAt(g, here);
        StepLabelled(g, rows, cols, cells0, cells, ws, row, col);
        cells' := PutCell(cells, here, cells[row][col].(number := currentNumber));
        ws' := ws + [WordStart(here, currentNumber, directions)];
        nextNumber := currentNumber + 1;
      } else {
        StepUnlabelled(g, rows, cols, cells0, cells, ws, row, col);
      }
    }
  }

  /** The end of a row is the start of the next one. */
  lemma NextRow(g: Board, rows: int, cols: int, cells0: seq<seq<ApiCell>>, cells: seq<seq<ApiCell>>, ws: seq<WordStart>, row: int)
    requires IsRect(g, rows, cols) && rows >= 0 && cols >= 0 && 0 <= row
    requires NumberedUpTo(g, rows, cols, cells0, cells, ws, row, cols)
    ensures NumberedUpTo(g, rows, cols, cells0, cells, ws, row + 1, 0)
  {
  }

  /** The second loop of `prepareGridForHints`: labels the word starts 1, 2, 3, ... in row-major
    * order and lists them with their directions. */
  method NumberStarts(g: Board, rows: int, cols: int, cells0: seq<seq<ApiCell>>)
      returns (cells: seq<seq<ApiCell>>, ws: seq<WordStart>)
    requires IsRect(g, rows, cols) && IsRect(cells0, rows, cols) && rows >= 0 && cols >= 0
    ensures IsRect(cells, rows, cols)
    ensures forall r, c :: 0 <= r < rows && 0 <= c < cols ==>
      cells[r][c] == if Labelled(g, Pos(r, c)) then cells0[r][c].(number := LabelAt(g, rows, cols, Pos(r, c))) else cells0[r][c]
    ensures WordStartsOf(g, rows, cols, ws)
  {
    var currentNumber := 1;
    cells, ws := cells0, [];
    for row := 0 to rows
      invariant NumberedUpTo(g, rows, cols, cells0, cells, ws, row, 0) && currentNumber == |ws| + 1
    {
      for col := 0 to cols
        invariant NumberedUpTo(g, rows, cols, cells0, cells, ws, row, col) && currentNumber == |ws| + 1
      {
        cells, ws, currentNumber := NumberCell(g, rows, cols, cells0, cells, ws, currentNumber, row, col);
      }
      NextRow(g, rows, cols, cells0, cells, ws, row);
    }
  }

  /** The cell with its `hint_across` (for Across) or `hint_down` (for Down) set to `n`. */
  function Stamp(c: ApiCell, d: Direction, n: int): ApiCell
  {
    if d == Across then c.(hintAcross := n) else c.(hintDown := n)
  }

  /** `p` lies in the first `k` cells from `s` along `d`. */
  predicate OnSegment(d: Direction, s: Pos, k: int, p: Pos)
  {
    Line(d, p) == Line(d, s) && Off(d, s) <= Off(d, p) < Off(d, s) + k
  }

  /** The ACROSS `while` of the second pass: stamps `n` as `hint_across` on the run of open
    * cells that starts at `s`. */
  method StampAcross(g: Board, rows: int, cols: int, cells0: seq<seq<ApiCell>>, s: Pos, n: int)
      returns (cells: seq<seq<ApiCell>>)
    requires IsRect(g, rows, cols) && IsRect(cells0, rows, cols)
    requires IsOpen(g, s) && !IsOpen(g, Prev(Across, s))
    ensures IsRect(cells, rows, cols)
    ensures forall r, c :: 0 <= r < rows && 0 <= c < cols ==>
      cells[r][c] == if IsOpen(g, Pos(r, c)) && RunStart(g, Across, Pos(r, c)) == s then cells0[r][c].(hintAcross := n) else cells0[r][c]
  {
    cells := cells0;
    var col := s.col;
    while col < cols && !g[s.row][col].isBlocked
      invariant s.col <= col <= cols
      invariant col - s.col <= OpenLen(g, Across, s)
      invariant StampedSegment(rows, cols, cells0, cells, Across, s, col - s.col, n)
    {
      assert Along(Across, s, col - s.col) == Pos(s.row, col) && IsOpen(g, Pos(s.row, col));
      OpenAlong(g, Across, s, col - s.col);
      SegmentGrows(rows, cols, cells0, cells, Across, s, col - s.col, n);
      cells := PutCell(cells, Pos(s.row, col), Stamp(cells[s.row][col], Across, n));
      col := col + 1;
    }
    assert Along(Across, s, col - s.col) == Pos(s.row, col);
    OpenAlong(g, Across, s, col - s.col);
    SegmentIsRun(g, rows, cols, cells0, cells, Across, s, n);
  }

  /** The DOWN `while` of the second pass: stamps `n` as `hint_down` on the run of open
    * cells that starts at `s`. */
  method StampDown(g: Board, rows: int, cols: int, cells0: seq<seq<ApiCell>>, s: Pos, n: int)
      returns (cells: seq<seq<ApiCell>>)
    requires IsRect(g, rows, cols) && IsRect(cells0, rows, cols)
    requires IsOpen(g, s) && !IsOpen(g, Prev(Down, s))
    ensures IsRect(cells, rows, cols)
    ensures forall r, c :: 0 <= r < rows && 0 <= c < cols ==>
      cells[r][c] == if IsOpen(g, Pos(r, c)) && RunStart(g, Down, Pos(r, c)) == s then cells0[r][c].(hintDown := n) else cells0[r][c]
  {
    cells := cells0;
    var row := s.row;
    while row < rows && !g[row][s.col].isBlocked
      invariant s.row <= row <= rows
      invariant row - s.row <= OpenLen(g, Down, s)
      invariant StampedSegment(rows, cols, cells0, cells, Down, s, row - s.row, n)
    {
      assert Along(Down, s, row - s.row) == Pos(row, s.col) && IsOpen(g, Pos(row, s.col));
      OpenAlong(g, Down, s, row - s.row);
      SegmentGrows(rows, cols, cells0, cells, Down, s, row - s.row, n);
      cells := PutCell(cells, Pos(row, s.col), Stamp(cells[row][s.col], Down, n));
      row := row + 1;
    }
    assert Along(Down, s, row - s.row) == Pos(row, s.col);
    OpenAlong(g, Down, s, row - s.row);
    SegmentIsRun(g, rows, cols, cells0, cells, Down, s, n);
  }

  /** The first `k` cells from `s` along `d` are stamped with `n`, and nothing else changed. */
  ghost predicate StampedSegment(rows: int, cols: int, cells0: seq<seq<ApiCell>>, cells: seq<seq<ApiCell>>, d: Direction, s: Pos, k: int, n: int)
  {
    IsRect(cells0, rows, cols) && IsRect(cells, rows, cols) &&
    forall r, c :: 0 <= r < rows && 0 <= c < cols ==>
      cells[r][c] == if OnSegment(d, s, k, Pos(r, c)) then Stamp(cells0[r][c], d, n) else cells0[r][c]
  }

  /** Stamping one more cell of the segment. */
  lemma SegmentGrows(rows: int, cols: int, cells0: seq<seq<ApiCell>>, cells: seq<seq<ApiCell>>, d: Direction, s: Pos, k: int, n: int)
    requires var q := Along(d, s, k); 0 <= q.row < rows && 0 <= q.col < cols && k >= 0
    requires StampedSegment(rows, cols, cells0, cells, d, s, k, n)
    ensures var q := Along(d, s, k);
      StampedSegment(rows, cols, cells0, PutCell(cells, q, Stamp(cells[q.row][q.col], d, n)), d, s, k + 1, n)
  {
    var q := Along(d, s, k);
    var h := PutCell(cells, q, Stamp(cells[q.row][q.col], d, n));
    forall r, c | 0 <= r < rows && 0 <= c < cols
      ensures h[r][c] == if OnSegment(d, s, k + 1, Pos(r, c)) then Stamp(cells0[r][c], d, n) else cells0[r][c]
    {
      if (r, c) == (q.row, q.col) {
        assert Pos(r, c) == q && OnSegment(d, s, k + 1, q) && !OnSegment(d, s, k, q);
      } else {
        PosFromCoords(d, Pos(r, c));
        PosFromCoords(d, q);
        assert OnSegment(d, s, k + 1, Pos(r, c)) == OnSegment(d, s, k, Pos(r, c));
      }
    }
  }

  /** Stamping the segment of open cells from `s` is stamping the run that starts at `s`. */
  lemma SegmentIsRun(g: Board, rows: int, cols: int, cells0: seq<seq<ApiCell>>, cells: seq<seq<ApiCell>>, d: Direction, s: Pos, n: int)
    requires IsOpen(g, s) && !IsOpen(g, Prev(d, s))
    requires StampedSegment(rows, cols, cells0, cells, d, s, OpenLen(g, d, s), n)
    ensures forall r, c :: 0 <= r < rows && 0 <= c < cols ==>
      cells[r][c] == if IsOpen(g, Pos(r, c)) && RunStart(g, d, Pos(r, c)) == s then Stamp(cells0[r][c], d, n) else cells0[r][c]
  {
    forall r, c | 0 <= r < rows && 0 <= c < cols
      ensures cells[r][c] == if IsOpen(g, Pos(r, c)) && RunStart(g, d, Pos(r, c)) == s then Stamp(cells0[r][c], d, n) else cells0[r][c]
    {
      RunIsSegment(g, d, s, Pos(r, c));
    }
  }

  /** The hint number along `d` that the first `i` word starts give the cell, or -1. */
  ghost function HintUpTo(g: Board, rows: int, cols: int, d: Direction, p: Pos, i: int): int
    requires IsRect(g, rows, cols)
  {
    var h := HintAt(g, rows, cols, d, p);
    if h <= i then h else -1
  }

  /** Stamping the words of entry `i` adds exactly the cells whose run starts there. */
  lemma StampStep(g: Board, rows: int, cols: int, ws: seq<WordStart>, i: int, d: Direction, p: Pos)
    requires IsRect(g, rows, cols) && rows >= 0 && cols >= 0 && WordStartsOf(g, rows, cols, ws) && 0 <= i < |ws|
    ensures HintUpTo(g, rows, cols, d, p, i + 1) ==
      if d in ws[i].directions && IsOpen(g, p) && RunStart(g, d, p) == ws[i].pos then i + 1 else HintUpTo(g, rows, cols, d, p, i)
  {
    var s := ws[i].pos;
    assert LabelAt(g, rows, cols, s) == i + 1 && ws[i].directions == DirectionsAt(g, s);
    InDirections(g, d, s);
    if IsOpen(g, p) && StartsWord(g, d, RunStart(g, d, p)) {
      var t := RunStart(g, d, p);
      EntryOf(g, rows, cols, ws, t);
      assert HintAt(g, rows, cols, d, p) == LabelAt(g, rows, cols, t);
      if t != s {
        assert LabelAt(g, rows, cols, t) != i + 1;
      }
    } else {
      assert HintAt(g, rows, cols, d, p) == -1;
    }
  }

  /** A word start lists a direction exactly when it opens a word that way. */
  lemma InDirections(g: Board, d: Direction, p: Pos)
    ensures d in DirectionsAt(g, p) <==> StartsWord(g, d, p)
  {
  }


  /** The state of the second pass: the across hints of the first `ia` word starts and the
    * down hints of the first `id` are stamped, and nothing else changed. */
  ghost predicate HintedUpTo(g: Board, rows: int, cols: int, cells0: seq<seq<ApiCell>>, cells: seq<seq<ApiCell>>, ia: int, id: int)
    requires IsRect(g, rows, cols) && IsRect(cells0, rows, cols)
  {
    IsRect(cells, rows, cols) &&
    forall r, c :: 0 <= r < rows && 0 <= c < cols ==>
      cells[r][c] == cells0[r][c].(hintAcross := HintUpTo(g, rows, cols, Across, Pos(r, c), ia),
                                   hintDown := HintUpTo(g, rows, cols, Down, Pos(r, c), id))
  }

  /** Stamping the across word of entry `i` moves the across hints on by one entry. */
  lemma AcrossStamped(g: Board, rows: int, cols: int, cells0: seq<seq<ApiCell>>, cells: seq<seq<ApiCell>>, cells': seq<seq<ApiCell>>,
                      ws: seq<WordStart>, i: int, s: Pos, n: int)
    requires IsRect(g, rows, cols) && IsRect(cells0, rows, cols) && rows >= 0 && cols >= 0
    requires WordStartsOf(g, rows, cols, ws) && 0 <= i < |ws| && s == ws[i].pos && n == i + 1 && Across in ws[i].directions
    requires HintedUpTo(g, rows, cols, cells0, cells, i, i) && IsRect(cells', rows, cols)
    requires forall r, c :: 0 <= r < rows && 0 <= c < cols ==>
      cells'[r][c] == if IsOpen(g, Pos(r, c)) && RunStart(g, Across, Pos(r, c)) == s then cells[r][c].(hintAcross := n) else cells[r][c]
    ensures HintedUpTo(g, rows, cols, cells0, cells', i + 1, i)
  {
    forall r, c | 0 <= r < rows && 0 <= c < cols
      ensures cells'[r][c] == cells0[r][c].(hintAcross := HintUpTo(g, rows, cols, Across, Pos(r, c), i + 1),
                                            hintDown := HintUpTo(g, rows, cols, Down, Pos(r, c), i))
    {
      StampStep(g, rows, cols, ws, i, Across, Pos(r, c));
    }
  }

  /** An entry that opens no across word leaves the across hints as they were. */
  lemma AcrossSkipped(g: Board, rows: int, cols: int, cells0: seq<seq<ApiCell>>, cells: seq<seq<ApiCell>>,
                      ws: seq<WordStart>, i: int)
    requires IsRect(g, rows, cols) && IsRect(cells0, rows, cols) && rows >= 0 && cols >= 0
    requires WordStartsOf(g, rows, cols, ws) && 0 <= i < |ws| && Across !in ws[i].directions
    requires HintedUpTo(g, rows, cols, cells0, cells, i, i)
    ensures HintedUpTo(g, rows, cols, cells0, cells, i + 1, i)
  {
    forall r, c | 0 <= r < rows && 0 <= c < cols
      ensures cells[r][c] == cells0[r][c].(hintAcross := HintUpTo(g, rows, cols, Across, Pos(r, c), i + 1),
                                           hintDown := HintUpTo(g, rows, cols, Down, Pos(r, c), i))
    {
      StampStep(g, rows, cols, ws, i, Across, Pos(r, c));
    }
  }

  /** Stamping the down word of entry `i` moves the down hints on by one entry. */
  lemma DownStamped(g: Board, rows: int, cols: int, cells0: seq<seq<ApiCell>>, cells: seq<seq<ApiCell>>, cells': seq<seq<ApiCell>>,
                    ws: seq<WordStart>, i: int, s: Pos, n: int)
    requires IsRect(g, rows, cols) && IsRect(cells0, rows, cols) && rows >= 0 && cols >= 0
    requires WordStartsOf(g, rows, cols, ws) && 0 <= i < |ws| && s == ws[i].pos && n == i + 1 && Down in ws[i].directions
    requires HintedUpTo(g, rows, cols, cells0, cells, i + 1, i) && IsRect(cells', rows, cols)
    requires forall r, c :: 0 <= r < rows && 0 <= c < cols ==>
      cells'[r][c] == if IsOpen(g, Pos(r, c)) && RunStart(g, Down, Pos(r, c)) == s then cells[r][c].(hintDown := n) else cells[r][c]
    ensures HintedUpTo(g, rows, cols, cells0, cells', i + 1, i + 1)
  {
    forall r, c | 0 <= r < rows && 0 <= c < cols
      ensures cells'[r][c] == cells0[r][c].(hintAcross := HintUpTo(g, rows, cols, Across, Pos(r, c), i + 1),
                                            hintDown := HintUpTo(g, rows, cols, Down, Pos(r, c), i + 1))
    {
      StampStep(g, rows, cols, ws, i, Down, Pos(r, c));
    }
  }

  /** An entry that opens no down word leaves the down hints as they were. */
  lemma DownSkipped(g: Board, rows: int, cols: int, cells0: seq<seq<ApiCell>>, cells: seq<seq<ApiCell>>,
                    ws: seq<WordStart>, i: int)
    requires IsRect(g, rows, cols) && IsRect(cells0, rows, cols) && rows >= 0 && cols >= 0
    requires WordStartsOf(g, rows, cols, ws) && 0 <= i < |ws| && Down !in ws[i].directions
    requires HintedUpTo(g, rows, cols, cells0, cells, i + 1, i)
    ensures HintedUpTo(g, rows, cols, cells0, cells, i + 1, i + 1)
  {
    forall r, c | 0 <= r < rows && 0 <= c < cols
      ensures cells[r][c] == cells0[r][c].(hintAcross := HintUpTo(g, rows, cols, Across, Pos(r, c), i + 1),
                                           hintDown := HintUpTo(g, rows, cols, Down, Pos(r, c), i + 1))
    {
      StampStep(g, rows, cols, ws, i, Down, Pos(r, c));
    }
  }

  /** The ACROSS half of one round of the second pass. */
  method StampEntryAcross(g: Board, rows: int, cols: int, ghost cells0: seq<seq<ApiCell>>, cells: seq<seq<ApiCell>>,
                          ws: seq<WordStart>, i: int) returns (cells': seq<seq<ApiCell>>)
    requires IsRect(g, rows, cols) && IsRect(cells0, rows, cols) && rows >= 0 && cols >= 0
    requires WordStartsOf(g, rows, cols, ws) && 0 <= i < |ws|
    requires HintedUpTo(g, rows, cols, cells0, cells, i, i)
    ensures HintedUpTo(g, rows, cols, cells0, cells', i + 1, i)
  {
    if Across in ws[i].directions {
      assert ws[i].number == i + 1 && StartsWord(g, Across, ws[i].pos);
      cells' := StampAcross(g, rows, cols, cells, ws[i].pos, ws[i].number);
      AcrossStamped(g, rows, cols, cells0, cells, cells', ws, i, ws[i].pos, ws[i].number);
    } else {
      cells' := cells;
      AcrossSkipped(g, rows, cols, cells0, cells, ws, i);
    }
  }

  /** The DOWN half of one round of the second pass. */
  method StampEntryDown(g: Board, rows: int, cols: int, ghost cells0: seq<seq<ApiCell>>, cells: seq<seq<ApiCell>>,
                        ws: seq<WordStart>, i: int) returns (cells': seq<seq<ApiCell>>)
    requires IsRect(g, rows, cols) && IsRect(cells0, rows, cols) && rows >= 0 && cols >= 0
    requires WordStartsOf(g, rows, cols, ws) && 0 <= i < |ws|
    requires HintedUpTo(g, rows, cols, cells0, cells, i + 1, i)
    ensures HintedUpTo(g, rows, cols, cells0, cells', i + 1, i + 1)
  {
    if Down in ws[i].directions {
      assert ws[i].number == i + 1 && StartsWord(g, Down, ws[i].pos);
      cells' := StampDown(g, rows, cols, cells, ws[i].pos, ws[i].number);
      DownStamped(g, rows, cols, cells0, cells, cells', ws, i, ws[i].pos, ws[i].number);
    } else {
      cells' := cells;
      DownSkipped(g, rows, cols, cells0, cells, ws, i);
    }
  }

  /** Every hint number is at most the number of word starts. */
  lemma HintUpToAll(g: Board, rows: int, cols: int, ws: seq<WordStart>, d: Direction, p: Pos)
    requires IsRect(g, rows, cols) && rows >= 0 && cols >= 0 && WordStartsOf(g, rows, cols, ws)
    ensures HintUpTo(g, rows, cols, d, p, |ws|) == HintAt(g, rows, cols, d, p)
  {
    if IsOpen(g, p) && StartsWord(g, d, RunStart(g, d, p)) {
      LabelAtMost(g, rows, cols, RunStart(g, d, p));
    }
  }

  /** The third loop of `prepareGridForHints`: every cell of every word gets the word's number. */
  method StampHints(g: Board, rows: int, cols: int, cells0: seq<seq<ApiCell>>, ws: seq<WordStart>)
      returns (cells: seq<seq<ApiCell>>)
    requires IsRect(g, rows, cols) && IsRect(cells0, rows, cols) && rows >= 0 && cols >= 0
    requires WordStartsOf(g, rows, cols, ws)
    requires forall r, c :: 0 <= r < rows && 0 <= c < cols ==> cells0[r][c].hintAcross == -1 && cells0[r][c].hintDown == -1
    ensures IsRect(cells, rows, cols)
    ensures forall r, c :: 0 <= r < rows && 0 <= c < cols ==>
      cells[r][c] == cells0[r][c].(hintAcross := HintAt(g, rows, cols, Across, Pos(r, c)),
                                   hintDown := HintAt(g, rows, cols, Down, Pos(r, c)))
  {
    cells := cells0;
    forall r, c | 0 <= r < rows && 0 <= c < cols
      ensures cells[r][c] == cells0[r][c].(hintAcross := HintUpTo(g, rows, cols, Across, Pos(r, c), 0),
                                           hintDown := HintUpTo(g, rows, cols, Down, Pos(r, c), 0))
    {
      assert HintUpTo(g, rows, cols, Across, Pos(r, c), 0) == -1;
      assert HintUpTo(g, rows, cols, Down, Pos(r, c), 0) == -1;
    }
    for i := 0 to |ws|
      invariant HintedUpTo(g, rows, cols, cells0, cells, i, i)
    {
      cells := StampEntryAcross(g, rows, cols, cells0, cells, ws, i);
      cells := StampEntryDown(g, rows, cols, cells0, cells, ws, i);
    }
    forall r, c | 0 <= r < rows && 0 <= c < cols
      ensures cells[r][c] == cells0[r][c].(hintAcross := HintAt(g, rows, cols, Across, Pos(r, c)),
                                           hintDown := HintAt(g, rows, cols, Down, Pos(r, c)))
    {
      HintUpToAll(g, rows, cols, ws, Across, Pos(r, c));
      HintUpToAll(g, rows, cols, ws, Down, Pos(r, c));
    }
  }

  /** `prepareGridForHints`: every cell carries its character, its label and the numbers of the
    * across and down words it belongs to, and the word starts are listed in label order. */
  method PrepareGridForHints(g: Board, rows: int, cols: int) returns (cells: seq<seq<ApiCell>>, ws: seq<WordStart>)
    requires IsRect(g, rows, cols) && rows >= 0 && cols >= 0
    ensures IsRect(cells, rows, cols)
    ensures forall r, c :: 0 <= r < rows && 0 <= c < cols ==>
      cells[r][c] == ApiCell(Character(g[r][c]), LabelAt(g, rows, cols, Pos(r, c)),
                             HintAt(g, rows, cols, Across, Pos(r, c)), HintAt(g, rows, cols, Down, Pos(r, c)))
    ensures WordStartsOf(g, rows, cols, ws)
  {
    var init := InitApiCells(g, rows, cols);
    var labelled;
    labelled, ws := NumberStarts(g, rows, cols, init);
    cells := StampHints(g, rows, cols, labelled, ws);
  }

  /** The letters of the open cells from `p` along `d` up to the next blocked cell or the edge,
    * run together. */
  function WordFrom(g: Board, d: Direction, p: Pos): string
    decreases if d == Across then (if 0 <= p.row < |g| then |g[p.row]| - p.col else 0) else |g| - p.row
  {
    if IsOpen(g, p) then g[p.row][p.col].letter + WordFrom(g, d, Next(d, p)) else ""
  }

  /** Every open cell of the run from `p` holds exactly one character. */
  ghost predicate SingleLetters(g: Board, d: Direction, p: Pos)
  {
    forall k :: 0 <= k < OpenLen(g, d, p) ==> |g[Along(d, p, k).row][Along(d, p, k).col].letter| == 1
  }

  /** When each cell holds one character, the word has one character per cell of the run, and
    * its `k`-th character is the letter `k` cells from `p`. */
  lemma {:induction false} WordFromLetters(g: Board, d: Direction, p: Pos)
    requires SingleLetters(g, d, p)
    ensures |WordFrom(g, d, p)| == OpenLen(g, d, p)
    ensures forall k :: 0 <= k < OpenLen(g, d, p) ==> WordFrom(g, d, p)[k] == g[Along(d, p, k).row][Along(d, p, k).col].letter[0]
    decreases if d == Across then (if 0 <= p.row < |g| then |g[p.row]| - p.col else 0) else |g| - p.row
  {
    if IsOpen(g, p) {
      var q := Next(d, p);
      var n := OpenLen(g, d, q);
      assert OpenLen(g, d, p) == n + 1;
      forall k | 0 <= k < n
        ensures |g[Along(d, q, k).row][Along(d, q, k).col].letter| == 1
      {
        assert Along(d, q, k) == Along(d, p, k + 1);
      }
      WordFromLetters(g, d, q);
      assert Along(d, p, 0) == p;
      var w := WordFrom(g, d, p);
      assert w == g[p.row][p.col].letter + WordFrom(g, d, q);
      forall k | 0 <= k < n + 1
        ensures w[k] == g[Along(d, p, k).row][Along(d, p, k).col].letter[0]
      {
        if k > 0 {
          assert Along(d, q, k - 1) == Along(d, p, k);
        }
      }
    }
  }

  /** `getWordAtPosition`: the letters of the run that starts at `s`, read forward. */
  method GetWordAtPosition(g: Board, rows: int, cols: int, s: Pos, d: Direction) returns (word: string)
    requires IsRect(g, rows, cols) && 0 <= s.row < rows && 0 <= s.col < cols
    ensures word == WordFrom(g, d, s)
  {
    word := "";
    if d == Across {
      var col := s.col;
      while col < cols && !g[s.row][col].isBlocked
        invariant s.col <= col <= cols
        invariant word + WordFrom(g, Across, Pos(s.row, col)) == WordFrom(g, Across, s)
      {
        word := word + g[s.row][col].letter;
        col := col + 1;
      }
    } else {
      var row := s.row;
      while row < rows && !g[row][s.col].isBlocked
        invariant s.row <= row <= rows
        invariant word + WordFrom(g, Down, Pos(row, s.col)) == WordFrom(g, Down, s)
      {
        word := word + g[row][s.col].letter;
        row := row + 1;
      }
    }
  }
}
