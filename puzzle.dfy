/** The puzzle entity of the server (`Puzzle`): the answer-hiding view sent to solvers, the full
  * view sent to the creator, the like and favourite counters (Java `int` fields) and the range
  * of generated ids. Jackson is not modelled: what parsing `cellsJson` yields and whether
  * printing the masked cells succeeds are parameters. */
module Puzzles {
  import opened Grid
  import opened Accounts

  /** The visibility of a puzzle. */
  datatype Status = PRIVATE | PUBLIC | UNLISTED | DRAFT_CREATE | DRAFT_HINT

  /** `Puzzle.Cell` as stored: the boxed `character` may be null. */
  datatype StoredCell = StoredCell(character: Option<char>, number: int, hintAcross: int, hintDown: int,
                                   isBlocked: bool)

  type CellRows = seq<seq<StoredCell>>

  /** A cell a solver may not see the letter of: a missing or space character. */
  predicate IsBlank(c: StoredCell)
  {
    c.character == None || c.character == Some(' ')
  }

  /** One step of the masking loop: the cell is blocked exactly when it holds no letter, and its
    * character becomes a space. */
  function Masked(c: StoredCell): StoredCell
  {
    c.(isBlocked := IsBlank(c), character := Some(' '))
  }

  /** The cell list after the masking loop. */
  function MaskedRows(g: CellRows): CellRows
  {
    seq(|g|, i requires 0 <= i < |g| => seq(|g[i]|, j requires 0 <= j < |g[i]| => Masked(g[i][j])))
  }

  /** No cell carries a letter. */
  predicate NoLetters(g: CellRows)
  {
    forall i, j :: 0 <= i < |g| && 0 <= j < |g[i]| ==> g[i][j].character == Some(' ')
  }

  /** `getCellsList`: the parsed cells, or one empty row when parsing fails. */
  function CellsList(parsed: Option<CellRows>): (g: CellRows)
    ensures parsed.None? ==> g == [[]]
  {
    if parsed.Some? then parsed.value else [[]]
  }

  /** The masking loop of `getEmptyDTO`, over the parsed list of rows. */
  method MaskCells(g: CellRows) returns (m: CellRows)
    ensures m == MaskedRows(g)
  {
    m := g;
    var i := 0;
    while i < |g|
      invariant 0 <= i <= |g| && |m| == |g|
      invariant forall k :: 0 <= k < i ==> m[k] == MaskedRows(g)[k]
      invariant forall k :: i <= k < |g| ==> m[k] == g[k]
    {
      var row := m[i];
      var j := 0;
      while j < |row|
        invariant 0 <= j <= |row| == |g[i]|
        invariant forall l :: 0 <= l < j ==> row[l] == Masked(g[i][l])
        invariant forall l :: j <= l < |row| ==> row[l] == g[i][l]
      {
        row := row[j := Masked(row[j])];
        j := j + 1;
      }
      m := m[i := row];
      i := i + 1;
    }
  }

  /** After masking no letter is left, a cell is blocked exactly when its stored character was
    * missing or a space, and numbers and clue numbers are kept. */
  lemma MaskingHidesAnswers(g: CellRows)
    ensures |MaskedRows(g)| == |g|
    ensures NoLetters(MaskedRows(g))
    ensures forall i, j :: 0 <= i < |g| && 0 <= j < |g[i]| ==>
      var c := MaskedRows(g)[i][j];
      |MaskedRows(g)[i]| == |g[i]| && (c.isBlocked <==> IsBlank(g[i][j])) &&
      c.number == g[i][j].number && c.hintAcross == g[i][j].hintAcross && c.hintDown == g[i][j].hintDown
  {
  }

  /** Two stored grids of the same shape, numbering and blank cells mask to the same grid: the
    * view tells a solver nothing about which letters were stored. */
  lemma {:induction false} MaskingForgetsLetters(g: CellRows, h: CellRows)
    requires |g| == |h|
    requires forall i :: 0 <= i < |g| ==> |g[i]| == |h[i]|
    requires forall i, j :: 0 <= i < |g| && 0 <= j < |g[i]| ==>
      g[i][j].(character := None, isBlocked := false) == h[i][j].(character := None, isBlocked := false) &&
      (IsBlank(g[i][j]) <==> IsBlank(h[i][j]))
    ensures MaskedRows(g) == MaskedRows(h)
  {
    forall i | 0 <= i < |g|
      ensures MaskedRows(g)[i] == MaskedRows(h)[i]
    {
      forall j | 0 <= j < |g[i]|
        ensures MaskedRows(g)[i][j] == MaskedRows(h)[i][j]
      {
        var a, b := g[i][j], h[i][j];
        assert a.(character := None, isBlocked := false) == b.(character := None, isBlocked := false);
        assert a.number == b.number && a.hintAcross == b.hintAcross && a.hintDown == b.hintDown;
      }
    }
  }

  /** The `cells` entry of a puzzle view: the masked cell list (printed to JSON) or the stored
    * solution text. */
  datatype CellsField = Hidden(rows: CellRows) | Solution(json: string)

  /** The map `getEmptyDTO` and `getFullDTO` build; `cells` is absent when printing fails. */
  datatype PuzzleDto = PuzzleDto(
    id: int, creator: Dto, createdAt: int, title: string, description: string, status: Status,
    hints: string, lastUpdated: int, likeCount: int, favoriteCount: int, cells: Option<CellsField>)

  const INT_MAX: int := 0x7fff_ffff
  const INT_MIN: int := -0x8000_0000

  predicate IsInt(x: int)
  {
    INT_MIN <= x <= INT_MAX
  }

  /** Java `x++` on an `int`: one more, wrapping from the largest value to the smallest. */
  function Inc(x: int): (y: int)
    requires IsInt(x)
    ensures IsInt(y)
    ensures x < INT_MAX ==> y == x + 1
    ensures x == INT_MAX ==> y == INT_MIN
  {
    if x == INT_MAX then INT_MIN else x + 1
  }

  /** `if (x > 0) x--`. */
  function Dec(x: int): (y: int)
    ensures x > 0 ==> y == x - 1
    ensures x <= 0 ==> y == x
  {
    if x > 0 then x - 1 else x
  }

  /** A decrement never takes a count below zero, and does nothing at zero. */
  lemma DecrementNeverNegative(x: int)
    requires x >= 0
    ensures Dec(x) >= 0
    ensures x == 0 ==> Dec(x) == 0
  {
  }

  /** Below the wrap-around point an increment and a decrement cancel, in either order. */
  lemma IncrementThenDecrement(x: int)
    requires 0 <= x < INT_MAX
    ensures Dec(Inc(x)) == x
    ensures x > 0 ==> Inc(Dec(x)) == x
  {
  }

  /** The first generated id that is not already taken: each draw is `nextInt(900000)`, so each
    * candidate is `draw + 100000`. The retry loop runs on as many draws as it needs; the model
    * is given finitely many and answers None when all of them are taken. */
  method GenerateUniqueId(draws: seq<int>, taken: set<int>) returns (id: Option<int>)
    requires forall k :: 0 <= k < |draws| ==> 0 <= draws[k] < 900000
    ensures id.Some? ==> 100000 <= id.value <= 999999 && id.value !in taken
    ensures id.Some? ==> exists k :: 0 <= k < |draws| && id.value == draws[k] + 100000 &&
                                      forall l :: 0 <= l < k ==> draws[l] + 100000 in taken
    ensures id.None? <==> forall k :: 0 <= k < |draws| ==> draws[k] + 100000 in taken
  {
    var k := 0;
    while k < |draws|
      invariant 0 <= k <= |draws|
      invariant forall l :: 0 <= l < k ==> draws[l] + 100000 in taken
    {
      var candidate := draws[k] + 100000;
      if candidate !in taken {
        return Some(candidate);
      }
      k := k + 1;
    }
    return None;
  }

  /** A stored puzzle. Dates are day numbers. */
  class Puzzle {
    const id: int
    const createdAt: int
    var lastUpdated: int
    var creator: User
    var title: string
    var description: string
    var cellsJson: string
    var hintsJson: string
    var status: Status
    var likeCount: int
    var favoriteCount: int

    /** The id is six digits and both counters are Java `int`s. */
    predicate Valid()
      reads this
    {
      100000 <= id <= 999999 && IsInt(likeCount) && IsInt(favoriteCount)
    }

    /** Everything except the two counters. */
    ghost function Content(): (int, int, User, string, string, string, string, Status)
      reads this
    {
      (id, lastUpdated, creator, title, description, cellsJson, hintsJson, status)
    }

    /** `new Puzzle(creator, title, description, cellsJson, hintsJson, status)` with the id the
      * generator chose: no likes, no favourites, created and updated today. */
    constructor(creator: User, title: string, description: string, cellsJson: string, hintsJson: string,
                status: Status, id: int, today: int)
      requires 100000 <= id <= 999999
      ensures Valid()
      ensures this.id == id && createdAt == today && lastUpdated == today
      ensures this.creator == creator && this.title == title && this.description == description
      ensures this.cellsJson == cellsJson && this.hintsJson == hintsJson && this.status == status
      ensures likeCount == 0 && favoriteCount == 0
    {
      this.id := id;
      createdAt := today;
      lastUpdated := today;
      this.creator := creator;
      this.title := title;
      this.description := description;
      this.cellsJson := cellsJson;
      this.hintsJson := hintsJson;
      this.status := status;
      likeCount := 0;
      favoriteCount := 0;
    }

    /** The answer-hiding view: the creator appears by its public fields only, and the cells,
      * when they could be printed, carry no letter. */
    function EmptyView(parsed: Option<CellRows>, printed: bool): (d: PuzzleDto)
      reads this, creator
      ensures d.cells.Some? <==> printed
      ensures printed ==> d.cells.value.Hidden? && NoLetters(d.cells.value.rows)
      ensures d.creator.Keys == PublicKeys()
      ensures d.id == id && d.likeCount == likeCount && d.favoriteCount == favoriteCount && d.hints == hintsJson
    {
      MaskingHidesAnswers(CellsList(parsed));
      PuzzleDto(id, creator.PublicDto(), createdAt, title, description, status, hintsJson, lastUpdated,
                likeCount, favoriteCount, if printed then Some(Hidden(MaskedRows(CellsList(parsed)))) else None)
    }

    /** `getEmptyDTO`: the fields, then the masking loop over the parsed cells. */
    method EmptyDto(parsed: Option<CellRows>, printed: bool) returns (d: PuzzleDto)
      ensures d == EmptyView(parsed, printed)
    {
      d := PuzzleDto(id, creator.PublicDto(), createdAt, title, description, status, hintsJson, lastUpdated,
                     likeCount, favoriteCount, None);
      var cells := MaskCells(CellsList(parsed));
      if printed {
        d := d.(cells := Some(Hidden(cells)));
      }
    }

    /** `getFullDTO`: the answer-hiding view with the stored solution in place of the cells. */
    method FullDto(parsed: Option<CellRows>, printed: bool) returns (d: PuzzleDto)
      ensures d.cells == Some(Solution(cellsJson))
      ensures d.(cells := None) == EmptyView(parsed, printed).(cells := None)
    {
      d := EmptyDto(parsed, printed);
      d := d.(cells := Some(Solution(cellsJson)));
    }

    method IncrementLikeCount()
      requires Valid()
      modifies this
      ensures Valid()
      ensures likeCount == Inc(old(likeCount)) && favoriteCount == old(favoriteCount)
      ensures Content() == old(Content())
    {
      likeCount := Inc(likeCount);
    }

    method IncrementFavoriteCount()
      requires Valid()
      modifies this
      ensures Valid()
      ensures favoriteCount == Inc(old(favoriteCount)) && likeCount == old(likeCount)
      ensures Content() == old(Content())
    {
      favoriteCount := Inc(favoriteCount);
    }

    method DecrementLikeCount()
      requires Valid()
      modifies this
      ensures Valid()
      ensures likeCount == Dec(old(likeCount)) && favoriteCount == old(favoriteCount)
      ensures old(likeCount) >= 0 ==> likeCount >= 0
      ensures Content() == old(Content())
    {
      if likeCount > 0 {
        likeCount := likeCount - 1;
      }
    }

    method DecrementFavoriteCount()
      requires Valid()
      modifies this
      ensures Valid()
      ensures favoriteCount == Dec(old(favoriteCount)) && likeCount == old(likeCount)
      ensures old(favoriteCount) >= 0 ==> favoriteCount >= 0
      ensures Content() == old(Content())
    {
      if favoriteCount > 0 {
        favoriteCount := favoriteCount - 1;
      }
    }
  }
}
