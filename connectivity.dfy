/** `isGridConnected` of the creation page: a depth-first search over the open lettered cells
  * from the first one in row-major order, marking a `visited` matrix. */
module Connectivity {
  import opened Grid

  /** The four neighbours, in the order the search visits them. */
  function Neighbours(p: Pos): seq<Pos>
  {
    [Pos(p.row + 1, p.col), Pos(p.row - 1, p.col), Pos(p.row, p.col + 1), Pos(p.row, p.col - 1)]
  }

  /** A walk through open lettered cells, each step to one of the four neighbours. */
  ghost predicate IsPath(g: Board, path: seq<Pos>)
  {
    |path| >= 1 &&
    (forall i :: 0 <= i < |path| ==> HasLetter(g, path[i])) &&
    (forall i :: 0 <= i < |path| - 1 ==> path[i + 1] in Neighbours(path[i]))
  }

  ghost predicate Reachable(g: Board, a: Pos, b: Pos)
  {
    exists path :: IsPath(g, path) && path[0] == a && path[|path| - 1] == b
  }

  /** All open lettered cells form one four-neighbour component (vacuously so when there are none). */
  ghost predicate Connected(g: Board)
  {
    forall a, b :: HasLetter(g, a) && HasLetter(g, b) ==> Reachable(g, a, b)
  }

  lemma ReachableRefl(g: Board, a: Pos)
    requires HasLetter(g, a)
    ensures Reachable(g, a, a)
  {
    assert IsPath(g, [a]);
  }

  /** A reachable cell's lettered neighbour is reachable. */
  lemma ReachableStep(g: Board, a: Pos, b: Pos, c: Pos)
    requires Reachable(g, a, b) && c in Neighbours(b) && HasLetter(g, c)
    ensures Reachable(g, a, c)
  {
    var path :| IsPath(g, path) && path[0] == a && path[|path| - 1] == b;
    var longer := path + [c];
    assert IsPath(g, longer);
    assert longer[|longer| - 1] == c;
  }

  lemma NeighbourSym(a: Pos, b: Pos)
    requires b in Neighbours(a)
    ensures a in Neighbours(b)
  {
  }

  /** Neighbourhood is symmetric, so every path can be walked backwards. */
  lemma {:induction false} ReachableSym(g: Board, a: Pos, b: Pos)
    requires Reachable(g, a, b)
    ensures Reachable(g, b, a)
  {
    var path :| IsPath(g, path) && path[0] == a && path[|path| - 1] == b;
    var back := seq(|path|, i requires 0 <= i < |path| => path[|path| - 1 - i]);
    forall i | 0 <= i < |back| - 1
      ensures back[i + 1] in Neighbours(back[i])
    {
      var j := |path| - 2 - i;
      assert path[j + 1] in Neighbours(path[j]);
      NeighbourSym(path[j], path[j + 1]);
      assert back[i] == path[j + 1] && back[i + 1] == path[j];
    }
    assert forall i :: 0 <= i < |back| ==> HasLetter(g, back[i]) by {
      forall i | 0 <= i < |back|
        ensures HasLetter(g, back[i])
      {
        assert back[i] == path[|path| - 1 - i];
      }
    }
    assert IsPath(g, back);
    assert back[0] == b && back[|back| - 1] == a;
  }

  lemma {:induction false} ReachableTrans(g: Board, a: Pos, b: Pos, c: Pos)
    requires Reachable(g, a, b) && Reachable(g, b, c)
    ensures Reachable(g, a, c)
  {
    var p1 :| IsPath(g, p1) && p1[0] == a && p1[|p1| - 1] == b;
    var p2 :| IsPath(g, p2) && p2[0] == b && p2[|p2| - 1] == c;
    var joined := p1 + p2[1..];
    forall i | 0 <= i < |joined| - 1
      ensures joined[i + 1] in Neighbours(joined[i])
    {
      if i < |p1| - 1 {
        assert joined[i] == p1[i] && joined[i + 1] == p1[i + 1];
      } else {
        var k := i - (|p1| - 1);
        assert joined[i] == p2[k] && joined[i + 1] == p2[k + 1];
      }
    }
    assert IsPath(g, joined);
  }

  /** Every cell reachable from `start` lies in a set that holds `start` and is closed under
    * stepping to lettered neighbours. */
  lemma {:induction false} ClosedSetHoldsPath(g: Board, s: set<Pos>, path: seq<Pos>)
    requires IsPath(g, path) && path[0] in s
    requires forall x, y :: x in s && y in Neighbours(x) && HasLetter(g, y) ==> y in s
    ensures path[|path| - 1] in s
    decreases |path|
  {
    if |path| > 1 {
      var shorter := path[..|path| - 1];
      assert IsPath(g, shorter);
      ClosedSetHoldsPath(g, s, shorter);
      assert path[|path| - 1] in Neighbours(path[|path| - 2]);
    }
  }

  /** The positions the matrix has marked. */
  ghost function Marked(v: array2<bool>): set<Pos>
    reads v
  {
    set r, c | 0 <= r < v.Length0 && 0 <= c < v.Length1 && v[r, c] :: Pos(r, c)
  }

  /** Every position of the matrix: the unmarked ones bound the search. */
  ghost function AllCells(v: array2<bool>): set<Pos>
  {
    set r, c | 0 <= r < v.Length0 && 0 <= c < v.Length1 :: Pos(r, c)
  }

  /** Each lettered neighbour of `x` is in `s`. */
  ghost predicate NeighboursIn(g: Board, s: set<Pos>, x: Pos)
  {
    forall y :: y in Neighbours(x) && HasLetter(g, y) ==> y in s
  }

  /** Everything in `s` is lettered and reachable from `start`. */
  ghost predicate Sound(g: Board, s: set<Pos>, start: Pos)
  {
    forall x :: x in s ==> HasLetter(g, x) && Reachable(g, start, x)
  }

  /** Every cell added since `before` has its lettered neighbours in `after`. */
  ghost predicate ClosedSince(g: Board, before: set<Pos>, after: set<Pos>)
  {
    forall x :: x in after - before ==> NeighboursIn(g, after, x)
  }

  /** Marking `p` and then running the four neighbour searches closes everything they added. */
  lemma CombineClosure(g: Board, p: Pos, s0: set<Pos>, s1: set<Pos>, s2: set<Pos>, s3: set<Pos>, s4: set<Pos>, s5: set<Pos>)
    requires s1 == s0 + {p} && s1 <= s2 <= s3 <= s4 <= s5
    requires ClosedSince(g, s1, s2) && ClosedSince(g, s2, s3) && ClosedSince(g, s3, s4) && ClosedSince(g, s4, s5)
    requires HasLetter(g, Neighbours(p)[0]) ==> Neighbours(p)[0] in s2
    requires HasLetter(g, Neighbours(p)[1]) ==> Neighbours(p)[1] in s3
    requires HasLetter(g, Neighbours(p)[2]) ==> Neighbours(p)[2] in s4
    requires HasLetter(g, Neighbours(p)[3]) ==> Neighbours(p)[3] in s5
    ensures ClosedSince(g, s0, s5)
  {
    forall x | x in s5 - s0
      ensures NeighboursIn(g, s5, x)
    {
      if x == p {
      } else if x in s2 - s1 {
        assert NeighboursIn(g, s2, x);
      } else if x in s3 - s2 {
        assert NeighboursIn(g, s3, x);
      } else if x in s4 - s3 {
        assert NeighboursIn(g, s4, x);
      } else {
        assert NeighboursIn(g, s5, x);
      }
    }
  }

  /** `dfs(row, col)`: marks every lettered cell reachable from `p` through unmarked lettered
    * cells; everything marked is lettered and reachable from `start`, and every cell this call
    * marks has its lettered neighbours marked when it returns. */
  method Dfs(g: Board, rows: int, cols: int, visited: array2<bool>, p: Pos, ghost start: Pos)
    requires IsRect(g, rows, cols) && visited.Length0 == rows && visited.Length1 == cols
    requires Sound(g, Marked(visited), start)
    requires HasLetter(g, p) ==> Reachable(g, start, p)
    modifies visited
    ensures old(Marked(visited)) <= Marked(visited)
    ensures Sound(g, Marked(visited), start)
    ensures HasLetter(g, p) ==> p in Marked(visited)
    ensures ClosedSince(g, old(Marked(visited)), Marked(visited))
    decreases AllCells(visited) - Marked(visited), 1
  {
    if p.row < 0 || p.row >= rows || p.col < 0 || p.col >= cols {
      return;
    }
    if visited[p.row, p.col] || g[p.row][p.col].isBlocked || g[p.row][p.col].letter == "" {
      assert visited[p.row, p.col] ==> p in Marked(visited);
      return;
    }
    ghost var s0 := Marked(visited);
    visited[p.row, p.col] := true;
    assert Marked(visited) == s0 + {p} by {
      forall x ensures x in Marked(visited) <==> x in s0 || x == p {
        if x in Marked(visited) && x != p {
          assert old(visited[x.row, x.col]);
        }
      }
    }
    assert p in AllCells(visited);
    ghost var bound := AllCells(visited) - s0;
    ghost var s1 := Marked(visited);
    Visit(g, rows, cols, visited, p, 0, start, bound);
    ghost var s2 := Marked(visited);
    Visit(g, rows, cols, visited, p, 1, start, bound);
    ghost var s3 := Marked(visited);
    Visit(g, rows, cols, visited, p, 2, start, bound);
    ghost var s4 := Marked(visited);
    Visit(g, rows, cols, visited, p, 3, start, bound);
    CombineClosure(g, p, s0, s1, s2, s3, s4, Marked(visited));
  }

  /** One of the four recursive calls of `dfs`, from the marked cell `p` to its `k`-th neighbour. */
  method Visit(g: Board, rows: int, cols: int, visited: array2<bool>, p: Pos, k: int, ghost start: Pos,
               ghost bound: set<Pos>)
    requires IsRect(g, rows, cols) && visited.Length0 == rows && visited.Length1 == cols
    requires Sound(g, Marked(visited), start) && p in Marked(visited) && 0 <= k < 4
    requires AllCells(visited) - Marked(visited) < bound
    modifies visited
    ensures old(Marked(visited)) <= Marked(visited)
    ensures Sound(g, Marked(visited), start)
    ensures HasLetter(g, Neighbours(p)[k]) ==> Neighbours(p)[k] in Marked(visited)
    ensures ClosedSince(g, old(Marked(visited)), Marked(visited))
    ensures AllCells(visited) - Marked(visited) < bound
    decreases bound, 0
  {
    var q := Neighbours(p)[k];
    if HasLetter(g, q) {
      ReachableStep(g, start, p, q);
    }
    Dfs(g, rows, cols, visited, q, start);
  }

  /** The labelled search for the first open lettered cell in row-major order; `startRow` stays
    * -1 when there is none. */
  method FirstLetter(g: Board, rows: int, cols: int) returns (startRow: int, startCol: int)
    requires IsRect(g, rows, cols)
    ensures startRow == -1 <==> forall x :: !HasLetter(g, x)
    ensures startRow != -1 ==> HasLetter(g, Pos(startRow, startCol))
    ensures startRow != -1 ==> forall x :: HasLetter(g, x) ==> !Before(Across, x, Pos(startRow, startCol))
  {
    startRow, startCol := -1, -1;
    var row := 0;
    while row < rows
      invariant 0 <= row <= rows
      invariant forall x :: HasLetter(g, x) ==> x.row >= row
    {
      assert |g[row]| == cols;
      var col := 0;
      while col < cols
        invariant 0 <= col <= cols
        invariant forall x :: HasLetter(g, x) ==> x.row > row || (x.row == row && x.col >= col)
      {
        if !g[row][col].isBlocked && g[row][col].letter != "" {
          startRow, startCol := row, col;
          assert HasLetter(g, Pos(row, col));
          return;
        }
        col := col + 1;
      }
      row := row + 1;
    }
  }

  /** The final scan of `isGridConnected`: does every open lettered cell carry a mark? */
  method AllLettersMarked(g: Board, rows: int, cols: int, visited: array2<bool>) returns (ok: bool)
    requires IsRect(g, rows, cols) && visited.Length0 == rows && visited.Length1 == cols
    ensures ok <==> forall x :: HasLetter(g, x) ==> x in Marked(visited)
  {
    var row := 0;
    while row < rows
      invariant 0 <= row <= rows
      invariant forall x :: HasLetter(g, x) && x.row < row ==> x in Marked(visited)
    {
      assert |g[row]| == cols;
      var col := 0;
      while col < cols
        invariant 0 <= col <= cols
        invariant forall x :: HasLetter(g, x) && (x.row < row || (x.row == row && x.col < col)) ==> x in Marked(visited)
      {
        if !g[row][col].isBlocked && g[row][col].letter != "" && !visited[row, col] {
          assert Pos(row, col) !in Marked(visited);
          return false;
        }
        assert HasLetter(g, Pos(row, col)) ==> Pos(row, col) in Marked(visited);
        col := col + 1;
      }
      row := row + 1;
    }
    return true;
  }

  /** `isGridConnected`: true exactly when the open lettered cells are one component. */
  method IsGridConnected(g: Board, rows: int, cols: int) returns (ok: bool)
    requires IsRect(g, rows, cols) && cols >= 0
    ensures ok <==> Connected(g)
  {
    var visited := new bool[rows, cols]((_, _) => false);
    var startRow, startCol := FirstLetter(g, rows, cols);
    if startRow == -1 {
      return true;
    }
    var start := Pos(startRow, startCol);
    ReachableRefl(g, start);
    assert Marked(visited) == {};
    Dfs(g, rows, cols, visited, start, start);
    ghost var s := Marked(visited);
    assert forall x, y :: x in s && y in Neighbours(x) && HasLetter(g, y) ==> y in s by {
      forall x, y | x in s && y in Neighbours(x) && HasLetter(g, y)
        ensures y in s
      {
        assert ClosedSince(g, {}, s);
        assert NeighboursIn(g, s, x);
      }
    }
    ok := AllLettersMarked(g, rows, cols, visited);
    if ok {
      forall a, b | HasLetter(g, a) && HasLetter(g, b)
        ensures Reachable(g, a, b)
      {
        assert Sound(g, s, start);
        ReachableSym(g, start, a);
        ReachableTrans(g, a, start, b);
      }
    } else {
      ghost var x :| HasLetter(g, x) && x !in s;
      if Reachable(g, start, x) {
        ghost var path :| IsPath(g, path) && path[0] == start && path[|path| - 1] == x;
        ClosedSetHoldsPath(g, s, path);
      }
    }
  }
}
