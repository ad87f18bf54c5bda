/**
 * Line clearing and piece merging (src/tetris/tetrisBoard.js, clearLines and
 * mergePiece). Both take a grid by value and return a new one; the input grid
 * is never changed.
 *
 * clearLines scans the first ROWS rows (the constant, not the grid's length),
 * so a grid longer than ROWS keeps its extra rows even when they are full.
 */
module Board {
  import opened Kinematics

  /** A row with no empty cell. */
  predicate Full(row: seq<int>)
  {
    forall c :: 0 <= c < |row| ==> row[c] != 0
  }

  /** An empty row of the board's width. */
  function EmptyRow(cols: nat): (row: seq<int>)
    ensures |row| == cols && forall c :: 0 <= c < cols ==> row[c] == 0
  {
    seq(cols, _ => 0)
  }

  /** n empty rows. */
  function Zeros(n: nat, cols: nat): (z: Grid)
    ensures |z| == n && forall r :: 0 <= r < n ==> z[r] == EmptyRow(cols)
  {
    seq(n, _ => EmptyRow(cols))
  }

  /** Row i is removed by a clear: it lies in the scanned ROWS and is full. */
  predicate Cleared(grid: Grid, rows: int, i: int)
    requires 0 <= i < |grid|
  {
    i < rows && Full(grid[i])
  }

  /** The indices of the rows cleared at or above index lo, highest first. */
  function FullIn(grid: Grid, rows: int, lo: nat): seq<int>
    requires lo <= |grid|
    decreases |grid| - lo
  {
    if lo == |grid| then []
    else FullIn(grid, rows, lo + 1) + (if Cleared(grid, rows, lo) then [lo] else [])
  }

  /** The rows from index lo on that survive a clear, in their original order. */
  function Kept(grid: Grid, rows: int, lo: nat): seq<seq<int>>
    requires lo <= |grid|
    decreases |grid| - lo
  {
    if lo == |grid| then []
    else (if Cleared(grid, rows, lo) then [] else [grid[lo]]) + Kept(grid, rows, lo + 1)
  }

  /** The original indices of the rows in Kept. */
  function KeptIndices(grid: Grid, rows: int, lo: nat): seq<int>
    requires lo <= |grid|
    decreases |grid| - lo
  {
    if lo == |grid| then []
    else (if Cleared(grid, rows, lo) then [] else [lo]) + KeptIndices(grid, rows, lo + 1)
  }

  /** The grid after a clear: one empty row per cleared row on top, then the survivors. */
  function ClearedGrid(grid: Grid, rows: int, cols: nat): Grid
  {
    Zeros(|FullIn(grid, rows, 0)|, cols) + Kept(grid, rows, 0)
  }

  /** `grid.filter((_, index) => !drop.includes(index))`, from index lo on. */
  function Filter(grid: Grid, drop: seq<int>, lo: nat): seq<seq<int>>
    requires lo <= |grid|
    decreases |grid| - lo
  {
    if lo == |grid| then []
    else (if lo in drop then [] else [grid[lo]]) + Filter(grid, drop, lo + 1)
  }

  /** FullIn lists exactly the cleared rows at or above lo, strictly descending. */
  lemma {:induction false} FullInSpec(grid: Grid, rows: int, lo: nat)
    requires lo <= |grid|
    ensures var f := FullIn(grid, rows, lo);
      (forall i :: i in f <==> lo <= i < |grid| && Cleared(grid, rows, i)) &&
      (forall a, b :: 0 <= a < b < |f| ==> f[a] > f[b])
    decreases |grid| - lo
  {
    if lo < |grid| {
      FullInSpec(grid, rows, lo + 1);
      var tail := FullIn(grid, rows, lo + 1);
      forall k | 0 <= k < |tail|
        ensures tail[k] > lo
      {
        assert tail[k] in tail;
      }
    }
  }

  /** Nothing is listed when no row at or above lo is cleared; in particular rows at or
      beyond ROWS are never cleared. */
  lemma {:induction false} NothingToClear(grid: Grid, rows: int, lo: nat)
    requires lo <= |grid|
    requires forall i :: lo <= i < |grid| ==> !Cleared(grid, rows, i)
    ensures FullIn(grid, rows, lo) == []
    decreases |grid| - lo
  {
    if lo < |grid| {
      NothingToClear(grid, rows, lo + 1);
    }
  }

  /** Every row is either kept or cleared. */
  lemma {:induction false} KeptCount(grid: Grid, rows: int, lo: nat)
    requires lo <= |grid|
    ensures |Kept(grid, rows, lo)| + |FullIn(grid, rows, lo)| == |grid| - lo
    decreases |grid| - lo
  {
    if lo < |grid| {
      KeptCount(grid, rows, lo + 1);
    }
  }

  /** Kept holds the surviving rows in their original relative order: the k-th kept row
      is the row at the k-th surviving index, and those indices increase. */
  lemma KeptOrder(grid: Grid, rows: int, lo: nat)
    requires lo <= |grid|
    ensures var ks, ix := Kept(grid, rows, lo), KeptIndices(grid, rows, lo);
      |ks| == |ix| &&
      (forall k :: 0 <= k < |ix| ==> lo <= ix[k] < |grid| && ks[k] == grid[ix[k]]) &&
      (forall a, b :: 0 <= a < b < |ix| ==> ix[a] < ix[b]) &&
      (forall i :: i in ix <==> lo <= i < |grid| && !Cleared(grid, rows, i))
  {
    KeptAt(grid, rows, lo);
    KeptIndicesMembers(grid, rows, lo);
    KeptIndicesIncrease(grid, rows, lo);
  }

  /** rs lists the rows of grid at the indices ix, all at or above lo. */
  predicate RowsAt(grid: Grid, rs: seq<seq<int>>, ix: seq<int>, lo: nat)
  {
    |rs| == |ix| && forall k :: 0 <= k < |ix| ==> lo <= ix[k] < |grid| && rs[k] == grid[ix[k]]
  }

  /** The k-th kept row is the row at the k-th surviving index. */
  lemma {:induction false} KeptAt(grid: Grid, rows: int, lo: nat)
    requires lo <= |grid|
    ensures RowsAt(grid, Kept(grid, rows, lo), KeptIndices(grid, rows, lo), lo)
    decreases |grid| - lo
  {
    if lo < |grid| {
      KeptAt(grid, rows, lo + 1);
      var ks, ix := Kept(grid, rows, lo), KeptIndices(grid, rows, lo);
      var kt, tail := Kept(grid, rows, lo + 1), KeptIndices(grid, rows, lo + 1);
      if !Cleared(grid, rows, lo) {
        assert ix == [lo] + tail && ks == [grid[lo]] + kt;
        forall k | 0 < k < |ix| ensures lo <= ix[k] < |grid| && ks[k] == grid[ix[k]] {
          assert ix[k] == tail[k - 1] && ks[k] == kt[k - 1];
        }
      } else {
        assert ix == tail && ks == kt;
      }
    }
  }

  /** The surviving indices are exactly the rows at or above lo that are not cleared. */
  lemma {:induction false} KeptIndicesMembers(grid: Grid, rows: int, lo: nat)
    requires lo <= |grid|
    ensures forall i :: i in KeptIndices(grid, rows, lo) <==> lo <= i < |grid| && !Cleared(grid, rows, i)
    decreases |grid| - lo
  {
    if lo < |grid| {
      KeptIndicesMembers(grid, rows, lo + 1);
      var ix, tail := KeptIndices(grid, rows, lo), KeptIndices(grid, rows, lo + 1);
      if !Cleared(grid, rows, lo) {
        assert ix == [lo] + tail;
      } else {
        assert ix == tail;
      }
    }
  }

  /** Strictly increasing indices. */
  predicate Increasing(ix: seq<int>)
  {
    forall a, b :: 0 <= a < b < |ix| ==> ix[a] < ix[b]
  }

  /** The surviving indices are at least lo and increase. */
  lemma {:induction false} KeptIndicesIncrease(grid: Grid, rows: int, lo: nat)
    requires lo <= |grid|
    ensures forall k :: 0 <= k < |KeptIndices(grid, rows, lo)| ==> lo <= KeptIndices(grid, rows, lo)[k]
    ensures Increasing(KeptIndices(grid, rows, lo))
    decreases |grid| - lo
  {
    if lo < |grid| {
      KeptIndicesIncrease(grid, rows, lo + 1);
      var ix, tail := KeptIndices(grid, rows, lo), KeptIndices(grid, rows, lo + 1);
      if !Cleared(grid, rows, lo) {
        assert ix == [lo] + tail;
        forall a, b | 0 <= a < b < |ix| ensures ix[a] < ix[b] {
          assert ix[b] == tail[b - 1];
          if a > 0 { assert ix[a] == tail[a - 1]; }
        }
      } else {
        assert ix == tail;
      }
    }
  }

  /** With nothing cleared, the survivors are the rows themselves. */
  lemma {:induction false} NothingClearedKeepsAll(grid: Grid, rows: int, lo: nat)
    requires lo <= |grid| && FullIn(grid, rows, lo) == []
    ensures Kept(grid, rows, lo) == grid[lo..]
    decreases |grid| - lo
  {
    if lo < |grid| {
      assert FullIn(grid, rows, lo + 1) == [];
      NothingClearedKeepsAll(grid, rows, lo + 1);
      assert grid[lo..] == [grid[lo]] + grid[lo + 1..];
    }
  }

  /** Filtering out the listed cleared rows keeps exactly the survivors. */
  lemma {:induction false} FilterCleared(grid: Grid, rows: int, lo: nat)
    requires lo <= |grid|
    ensures Filter(grid, FullIn(grid, rows, 0), lo) == Kept(grid, rows, lo)
    decreases |grid| - lo
  {
    if lo < |grid| {
      FullInSpec(grid, rows, 0);
      FilterCleared(grid, rows, lo + 1);
    }
  }

  lemma NothingClearedIsIdentity(grid: Grid, rows: int, cols: nat)
    requires FullIn(grid, rows, 0) == []
    ensures ClearedGrid(grid, rows, cols) == grid
  {
    NothingClearedKeepsAll(grid, rows, 0);
    assert Zeros(0, cols) == [];
  }

  lemma ZerosGrow(n: nat, cols: nat)
    ensures [EmptyRow(cols)] + Zeros(n, cols) == Zeros(n + 1, cols)
  {
  }

  /** clearLines: scans rows ROWS-1 down to 0 collecting the full ones, removes them and
      puts as many empty rows on top. */
  method ClearLines(grid: Grid, rows: nat, cols: nat) returns (newGrid: Grid, linesCleared: nat, linesToClear: seq<int>)
    requires rows <= |grid|
    ensures linesToClear == FullIn(grid, rows, 0)
    ensures linesCleared == |linesToClear|
    ensures newGrid == ClearedGrid(grid, rows, cols)
  {
    linesCleared := 0;
    linesToClear := [];
    NothingToClear(grid, rows, rows);
    var y: int := rows - 1;
    while y >= 0
      invariant -1 <= y < rows
      invariant linesToClear == FullIn(grid, rows, y + 1)
      invariant linesCleared == |linesToClear|
    {
      assert Cleared(grid, rows, y) == Full(grid[y]);
      if Full(grid[y]) {
        linesToClear := linesToClear + [y];
        linesCleared := linesCleared + 1;
      }
      assert linesToClear == FullIn(grid, rows, y);
      y := y - 1;
    }

    if |linesToClear| == 0 {
      NothingClearedIsIdentity(grid, rows, cols);
      return grid, 0, [];
    }

    newGrid := Filter(grid, linesToClear, 0);
    FilterCleared(grid, rows, 0);
    newGrid := Unshift(newGrid, |linesToClear|, cols);
  }

  /** clearLines' second loop: n empty rows put on top of g, one at a time. */
  method Unshift(g: Grid, n: nat, cols: nat) returns (r: Grid)
    ensures r == Zeros(n, cols) + g
  {
    r := g;
    assert r == Zeros(0, cols) + g;
    var i := 0;
    while i < n
      invariant 0 <= i <= n
      invariant r == Zeros(i, cols) + g
    {
      ZerosGrow(i, cols);
      r := [EmptyRow(cols)] + r;
      i := i + 1;
    }
  }

  /** A clear keeps the row count and, on a grid of width cols, the row width; the top
      linesCleared rows are empty and the rest are the survivors; the count is the number
      of full rows among the first ROWS, listed highest first. */
  lemma ClearedGridShape(grid: Grid, rows: int, cols: nat)
    ensures var g, f := ClearedGrid(grid, rows, cols), FullIn(grid, rows, 0);
      |g| == |grid| &&
      (forall r :: 0 <= r < |f| ==> g[r] == EmptyRow(cols)) &&
      g[|f|..] == Kept(grid, rows, 0) &&
      ((forall r :: 0 <= r < |grid| ==> |grid[r]| == cols) ==>
         (forall r :: 0 <= r < |g| ==> |g[r]| == cols)) &&
      (forall i :: i in f <==> 0 <= i < |grid| && i < rows && Full(grid[i])) &&
      (forall a, b :: 0 <= a < b < |f| ==> f[a] > f[b])
  {
    KeptCount(grid, rows, 0);
    KeptOrder(grid, rows, 0);
    FullInSpec(grid, rows, 0);
    var g, f := ClearedGrid(grid, rows, cols), FullIn(grid, rows, 0);
    var ks, ix := Kept(grid, rows, 0), KeptIndices(grid, rows, 0);
    forall r | |f| <= r < |g|
      ensures g[r] == ks[r - |f|] && g[r] == grid[ix[r - |f|]]
    {
      assert g == Zeros(|f|, cols) + ks;
      assert ks[r - |f|] == grid[ix[r - |f|]];
    }
  }

  /** With no full row, a clear returns the grid unchanged and clears nothing. */
  lemma ClearWithoutFullRows(grid: Grid, rows: int, cols: nat)
    requires forall i :: 0 <= i < |grid| && i < rows ==> !Full(grid[i])
    ensures FullIn(grid, rows, 0) == [] && ClearedGrid(grid, rows, cols) == grid
  {
    NothingToClear(grid, rows, 0);
    NothingClearedIsIdentity(grid, rows, cols);
  }

  /** On a ROWS x COLS grid with COLS > 0 the result has no full row, so clearing it again
      clears nothing and changes nothing. */
  lemma ClearIsIdempotent(grid: Grid, rows: nat, cols: nat)
    requires |grid| == rows && cols > 0 && forall r :: 0 <= r < rows ==> |grid[r]| == cols
    ensures var g := ClearedGrid(grid, rows, cols);
      FullIn(g, rows, 0) == [] && ClearedGrid(g, rows, cols) == g
  {
    ClearedGridShape(grid, rows, cols);
    KeptOrder(grid, rows, 0);
    var g, f := ClearedGrid(grid, rows, cols), FullIn(grid, rows, 0);
    var ix := KeptIndices(grid, rows, 0);
    forall i | 0 <= i < |g| && i < rows
      ensures !Full(g[i])
    {
      if i < |f| {
        assert g[i][0] == 0;
      } else {
        var k := i - |f|;
        assert g[i] == grid[ix[k]];
        assert ix[k] in ix;
      }
    }
    ClearWithoutFullRows(g, rows, cols);
  }

  // ---------------------------------------------------------------------------
  // Merging
  // ---------------------------------------------------------------------------

  /** COLORS.indexOf(c): the first position of c, or -1 when c is absent. */
  function IndexOf(colors: seq<string>, c: string): (i: int)
    ensures -1 <= i < |colors|
    ensures i >= 0 ==> colors[i] == c && forall k :: 0 <= k < i ==> colors[k] != c
    ensures i == -1 <==> c !in colors
  {
    if |colors| == 0 then -1
    else if colors[0] == c then 0
    else
      var k := IndexOf(colors[1..], c);
      if k == -1 then -1 else k + 1
  }

  /** All entries of the colour table differ. */
  predicate Distinct(colors: seq<string>)
  {
    forall i, j :: 0 <= i < j < |colors| ==> colors[i] != colors[j]
  }

  /** With distinct colours, a piece of type t is written as t + 1. */
  lemma CreatedPieceCode(t: nat, cols: int, colors: seq<string>)
    requires t < TypeCount && t < |colors| && Distinct(colors)
    ensures IndexOf(colors, CreatePiece(t, cols, colors).color) + 1 == t + 1
  {
    assert colors[t] in colors;
  }

  /** Grid cell (r, c) lies under an occupied cell of the piece's shape. */
  predicate Covers(p: Piece, r: int, c: int)
  {
    0 <= r - p.y < |p.shape| && 0 <= c - p.x < |p.shape[r - p.y]| && p.shape[r - p.y][c - p.x] != 0
  }

  /** Every occupied cell in rows [0, ROWS) falls inside its grid row (mergePiece does not
      check x, so its callers must). */
  predicate ColumnsFit(grid: Grid, p: Piece, rows: int)
  {
    forall dy, dx ::
      (0 <= dy < |p.shape| && 0 <= dx < |p.shape[dy]| && p.shape[dy][dx] != 0 &&
       0 <= p.y + dy < rows && p.y + dy < |grid|) ==> 0 <= p.x + dx < |grid[p.y + dy]|
  }

  /** The grid after a merge: COLORS.indexOf(color) + 1 at every covered cell whose row is
      in [0, ROWS), every other cell as it was, same dimensions. */
  function Merged(grid: Grid, p: Piece, rows: int, colors: seq<string>): (g: Grid)
    ensures |g| == |grid| && forall r :: 0 <= r < |g| ==> |g[r]| == |grid[r]|
  {
    seq(|grid|, r requires 0 <= r < |grid| =>
      seq(|grid[r]|, c requires 0 <= c < |grid[r]| =>
        if r < rows && Covers(p, r, c) then IndexOf(colors, p.color) + 1 else grid[r][c]))
  }

  /** Covered by a shape cell visited before (y, x) in row-major order. */
  predicate CoveredBefore(p: Piece, r: int, c: int, y: int, x: int)
  {
    Covers(p, r, c) && (r - p.y < y || (r - p.y == y && c - p.x < x))
  }

  /** mergePiece: copies the grid and writes the piece's colour code at each occupied
      shape cell whose row is in [0, ROWS). */
  method MergePiece(grid: Grid, p: Piece, rows: int, colors: seq<string>) returns (newGrid: Grid)
    requires rows <= |grid| && ColumnsFit(grid, p, rows)
    ensures newGrid == Merged(grid, p, rows, colors)
  {
    newGrid := grid;
    var code := IndexOf(colors, p.color) + 1;
    var y := 0;
    while y < |p.shape|
      invariant 0 <= y <= |p.shape|
      invariant |newGrid| == |grid| && forall r :: 0 <= r < |grid| ==> |newGrid[r]| == |grid[r]|
      invariant forall r, c :: 0 <= r < |grid| && 0 <= c < |grid[r]| ==>
        newGrid[r][c] == if r < rows && CoveredBefore(p, r, c, y, 0) then code else grid[r][c]
    {
      var x := 0;
      while x < |p.shape[y]|
        invariant 0 <= x <= |p.shape[y]|
        invariant |newGrid| == |grid| && forall r :: 0 <= r < |grid| ==> |newGrid[r]| == |grid[r]|
        invariant forall r, c :: 0 <= r < |grid| && 0 <= c < |grid[r]| ==>
          newGrid[r][c] == if r < rows && CoveredBefore(p, r, c, y, x) then code else grid[r][c]
      {
        if p.shape[y][x] != 0 {
          var gy := p.y + y;
          if 0 <= gy < rows {
            newGrid := newGrid[gy := newGrid[gy][p.x + x := code]];
          }
        }
        x := x + 1;
      }
      y := y + 1;
    }
    var m := Merged(grid, p, rows, colors);
    forall r | 0 <= r < |grid|
      ensures newGrid[r] == m[r]
    {
      assert forall c :: 0 <= c < |grid[r]| ==> newGrid[r][c] == m[r][c];
    }
  }
}
