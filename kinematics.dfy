/**
 * Piece kinematics (src/tetris/tetrisPiece.js): the 7-bag randomizer, piece
 * spawning, the collision test, ghost projection and Super Rotation System
 * rotation with its three wall-kick tables.
 *
 * The board width COLS and the colour table COLORS come from a constants
 * module that is not part of this model; they are parameters here. The grid
 * is a sequence of rows of integers, 0 meaning an empty cell.
 */
module Kinematics {
  import opened Wrappers

  type Grid = seq<seq<int>>
  type Shape = seq<seq<int>>

  /** Number of piece types (the length of the shape table): I T L J O S Z. */
  const TypeCount: nat := 7
  /** Type index of the long I piece, which spawns one row higher and has its own kicks. */
  const IKind: nat := 0
  /** Type index of the O piece, whose four rotation states are identical. */
  const OKind: nat := 4

  /** A falling piece: its bounding box position, the shape of its current orientation,
      its colour (an entry of COLORS), its type index and its orientation. */
  datatype Piece = Piece(x: int, y: int, shape: Shape, color: string, kind: nat, orientation: int)

  // ---------------------------------------------------------------------------
  // Rotation states
  // ---------------------------------------------------------------------------

  /** ROTATION_STATES: for each type, the 4x4 matrix of each of its four orientations. */
  function RotationStates(): seq<seq<Shape>>
  {
    [
      // I
      [ [[0, 0, 0, 0], [1, 1, 1, 1], [0, 0, 0, 0], [0, 0, 0, 0]],
        [[0, 0, 1, 0], [0, 0, 1, 0], [0, 0, 1, 0], [0, 0, 1, 0]],
        [[0, 0, 0, 0], [0, 0, 0, 0], [1, 1, 1, 1], [0, 0, 0, 0]],
        [[0, 1, 0, 0], [0, 1, 0, 0], [0, 1, 0, 0], [0, 1, 0, 0]] ],
      // T
      [ [[0, 1, 0, 0], [1, 1, 1, 0], [0, 0, 0, 0], [0, 0, 0, 0]],
        [[0, 1, 0, 0], [0, 1, 1, 0], [0, 1, 0, 0], [0, 0, 0, 0]],
        [[0, 0, 0, 0], [1, 1, 1, 0], [0, 1, 0, 0], [0, 0, 0, 0]],
        [[0, 1, 0, 0], [1, 1, 0, 0], [0, 1, 0, 0], [0, 0, 0, 0]] ],
      // L
      [ [[0, 0, 1, 0], [1, 1, 1, 0], [0, 0, 0, 0], [0, 0, 0, 0]],
        [[0, 1, 0, 0], [0, 1, 0, 0], [0, 1, 1, 0], [0, 0, 0, 0]],
        [[0, 0, 0, 0], [1, 1, 1, 0], [1, 0, 0, 0], [0, 0, 0, 0]],
        [[1, 1, 0, 0], [0, 1, 0, 0], [0, 1, 0, 0], [0, 0, 0, 0]] ],
      // J
      [ [[1, 0, 0, 0], [1, 1, 1, 0], [0, 0, 0, 0], [0, 0, 0, 0]],
        [[0, 1, 1, 0], [0, 1, 0, 0], [0, 1, 0, 0], [0, 0, 0, 0]],
        [[0, 0, 0, 0], [1, 1, 1, 0], [0, 0, 1, 0], [0, 0, 0, 0]],
        [[0, 1, 0, 0], [0, 1, 0, 0], [1, 1, 0, 0], [0, 0, 0, 0]] ],
      // O
      [ [[0, 1, 1, 0], [0, 1, 1, 0], [0, 0, 0, 0], [0, 0, 0, 0]],
        [[0, 1, 1, 0], [0, 1, 1, 0], [0, 0, 0, 0], [0, 0, 0, 0]],
        [[0, 1, 1, 0], [0, 1, 1, 0], [0, 0, 0, 0], [0, 0, 0, 0]],
        [[0, 1, 1, 0], [0, 1, 1, 0], [0, 0, 0, 0], [0, 0, 0, 0]] ],
      // S
      [ [[0, 1, 1, 0], [1, 1, 0, 0], [0, 0, 0, 0], [0, 0, 0, 0]],
        [[0, 1, 0, 0], [0, 1, 1, 0], [0, 0, 1, 0], [0, 0, 0, 0]],
        [[0, 0, 0, 0], [0, 1, 1, 0], [1, 1, 0, 0], [0, 0, 0, 0]],
        [[1, 0, 0, 0], [1, 1, 0, 0], [0, 1, 0, 0], [0, 0, 0, 0]] ],
      // Z
      [ [[1, 1, 0, 0], [0, 1, 1, 0], [0, 0, 0, 0], [0, 0, 0, 0]],
        [[0, 0, 1, 0], [0, 1, 1, 0], [0, 1, 0, 0], [0, 0, 0, 0]],
        [[0, 0, 0, 0], [1, 1, 0, 0], [0, 1, 1, 0], [0, 0, 0, 0]],
        [[0, 1, 0, 0], [1, 1, 0, 0], [1, 0, 0, 0], [0, 0, 0, 0]] ]
    ]
  }

  /** The number of non-zero cells of a row. */
  function RowCells(row: seq<int>): nat
  {
    if row == [] then 0 else Filled(row[0]) + RowCells(row[1..])
  }

  /** The number of non-zero cells of a shape. */
  function ShapeCells(s: Shape): nat
  {
    if s == [] then 0 else RowCells(s[0]) + ShapeCells(s[1..])
  }

  /** A 4x4 matrix of zeros and ones. */
  predicate IsBox(s: Shape)
  {
    |s| == 4 && forall i :: 0 <= i < 4 ==> |s[i]| == 4 && forall j :: 0 <= j < 4 ==> s[i][j] == 0 || s[i][j] == 1
  }

  /** A tetromino matrix: a 4x4 0/1 box with exactly four occupied cells. */
  predicate IsTetromino(s: Shape)
  {
    IsBox(s) && ShapeCells(s) == 4
  }

  /** 1 for an occupied cell, 0 for an empty one. */
  function Filled(x: int): nat
  {
    if x != 0 then 1 else 0
  }

  /** A 4x4 box whose sixteen cells count to four is a tetromino. */
  lemma TetrominoByCount(s: Shape)
    requires IsBox(s)
    requires Filled(s[0][0]) + Filled(s[0][1]) + Filled(s[0][2]) + Filled(s[0][3]) +
             Filled(s[1][0]) + Filled(s[1][1]) + Filled(s[1][2]) + Filled(s[1][3]) +
             Filled(s[2][0]) + Filled(s[2][1]) + Filled(s[2][2]) + Filled(s[2][3]) +
             Filled(s[3][0]) + Filled(s[3][1]) + Filled(s[3][2]) + Filled(s[3][3]) == 4
    ensures IsTetromino(s)
  {
    forall i | 0 <= i < 4
      ensures RowCells(s[i]) == Filled(s[i][0]) + Filled(s[i][1]) + Filled(s[i][2]) + Filled(s[i][3])
    {
      var row := s[i];
      assert row[1..][1..][1..][1..] == [];
      calc {
        RowCells(row);
        Filled(row[0]) + RowCells(row[1..]);
        Filled(row[0]) + Filled(row[1]) + RowCells(row[1..][1..]);
        Filled(row[0]) + Filled(row[1]) + Filled(row[2]) + RowCells(row[1..][1..][1..]);
        Filled(row[0]) + Filled(row[1]) + Filled(row[2]) + Filled(row[3]);
      }
    }
    assert s[1..][1..][1..][1..] == [];
    calc {
      ShapeCells(s);
      RowCells(s[0]) + ShapeCells(s[1..]);
      RowCells(s[0]) + RowCells(s[1]) + ShapeCells(s[1..][1..]);
      RowCells(s[0]) + RowCells(s[1]) + RowCells(s[2]) + ShapeCells(s[1..][1..][1..]);
      RowCells(s[0]) + RowCells(s[1]) + RowCells(s[2]) + RowCells(s[3]);
    }
  }

  /** Some cell of the shape is occupied. */
  ghost predicate HasCell(s: Shape)
  {
    exists dy, dx :: 0 <= dy < |s| && 0 <= dx < |s[dy]| && s[dy][dx] != 0
  }

  lemma RowCellsWitness(row: seq<int>) returns (dx: nat)
    requires RowCells(row) > 0
    ensures dx < |row| && row[dx] != 0
  {
    if row[0] != 0 {
      dx := 0;
    } else {
      var k := RowCellsWitness(row[1..]);
      dx := k + 1;
    }
  }

  lemma {:induction false} CellsMeansHasCell(s: Shape)
    requires ShapeCells(s) > 0
    ensures HasCell(s)
  {
    if RowCells(s[0]) > 0 {
      var dx := RowCellsWitness(s[0]);
      assert s[0][dx] != 0;
    } else {
      CellsMeansHasCell(s[1..]);
      var dy, dx :| 0 <= dy < |s[1..]| && 0 <= dx < |s[1..][dy]| && s[1..][dy][dx] != 0;
      assert s[dy + 1][dx] != 0;
    }
  }

  /** Every entry of the rotation table is a tetromino: 7 types, 4 orientations each. */
  lemma RotationStatesAreTetrominoes()
    ensures |RotationStates()| == TypeCount
    ensures forall t :: 0 <= t < TypeCount ==> |RotationStates()[t]| == 4
    ensures forall t, o :: 0 <= t < TypeCount && 0 <= o < 4 ==> IsTetromino(RotationStates()[t][o])
  {
    forall t, o | 0 <= t < TypeCount && 0 <= o < 4
      ensures IsTetromino(RotationStates()[t][o])
    {
      if t == 0 { IStatesAreTetrominoes(); }
      else if t == 1 { TStatesAreTetrominoes(); }
      else if t == 2 { LStatesAreTetrominoes(); }
      else if t == 3 { JStatesAreTetrominoes(); }
      else if t == 4 { OStatesAreTetrominoes(); }
      else if t == 5 { SStatesAreTetrominoes(); }
      else { ZStatesAreTetrominoes(); }
    }
  }

  lemma IStatesAreTetrominoes()
    ensures forall o :: 0 <= o < 4 ==> IsTetromino(RotationStates()[0][o])
  {
    TetrominoByCount(RotationStates()[0][0]);
    TetrominoByCount(RotationStates()[0][1]);
    TetrominoByCount(RotationStates()[0][2]);
    TetrominoByCount(RotationStates()[0][3]);
  }

  lemma TStatesAreTetrominoes()
    ensures forall o :: 0 <= o < 4 ==> IsTetromino(RotationStates()[1][o])
  {
    TetrominoByCount(RotationStates()[1][0]);
    TetrominoByCount(RotationStates()[1][1]);
    TetrominoByCount(RotationStates()[1][2]);
    TetrominoByCount(RotationStates()[1][3]);
  }

  lemma LStatesAreTetrominoes()
    ensures forall o :: 0 <= o < 4 ==> IsTetromino(RotationStates()[2][o])
  {
    TetrominoByCount(RotationStates()[2][0]);
    TetrominoByCount(RotationStates()[2][1]);
    TetrominoByCount(RotationStates()[2][2]);
    TetrominoByCount(RotationStates()[2][3]);
  }

  lemma JStatesAreTetrominoes()
    ensures forall o :: 0 <= o < 4 ==> IsTetromino(RotationStates()[3][o])
  {
    TetrominoByCount(RotationStates()[3][0]);
    TetrominoByCount(RotationStates()[3][1]);
    TetrominoByCount(RotationStates()[3][2]);
    TetrominoByCount(RotationStates()[3][3]);
  }

  lemma OStatesAreTetrominoes()
    ensures forall o :: 0 <= o < 4 ==> IsTetromino(RotationStates()[4][o])
  {
    TetrominoByCount(RotationStates()[4][0]);
    TetrominoByCount(RotationStates()[4][1]);
    TetrominoByCount(RotationStates()[4][2]);
    TetrominoByCount(RotationStates()[4][3]);
  }

  lemma SStatesAreTetrominoes()
    ensures forall o :: 0 <= o < 4 ==> IsTetromino(RotationStates()[5][o])
  {
    TetrominoByCount(RotationStates()[5][0]);
    TetrominoByCount(RotationStates()[5][1]);
    TetrominoByCount(RotationStates()[5][2]);
    TetrominoByCount(RotationStates()[5][3]);
  }

  lemma ZStatesAreTetrominoes()
    ensures forall o :: 0 <= o < 4 ==> IsTetromino(RotationStates()[6][o])
  {
    TetrominoByCount(RotationStates()[6][0]);
    TetrominoByCount(RotationStates()[6][1]);
    TetrominoByCount(RotationStates()[6][2]);
    TetrominoByCount(RotationStates()[6][3]);
  }

  /** The four orientations of O are the same matrix. */
  lemma OStatesIdentical()
    ensures forall o :: 0 <= o < 4 ==> RotationStates()[OKind][o] == RotationStates()[OKind][0]
  {
  }

  // ---------------------------------------------------------------------------
  // Wall-kick tables
  // ---------------------------------------------------------------------------

  /** An offset (dx, dy) tried by a kick test; dy counts upwards. */
  type Offset = (int, int)

  /** Which of the three kick tables a piece type uses. */
  datatype KickClass = IKicks | OKicks | JLSTZKicks

  /** Kick-table selection: I for type 0, O for type 4, JLSTZ for the others. */
  function KickClassOf(kind: nat): KickClass
  {
    if kind == IKind then IKicks else if kind == OKind then OKicks else JLSTZKicks
  }

  /** The tests of one kick table for the transition "from->to", if the table has that key. */
  function KickTable(c: KickClass, from: int, to: int): Option<seq<Offset>>
  {
    match c
    case JLSTZKicks =>
      if from == 0 && to == 1 then Some([(0, 0), (-1, 0), (-1, 1), (0, -2), (-1, -2)])
      else if from == 1 && to == 0 then Some([(0, 0), (1, 0), (1, -1), (0, 2), (1, 2)])
      else if from == 1 && to == 2 then Some([(0, 0), (1, 0), (1, -1), (0, 2), (1, 2)])
      else if from == 2 && to == 1 then Some([(0, 0), (-1, 0), (-1, 1), (0, -2), (-1, -2)])
      else if from == 2 && to == 3 then Some([(0, 0), (1, 0), (1, 1), (0, -2), (1, -2)])
      else if from == 3 && to == 2 then Some([(0, 0), (-1, 0), (-1, -1), (0, 2), (-1, 2)])
      else if from == 3 && to == 0 then Some([(0, 0), (-1, 0), (-1, -1), (0, 2), (-1, 2)])
      else if from == 0 && to == 3 then Some([(0, 0), (1, 0), (1, 1), (0, -2), (1, -2)])
      else None
    case IKicks =>
      if from == 0 && to == 1 then Some([(0, 0), (-2, 0), (1, 0), (-2, -1), (1, 2)])
      else if from == 1 && to == 0 then Some([(0, 0), (2, 0), (-1, 0), (2, 1), (-1, -2)])
      else if from == 1 && to == 2 then Some([(0, 0), (-1, 0), (2, 0), (-1, 2), (2, -1)])
      else if from == 2 && to == 1 then Some([(0, 0), (1, 0), (-2, 0), (1, -2), (-2, 1)])
      else if from == 2 && to == 3 then Some([(0, 0), (2, 0), (-1, 0), (2, 1), (-1, -2)])
      else if from == 3 && to == 2 then Some([(0, 0), (-2, 0), (1, 0), (-2, -1), (1, 2)])
      else if from == 3 && to == 0 then Some([(0, 0), (1, 0), (-2, 0), (1, -2), (-2, 1)])
      else if from == 0 && to == 3 then Some([(0, 0), (-1, 0), (2, 0), (-1, 2), (2, -1)])
      else None
    case OKicks =>
      if (from == 0 && to == 1) || (from == 1 && to == 0) || (from == 1 && to == 2) || (from == 2 && to == 1)
         || (from == 2 && to == 3) || (from == 3 && to == 2) || (from == 3 && to == 0) || (from == 0 && to == 3)
      then Some([(0, 0)])
      else None
  }

  /** The tests actually tried: the table entry, or the single test [0,0] for a missing key. */
  function Kicks(c: KickClass, from: int, to: int): seq<Offset>
  {
    match KickTable(c, from, to)
    case Some(ks) => ks
    case None => [(0, 0)]
  }

  /** Two orientations one quarter turn apart. */
  predicate Adjacent(a: int, b: int)
  {
    0 <= a < 4 && 0 <= b < 4 && (b == (a + 1) % 4 || a == (b + 1) % 4)
  }

  /** Each table is keyed by exactly the eight quarter-turn transitions; the I and JLSTZ
      tables hold five tests and the O table one; every first test is [0,0]. */
  lemma KickTableShape(c: KickClass, from: int, to: int)
    ensures KickTable(c, from, to).Some? <==> Adjacent(from, to)
    ensures KickTable(c, from, to).Some? ==>
      var ks := KickTable(c, from, to).value;
      |ks| == (if c == OKicks then 1 else 5) && ks[0] == (0, 0)
  {
    AdjacentPairs(from, to);
    match c
    case IKicks =>
    case OKicks =>
    case JLSTZKicks =>
  }

  /** The eight quarter-turn transitions, listed. */
  lemma AdjacentPairs(a: int, b: int)
    ensures Adjacent(a, b) <==>
      (a == 0 && b == 1) || (a == 1 && b == 0) || (a == 1 && b == 2) || (a == 2 && b == 1) ||
      (a == 2 && b == 3) || (a == 3 && b == 2) || (a == 3 && b == 0) || (a == 0 && b == 3)
  {
  }

  /** Each reverse transition is the pointwise negation of its forward one. */
  lemma KickTableReverse(c: KickClass, from: int, to: int)
    requires KickTable(c, from, to).Some?
    ensures KickTable(c, to, from).Some?
    ensures var f, b := KickTable(c, from, to).value, KickTable(c, to, from).value;
      |f| == |b| && forall i :: 0 <= i < |f| ==> b[i] == (-f[i].0, -f[i].1)
  {
  }

  // ---------------------------------------------------------------------------
  // Collision
  // ---------------------------------------------------------------------------

  /** A grid cell that holds a block (out-of-range reads count as empty). */
  predicate Occupied(grid: Grid, x: int, y: int)
  {
    0 <= y < |grid| && 0 <= x < |grid[y]| && grid[y][x] != 0
  }

  /** Shape cell (dy, dx) is occupied and, at the piece's position, lies left or right of
      the board, at or below the last row, or on a block inside the board. */
  predicate CellHits(p: Piece, grid: Grid, cols: int, dy: int, dx: int)
    requires 0 <= dy < |p.shape| && 0 <= dx < |p.shape[dy]|
  {
    p.shape[dy][dx] != 0 &&
    var nx, ny := p.x + dx, p.y + dy;
    nx < 0 || nx >= cols || ny >= |grid| || (ny >= 0 && Occupied(grid, nx, ny))
  }

  /** The collision condition as a property of the piece's cells. */
  ghost predicate Collides(p: Piece, grid: Grid, cols: int)
  {
    exists dy, dx :: 0 <= dy < |p.shape| && 0 <= dx < |p.shape[dy]| && CellHits(p, grid, cols, dy, dx)
  }

  /** The inner `some` over one shape row, from column dx on. */
  function RowHits(p: Piece, grid: Grid, cols: int, dy: nat, dx: nat): (r: bool)
    requires dy < |p.shape| && dx <= |p.shape[dy]|
    ensures r <==> exists k :: dx <= k < |p.shape[dy]| && CellHits(p, grid, cols, dy, k)
    decreases |p.shape[dy]| - dx
  {
    if dx == |p.shape[dy]| then false
    else CellHits(p, grid, cols, dy, dx) || RowHits(p, grid, cols, dy, dx + 1)
  }

  /** The outer `some` over the shape rows, from row dy on. */
  function ShapeHits(p: Piece, grid: Grid, cols: int, dy: nat): (r: bool)
    requires dy <= |p.shape|
    ensures r <==> exists j, k :: dy <= j < |p.shape| && 0 <= k < |p.shape[j]| && CellHits(p, grid, cols, j, k)
    decreases |p.shape| - dy
  {
    if dy == |p.shape| then false
    else RowHits(p, grid, cols, dy, 0) || ShapeHits(p, grid, cols, dy + 1)
  }

  /** checkCollision: true exactly when some occupied cell of the piece is out of the
      columns, at or below the grid's last row, or on a filled cell. */
  function CheckCollision(p: Piece, grid: Grid, cols: int): (r: bool)
    ensures r <==> Collides(p, grid, cols)
  {
    ShapeHits(p, grid, cols, 0)
  }

  /** A piece whose occupied cells are all inside the columns and above row 0 never collides. */
  lemma AboveBoardNeverCollides(p: Piece, grid: Grid, cols: int)
    requires forall dy, dx :: 0 <= dy < |p.shape| && 0 <= dx < |p.shape[dy]| && p.shape[dy][dx] != 0 ==>
      0 <= p.x + dx < cols && p.y + dy < 0
    ensures !CheckCollision(p, grid, cols)
  {
  }

  /** A piece with a cell, placed at or below the last row, always collides. */
  lemma BelowBoardCollides(p: Piece, grid: Grid, cols: int)
    requires HasCell(p.shape) && p.y >= |grid|
    ensures CheckCollision(p, grid, cols)
  {
    var dy, dx :| 0 <= dy < |p.shape| && 0 <= dx < |p.shape[dy]| && p.shape[dy][dx] != 0;
    assert CellHits(p, grid, cols, dy, dx);
  }

  /** A piece that does not collide lies above the grid's last row. */
  lemma NoHitAboveFloor(p: Piece, grid: Grid, cols: int)
    requires HasCell(p.shape) && !CheckCollision(p, grid, cols)
    ensures p.y < |grid|
  {
    if p.y >= |grid| {
      BelowBoardCollides(p, grid, cols);
    }
  }

  // ---------------------------------------------------------------------------
  // Spawning
  // ---------------------------------------------------------------------------

  /** createPiece: a new piece of type t at column floor(COLS/2) - 2, one row above the
      board for I and at row 0 otherwise, in orientation 0. */
  function CreatePiece(t: nat, cols: int, colors: seq<string>): (p: Piece)
    requires t < TypeCount && t < |colors|
    ensures p.kind == t && p.color == colors[t] && p.orientation == 0
    ensures p.shape == RotationStates()[t][p.orientation] && IsTetromino(p.shape)
    ensures -1 <= p.y <= 0 && (p.y == -1 <==> t == IKind)
  {
    RotationStatesAreTetrominoes();
    Piece(cols / 2 - 2, if t == IKind then -1 else 0, RotationStates()[t][0], colors[t], t, 0)
  }

  /** The grid of `rows` empty rows of width `cols`. */
  function EmptyGrid(rows: nat, cols: nat): (g: Grid)
    ensures |g| == rows && forall r :: 0 <= r < rows ==> |g[r]| == cols
  {
    seq(rows, _ => seq(cols, _ => 0))
  }

  /** The occupied cells of every spawn shape lie in rows 0 and 1 of its box, and those of I in row 1 only. */
  lemma SpawnShapeRows(t: nat)
    requires t < TypeCount
    ensures var s := RotationStates()[t][0];
      |s| == 4 && forall dy, dx :: 0 <= dy < 4 && 0 <= dx < |s[dy]| && s[dy][dx] != 0 ==>
        |s[dy]| == 4 && (if t == IKind then dy == 1 else dy <= 1)
  {
  }

  /** A freshly created piece fits an empty board at least four columns wide and two rows high. */
  lemma SpawnFitsEmptyBoard(t: nat, rows: nat, cols: nat, colors: seq<string>)
    requires t < TypeCount && t < |colors| && cols >= 4 && rows >= 2
    ensures var p := CreatePiece(t, cols, colors);
      p.orientation == 0 && p.shape == RotationStates()[t][0] && !CheckCollision(p, EmptyGrid(rows, cols), cols)
  {
    SpawnShapeRows(t);
  }

  // ---------------------------------------------------------------------------
  // Ghost projection
  // ---------------------------------------------------------------------------

  /** The row the ghost loop ends on: one above the first row, from the piece's own
      downwards, at which the piece collides. */
  function DropRow(p: Piece, grid: Grid, cols: int): int
    requires HasCell(p.shape)
    decreases |grid| - p.y
  {
    if CheckCollision(p, grid, cols) then p.y - 1
    else
      NoHitAboveFloor(p, grid, cols);
      DropRow(p.(y := p.y + 1), grid, cols)
  }

  /** The landing row of a non-colliding piece is at or below it, free, and resting:
      one row lower collides. */
  lemma {:induction false} DropRowLands(p: Piece, grid: Grid, cols: int)
    requires HasCell(p.shape) && !CheckCollision(p, grid, cols)
    ensures var r := DropRow(p, grid, cols);
      r >= p.y && !CheckCollision(p.(y := r), grid, cols) && CheckCollision(p.(y := r + 1), grid, cols)
    decreases |grid| - p.y
  {
    NoHitAboveFloor(p, grid, cols);
    var q := p.(y := p.y + 1);
    if !CheckCollision(q, grid, cols) {
      DropRowLands(q, grid, cols);
    }
  }

  /** getGhostPosition: a copy of the piece moved straight down until one more row would
      collide; the input piece is a value and is left as it was. */
  method GetGhostPosition(p: Piece, grid: Grid, cols: int) returns (g: Piece)
    requires HasCell(p.shape)
    ensures g == p.(y := DropRow(p, grid, cols))
    ensures !CheckCollision(p, grid, cols) ==>
      g.y >= p.y && !CheckCollision(g, grid, cols) && CheckCollision(g.(y := g.y + 1), grid, cols)
    ensures CheckCollision(p, grid, cols) ==> g.y == p.y - 1
  {
    g := p;
    while !CheckCollision(g, grid, cols)
      invariant g == p.(y := g.y)
      invariant DropRow(g, grid, cols) == DropRow(p, grid, cols)
      decreases |grid| - g.y
    {
      NoHitAboveFloor(g, grid, cols);
      g := g.(y := g.y + 1);
    }
    g := g.(y := g.y - 1);
    if !CheckCollision(p, grid, cols) {
      DropRowLands(p, grid, cols);
    }
  }

  // ---------------------------------------------------------------------------
  // Rotation
  // ---------------------------------------------------------------------------

  /** The target orientation (o + dir + 4) % 4 (non-negative operands, so JavaScript's
      remainder and Dafny's agree). */
  function NextOrientation(o: int, dir: int): (n: int)
    requires o + dir + 4 >= 0
    ensures 0 <= n < 4 && (n - o - dir) % 4 == 0
  {
    (o + dir + 4) % 4
  }

  /** The test piece for one kick: the new orientation's shape at (x + dx, y - dy). */
  function KickedPiece(p: Piece, o: int, k: Offset): Piece
    requires p.kind < TypeCount && 0 <= o < 4
  {
    p.(shape := RotationStates()[p.kind][o], orientation := o, x := p.x + k.0, y := p.y - k.1)
  }

  /** The first test piece, in table order, that does not collide. */
  function FirstFit(p: Piece, grid: Grid, cols: int, o: int, ks: seq<Offset>): Option<Piece>
    requires p.kind < TypeCount && 0 <= o < 4
  {
    if ks == [] then None
    else if !CheckCollision(KickedPiece(p, o, ks[0]), grid, cols) then Some(KickedPiece(p, o, ks[0]))
    else FirstFit(p, grid, cols, o, ks[1..])
  }

  /** The result of rotating p by dir on the grid (the value rotatePiece returns). */
  function Rotated(p: Piece, grid: Grid, cols: int, dir: int): Option<Piece>
    requires p.kind < TypeCount && p.orientation + dir + 4 >= 0
  {
    var o := NextOrientation(p.orientation, dir);
    FirstFit(p, grid, cols, o, Kicks(KickClassOf(p.kind), p.orientation, o))
  }

  /** FirstFit returns None exactly when every test collides, and otherwise the first
      non-colliding test. */
  lemma {:induction false} FirstFitSpec(p: Piece, grid: Grid, cols: int, o: int, ks: seq<Offset>)
    requires p.kind < TypeCount && 0 <= o < 4
    ensures var r := FirstFit(p, grid, cols, o, ks);
      (r.None? <==> forall i :: 0 <= i < |ks| ==> CheckCollision(KickedPiece(p, o, ks[i]), grid, cols)) &&
      (r.Some? ==> exists i :: (0 <= i < |ks| && r.value == KickedPiece(p, o, ks[i]) &&
                                !CheckCollision(r.value, grid, cols) &&
                                forall j :: 0 <= j < i ==> CheckCollision(KickedPiece(p, o, ks[j]), grid, cols)))
  {
    if ks != [] && CheckCollision(KickedPiece(p, o, ks[0]), grid, cols) {
      FirstFitSpec(p, grid, cols, o, ks[1..]);
      var r := FirstFit(p, grid, cols, o, ks[1..]);
      if r.Some? {
        var i :| 0 <= i < |ks[1..]| && r.value == KickedPiece(p, o, ks[1..][i]) &&
          !CheckCollision(r.value, grid, cols) &&
          forall j :: 0 <= j < i ==> CheckCollision(KickedPiece(p, o, ks[1..][j]), grid, cols);
        assert r.value == KickedPiece(p, o, ks[i + 1]);
        forall j | 0 <= j < i + 1
          ensures CheckCollision(KickedPiece(p, o, ks[j]), grid, cols)
        {
          if j > 0 { assert ks[j] == ks[1..][j - 1]; }
        }
      } else {
        forall i | 0 <= i < |ks|
          ensures CheckCollision(KickedPiece(p, o, ks[i]), grid, cols)
        {
          if i > 0 { assert ks[i] == ks[1..][i - 1]; }
        }
      }
    }
  }

  /** A successful rotation lands in the target orientation with its shape and never
      collides; it fails only when every kick test collides. */
  lemma RotatedSpec(p: Piece, grid: Grid, cols: int, dir: int)
    requires p.kind < TypeCount && p.orientation + dir + 4 >= 0
    ensures var o := NextOrientation(p.orientation, dir);
      var ks := Kicks(KickClassOf(p.kind), p.orientation, o);
      var r := Rotated(p, grid, cols, dir);
      (r.None? <==> forall i :: 0 <= i < |ks| ==> CheckCollision(KickedPiece(p, o, ks[i]), grid, cols)) &&
      (r.Some? ==> (!CheckCollision(r.value, grid, cols) && r.value.orientation == o &&
                    r.value.shape == RotationStates()[p.kind][o] && r.value.kind == p.kind && r.value.color == p.color))
  {
    var o := NextOrientation(p.orientation, dir);
    FirstFitSpec(p, grid, cols, o, Kicks(KickClassOf(p.kind), p.orientation, o));
  }

  /** O rotation only tries [0,0] and its states are identical, so a successful O
      rotation keeps position and shape. */
  lemma ORotationKeepsPlace(p: Piece, grid: Grid, cols: int, dir: int)
    requires p.kind == OKind && p.orientation + dir + 4 >= 0 && p.shape == RotationStates()[OKind][0]
    requires Rotated(p, grid, cols, dir).Some?
    ensures var q := Rotated(p, grid, cols, dir).value;
      q.x == p.x && q.y == p.y && q.shape == p.shape
  {
    var o := NextOrientation(p.orientation, dir);
    assert KickClassOf(p.kind) == OKicks;
    var ks := Kicks(OKicks, p.orientation, o);
    assert ks == [(0, 0)];
    OStatesIdentical();
    assert RotationStates()[OKind][o] == p.shape;
    assert Rotated(p, grid, cols, dir) == FirstFit(p, grid, cols, o, ks);
  }

  /** rotatePiece: tries the kicks of the piece's class for the transition in order and
      returns the first test piece that does not collide, or None. */
  method RotatePiece(p: Piece, grid: Grid, cols: int, dir: int) returns (r: Option<Piece>)
    requires p.kind < TypeCount && p.orientation + dir + 4 >= 0
    ensures r == Rotated(p, grid, cols, dir)
  {
    var o := NextOrientation(p.orientation, dir);
    var kicks := Kicks(KickClassOf(p.kind), p.orientation, o);
    var i := 0;
    while i < |kicks|
      invariant 0 <= i <= |kicks|
      invariant FirstFit(p, grid, cols, o, kicks[i..]) == Rotated(p, grid, cols, dir)
    {
      assert kicks[i..][1..] == kicks[i + 1..];
      var test := KickedPiece(p, o, kicks[i]);
      if !CheckCollision(test, grid, cols) {
        return Some(test);
      }
      i := i + 1;
    }
    return None;
  }

  // ---------------------------------------------------------------------------
  // The 7-bag randomizer
  // ---------------------------------------------------------------------------

  /** The indices 0..n-1 in order. */
  function Range(n: nat): (s: seq<int>)
    ensures |s| == n && forall i :: 0 <= i < n ==> s[i] == i
  {
    seq(n, i => i)
  }

  /** Every index below n appears once in the range 0..n-1, and nothing else does. */
  lemma {:induction false} RangeMultiset(n: nat, t: int)
    ensures multiset(Range(n))[t] == if 0 <= t < n then 1 else 0
  {
    if n > 0 {
      assert Range(n) == Range(n - 1) + [n - 1];
      RangeMultiset(n - 1, t);
    }
  }

  /** Random choices a Fisher-Yates pass over n elements may make: step i picks j in [0, i]. */
  predicate ValidChoices(choices: seq<int>, n: nat)
  {
    |choices| == n && forall i :: 0 < i < n ==> 0 <= choices[i] <= i
  }

  /** The array after the swaps for indices i, i-1, ..., 1: step k exchanges the
      elements at k and choices[k]. */
  function Shuffled(a: seq<int>, choices: seq<int>, i: int): seq<int>
    requires ValidChoices(choices, |a|) && i < |a|
    decreases i
  {
    if i <= 0 then a
    else
      var j := choices[i];
      Shuffled(a[i := a[j]][j := a[i]], choices, i - 1)
  }

  /** The swaps only reorder: the shuffled array is a permutation of the input. */
  lemma {:induction false} ShuffledPermutes(a: seq<int>, choices: seq<int>, i: int)
    requires ValidChoices(choices, |a|) && i < |a|
    ensures |Shuffled(a, choices, i)| == |a| && multiset(Shuffled(a, choices, i)) == multiset(a)
    decreases i
  {
    if i > 0 {
      var j := choices[i];
      var b := a[i := a[j]][j := a[i]];
      assert multiset(b) == multiset(a);
      ShuffledPermutes(b, choices, i - 1);
    }
  }

  /** shuffleArray: copies the input and, for i from the last index down to 1, swaps
      element i with element choices[i]. */
  method ShuffleArray(a: seq<int>, choices: seq<int>) returns (r: seq<int>)
    requires ValidChoices(choices, |a|)
    ensures r == Shuffled(a, choices, |a| - 1)
  {
    var arr := new int[|a|](k requires 0 <= k < |a| => a[k]);
    assert arr[..] == a;
    var i := arr.Length - 1;
    while i > 0
      invariant -1 <= i < arr.Length
      invariant Shuffled(arr[..], choices, i) == Shuffled(a, choices, |a| - 1)
    {
      var j := choices[i];
      ghost var before := arr[..];
      arr[i], arr[j] := arr[j], arr[i];
      assert arr[..] == before[i := before[j]][j := before[i]];
      i := i - 1;
    }
    r := arr[..];
  }

  /** Shuffling the type indices yields every piece type exactly once and nothing else. */
  lemma BagIsPermutation(choices: seq<int>)
    requires ValidChoices(choices, TypeCount)
    ensures var bag := Shuffled(Range(|choices|), choices, |choices| - 1);
      |bag| == TypeCount &&
      (forall t :: 0 <= t < TypeCount ==> multiset(bag)[t] == 1) &&
      (forall k :: 0 <= k < |bag| ==> 0 <= bag[k] < TypeCount)
  {
    var n := |choices|;
    var bag := Shuffled(Range(n), choices, n - 1);
    ShuffledPermutes(Range(n), choices, n - 1);
    forall t | 0 <= t < TypeCount
      ensures multiset(bag)[t] == 1
    {
      RangeMultiset(n, t);
    }
    forall k | 0 <= k < |bag|
      ensures 0 <= bag[k] < TypeCount
    {
      assert bag[k] in multiset(bag);
      RangeMultiset(n, bag[k]);
    }
  }

  /** The bag a set of shuffle choices produces: seven entries, all piece types. */
  function Bag(choices: seq<int>): (bag: seq<int>)
    requires ValidChoices(choices, TypeCount)
    ensures |bag| == TypeCount && forall k :: 0 <= k < |bag| ==> 0 <= bag[k] < TypeCount
  {
    BagIsPermutation(choices);
    Shuffled(Range(|choices|), choices, |choices| - 1)
  }

  /** generateBag: a shuffle of the seven type indices. */
  method GenerateBag(choices: seq<int>) returns (bag: seq<int>)
    requires ValidChoices(choices, TypeCount)
    ensures bag == Bag(choices)
    ensures |bag| == TypeCount && forall t :: 0 <= t < TypeCount ==> multiset(bag)[t] == 1
  {
    bag := ShuffleArray(Range(TypeCount), choices);
    BagIsPermutation(choices);
  }
}
