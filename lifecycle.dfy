/**
 * The per-player board of the multiplayer game (src/hooks/useMultiTetris.js): the
 * current piece, the hold slot, a next-queue of four and the 7-bag, the lock-delay
 * state machine, soft and hard drop, hold, garbage rows and top-out.
 *
 * The React refs become the fields of PlayerBoard and each callback a method that
 * updates them. Messages sent to the server are appended to `reports`. Randomness is
 * passed in: the shuffle choices for a bag that has to be regenerated, and the hole
 * column of every garbage row.
 */
module Lifecycle {
  import opened Wrappers
  import opened Kinematics
  import opened Board

  /** The piece in the hold slot (its orientation is always 0). */
  datatype Held = Held(shape: Shape, color: string, kind: nat)

  /** A message the board sends to the server. */
  datatype Report = LinesReport(count: nat) | GameOverReport(score: nat)

  /** Every occupied cell of the piece lies in a board column. */
  predicate InColumns(p: Piece, cols: int)
  {
    forall dy, dx :: 0 <= dy < |p.shape| && 0 <= dx < |p.shape[dy]| && p.shape[dy][dx] != 0 ==>
      0 <= p.x + dx < cols
  }

  /** A piece the board can have in play. */
  predicate PieceOK(p: Piece, cols: int)
  {
    p.kind < TypeCount && 0 <= p.orientation < 4 && IsTetromino(p.shape) && InColumns(p, cols)
  }

  /** A piece exactly as createPiece made it. */
  predicate Spawned(p: Piece, cols: int, colors: seq<string>)
  {
    p.kind < TypeCount && p.kind < |colors| && p == CreatePiece(p.kind, cols, colors)
  }

  /** The next-queue is empty (before the first spawn) or holds four created pieces. */
  predicate QueueOK(next: seq<Piece>, cols: int, colors: seq<string>)
  {
    (|next| == 0 || |next| == 4) && forall k :: 0 <= k < |next| ==> Spawned(next[k], cols, colors)
  }

  /** A bag holding piece types only. */
  predicate TypesOnly(bag: seq<int>)
  {
    forall k :: 0 <= k < |bag| ==> 0 <= bag[k] < TypeCount
  }

  /** A piece that does not collide is inside the columns. */
  lemma FreeMeansInColumns(p: Piece, grid: Grid, cols: int)
    requires !CheckCollision(p, grid, cols)
    ensures InColumns(p, cols)
  {
    forall dy, dx | 0 <= dy < |p.shape| && 0 <= dx < |p.shape[dy]| && p.shape[dy][dx] != 0
      ensures 0 <= p.x + dx < cols
    {
      assert !CellHits(p, grid, cols, dy, dx);
    }
  }

  /** A created piece can be in play on a board at least four columns wide. */
  lemma SpawnedIsOK(p: Piece, cols: int, colors: seq<string>)
    requires Spawned(p, cols, colors) && cols >= 4
    ensures PieceOK(p, cols) && p.orientation == 0 && p.x == cols / 2 - 2
  {
    RotationStatesAreTetrominoes();
  }

  // ---------------------------------------------------------------------------
  // Drawing from the bag
  // ---------------------------------------------------------------------------

  /** The bag a draw pops from: the spare bag when the bag is empty. */
  function Refilled(bag: seq<int>, spare: seq<int>): seq<int>
  {
    if bag == [] then spare else bag
  }

  /** The outcome of successive draws: the types drawn, in order, and the bag left. */
  datatype Drawn = Drawn(kinds: seq<int>, left: seq<int>)

  /** n successive getNextPieceFromBag calls: each pops the last type of the bag,
      regenerating the bag first when it is empty. */
  function Draws(bag: seq<int>, spare: seq<int>, n: nat): (d: Drawn)
    requires TypesOnly(spare) && spare != [] && TypesOnly(bag)
    ensures |d.kinds| == n && TypesOnly(d.kinds) && TypesOnly(d.left)
    decreases n
  {
    if n == 0 then Drawn([], bag)
    else
      var b := Refilled(bag, spare);
      var d := Draws(b[..|b| - 1], spare, n - 1);
      Drawn([b[|b| - 1]] + d.kinds, d.left)
  }

  /** The pieces createPiece makes for a sequence of types. */
  function Pieces(kinds: seq<int>, cols: int, colors: seq<string>): (ps: seq<Piece>)
    requires TypesOnly(kinds) && TypeCount <= |colors|
    ensures |ps| == |kinds| && forall k :: 0 <= k < |ps| ==> Spawned(ps[k], cols, colors)
  {
    if kinds == [] then [] else [CreatePiece(kinds[0], cols, colors)] + Pieces(kinds[1..], cols, colors)
  }

  /** createPiece over a concatenation is the concatenation of the pieces. */
  lemma {:induction false} PiecesConcat(a: seq<int>, b: seq<int>, cols: int, colors: seq<string>)
    requires TypesOnly(a) && TypesOnly(b) && TypeCount <= |colors|
    ensures TypesOnly(a + b) && Pieces(a + b, cols, colors) == Pieces(a, cols, colors) + Pieces(b, cols, colors)
  {
    assert TypesOnly(a + b);
    if a != [] {
      assert (a + b)[1..] == a[1..] + b;
      PiecesConcat(a[1..], b, cols, colors);
    } else {
      assert a + b == b;
    }
  }

  /** Drawing i + 1 types is drawing i and then one more from what is left. */
  lemma {:induction false} DrawsSplit(bag: seq<int>, spare: seq<int>, i: nat)
    requires TypesOnly(spare) && spare != [] && TypesOnly(bag)
    ensures var d := Draws(bag, spare, i);
      var e := Draws(d.left, spare, 1);
      Draws(bag, spare, i + 1) == Drawn(d.kinds + e.kinds, e.left)
    decreases i
  {
    var d := Draws(bag, spare, i);
    var e := Draws(d.left, spare, 1);
    if i == 0 {
      assert d.kinds + e.kinds == e.kinds;
    } else {
      var b := Refilled(bag, spare);
      var rest := b[..|b| - 1];
      DrawsSplit(rest, spare, i - 1);
      var d' := Draws(rest, spare, i - 1);
      assert d == Drawn([b[|b| - 1]] + d'.kinds, d'.left);
      assert [b[|b| - 1]] + (d'.kinds + e.kinds) == d.kinds + e.kinds;
    }
  }

  /** One more draw after i draws extends the created pieces by the piece drawn. */
  lemma DrawOne(bag: seq<int>, spare: seq<int>, i: nat, p: Piece, cols: int, colors: seq<string>)
    requires TypesOnly(spare) && spare != [] && TypesOnly(bag) && TypeCount <= |colors|
    requires p == CreatePiece(Draws(Draws(bag, spare, i).left, spare, 1).kinds[0], cols, colors)
    ensures Pieces(Draws(bag, spare, i + 1).kinds, cols, colors) ==
            Pieces(Draws(bag, spare, i).kinds, cols, colors) + [p]
    ensures Draws(bag, spare, i + 1).left == Draws(Draws(bag, spare, i).left, spare, 1).left
  {
    var d := Draws(bag, spare, i);
    var e := Draws(d.left, spare, 1);
    DrawsSplit(bag, spare, i);
    PiecesConcat(d.kinds, e.kinds, cols, colors);
    assert Pieces(e.kinds, cols, colors) == [p];
  }

  /** A bag with at least n types is not regenerated: the draws pop its last n entries,
      last first. */
  lemma DrawsFromFullBag(bag: seq<int>, spare: seq<int>, n: nat)
    requires TypesOnly(spare) && spare != [] && TypesOnly(bag) && n <= |bag|
    ensures var d := Draws(bag, spare, n);
      d.left == bag[..|bag| - n] && forall k :: 0 <= k < n ==> d.kinds[k] == bag[|bag| - 1 - k]
  {
    DrawsPop(bag, spare, n);
    PoppedAt(bag, n);
  }

  /** The last n entries of a bag, last first. */
  ghost function Popped(bag: seq<int>, n: nat): seq<int>
    requires n <= |bag|
    decreases n
  {
    if n == 0 then [] else [bag[|bag| - 1]] + Popped(bag[..|bag| - 1], n - 1)
  }

  /** Entry k of the popped entries is the k-th from the end of the bag. */
  lemma {:induction false} PoppedAt(bag: seq<int>, n: nat)
    requires n <= |bag|
    ensures |Popped(bag, n)| == n && forall k :: 0 <= k < n ==> Popped(bag, n)[k] == bag[|bag| - 1 - k]
    decreases n
  {
    if n > 0 {
      var b := bag[..|bag| - 1];
      PoppedAt(b, n - 1);
      forall k | 0 < k < n ensures Popped(bag, n)[k] == bag[|bag| - 1 - k] {
        assert Popped(bag, n)[k] == Popped(b, n - 1)[k - 1] == b[|b| - 1 - (k - 1)];
      }
    }
  }

  /** Draws from a bag that holds enough types pop them without regenerating. */
  lemma {:induction false} DrawsPop(bag: seq<int>, spare: seq<int>, n: nat)
    requires TypesOnly(spare) && spare != [] && TypesOnly(bag) && n <= |bag|
    ensures Draws(bag, spare, n).left == bag[..|bag| - n] && Draws(bag, spare, n).kinds == Popped(bag, n)
    decreases n
  {
    if n > 0 {
      var b := bag[..|bag| - 1];
      assert Refilled(bag, spare) == bag;
      var e := Draws(b, spare, n - 1);
      assert Draws(bag, spare, n) == Drawn([bag[|bag| - 1]] + e.kinds, e.left);
      DrawsPop(b, spare, n - 1);
      assert b[..|b| - (n - 1)] == bag[..|bag| - n];
    }
  }

  /** The pieces spawnPiece works through: the next-queue (filled with four draws when it
      is empty) followed by one more draw; and the bag left behind. The first becomes the
      current piece and the other four the new next-queue. */
  function SpawnQueue(next: seq<Piece>, bag: seq<int>, choices: seq<int>, cols: int, colors: seq<string>): (seq<Piece>, seq<int>)
    requires ValidChoices(choices, TypeCount) && TypesOnly(bag) && TypeCount <= |colors|
  {
    var d := Draws(bag, Bag(choices), (if next == [] then 4 else 0) + 1);
    (next + Pieces(d.kinds, cols, colors), d.left)
  }

  /** spawnPiece's draws, step by step: the queue after the optional fill of four and the
      one draw after the shift make up SpawnQueue. */
  lemma SpawnSteps(next0: seq<Piece>, bag0: seq<int>, choices: seq<int>, cols: int, colors: seq<string>,
                   queue: seq<Piece>, mid: seq<int>, p: Piece, left: seq<int>)
    requires ValidChoices(choices, TypeCount) && TypesOnly(bag0) && TypeCount <= |colors|
    requires var d := Draws(bag0, Bag(choices), if next0 == [] then 4 else 0);
      queue == next0 + Pieces(d.kinds, cols, colors) && mid == d.left
    requires var e := Draws(mid, Bag(choices), 1);
      p == CreatePiece(e.kinds[0], cols, colors) && left == e.left
    ensures SpawnQueue(next0, bag0, choices, cols, colors) == (queue + [p], left)
  {
    var n: nat := if next0 == [] then 4 else 0;
    DrawOne(bag0, Bag(choices), n, p, cols, colors);
    assert next0 + (Pieces(Draws(bag0, Bag(choices), n).kinds, cols, colors) + [p]) == queue + [p];
  }

  /** Shifting a full queue of created pieces and appending a created piece leaves a full
      queue of created pieces. */
  lemma ShiftedQueueOK(queue: seq<Piece>, p: Piece, cols: int, colors: seq<string>)
    requires QueueOK(queue, cols, colors) && |queue| == 4 && Spawned(p, cols, colors)
    ensures QueueOK(queue[1..] + [p], cols, colors)
  {
    var q := queue[1..] + [p];
    forall k | 0 <= k < |q|
      ensures Spawned(q[k], cols, colors)
    {
      if k < 3 {
        assert q[k] == queue[k + 1];
      }
    }
  }

  /** The first game piece comes from the last entry of the bag startGame shuffles, so
      on an empty board at least two rows high it never tops out. */
  lemma FirstPieceFits(choices: seq<int>, rows: nat, cols: nat, colors: seq<string>)
    requires ValidChoices(choices, TypeCount) && TypeCount <= |colors| && cols >= 4 && rows >= 2
    ensures var q := SpawnQueue([], Bag(choices), choices, cols, colors);
      |q.0| == 5 && q.0[0].kind == Bag(choices)[TypeCount - 1] &&
      q.1 == Bag(choices)[..TypeCount - 5] &&
      !CheckCollision(q.0[0], EmptyGrid(rows, cols), cols)
  {
    DrawsFromFullBag(Bag(choices), Bag(choices), 5);
    SpawnFitsEmptyBoard(Bag(choices)[TypeCount - 1], rows, cols, colors);
  }

  // ---------------------------------------------------------------------------
  // Garbage and hold
  // ---------------------------------------------------------------------------

  /** A garbage row: the garbage code in every cell but the hole. */
  function GarbageRow(cols: nat, hole: int, code: int): seq<int>
  {
    seq(cols, c => if c == hole then 0 else code)
  }

  /** With the hole in range and a non-zero code, a garbage row has exactly one empty cell. */
  lemma GarbageRowHasOneHole(cols: nat, hole: int, code: int)
    requires 0 <= hole < cols && code != 0
    ensures var row := GarbageRow(cols, hole, code);
      |row| == cols && !Full(row) &&
      forall c :: 0 <= c < cols ==> (row[c] == 0 <==> c == hole) && (c != hole ==> row[c] == code)
  {
    assert GarbageRow(cols, hole, code)[hole] == 0;
  }

  /** One garbage row per hole, in order. */
  function GarbageRows(holes: seq<int>, cols: nat, code: int): seq<seq<int>>
  {
    seq(|holes|, k requires 0 <= k < |holes| => GarbageRow(cols, holes[k], code))
  }

  /** The grid after n rounds of removing the top row and appending a garbage row. */
  function Garbaged(grid: Grid, holes: seq<int>, n: nat, cols: nat, code: int): Grid
    requires n <= |holes|
  {
    (grid + GarbageRows(holes[..n], cols, code))[n..]
  }

  /** One more round of addGarbageLines' loop. */
  lemma GarbagedStep(grid: Grid, holes: seq<int>, i: nat, cols: nat, code: int)
    requires i < |holes| && |grid| >= 1
    ensures Garbaged(grid, holes, i, cols, code)[1..] + [GarbageRow(cols, holes[i], code)] ==
            Garbaged(grid, holes, i + 1, cols, code)
  {
    var a := Garbaged(grid, holes, i, cols, code)[1..] + [GarbageRow(cols, holes[i], code)];
    var b := Garbaged(grid, holes, i + 1, cols, code);
    assert |a| == |b|;
    forall k | 0 <= k < |a|
      ensures a[k] == b[k]
    {
      if k < |a| - 1 {
        assert a[k] == (grid + GarbageRows(holes[..i], cols, code))[i + 1 + k];
      }
    }
  }

  /** addGarbageLines keeps the row count; the old rows below the top n move up by n and
      the bottom n rows are the garbage rows in order. */
  lemma GarbagedShape(grid: Grid, holes: seq<int>, n: nat, cols: nat, code: int)
    requires n <= |holes| && n <= |grid|
    ensures var g := Garbaged(grid, holes, n, cols, code);
      |g| == |grid| &&
      (forall r :: 0 <= r < |grid| - n ==> g[r] == grid[r + n]) &&
      (forall k :: 0 <= k < n ==> g[|grid| - n + k] == GarbageRow(cols, holes[k], code))
  {
    var g := Garbaged(grid, holes, n, cols, code);
    var all := grid + GarbageRows(holes[..n], cols, code);
    forall k | 0 <= k < n
      ensures g[|grid| - n + k] == GarbageRow(cols, holes[k], code)
    {
      assert g[|grid| - n + k] == all[|grid| + k];
    }
  }

  /** The piece a hold swap brings back: the held shape at x = floor(COLS/2) -
      floor(width/2), y = 0, orientation 0. */
  function SwappedIn(h: Held, cols: int): Piece
    requires |h.shape| > 0
  {
    Piece(cols / 2 - |h.shape[0]| / 2, 0, h.shape, h.color, h.kind, 0)
  }

  /** A held tetromino comes back centred like a new piece and inside the columns, with
      the (possibly rotated) shape it was held with. */
  lemma SwappedInFits(h: Held, cols: int)
    requires IsTetromino(h.shape) && h.kind < TypeCount && cols >= 4
    ensures var p := SwappedIn(h, cols);
      PieceOK(p, cols) && p.x == cols / 2 - 2 && p.y == 0 && p.shape == h.shape && p.orientation == 0
  {
  }

  // ---------------------------------------------------------------------------
  // The board state and its steps
  // ---------------------------------------------------------------------------

  /** The hook's constants: ROWS, COLS, COLORS, LOCK_DELAY, MAX_LOCK_MOVES,
      INITIAL_DROP_INTERVAL, and whether a socket and a room are there to report to. */
  datatype Config = Config(rows: nat, cols: nat, colors: seq<string>, lockDelay: int,
                           maxLockMoves: int, initialDropInterval: int, online: bool)

  /** At least one row, four columns (a created piece spans columns COLS/2-2 .. COLS/2+1)
      and a colour per piece type. */
  predicate ConfigOK(c: Config)
  {
    c.rows >= 1 && c.cols >= 4 && TypeCount <= |c.colors|
  }

  /** The values of the hook's refs. */
  datatype State = State(
    grid: Grid, current: Option<Piece>, held: Option<Held>, bag: seq<int>, next: seq<Piece>,
    canHold: bool, isLocking: bool, lockDelayTimer: int, moveCounter: int, dropCounter: int,
    lastTime: int, dropInterval: int, linesCleared: nat, gameOver: bool, isGameStarted: bool,
    isPaused: bool, reports: seq<Report>)

  /** The refs as the hook creates them. */
  function Initial(c: Config): State
  {
    State(EmptyGrid(c.rows, c.cols), None, None, [], [], true, false, 0, 0, 0, 0,
          c.initialDropInterval, 0, false, false, false, [])
  }

  /** The board is ROWS x COLS, the pieces in play and in the hold slot are tetrominoes
      (the current one inside the columns), the bag holds types and the queue is empty or
      holds four created pieces. */
  predicate Stocked(c: Config, s: State)
  {
    ConfigOK(c) &&
    |s.grid| == c.rows && (forall r :: 0 <= r < c.rows ==> |s.grid[r]| == c.cols) &&
    (s.current.Some? ==> PieceOK(s.current.value, c.cols)) &&
    (s.held.Some? ==> s.held.value.kind < TypeCount && IsTetromino(s.held.value.shape)) &&
    TypesOnly(s.bag) && QueueOK(s.next, c.cols, c.colors)
  }

  /** The board invariant: well stocked; a started game is not over and has a current
      piece and a full queue; only a started game is paused. */
  predicate Inv(c: Config, s: State)
  {
    Stocked(c, s) &&
    (s.isGameStarted ==> !s.gameOver && s.current.Some? && |s.next| == 4) &&
    (s.isPaused ==> s.isGameStarted)
  }

  /** The guard of the moves, the drops and rotate: a piece in a started, unpaused game. */
  predicate Active(s: State)
  {
    s.current.Some? && s.isGameStarted && !s.isPaused
  }

  /** spawnPiece: the first piece of SpawnQueue becomes the current one and the rest the
      next-queue; a spawn onto occupied cells ends the game and reports the score. */
  function AfterSpawn(c: Config, s: State, choices: seq<int>): (r: State)
    requires ConfigOK(c) && ValidChoices(choices, TypeCount) && TypesOnly(s.bag)
    ensures r.current.Some? && r.grid == s.grid && r.held == s.held && r.canHold == s.canHold
    ensures r.linesCleared == s.linesCleared && r.isPaused == s.isPaused && s.reports <= r.reports
  {
    TopOut(c, Dealt(c, s, choices))
  }

  /** The queue step of spawnPiece: the current piece, the next-queue and the bag after it. */
  function Dealt(c: Config, s: State, choices: seq<int>): State
    requires ConfigOK(c) && ValidChoices(choices, TypeCount) && TypesOnly(s.bag)
  {
    var q := SpawnQueue(s.next, s.bag, choices, c.cols, c.colors);
    s.(current := Some(q.0[0]), next := q.0[1..], bag := q.1)
  }

  /** The collision test of spawnPiece: a current piece on occupied cells ends the game and,
      online, reports the score. */
  function TopOut(c: Config, s: State): State
  {
    if s.current.Some? && CheckCollision(s.current.value, s.grid, c.cols) then
      s.(gameOver := true, isGameStarted := false,
         reports := s.reports + if c.online then [GameOverReport(s.linesCleared)] else [])
    else s
  }

  /** Merging p, clearing the full rows, adding them to the total and reporting them. */
  function AfterSettle(c: Config, s: State, p: Piece): State
  {
    var m := Merged(s.grid, p, c.rows, c.colors);
    Counted(c, s.(grid := ClearedGrid(m, c.rows, c.cols)), |FullIn(m, c.rows, 0)|)
  }

  /** n cleared rows added to the total and, online, reported. */
  function Counted(c: Config, s: State, n: nat): State
  {
    if n > 0 then
      s.(linesCleared := s.linesCleared + n, reports := s.reports + if c.online then [LinesReport(n)] else [])
    else s
  }

  /** A lock at p: settle, spawn, re-arm hold and leave the locking state. */
  function AfterLock(c: Config, s: State, p: Piece, choices: seq<int>): (r: State)
    requires ConfigOK(c) && ValidChoices(choices, TypeCount) && TypesOnly(s.bag)
    ensures r.current.Some? && r.canHold && !r.isLocking && r.moveCounter == 0
    ensures r.held == s.held && r.isPaused == s.isPaused && r.linesCleared >= s.linesCleared && s.reports <= r.reports
  {
    AfterSpawn(c, AfterSettle(c, s, p), choices).(canHold := true, isLocking := false, moveCounter := 0)
  }

  /** softDrop: one row down when that is free (leaving the locking state); otherwise the
      first blocked drop enters the locking state, and the piece locks once the lock timer
      has reached LOCK_DELAY or the move counter MAX_LOCK_MOVES. */
  function AfterSoftDrop(c: Config, s: State, choices: seq<int>): (r: State)
    requires ConfigOK(c) && ValidChoices(choices, TypeCount) && TypesOnly(s.bag)
    ensures r.held == s.held && r.isPaused == s.isPaused && r.lastTime == s.lastTime && r.dropInterval == s.dropInterval
    ensures r.linesCleared >= s.linesCleared && s.reports <= r.reports
    ensures Active(s) ==> r.dropCounter == 0 && r.current.Some?
  {
    if !Active(s) then s
    else
      var p := s.current.value;
      var down := p.(y := p.y + 1);
      if !CheckCollision(down, s.grid, c.cols) then
        s.(current := Some(down), isLocking := false, lockDelayTimer := 0, moveCounter := 0, dropCounter := 0)
      else
        AfterBlockedDrop(c, s, choices).(dropCounter := 0)
  }

  /** A soft drop that is blocked: the lock state is entered if needed, and the piece in
      place locks once the timer or the move counter has run out. */
  function AfterBlockedDrop(c: Config, s: State, choices: seq<int>): State
    requires ConfigOK(c) && ValidChoices(choices, TypeCount) && TypesOnly(s.bag) && s.current.Some?
  {
    var t := if s.isLocking then s else s.(isLocking := true, lockDelayTimer := 0, moveCounter := 0);
    if t.lockDelayTimer >= c.lockDelay || t.moveCounter >= c.maxLockMoves
    then AfterLock(c, t, s.current.value, choices) else t
  }

  /** The piece moved down row by row until the next row collides: the ghost row. */
  function Landed(p: Piece, grid: Grid, cols: int): (l: Piece)
    requires IsTetromino(p.shape)
  {
    CellsMeansHasCell(p.shape);
    p.(y := DropRow(p, grid, cols))
  }

  /** hardDrop: the piece locks at its landing row and the lock timer is zeroed. */
  function AfterHardDrop(c: Config, s: State, choices: seq<int>): (r: State)
    requires Inv(c, s) && ValidChoices(choices, TypeCount)
    ensures r.held == s.held && r.isPaused == s.isPaused && r.linesCleared >= s.linesCleared && s.reports <= r.reports
    ensures Active(s) ==> r.current.Some? && r.canHold && !r.isLocking && r.lockDelayTimer == 0 && r.moveCounter == 0
  {
    if !Active(s) then s
    else AfterLock(c, s, Landed(s.current.value, s.grid, c.cols), choices).(lockDelayTimer := 0)
  }

  /** The current piece replaced by q after a successful move or rotation: while locking,
      the lock timer restarts and the move counter goes up by one. */
  function Adjusted(s: State, q: Piece): State
  {
    if s.isLocking then s.(current := Some(q), lockDelayTimer := 0, moveCounter := s.moveCounter + 1)
    else s.(current := Some(q))
  }

  /** moveLeft (dx = -1) and moveRight (dx = 1): a blocked move changes nothing. */
  function AfterShift(c: Config, s: State, dx: int): (r: State)
    ensures r == s.(current := r.current, lockDelayTimer := r.lockDelayTimer, moveCounter := r.moveCounter)
    ensures r.current.Some? <==> s.current.Some?
    ensures s.current.Some? ==>
      r.current.value.y == s.current.value.y && r.current.value.shape == s.current.value.shape &&
      r.current.value.x - s.current.value.x in {0, dx}
  {
    if !Active(s) then s
    else
      var q := s.current.value.(x := s.current.value.x + dx);
      if CheckCollision(q, s.grid, c.cols) then s else Adjusted(s, q)
  }

  /** rotate: a clockwise rotatePiece; a failed rotation changes nothing. */
  function AfterRotate(c: Config, s: State): (r: State)
    requires Inv(c, s)
    ensures r == s.(current := r.current, lockDelayTimer := r.lockDelayTimer, moveCounter := r.moveCounter)
    ensures r.current.Some? <==> s.current.Some?
  {
    if !Active(s) then s
    else
      match Rotated(s.current.value, s.grid, c.cols, 1)
      case None => s
      case Some(q) => Adjusted(s, q)
  }

  /** hold: with the slot empty the current piece goes there and the next one spawns;
      otherwise the two swap. The held record keeps the current shape, whatever its
      rotation, with orientation 0. Either way hold is disarmed until the next lock. */
  function AfterHold(c: Config, s: State, choices: seq<int>): (r: State)
    requires Inv(c, s) && ValidChoices(choices, TypeCount)
    ensures !s.canHold ==> r == s
    ensures s.canHold && s.current.Some? && s.isGameStarted && !s.isPaused ==>
      !r.canHold && r.current.Some? && r.grid == s.grid && r.linesCleared == s.linesCleared &&
      r.held == Some(Held(s.current.value.shape, s.current.value.color, s.current.value.kind))
  {
    if !s.canHold || s.current.None? || !s.isGameStarted || s.isPaused then s
    else
      var p := s.current.value;
      var h := Held(p.shape, p.color, p.kind);
      var t := if s.held.None? then AfterSpawn(c, s.(held := Some(h)), choices)
               else s.(current := Some(SwappedIn(s.held.value, c.cols)), held := Some(h));
      t.(canHold := false)
  }

  /** The larger of a and b. */
  function Max(a: int, b: int): int
  {
    if a >= b then a else b
  }

  /** addGarbageLines: count rounds of dropping the top row and appending a garbage row
      with code COLORS.length and its hole from `holes`, then the piece moves up by count
      rows, but not above row 0. */
  function AfterGarbage(c: Config, s: State, count: int, holes: seq<int>): (r: State)
    requires count > 0 ==> count <= |holes|
    ensures r == s.(grid := r.grid, current := r.current)
    ensures |r.grid| == |s.grid| && (r.current.Some? <==> s.current.Some?)
  {
    if count <= 0 then s
    else
      s.(grid := Garbaged(s.grid, holes, count, c.cols, |c.colors|),
         current := if s.current.None? then None
                    else Some(s.current.value.(y := Max(s.current.value.y - count, 0))))
  }

  /** One gameLoop frame at `time` (milliseconds): past the drop interval the piece
      soft-drops. */
  function AfterTick(c: Config, s: State, time: int, choices: seq<int>): (r: State)
    requires Inv(c, s) && ValidChoices(choices, TypeCount)
    ensures r.held == s.held && r.isPaused == s.isPaused && r.dropInterval == s.dropInterval
    ensures r.linesCleared >= s.linesCleared && s.reports <= r.reports
    ensures s.isGameStarted && !s.isPaused ==> r.lastTime == time && r.current.Some?
  {
    if !s.isGameStarted || s.gameOver || s.isPaused then s
    else
      var t := Elapsed(s, time);
      if t.dropCounter > t.dropInterval then AfterSoftDrop(c, t, choices) else t
  }

  /** The clocks at a frame at `time`: the drop counter always advances by the elapsed
      time and the lock timer only while locking. */
  function Elapsed(s: State, time: int): State
  {
    var delta := time - s.lastTime;
    s.(lastTime := time, dropCounter := s.dropCounter + delta,
       lockDelayTimer := if s.isLocking then s.lockDelayTimer + delta else s.lockDelayTimer)
  }

  /** The reset startGame makes before its first spawn: the game flags, the counters and
      the lock state, the queue and the hold, then an empty board and a new bag. */
  function Reset(c: Config, s: State, choices: seq<int>): (t: State)
    requires ValidChoices(choices, TypeCount)
    ensures t.grid == EmptyGrid(c.rows, c.cols) && t.held == None && t.canHold && !t.isPaused
    ensures t.linesCleared == 0 && t.dropInterval == c.initialDropInterval && t.reports == s.reports
  {
    var flags := s.(gameOver := false, isGameStarted := true, isPaused := false);
    var counters := flags.(linesCleared := 0, dropInterval := c.initialDropInterval, dropCounter := 0);
    var clocks := counters.(lastTime := 0, lockDelayTimer := 0, isLocking := false);
    var queue := clocks.(next := [], moveCounter := 0, canHold := true);
    queue.(grid := EmptyGrid(c.rows, c.cols), held := None, bag := Bag(choices))
  }

  /** startGame: ignored while a game runs; otherwise a reset and a spawn from the new bag,
      which ends the game at once if it tops out. */
  function AfterStart(c: Config, s: State, choices: seq<int>): (r: State)
    requires ConfigOK(c) && ValidChoices(choices, TypeCount)
    ensures s.isGameStarted ==> r == s
    ensures !s.isGameStarted ==>
      r.current.Some? && |r.grid| == c.rows && r.held == None && r.canHold && !r.isPaused &&
      r.linesCleared == 0 && r.dropInterval == c.initialDropInterval && s.reports <= r.reports
  {
    if s.isGameStarted then s else AfterSpawn(c, Reset(c, s, choices), choices)
  }

  /** restartGame: stops the game, clears game over and pause, then starts again. */
  function AfterRestart(c: Config, s: State, choices: seq<int>): (r: State)
    requires ConfigOK(c) && ValidChoices(choices, TypeCount)
    ensures r.current.Some? && |r.grid| == c.rows && r.held == None && !r.isPaused && r.linesCleared == 0
  {
    AfterStart(c, s.(isGameStarted := false, gameOver := false, isPaused := false), choices)
  }

  /** togglePause: flips the pause flag of a running game that is not over. */
  function AfterTogglePause(s: State): State
  {
    if !s.gameOver && s.isGameStarted then s.(isPaused := !s.isPaused) else s
  }

  // ---------------------------------------------------------------------------
  // Properties of the steps
  // ---------------------------------------------------------------------------

  /** The hook's initial refs satisfy the invariant. */
  lemma InitialInv(c: Config)
    requires ConfigOK(c)
    ensures Inv(c, Initial(c)) && !Initial(c).isGameStarted && Initial(c).current.None?
  {
  }

  /** A spawn keeps the board well stocked, always leaves a current piece and a queue of
      four, and ends the game exactly when the new piece collides. */
  lemma SpawnKeepsInv(c: Config, s: State, choices: seq<int>)
    requires Stocked(c, s) && ValidChoices(choices, TypeCount) && !s.isPaused
    requires s.isGameStarted ==> !s.gameOver
    ensures var t := AfterSpawn(c, s, choices);
      Inv(c, t) && t.current.Some? && |t.next| == 4 &&
      (t.gameOver <==> s.gameOver || CheckCollision(t.current.value, s.grid, c.cols)) &&
      (t.isGameStarted <==> s.isGameStarted && !CheckCollision(t.current.value, s.grid, c.cols))
  {
    DealtStocked(c, s, choices);
  }

  /** The queue step leaves the board well stocked, with a current piece and four more. */
  lemma DealtStocked(c: Config, s: State, choices: seq<int>)
    requires Stocked(c, s) && ValidChoices(choices, TypeCount)
    ensures var d := Dealt(c, s, choices);
      Stocked(c, d) && d.current.Some? && |d.next| == 4
  {
    var q := SpawnQueue(s.next, s.bag, choices, c.cols, c.colors);
    var n := (if s.next == [] then 4 else 0) + 1;
    var ps := Pieces(Draws(s.bag, Bag(choices), n).kinds, c.cols, c.colors);
    assert q.0 == s.next + ps;
    assert |q.0| == 5;
    forall k | 0 <= k < |q.0|
      ensures Spawned(q.0[k], c.cols, c.colors)
    {
      if k >= |s.next| {
        assert q.0[k] == ps[k - |s.next|];
      }
    }
    var rest := q.0[1..];
    forall k | 0 <= k < |rest|
      ensures Spawned(rest[k], c.cols, c.colors)
    {
      assert rest[k] == q.0[k + 1];
    }
    SpawnedIsOK(q.0[0], c.cols, c.colors);
  }

  /** Settling keeps the board ROWS x COLS and leaves no full row on it. */
  lemma SettleKeepsShape(c: Config, s: State, p: Piece)
    requires Stocked(c, s)
    ensures var t := AfterSettle(c, s, p);
      |t.grid| == c.rows && (forall r :: 0 <= r < c.rows ==> |t.grid[r]| == c.cols) &&
      FullIn(t.grid, c.rows, 0) == []
  {
    var m := Merged(s.grid, p, c.rows, c.colors);
    ClearedGridShape(m, c.rows, c.cols);
    ClearIsIdempotent(m, c.rows, c.cols);
  }

  /** A lock keeps the invariant, leaves no full row, re-arms hold and leaves the locking
      state. */
  lemma LockKeepsInv(c: Config, s: State, p: Piece, choices: seq<int>)
    requires Inv(c, s) && ValidChoices(choices, TypeCount) && !s.isPaused
    ensures var t := AfterLock(c, s, p, choices);
      Inv(c, t) && FullIn(t.grid, c.rows, 0) == [] &&
      t.canHold && !t.isLocking && t.moveCounter == 0 && t.held == s.held
  {
    var u := AfterSettle(c, s, p);
    SettleKeepsShape(c, s, p);
    assert Stocked(c, u);
    var v := AfterSpawn(c, u, choices);
    assert AfterLock(c, s, p, choices) == v.(canHold := true, isLocking := false, moveCounter := 0);
    SpawnKeepsInv(c, u, choices);
    SpawnReports(c, u, choices);
    assert v.grid == u.grid && v.held == s.held;
  }

  /** Settling adds exactly the number of full rows of the merged board to the total and
      sends that count only when it is positive; the rest of the state is untouched. */
  lemma SettleCountsLines(c: Config, s: State, p: Piece)
    ensures var t := AfterSettle(c, s, p);
      var n := |FullIn(Merged(s.grid, p, c.rows, c.colors), c.rows, 0)|;
      t.linesCleared == s.linesCleared + n &&
      t.reports == s.reports + (if n > 0 && c.online then [LinesReport(n)] else []) &&
      t.current == s.current && t.next == s.next && t.bag == s.bag && t.held == s.held
  {
  }

  /** A spawn changes neither the board nor the total; it sends the score exactly when the
      new piece tops out. */
  lemma SpawnReports(c: Config, s: State, choices: seq<int>)
    requires ConfigOK(c) && ValidChoices(choices, TypeCount) && TypesOnly(s.bag)
    ensures var t := AfterSpawn(c, s, choices);
      var hit := CheckCollision(t.current.value, s.grid, c.cols);
      t.grid == s.grid && t.linesCleared == s.linesCleared && t.held == s.held &&
      t.reports == s.reports + (if hit && c.online then [GameOverReport(s.linesCleared)] else [])
  {
  }

  /** A successful sideways move keeps the invariant. */
  lemma ShiftKeepsInv(c: Config, s: State, dx: int)
    requires Inv(c, s)
    ensures Inv(c, AfterShift(c, s, dx))
  {
    if Active(s) {
      var q := s.current.value.(x := s.current.value.x + dx);
      if !CheckCollision(q, s.grid, c.cols) {
        FreeMeansInColumns(q, s.grid, c.cols);
      }
    }
  }

  /** A soft drop keeps the invariant. */
  lemma SoftDropKeepsInv(c: Config, s: State, choices: seq<int>)
    requires Inv(c, s) && ValidChoices(choices, TypeCount)
    ensures Inv(c, AfterSoftDrop(c, s, choices))
  {
    if Active(s) {
      var down := s.current.value.(y := s.current.value.y + 1);
      var r := AfterSoftDrop(c, s, choices);
      if CheckCollision(down, s.grid, c.cols) {
        BlockedDropKeepsInv(c, s, choices);
        assert r == AfterBlockedDrop(c, s, choices).(dropCounter := 0);
      } else {
        FreeDropKeepsInv(c, s, down);
        assert r == s.(current := Some(down), isLocking := false, lockDelayTimer := 0, moveCounter := 0, dropCounter := 0);
      }
    }
  }

  /** A soft drop one row down keeps the invariant. */
  lemma FreeDropKeepsInv(c: Config, s: State, down: Piece)
    requires Inv(c, s) && Active(s) && down == s.current.value.(y := s.current.value.y + 1)
    requires !CheckCollision(down, s.grid, c.cols)
    ensures Inv(c, s.(current := Some(down), isLocking := false, lockDelayTimer := 0, moveCounter := 0, dropCounter := 0))
  {
    FreeMeansInColumns(down, s.grid, c.cols);
  }

  /** A blocked soft drop keeps the invariant. */
  lemma BlockedDropKeepsInv(c: Config, s: State, choices: seq<int>)
    requires Inv(c, s) && ValidChoices(choices, TypeCount) && Active(s)
    ensures Inv(c, AfterBlockedDrop(c, s, choices).(dropCounter := 0))
  {
    var t := if s.isLocking then s else s.(isLocking := true, lockDelayTimer := 0, moveCounter := 0);
    LockKeepsInv(c, t, s.current.value, choices);
  }

  /** A hard drop keeps the invariant. */
  lemma HardDropKeepsInv(c: Config, s: State, choices: seq<int>)
    requires Inv(c, s) && ValidChoices(choices, TypeCount)
    ensures Inv(c, AfterHardDrop(c, s, choices))
  {
    if Active(s) {
      LockKeepsInv(c, s, Landed(s.current.value, s.grid, c.cols), choices);
    }
  }

  /** A rotation keeps the invariant. */
  lemma RotateKeepsInv(c: Config, s: State)
    requires Inv(c, s)
    ensures Inv(c, AfterRotate(c, s))
  {
    if Active(s) {
      var p := s.current.value;
      RotatedSpec(p, s.grid, c.cols, 1);
      match Rotated(p, s.grid, c.cols, 1)
      case None =>
      case Some(q) =>
        FreeMeansInColumns(q, s.grid, c.cols);
        RotationStatesAreTetrominoes();
    }
  }

  /** hold keeps the invariant. */
  lemma HoldKeepsInv(c: Config, s: State, choices: seq<int>)
    requires Inv(c, s) && ValidChoices(choices, TypeCount)
    ensures Inv(c, AfterHold(c, s, choices))
  {
    if s.canHold && s.current.Some? && s.isGameStarted && !s.isPaused {
      var p := s.current.value;
      var h := Held(p.shape, p.color, p.kind);
      if s.held.None? {
        SpawnKeepsInv(c, s.(held := Some(h)), choices);
      } else {
        SwappedInFits(s.held.value, c.cols);
      }
    }
  }

  /** Garbage keeps the invariant. */
  lemma GarbageKeepsInv(c: Config, s: State, count: int, holes: seq<int>)
    requires Inv(c, s) && (count > 0 ==> count <= |holes|)
    ensures Inv(c, AfterGarbage(c, s, count, holes))
  {
    if count > 0 {
      var g := Garbaged(s.grid, holes, count, c.cols, |c.colors|);
      var all := s.grid + GarbageRows(holes[..count], c.cols, |c.colors|);
      forall r | 0 <= r < c.rows
        ensures |g[r]| == c.cols
      {
        assert g[r] == all[r + count];
      }
    }
  }

  /** A frame of the game loop keeps the invariant. */
  lemma TickKeepsInv(c: Config, s: State, time: int, choices: seq<int>)
    requires Inv(c, s) && ValidChoices(choices, TypeCount)
    ensures Inv(c, AfterTick(c, s, time, choices))
  {
    if s.isGameStarted && !s.gameOver && !s.isPaused {
      var t := Elapsed(s, time);
      assert Inv(c, t);
      if t.dropCounter > t.dropInterval {
        SoftDropKeepsInv(c, t, choices);
      }
    }
  }

  /** startGame keeps the invariant; a start from a stopped board always has a current
      piece and a full queue, and runs unless the first piece tops out. */
  lemma StartKeepsInv(c: Config, s: State, choices: seq<int>)
    requires Inv(c, s) && ValidChoices(choices, TypeCount)
    ensures Inv(c, AfterStart(c, s, choices))
  {
    if !s.isGameStarted {
      var r := Reset(c, s, choices);
      assert Stocked(c, r);
      SpawnKeepsInv(c, r, choices);
    }
  }

  /** restartGame keeps the invariant. */
  lemma RestartKeepsInv(c: Config, s: State, choices: seq<int>)
    requires Inv(c, s) && ValidChoices(choices, TypeCount)
    ensures Inv(c, AfterRestart(c, s, choices))
  {
    StartKeepsInv(c, s.(isGameStarted := false, gameOver := false, isPaused := false), choices);
  }

  // ---------------------------------------------------------------------------
  // Behaviour of the steps
  // ---------------------------------------------------------------------------

  /** A sideways move: blocked, it changes nothing; free, it moves the piece by exactly
      dx columns and, while locking, restarts the lock timer and counts one move. */
  lemma ShiftSpec(c: Config, s: State, dx: int)
    requires Inv(c, s) && Active(s)
    ensures var p := s.current.value; var q := p.(x := p.x + dx); var r := AfterShift(c, s, dx);
      (CheckCollision(q, s.grid, c.cols) ==> r == s) &&
      (!CheckCollision(q, s.grid, c.cols) ==>
         Inv(c, r) && r.current.Some? && r.current.value.x == p.x + dx && r.current.value.y == p.y &&
         r.current.value.shape == p.shape && !CheckCollision(r.current.value, r.grid, c.cols) &&
         r.grid == s.grid && r.isLocking == s.isLocking &&
         r.lockDelayTimer == (if s.isLocking then 0 else s.lockDelayTimer) &&
         r.moveCounter == (if s.isLocking then s.moveCounter + 1 else s.moveCounter))
  {
    ShiftKeepsInv(c, s, dx);
  }

  /** Moving back undoes a free sideways move from a piece that did not overlap the
      board, except that each move made while locking restarts the lock timer and counts. */
  lemma ShiftRoundTrip(c: Config, s: State, dx: int)
    requires Inv(c, s) && Active(s) && !CheckCollision(s.current.value, s.grid, c.cols)
    requires !CheckCollision(s.current.value.(x := s.current.value.x + dx), s.grid, c.cols)
    ensures AfterShift(c, AfterShift(c, s, dx), -dx) ==
      if s.isLocking then s.(lockDelayTimer := 0, moveCounter := s.moveCounter + 2) else s
  {
    var p := s.current.value;
    var q := p.(x := p.x + dx);
    assert q.(x := q.x + -dx) == p;
  }

  /** rotate: a failed rotation changes nothing; a successful one puts in play the shape
      of the next orientation clockwise, at a position that does not collide, and while
      locking restarts the lock timer and counts one move. */
  lemma RotateSpec(c: Config, s: State)
    requires Inv(c, s) && Active(s)
    ensures var p := s.current.value; var r := AfterRotate(c, s);
      (Rotated(p, s.grid, c.cols, 1).None? ==> r == s) &&
      (Rotated(p, s.grid, c.cols, 1).Some? ==>
         r.current.Some? && !CheckCollision(r.current.value, s.grid, c.cols) &&
         r.current.value.orientation == (p.orientation + 1) % 4 &&
         r.current.value.shape == RotationStates()[p.kind][(p.orientation + 1) % 4] &&
         r.current.value.kind == p.kind && r.grid == s.grid &&
         r.lockDelayTimer == (if s.isLocking then 0 else s.lockDelayTimer) &&
         r.moveCounter == (if s.isLocking then s.moveCounter + 1 else s.moveCounter))
  {
    RotatedSpec(s.current.value, s.grid, c.cols, 1);
  }

  /** A soft drop one row down that is free: the piece moves down by one, and the board
      leaves the locking state with the lock timer, the move counter and the drop counter
      at zero. */
  lemma FreeDropSpec(c: Config, s: State, choices: seq<int>)
    requires Inv(c, s) && ValidChoices(choices, TypeCount) && Active(s)
    requires !CheckCollision(s.current.value.(y := s.current.value.y + 1), s.grid, c.cols)
    ensures var p := s.current.value; var r := AfterSoftDrop(c, s, choices);
      r.current.Some? && r.current.value.y == p.y + 1 && r.current.value.x == p.x &&
      r.current.value.shape == p.shape && r.grid == s.grid &&
      !r.isLocking && r.lockDelayTimer == 0 && r.moveCounter == 0 && r.dropCounter == 0 &&
      r.linesCleared == s.linesCleared && r.canHold == s.canHold
  {
    var down := s.current.value.(y := s.current.value.y + 1);
    assert AfterSoftDrop(c, s, choices) ==
      s.(current := Some(down), isLocking := false, lockDelayTimer := 0, moveCounter := 0, dropCounter := 0);
  }

  /** A soft drop that is blocked: the first one enters the locking state with the lock
      timer and the move counter at zero. The piece locks, in place, exactly when the lock
      timer has reached LOCK_DELAY or the move counter MAX_LOCK_MOVES: the board is still
      locking afterwards exactly when it did not lock, and then nothing but the lock state
      and the drop counter has changed. */
  lemma BlockedDropSpec(c: Config, s: State, choices: seq<int>)
    requires Inv(c, s) && ValidChoices(choices, TypeCount) && Active(s)
    requires CheckCollision(s.current.value.(y := s.current.value.y + 1), s.grid, c.cols)
    ensures var timer := if s.isLocking then s.lockDelayTimer else 0;
      var moves := if s.isLocking then s.moveCounter else 0;
      var locks := timer >= c.lockDelay || moves >= c.maxLockMoves;
      var r := AfterSoftDrop(c, s, choices);
      r.dropCounter == 0 && (r.isLocking <==> !locks) &&
      (!locks ==> r == s.(isLocking := true, lockDelayTimer := timer, moveCounter := moves, dropCounter := 0)) &&
      (locks ==> r.canHold && r.moveCounter == 0 && FullIn(r.grid, c.rows, 0) == [] &&
                 r.linesCleared == s.linesCleared + |FullIn(Merged(s.grid, s.current.value, c.rows, c.colors), c.rows, 0)|)
  {
    var t := if s.isLocking then s else s.(isLocking := true, lockDelayTimer := 0, moveCounter := 0);
    var r := AfterSoftDrop(c, s, choices);
    assert r == AfterBlockedDrop(c, s, choices).(dropCounter := 0);
    if t.lockDelayTimer >= c.lockDelay || t.moveCounter >= c.maxLockMoves {
      var p := s.current.value;
      assert r == AfterLock(c, t, p, choices).(dropCounter := 0);
      LockKeepsInv(c, t, p, choices);
      LockCounts(c, t, p, choices);
    }
  }

  /** A lock adds exactly the rows it clears to the total. */
  lemma LockCounts(c: Config, s: State, p: Piece, choices: seq<int>)
    requires ConfigOK(c) && ValidChoices(choices, TypeCount) && TypesOnly(s.bag)
    ensures AfterLock(c, s, p, choices).linesCleared ==
            s.linesCleared + |FullIn(Merged(s.grid, p, c.rows, c.colors), c.rows, 0)|
  {
    var u := AfterSettle(c, s, p);
    SettleCountsLines(c, s, p);
    SpawnReports(c, u, choices);
  }

  /** The row hardDrop lands a piece that does not overlap the board on: the ghost row,
      at or below the piece, free, and resting on what is under it. */
  lemma LandedSpec(p: Piece, grid: Grid, cols: int)
    requires IsTetromino(p.shape) && !CheckCollision(p, grid, cols)
    ensures var l := Landed(p, grid, cols);
      l.x == p.x && l.shape == p.shape && l.y >= p.y && !CheckCollision(l, grid, cols) &&
      CheckCollision(l.(y := l.y + 1), grid, cols)
  {
    CellsMeansHasCell(p.shape);
    DropRowLands(p, grid, cols);
  }

  /** hardDrop locks the piece on its landing row: the total grows by the rows that lock
      clears, no full row is left, hold is re-armed and the lock state is zeroed. */
  lemma HardDropSpec(c: Config, s: State, choices: seq<int>)
    requires Inv(c, s) && ValidChoices(choices, TypeCount) && Active(s)
    ensures var l := Landed(s.current.value, s.grid, c.cols);
      var r := AfterHardDrop(c, s, choices);
      r.linesCleared == s.linesCleared + |FullIn(Merged(s.grid, l, c.rows, c.colors), c.rows, 0)| &&
      FullIn(r.grid, c.rows, 0) == [] && r.canHold && !r.isLocking && r.lockDelayTimer == 0 &&
      r.moveCounter == 0 && r.held == s.held
  {
    var l := Landed(s.current.value, s.grid, c.cols);
    assert AfterHardDrop(c, s, choices) == AfterLock(c, s, l, choices).(lockDelayTimer := 0);
    LockKeepsInv(c, s, l, choices);
    LockCounts(c, s, l, choices);
  }

  /** hold: disarmed, it changes nothing; otherwise it stores the current piece (with its
      shape as it is) and disarms itself, so a second hold before the next lock changes
      nothing. A swap brings the held piece back centred at the top and leaves the
      queue and the board alone. */
  lemma HoldSpec(c: Config, s: State, choices: seq<int>)
    requires Inv(c, s) && ValidChoices(choices, TypeCount)
    ensures var r := AfterHold(c, s, choices);
      (!s.canHold ==> r == s) &&
      (Active(s) && s.canHold ==>
         var p := s.current.value;
         !r.canHold && r.held == Some(Held(p.shape, p.color, p.kind)) &&
         (s.held.Some? ==> r.current == Some(SwappedIn(s.held.value, c.cols)) &&
                           r.current.value.x == c.cols / 2 - 2 && r.current.value.y == 0 &&
                           r.next == s.next && r.grid == s.grid)) &&
      Inv(c, r) && AfterHold(c, r, choices) == r
  {
    HoldKeepsInv(c, s, choices);
    if Active(s) && s.canHold {
      var p := s.current.value;
      var h := Held(p.shape, p.color, p.kind);
      if s.held.None? {
        SpawnReports(c, s.(held := Some(h)), choices);
      } else {
        SwappedInFits(s.held.value, c.cols);
      }
    }
  }

  /** addGarbageLines: nothing for a count of zero or less. Otherwise, for a count up to
      ROWS, the row count is kept, the old rows below the top count rows move up by count,
      and each of the bottom count rows has its one empty cell at its hole and the garbage
      code COLORS.length everywhere else; a count above ROWS leaves only the last ROWS
      garbage rows. The piece moves up by count rows, but not above row 0. */
  lemma GarbageSpec(c: Config, s: State, count: int, holes: seq<int>)
    requires Inv(c, s) && (count > 0 ==> count <= |holes|)
    requires forall k :: 0 <= k < |holes| ==> 0 <= holes[k] < c.cols
    ensures var r := AfterGarbage(c, s, count, holes);
      (count <= 0 ==> r == s) &&
      (0 < count <= c.rows ==>
         |r.grid| == c.rows &&
         (forall i :: 0 <= i < c.rows - count ==> r.grid[i] == s.grid[i + count]) &&
         (forall i :: c.rows - count <= i < c.rows ==>
            |r.grid[i]| == c.cols &&
            forall x :: 0 <= x < c.cols ==>
              (r.grid[i][x] == 0 <==> x == holes[i - (c.rows - count)]) &&
              (x != holes[i - (c.rows - count)] ==> r.grid[i][x] == |c.colors|))) &&
      (count > c.rows ==>
         |r.grid| == c.rows &&
         forall i :: 0 <= i < c.rows ==> r.grid[i] == GarbageRow(c.cols, holes[count - c.rows + i], |c.colors|)) &&
      (count > 0 && s.current.Some? ==>
         r.current.Some? && r.current.value.y == Max(s.current.value.y - count, 0) &&
         r.current.value.x == s.current.value.x && r.current.value.shape == s.current.value.shape)
  {
    if 0 < count <= c.rows {
      var g := Garbaged(s.grid, holes, count, c.cols, |c.colors|);
      GarbagedShape(s.grid, holes, count, c.cols, |c.colors|);
      forall k | 0 <= k < count
        ensures var row := g[c.rows - count + k];
          |row| == c.cols && forall x :: 0 <= x < c.cols ==>
            (row[x] == 0 <==> x == holes[k]) && (x != holes[k] ==> row[x] == |c.colors|)
      {
        GarbageRowHasOneHole(c.cols, holes[k], |c.colors|);
      }
    } else if count > c.rows {
      var all := s.grid + GarbageRows(holes[..count], c.cols, |c.colors|);
      forall i | 0 <= i < c.rows
        ensures AfterGarbage(c, s, count, holes).grid[i] == GarbageRow(c.cols, holes[count - c.rows + i], |c.colors|)
      {
        assert AfterGarbage(c, s, count, holes).grid[i] == all[count + i];
      }
    }
  }

  /** A frame of a stopped or paused game changes nothing. In a running game the drop
      counter advances by the time elapsed since the last frame and the lock timer only
      while locking; once the drop counter exceeds the drop interval the piece soft-drops
      and the drop counter restarts from zero. */
  lemma TickSpec(c: Config, s: State, time: int, choices: seq<int>)
    requires Inv(c, s) && ValidChoices(choices, TypeCount)
    ensures var r := AfterTick(c, s, time, choices); var delta := time - s.lastTime;
      (!s.isGameStarted || s.isPaused ==> r == s) &&
      (s.isGameStarted && !s.isPaused && s.dropCounter + delta <= s.dropInterval ==>
         r.lastTime == time && r.dropCounter == s.dropCounter + delta &&
         r.lockDelayTimer == s.lockDelayTimer + (if s.isLocking then delta else 0) &&
         r.current == s.current && r.grid == s.grid && r.isLocking == s.isLocking) &&
      (s.isGameStarted && !s.isPaused && s.dropCounter + delta > s.dropInterval ==>
         r == AfterSoftDrop(c, Elapsed(s, time), choices) && r.dropCounter == 0)
  {
    if s.isGameStarted && !s.isPaused {
      var t := Elapsed(s, time);
      if t.dropCounter > t.dropInterval {
        var r := AfterSoftDrop(c, t, choices);
        var down := t.current.value.(y := t.current.value.y + 1);
        if CheckCollision(down, t.grid, c.cols) {
          assert r == AfterBlockedDrop(c, t, choices).(dropCounter := 0);
        }
      }
    }
  }

  /** Pausing freezes the board: while paused, frames, moves, drops, rotation, hold and
      startGame change nothing, and pausing twice is no pause at all. */
  lemma PauseFreezes(c: Config, s: State, time: int, dx: int, choices: seq<int>)
    requires Inv(c, s) && ValidChoices(choices, TypeCount) && s.isPaused
    ensures AfterTick(c, s, time, choices) == s && AfterShift(c, s, dx) == s &&
      AfterSoftDrop(c, s, choices) == s && AfterHardDrop(c, s, choices) == s &&
      AfterRotate(c, s) == s && AfterHold(c, s, choices) == s && AfterStart(c, s, choices) == s
    ensures !AfterTogglePause(s).isPaused && AfterTogglePause(AfterTogglePause(s)) == s
  {
  }

  /** A spawn with enough types left in the bag takes them from its end, last first: one
      type, or five when the queue is empty. */
  lemma SpawnDrawsFromBag(c: Config, s: State, choices: seq<int>)
    requires Stocked(c, s) && ValidChoices(choices, TypeCount)
    ensures var n := if s.next == [] then 5 else 1; var d := Dealt(c, s, choices);
      n <= |s.bag| ==>
        d.bag == s.bag[..|s.bag| - n] &&
        d.current.value.kind == (if s.next == [] then s.bag[|s.bag| - 1] else s.next[0].kind)
  {
    var n := if s.next == [] then 5 else 1;
    if n <= |s.bag| {
      DrawsFromFullBag(s.bag, Bag(choices), n);
    }
  }

  /** A spawn from an empty bag with a full queue regenerates the bag and draws its last
      type. */
  lemma SpawnRefillsBag(c: Config, s: State, choices: seq<int>)
    requires Stocked(c, s) && ValidChoices(choices, TypeCount)
    ensures s.bag == [] && s.next != [] ==> Dealt(c, s, choices).bag == Bag(choices)[..TypeCount - 1]
  {
    if s.bag == [] && s.next != [] {
      DrawsFromFullBag(Bag(choices), Bag(choices), 1);
      assert Refilled(s.bag, Bag(choices)) == Bag(choices);
    }
  }

  /** startGame from a stopped board at least two rows high: an empty board, a zero total,
      an empty and armed hold slot, four queued pieces, out of the locking state and the
      interval back to INITIAL_DROP_INTERVAL; the first piece, the last type of the new
      bag, never tops out, so the game runs. */
  lemma StartSpec(c: Config, s: State, choices: seq<int>)
    requires Inv(c, s) && ValidChoices(choices, TypeCount) && !s.isGameStarted && c.rows >= 2
    ensures var r := AfterStart(c, s, choices);
      r.isGameStarted && !r.gameOver && !r.isPaused && r.grid == EmptyGrid(c.rows, c.cols) &&
      r.linesCleared == 0 && r.held.None? && r.canHold && |r.next| == 4 && !r.isLocking &&
      r.dropInterval == c.initialDropInterval && r.reports == s.reports &&
      r.current.Some? && r.current.value.kind == Bag(choices)[TypeCount - 1]
  {
    var t := Reset(c, s, choices);
    FirstPieceFits(choices, c.rows, c.cols, c.colors);
    assert Dealt(c, t, choices).current == Some(SpawnQueue([], Bag(choices), choices, c.cols, c.colors).0[0]);
  }

  // ---------------------------------------------------------------------------
  // The board
  // ---------------------------------------------------------------------------

  /** The loop of addGarbageLines: count rounds, each dropping the top row and appending
      a garbage row whose hole is the round's entry of `holes`. */
  method GarbageGrid(grid: Grid, holes: seq<int>, count: nat, cols: nat, code: int)
    returns (g: Grid)
    requires count <= |holes| && |grid| >= 1
    ensures g == Garbaged(grid, holes, count, cols, code)
  {
    g := grid;
    var i := 0;
    while i < count
      invariant 0 <= i <= count
      invariant |g| == |grid| && g == Garbaged(grid, holes, i, cols, code)
    {
      GarbagedStep(grid, holes, i, cols, code);
      g := g[1..] + [GarbageRow(cols, holes[i], code)];
      i := i + 1;
    }
  }

  /** One player's board: the hook's refs as fields and its callbacks as methods, each
      proved to take the board from Model() to the matching step of the state model. */
  class PlayerBoard {
    const cfg: Config

    var grid: Grid
    var current: Option<Piece>
    var held: Option<Held>
    var bag: seq<int>
    var next: seq<Piece>
    var canHold: bool
    var isLocking: bool
    var lockDelayTimer: int
    var moveCounter: int
    var dropCounter: int
    var lastTime: int
    var dropInterval: int
    var linesCleared: nat
    var gameOver: bool
    var isGameStarted: bool
    var isPaused: bool
    var reports: seq<Report>

    /** The fields as a state of the model. */
    function Model(): State
      reads this
    {
      State(grid, current, held, bag, next, canHold, isLocking, lockDelayTimer, moveCounter,
            dropCounter, lastTime, dropInterval, linesCleared, gameOver, isGameStarted, isPaused, reports)
    }

    /** The board invariant. */
    predicate Valid()
      reads this
    {
      Inv(cfg, Model())
    }

    /** A board before its first game. */
    constructor (cfg: Config)
      requires ConfigOK(cfg)
      ensures this.cfg == cfg && Model() == Initial(cfg) && Valid()
    {
      this.cfg := cfg;
      grid := EmptyGrid(cfg.rows, cfg.cols);
      current := None;
      held := None;
      bag := [];
      next := [];
      canHold := true;
      isLocking := false;
      lockDelayTimer := 0;
      moveCounter := 0;
      dropCounter := 0;
      lastTime := 0;
      dropInterval := cfg.initialDropInterval;
      linesCleared := 0;
      gameOver := false;
      isGameStarted := false;
      isPaused := false;
      reports := [];
      new;
      InitialInv(cfg);
    }

    /** getNextPieceFromBag: regenerates the bag when it is empty, then pops its last type
        and creates that piece. */
    method GetNextPieceFromBag(choices: seq<int>) returns (p: Piece)
      requires ValidChoices(choices, TypeCount) && TypesOnly(bag) && TypeCount <= |cfg.colors|
      modifies this`bag
      ensures TypesOnly(bag)
      ensures var d := Draws(old(bag), Bag(choices), 1);
        p == CreatePiece(d.kinds[0], cfg.cols, cfg.colors) && bag == d.left
    {
      if |bag| == 0 {
        bag := GenerateBag(choices);
      }
      assert Refilled(old(bag), Bag(choices)) == bag;
      var t := bag[|bag| - 1];
      bag := bag[..|bag| - 1];
      p := CreatePiece(t, cfg.cols, cfg.colors);
      assert Draws(old(bag), Bag(choices), 1) == Drawn([t], bag);
    }

    /** The loop of spawnPiece that fills an empty next-queue with four pieces. */
    method FillQueue(choices: seq<int>)
      requires ConfigOK(cfg) && ValidChoices(choices, TypeCount) && TypesOnly(bag) && next == []
      modifies this`next, this`bag
      ensures var d := Draws(old(bag), Bag(choices), 4);
        next == Pieces(d.kinds, cfg.cols, cfg.colors) && bag == d.left
    {
      ghost var bag0, spare := bag, Bag(choices);
      var i := 0;
      while i < 4
        invariant 0 <= i <= 4 && TypesOnly(bag)
        invariant next == Pieces(Draws(bag0, spare, i).kinds, cfg.cols, cfg.colors)
        invariant bag == Draws(bag0, spare, i).left
      {
        var p := GetNextPieceFromBag(choices);
        DrawOne(bag0, spare, i, p, cfg.cols, cfg.colors);
        next := next + [p];
        i := i + 1;
      }
    }

    /** The queue step of spawnPiece: fills an empty next-queue with four pieces, takes its
        first piece as the current one and appends one more draw. */
    method TakeNext(choices: seq<int>)
      requires ConfigOK(cfg) && ValidChoices(choices, TypeCount) && TypesOnly(bag)
      modifies this`current, this`next, this`bag
      ensures var q := SpawnQueue(old(next), old(bag), choices, cfg.cols, cfg.colors);
        current == Some(q.0[0]) && next == q.0[1..] && bag == q.1
    {
      ghost var next0, bag0 := next, bag;
      if |next| == 0 {
        FillQueue(choices);
      }
      ghost var queue, mid := next, bag;
      current := Some(next[0]);
      next := next[1..];
      var p := GetNextPieceFromBag(choices);
      next := next + [p];
      SpawnSteps(next0, bag0, choices, cfg.cols, cfg.colors, queue, mid, p, bag);
    }

    /** The collision test of spawnPiece: false, after ending the game and reporting the
        score, when the current piece overlaps the board. */
    method CheckTopOut() returns (ok: bool)
      modifies this
      ensures Model() == TopOut(cfg, old(Model()))
      ensures ok == !(current.Some? && CheckCollision(current.value, grid, cfg.cols))
    {
      if current.Some? && CheckCollision(current.value, grid, cfg.cols) {
        gameOver := true;
        isGameStarted := false;
        if cfg.online {
          reports := reports + [GameOverReport(linesCleared)];
        }
        return false;
      }
      return true;
    }

    /** spawnPiece: the queue step, then a spawn onto occupied cells ends the game, reports
        the score and returns false. */
    method SpawnPiece(choices: seq<int>) returns (ok: bool)
      requires ConfigOK(cfg) && ValidChoices(choices, TypeCount) && TypesOnly(bag)
      modifies this
      ensures Model() == AfterSpawn(cfg, old(Model()), choices)
      ensures current.Some? && ok == !CheckCollision(current.value, grid, cfg.cols)
    {
      ghost var s0 := Model();
      TakeNext(choices);
      assert Model() == Dealt(cfg, s0, choices);
      ok := CheckTopOut();
    }

    /** sendLinesCleared: reports a positive count when the board is online. */
    method SendLinesCleared(count: nat)
      modifies this`reports
      ensures reports == old(reports) + (if count > 0 && cfg.online then [LinesReport(count)] else [])
    {
      if !cfg.online || count <= 0 {
        return;
      }
      reports := reports + [LinesReport(count)];
    }

    /** The first half of a lock at p: merge, clear the full rows, add them to the total and
        report them. */
    method Settle(p: Piece)
      requires Stocked(cfg, Model()) && InColumns(p, cfg.cols)
      modifies this
      ensures Model() == AfterSettle(cfg, old(Model()), p)
    {
      assert ColumnsFit(grid, p, cfg.rows);
      var merged := MergePiece(grid, p, cfg.rows, cfg.colors);
      var newGrid, cleared, _ := ClearLines(merged, cfg.rows, cfg.cols);
      SetGrid(newGrid);
      AddLines(cleared);
    }

    /** The count step after clearLines: a positive count is added to the total and sent. */
    method AddLines(cleared: nat)
      modifies this
      ensures Model() == Counted(cfg, old(Model()), cleared)
    {
      if cleared > 0 {
        linesCleared := linesCleared + cleared;
        SendLinesCleared(cleared);
      }
    }

    /** The end of a lock: hold is re-armed and the lock state left. */
    method Rearm()
      modifies this
      ensures Model() == old(Model()).(canHold := true, isLocking := false, moveCounter := 0)
    {
      canHold := true;
      isLocking := false;
      moveCounter := 0;
    }

    /** The shared tail of softDrop and hardDrop once the piece locks at p. */
    method LockPiece(p: Piece, choices: seq<int>)
      requires Valid() && !isPaused && ValidChoices(choices, TypeCount) && InColumns(p, cfg.cols)
      modifies this
      ensures Model() == AfterLock(cfg, old(Model()), p, choices) && Valid()
    {
      ghost var s0 := Model();
      Settle(p);
      var _ := SpawnPiece(choices);
      Rearm();
      LockKeepsInv(cfg, s0, p, choices);
    }

    /** A successful move or rotation to q: while locking, the lock timer restarts and
        the move counter goes up. */
    method Adjust(q: Piece)
      modifies this
      ensures Model() == Adjusted(old(Model()), q)
    {
      current := Some(q);
      if isLocking {
        lockDelayTimer := 0;
        moveCounter := moveCounter + 1;
      }
    }

    /** moveLeft and moveRight: the piece moves by dx columns unless that collides. */
    method Shift(dx: int)
      requires Valid()
      modifies this
      ensures Model() == AfterShift(cfg, old(Model()), dx) && Valid()
    {
      ghost var s0 := Model();
      ShiftKeepsInv(cfg, s0, dx);
      if current.None? || !isGameStarted || isPaused {
        return;
      }
      var q := current.value.(x := current.value.x + dx);
      if CheckCollision(q, grid, cfg.cols) {
        return;
      }
      Adjust(q);
    }

    /** moveLeft. */
    method MoveLeft()
      requires Valid()
      modifies this
      ensures Model() == AfterShift(cfg, old(Model()), -1) && Valid()
    {
      Shift(-1);
    }

    /** moveRight. */
    method MoveRight()
      requires Valid()
      modifies this
      ensures Model() == AfterShift(cfg, old(Model()), 1) && Valid()
    {
      Shift(1);
    }

    /** The blocked branch of softDrop. */
    method BlockedDrop(choices: seq<int>)
      requires Valid() && Active(Model()) && ValidChoices(choices, TypeCount)
      modifies this
      ensures Model() == AfterBlockedDrop(cfg, old(Model()), choices)
    {
      if !isLocking {
        EnterLock();
      }
      if lockDelayTimer >= cfg.lockDelay || moveCounter >= cfg.maxLockMoves {
        LockPiece(current.value, choices);
      }
    }

    /** The first blocked drop enters the locking state with its timer and counter at 0. */
    method EnterLock()
      requires Valid()
      modifies this
      ensures Model() == old(Model()).(isLocking := true, lockDelayTimer := 0, moveCounter := 0)
      ensures Valid()
    {
      isLocking, lockDelayTimer, moveCounter := true, 0, 0;
    }

    /** softDrop. */
    method SoftDrop(choices: seq<int>)
      requires Valid() && ValidChoices(choices, TypeCount)
      modifies this
      ensures Model() == AfterSoftDrop(cfg, old(Model()), choices) && Valid()
    {
      ghost var s0 := Model();
      if current.Some? && isGameStarted && !isPaused {
        var down := current.value.(y := current.value.y + 1);
        if !CheckCollision(down, grid, cfg.cols) {
          Descend(down);
        } else {
          BlockedDrop(choices);
        }
        ZeroDropCounter();
      }
      SoftDropKeepsInv(cfg, s0, choices);
    }

    /** softDrop restarts the gravity counter. */
    method ZeroDropCounter()
      modifies this`dropCounter
      ensures Model() == old(Model()).(dropCounter := 0)
    {
      dropCounter := 0;
    }

    /** The free branch of softDrop: one row down, out of the locking state. */
    method Descend(down: Piece)
      modifies this
      ensures Model() == old(Model()).(current := Some(down), isLocking := false, lockDelayTimer := 0, moveCounter := 0)
    {
      current := Some(down);
      isLocking := false;
      lockDelayTimer := 0;
      moveCounter := 0;
    }

    /** hardDrop: the piece falls to its landing row and locks there. */
    method HardDrop(choices: seq<int>)
      requires Valid() && ValidChoices(choices, TypeCount)
      modifies this
      ensures Model() == AfterHardDrop(cfg, old(Model()), choices) && Valid()
    {
      ghost var s0 := Model();
      if current.Some? && isGameStarted && !isPaused {
        CellsMeansHasCell(current.value.shape);
        var p := GetGhostPosition(current.value, grid, cfg.cols);
        LockPiece(p, choices);
        ZeroLockTimer();
      }
      HardDropKeepsInv(cfg, s0, choices);
    }

    /** hardDrop's own reset of the lock-delay timer after the lock. */
    method ZeroLockTimer()
      modifies this`lockDelayTimer
      ensures Model() == old(Model()).(lockDelayTimer := 0)
    {
      lockDelayTimer := 0;
    }

    /** rotate: a clockwise rotation with wall kicks, when one fits. */
    method Rotate()
      requires Valid()
      modifies this
      ensures Model() == AfterRotate(cfg, old(Model())) && Valid()
    {
      ghost var s0 := Model();
      RotateKeepsInv(cfg, s0);
      if current.None? || !isGameStarted || isPaused {
        return;
      }
      var r := RotatePiece(current.value, grid, cfg.cols, 1);
      if r.Some? {
        Adjust(r.value);
      }
    }

    /** hold: stores the current piece (spawning the next one when the slot was empty) or
        swaps it with the held one; once per lock. */
    method Hold(choices: seq<int>)
      requires Valid() && ValidChoices(choices, TypeCount)
      modifies this
      ensures Model() == AfterHold(cfg, old(Model()), choices) && Valid()
    {
      ghost var s0 := Model();
      if canHold && current.Some? && isGameStarted && !isPaused {
        var p := current.value;
        var h := Held(p.shape, p.color, p.kind);
        if held.None? {
          Store(h);
          var _ := SpawnPiece(choices);
        } else {
          SwapHeld(h);
        }
        Disarm();
      }
      HoldKeepsInv(cfg, s0, choices);
    }

    /** hold with an empty slot: the piece goes into the slot. */
    method Store(h: Held)
      modifies this`held
      ensures Model() == old(Model()).(held := Some(h))
    {
      held := Some(h);
    }

    /** hold with a full slot: the held piece comes back at the top, centred. */
    method SwapHeld(h: Held)
      requires held.Some? && |held.value.shape| > 0
      modifies this`current, this`held
      ensures Model() == old(Model()).(current := Some(SwappedIn(old(held).value, cfg.cols)), held := Some(h))
    {
      current, held := Some(SwappedIn(held.value, cfg.cols)), Some(h);
    }

    /** hold is spent until the next lock. */
    method Disarm()
      modifies this`canHold
      ensures Model() == old(Model()).(canHold := false)
    {
      canHold := false;
    }

    /** addGarbageLines: count rounds of dropping the top row and appending a garbage row
        whose hole is the next of `holes`, then the piece moves up. */
    method AddGarbageLines(count: int, holes: seq<int>)
      requires Valid() && (count > 0 ==> count <= |holes|)
      modifies this
      ensures Model() == AfterGarbage(cfg, old(Model()), count, holes) && Valid()
    {
      ghost var s0 := Model();
      if count > 0 {
        var g := GarbageGrid(grid, holes, count, cfg.cols, |cfg.colors|);
        SetGrid(g);
        if current.Some? {
          Lift(count);
        }
      }
      GarbageKeepsInv(cfg, s0, count, holes);
    }

    /** The board takes a new grid. */
    method SetGrid(g: seq<seq<int>>)
      modifies this`grid
      ensures Model() == old(Model()).(grid := g)
    {
      grid := g;
    }

    /** After garbage, the piece moves up by `count` rows, but not above the top. */
    method Lift(count: int)
      requires current.Some?
      modifies this`current
      ensures Model() == old(Model()).(current := Some(old(current).value.(y := Max(old(current).value.y - count, 0))))
    {
      current := Some(current.value.(y := Max(current.value.y - count, 0)));
    }

    /** gameLoop: one animation frame at `time`. */
    method GameLoop(time: int, choices: seq<int>)
      requires Valid() && ValidChoices(choices, TypeCount)
      modifies this
      ensures Model() == AfterTick(cfg, old(Model()), time, choices) && Valid()
    {
      ghost var s0 := Model();
      TickKeepsInv(cfg, s0, time, choices);
      if !isGameStarted || gameOver || isPaused {
        return;
      }
      Advance(time);
      if dropCounter > dropInterval {
        SoftDrop(choices);
      }
    }

    /** The clock step of gameLoop. */
    method Advance(time: int)
      requires Valid()
      modifies this
      ensures Model() == Elapsed(old(Model()), time) && Valid()
    {
      var delta := time - lastTime;
      lastTime := time;
      dropCounter := dropCounter + delta;
      if isLocking {
        lockDelayTimer := lockDelayTimer + delta;
      }
    }

    /** The reset of startGame before its first spawn. */
    method ResetBoard(choices: seq<int>)
      requires ValidChoices(choices, TypeCount)
      modifies this
      ensures Model() == Reset(cfg, old(Model()), choices)
    {
      ResetFlags();
      ResetCounters();
      ResetClocks();
      ResetQueue();
      ClearBoard(choices);
    }

    /** startGame's reset of the game flags: not over, started, not paused. */
    method ResetFlags()
      modifies this
      ensures Model() == old(Model()).(gameOver := false, isGameStarted := true, isPaused := false)
    {
      gameOver, isGameStarted, isPaused := false, true, false;
    }

    /** startGame's empty board, empty hold slot and new bag. */
    method ClearBoard(choices: seq<int>)
      requires ValidChoices(choices, TypeCount)
      modifies this
      ensures Model() == old(Model()).(grid := EmptyGrid(cfg.rows, cfg.cols), held := None, bag := Bag(choices))
    {
      var b := GenerateBag(choices);
      grid, held, bag := EmptyGrid(cfg.rows, cfg.cols), None, b;
    }

    /** startGame's reset of the line total, the drop interval and the drop counter. */
    method ResetCounters()
      modifies this
      ensures Model() == old(Model()).(linesCleared := 0, dropInterval := cfg.initialDropInterval, dropCounter := 0)
    {
      linesCleared, dropInterval, dropCounter := 0, cfg.initialDropInterval, 0;
    }

    /** startGame's reset of the frame clock and the lock state. */
    method ResetClocks()
      modifies this
      ensures Model() == old(Model()).(lastTime := 0, lockDelayTimer := 0, isLocking := false)
    {
      lastTime, lockDelayTimer, isLocking := 0, 0, false;
    }

    /** startGame's reset of the next-queue, the move counter and hold. */
    method ResetQueue()
      modifies this
      ensures Model() == old(Model()).(next := [], moveCounter := 0, canHold := true)
    {
      next, moveCounter, canHold := [], 0, true;
    }

    /** startGame: ignored while a game runs; otherwise a reset and the first spawn, which
        stops the game at once when it tops out. */
    method StartGame(choices: seq<int>)
      requires Valid() && ValidChoices(choices, TypeCount)
      modifies this
      ensures Model() == AfterStart(cfg, old(Model()), choices) && Valid()
    {
      ghost var s0 := Model();
      StartKeepsInv(cfg, s0, choices);
      if isGameStarted {
        return;
      }
      ResetBoard(choices);
      var ok := SpawnPiece(choices);
      if !ok {
        isGameStarted := false;
      }
    }

    /** restartGame: stops the game and starts it again. */
    method RestartGame(choices: seq<int>)
      requires Valid() && ValidChoices(choices, TypeCount)
      modifies this
      ensures Model() == AfterRestart(cfg, old(Model()), choices) && Valid()
    {
      isGameStarted := false;
      gameOver := false;
      isPaused := false;
      StartGame(choices);
    }

    /** togglePause. */
    method TogglePause()
      requires Valid()
      modifies this
      ensures Model() == AfterTogglePause(old(Model())) && Valid()
    {
      if !gameOver && isGameStarted {
        isPaused := !isPaused;
      }
    }
  }
}
