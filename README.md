# Luna-Block game logic in Dafny

Luna-Block is a multiplayer Tetris game: a browser client plays a board, and a
socket.io server lets players create and join rooms, start a match and attack one
another with garbage rows. This project models the sequential logic of the game and
proves properties of it. It has four modules, one per part of the program:

- `Kinematics` (kinematics.dfy) covers src/tetris/tetrisPiece.js:
  - the 7-bag randomizer, a Fisher–Yates shuffle of the seven type indices;
  - the SRS rotation table and its three wall-kick tables;
  - piece creation, the collision test, the ghost projection, and rotation with wall kicks.
- `Board` (board.dfy) covers `clearLines` and `mergePiece` of src/tetris/tetrisBoard.js.
- `Lifecycle` (lifecycle.dfy) covers the board of one player, src/hooks/useMultiTetris.js:
  - the hook's refs become the fields of class `PlayerBoard`, and every callback becomes a method that updates them;
  - the callbacks are spawning from the bag, moves, soft and hard drop, the lock-delay state machine, hold, garbage rows, a frame of the game loop, and start, restart and pause;
  - the messages the board sends to the server are appended to the field `reports`.
- `Rooms` (rooms.dfy) covers the room coordinator of server/server.js:
  - the room table, its insertion order and the user/socket maps become the fields of class `Coordinator`;
  - every socket handler becomes a method;
  - every emit becomes an `Event` with its audience, appended to `events`.

`Wrappers` (wrappers.dfy) holds the `Option` type.

The same pattern is used for each class:

- `Model()` is the state as a value.
- Each method ensures `Model() == AfterX(old(Model()), …)`, where `AfterX` is a function giving the handler's effect on that value.
- Lemmas about `AfterX` state:
  - that it keeps the invariant (`Lifecycle.Inv`, `Rooms.Inv`);
  - what the handler promises: refusals, host hand-over, win detection, garbage rows, lock counting, and so on.

Methods that loop in the source keep the loop and are proved against a specification function. These are:

- `ShuffleArray`, `GetGhostPosition`, `RotatePiece`, `ClearLines`, `Unshift` and `MergePiece`;
- `GarbageGrid`, `FillQueue` and the draws of `TakeNext`;
- `TargetLoop`, `CountSurvivors`, `ReviveAll` and `Coordinator.Disconnect`.

Randomness is passed in as an argument. Each argument is constrained the way the random draw is:

- `choices[i] <= i` for the shuffle;
- a hole column below `COLS` for each garbage row;
- for three or more players, one pick per attacker that is not the attacker itself (`picks[i] != i`);
- a `lucky` flag for the 30% garbage chance on a single line;
- the generated room id.

The constants module of the client is not part of this model. `ROWS`, `COLS`, `COLORS`, `LOCK_DELAY`, `MAX_LOCK_MOVES` and `INITIAL_DROP_INTERVAL` are therefore fields of `Lifecycle.Config`. Where the model needs assumptions, it states them as `COLS >= 4`, `ROWS >= 1` and one colour per piece type.

## Model

| member | source | states |
|---|---|---|
| Kinematics.TetrominoByCount | src/tetris/tetrisPiece.js:20-70 | a 4x4 box of 0/1 cells in which exactly four cells are filled is a tetromino |
| Kinematics.RotationStatesAreTetrominoes | src/tetris/tetrisPiece.js:20-70 | ROTATION_STATES has 7 types of 4 orientations, and every entry is a 4x4 0/1 matrix with exactly four occupied cells |
| Kinematics.IStatesAreTetrominoes | src/tetris/tetrisPiece.js:22-27 | the four I states are tetrominoes |
| Kinematics.TStatesAreTetrominoes | src/tetris/tetrisPiece.js:29-34 | the four T states are tetrominoes |
| Kinematics.LStatesAreTetrominoes | src/tetris/tetrisPiece.js:36-41 | the four L states are tetrominoes |
| Kinematics.JStatesAreTetrominoes | src/tetris/tetrisPiece.js:43-48 | the four J states are tetrominoes |
| Kinematics.OStatesAreTetrominoes | src/tetris/tetrisPiece.js:50-55 | the four O states are tetrominoes |
| Kinematics.SStatesAreTetrominoes | src/tetris/tetrisPiece.js:57-62 | the four S states are tetrominoes |
| Kinematics.ZStatesAreTetrominoes | src/tetris/tetrisPiece.js:64-69 | the four Z states are tetrominoes |
| Kinematics.OStatesIdentical | src/tetris/tetrisPiece.js:50-55 | all four O orientations are the same matrix |
| Kinematics.KickTableShape | src/tetris/tetrisPiece.js:72-103 | each kick table has an entry exactly for the eight quarter-turn transitions; I and JLSTZ entries hold five tests and O entries one; every first test is [0,0] |
| Kinematics.AdjacentPairs | src/tetris/tetrisPiece.js:72-81 | the transitions that have a key are exactly the eight listed: 0->1, 1->0, 1->2, 2->1, 2->3, 3->2, 3->0, 0->3 |
| Kinematics.KickTableReverse | src/tetris/tetrisPiece.js:72-103 | every reverse transition has an entry of the same length, and that entry is the pointwise negation of the forward one |
| Kinematics.RowHits | src/tetris/tetrisPiece.js:135-145 | the inner `some` over one shape row is true iff some cell from column dx on hits |
| Kinematics.ShapeHits | src/tetris/tetrisPiece.js:134-146 | the outer `some` is true iff some cell of some row from dy on hits |
| Kinematics.CheckCollision | src/tetris/tetrisPiece.js:133-147 | true iff some occupied cell has x < 0, x >= COLS, y >= grid.length, or y >= 0 on a nonzero grid cell |
| Kinematics.AboveBoardNeverCollides | src/tetris/tetrisPiece.js:139-143 | a piece whose occupied cells are all inside the columns and above row 0 never collides |
| Kinematics.BelowBoardCollides | src/tetris/tetrisPiece.js:142 | a piece with an occupied cell, placed at or below the last row, always collides |
| Kinematics.NoHitAboveFloor | src/tetris/tetrisPiece.js:142 | a piece that does not collide starts above the last row |
| Kinematics.EmptyGrid | src/hooks/useMultiTetris.js:382 | the fresh board has ROWS rows of COLS cells |
| Kinematics.SpawnShapeRows | src/tetris/tetrisPiece.js:105-116 | the occupied cells of every spawn state lie in the first two rows of its box, and those of I lie in row 1 only |
| Kinematics.SpawnFitsEmptyBoard | src/tetris/tetrisPiece.js:105-116 | createPiece(t) has orientation 0 and shape ROTATION_STATES[t][0], and it does not collide on an empty board of at least 4 columns and 2 rows (I starts at y = -1) |
| Kinematics.CreatePiece | src/tetris/tetrisPiece.js:105-116 | a created piece has the requested type and its colour, orientation 0 and the shape of that orientation in ROTATION_STATES, which is a tetromino; it starts at row -1 exactly when it is an I piece and at row 0 otherwise |
| Kinematics.DropRowLands | src/tetris/tetrisPiece.js:125-128 | for a non-colliding piece, the landing row is at or below it, free, and the row below it collides |
| Kinematics.GetGhostPosition | src/tetris/tetrisPiece.js:118-131 | the ghost keeps x and shape and is moved down to the landing row: at or below the piece, free, with the next row colliding; a piece that already collides gets y - 1; the input piece is not changed |
| Kinematics.NextOrientation | src/tetris/tetrisPiece.js:151 | (o + dir + 4) % 4 is in 0..3 and congruent to o + dir modulo 4 |
| Kinematics.FirstFitSpec | src/tetris/tetrisPiece.js:165-181 | the kick loop returns null iff every test piece collides, and otherwise the first test piece in table order that does not collide |
| Kinematics.RotatedSpec | src/tetris/tetrisPiece.js:149-182 | rotatePiece fails iff every kick of the piece's class for the transition collides; a result never collides and has the target orientation, its state's shape, and the same type and colour |
| Kinematics.ORotationKeepsPlace | src/tetris/tetrisPiece.js:94-103 | a successful O rotation keeps the position and the shape |
| Kinematics.RotatePiece | src/tetris/tetrisPiece.js:149-182 | the loop over the kicks returns exactly the first fitting test piece, or None |
| Kinematics.Range | src/tetris/tetrisPiece.js:15 | the array of indices 0..n-1 |
| Kinematics.RangeMultiset | src/tetris/tetrisPiece.js:15 | each index below n occurs exactly once in 0..n-1, and nothing else occurs |
| Kinematics.ShuffledPermutes | src/tetris/tetrisPiece.js:6-9 | the swaps keep the length and the multiset of the array |
| Kinematics.ShuffleArray | src/tetris/tetrisPiece.js:4-11 | the descending swap loop on a copy computes the Fisher–Yates shuffle for the given choices |
| Kinematics.BagIsPermutation | src/tetris/tetrisPiece.js:14-17 | a bag holds each of the 7 types exactly once and nothing else |
| Kinematics.Bag | src/tetris/tetrisPiece.js:14-17 | a bag has 7 entries, all of them piece types |
| Kinematics.GenerateBag | src/tetris/tetrisPiece.js:14-17 | generateBag returns a permutation of 0..6 |
| Board.EmptyRow | src/tetris/tetrisBoard.js:163 | an empty row has COLS zero cells |
| Board.Zeros | src/tetris/tetrisBoard.js:162-164 | n empty rows |
| Board.FullInSpec | src/tetris/tetrisBoard.js:149-154 | the scan lists exactly the full rows below ROWS, highest index first |
| Board.NothingToClear | src/tetris/tetrisBoard.js:149-154 | with no full row among the first ROWS rows the list is empty; rows at or beyond ROWS are never cleared |
| Board.KeptCount | src/tetris/tetrisBoard.js:160 | every row is either kept or cleared |
| Board.KeptOrder | src/tetris/tetrisBoard.js:160 | the filter keeps the rows that are not cleared, in their original relative order |
| Board.KeptAt | src/tetris/tetrisBoard.js:160 | the k-th kept row is the row at the k-th surviving index |
| Board.KeptIndicesMembers | src/tetris/tetrisBoard.js:160 | the surviving indices are exactly the rows that are not cleared |
| Board.KeptIndicesIncrease | src/tetris/tetrisBoard.js:160 | the surviving indices increase |
| Board.NothingClearedKeepsAll | src/tetris/tetrisBoard.js:160 | with nothing cleared the filter keeps every row |
| Board.FilterCleared | src/tetris/tetrisBoard.js:160 | filtering out the listed indices is the same as keeping the rows that are not cleared |
| Board.NothingClearedIsIdentity | src/tetris/tetrisBoard.js:156-158 | with nothing to clear the grid is returned unchanged |
| Board.ClearLines | src/tetris/tetrisBoard.js:145-167 | the two loops compute the full rows (linesToClear), their count (linesCleared) and the cleared grid |
| Board.Unshift | src/tetris/tetrisBoard.js:162-164 | the unshift loop puts n empty rows on top of the filtered grid |
| Board.ClearedGridShape | src/tetris/tetrisBoard.js:149-166 | the row count is kept, and the row width too on a grid of width COLS; the top linesCleared rows are empty; the rest are the surviving rows in order; the count is that of the full rows among the first ROWS, listed in descending order |
| Board.ClearWithoutFullRows | src/tetris/tetrisBoard.js:156-158 | with no full row, nothing is cleared and the grid is unchanged |
| Board.ClearIsIdempotent | src/tetris/tetrisBoard.js:149-164 | on a ROWS x COLS grid the result has no full row, so a second clear clears 0 lines and changes nothing |
| Board.IndexOf | src/tetris/tetrisBoard.js:177 | COLORS.indexOf gives the first position of the colour, or -1 exactly when the colour is absent |
| Board.CreatedPieceCode | src/tetris/tetrisBoard.js:177 | with distinct colours, a piece of type t is written as t + 1 |
| Board.Merged | src/tetris/tetrisBoard.js:170-182 | the merged grid has the dimensions of the input |
| Board.MergePiece | src/tetris/tetrisBoard.js:169-183 | the copy-then-write loops write COLORS.indexOf(color) + 1 exactly at the occupied cells whose row is in [0, ROWS); every other cell is unchanged; the input grid is a value and is not changed |
| Lifecycle.FreeMeansInColumns | src/tetris/tetrisPiece.js:139-141 | a piece that does not collide lies inside the columns |
| Lifecycle.SpawnedIsOK | src/tetris/tetrisPiece.js:105-116 | a created piece is a tetromino inside the columns, with orientation 0 and x = floor(COLS/2) - 2 |
| Lifecycle.Draws | src/hooks/useMultiTetris.js:85-90 | n draws give n types and leave a bag of types |
| Lifecycle.Pieces | src/hooks/useMultiTetris.js:89 | createPiece applied to each drawn type gives one created piece per type |
| Lifecycle.PiecesConcat | src/hooks/useMultiTetris.js:89 | createPiece over a concatenation is the concatenation of the pieces |
| Lifecycle.DrawsSplit | src/hooks/useMultiTetris.js:85-90 | drawing i + 1 types is drawing i and then one more from what is left |
| Lifecycle.DrawOne | src/hooks/useMultiTetris.js:85-90 | one more draw appends exactly the piece it creates |
| Lifecycle.DrawsFromFullBag | src/hooks/useMultiTetris.js:86-89 | a bag holding at least n types is not regenerated; the draws pop its last n entries, last first |
| Lifecycle.PoppedAt | src/hooks/useMultiTetris.js:89 | the k-th popped entry is the k-th from the end of the bag |
| Lifecycle.DrawsPop | src/hooks/useMultiTetris.js:86-89 | draws from a bag holding enough types only pop |
| Lifecycle.SpawnSteps | src/hooks/useMultiTetris.js:93-100 | spawnPiece's queue step is the optional fill of four, then one shift and one draw |
| Lifecycle.ShiftedQueueOK | src/hooks/useMultiTetris.js:99-100 | shifting a queue of four created pieces and pushing a created piece leaves a queue of four created pieces |
| Lifecycle.FirstPieceFits | src/hooks/useMultiTetris.js:382-386 | the first piece of a game is the last type of the fresh bag, and it fits an empty board of at least 4 columns and 2 rows; five types are drawn from the bag (the current piece and four queued) and the first two types of the bag stay in it |
| Lifecycle.GarbageRowHasOneHole | src/hooks/useMultiTetris.js:171-175 | a garbage row has COLS cells, exactly one of them 0 (at the hole), and all the others equal to the garbage code |
| Lifecycle.GarbagedStep | src/hooks/useMultiTetris.js:167-177 | one round of the loop drops the top row and appends the round's garbage row |
| Lifecycle.GarbagedShape | src/hooks/useMultiTetris.js:167-177 | after n rounds the row count is kept, the old rows below the top n move up by n, and the bottom n rows are the garbage rows in order |
| Lifecycle.SwappedInFits | src/hooks/useMultiTetris.js:305-316 | a held piece comes back at x = floor(COLS/2) - floor(width/2), y = 0, inside the columns, with the shape it was held with |
| Lifecycle.InitialInv | src/hooks/useMultiTetris.js:30-60 | the initial refs satisfy the board invariant, with no game started and no piece |
| Lifecycle.SpawnKeepsInv | src/hooks/useMultiTetris.js:92-123 | a spawn keeps the invariant and leaves a current piece and four queued; it ends the game exactly when the new piece collides |
| Lifecycle.DealtStocked | src/hooks/useMultiTetris.js:92-100 | the queue step leaves a current piece, four queued pieces and a bag of types |
| Lifecycle.SettleKeepsShape | src/hooks/useMultiTetris.js:219-223 | merge then clear keeps the board ROWS x COLS and leaves no full row |
| Lifecycle.LockKeepsInv | src/hooks/useMultiTetris.js:219-235 | a lock keeps the invariant, leaves no full row, re-arms hold, leaves the locking state and keeps the hold slot |
| Lifecycle.SettleCountsLines | src/hooks/useMultiTetris.js:219-230 | the total grows by exactly the number of rows cleared; lineCleared is reported only for a positive count |
| Lifecycle.SpawnReports | src/hooks/useMultiTetris.js:102-118 | a spawn keeps the board and the total, and reports gameOver with score = total lines exactly when the new piece collides |
| Lifecycle.ShiftKeepsInv | src/hooks/useMultiTetris.js:134-162 | a sideways move keeps the invariant |
| Lifecycle.SoftDropKeepsInv | src/hooks/useMultiTetris.js:201-243 | a soft drop keeps the invariant |
| Lifecycle.FreeDropKeepsInv | src/hooks/useMultiTetris.js:237-242 | a free soft drop keeps the invariant |
| Lifecycle.BlockedDropKeepsInv | src/hooks/useMultiTetris.js:206-236 | a blocked soft drop keeps the invariant |
| Lifecycle.HardDropKeepsInv | src/hooks/useMultiTetris.js:245-270 | a hard drop keeps the invariant |
| Lifecycle.RotateKeepsInv | src/hooks/useMultiTetris.js:272-284 | a rotation keeps the invariant |
| Lifecycle.HoldKeepsInv | src/hooks/useMultiTetris.js:286-322 | hold keeps the invariant |
| Lifecycle.GarbageKeepsInv | src/hooks/useMultiTetris.js:164-185 | garbage rows keep the invariant |
| Lifecycle.TickKeepsInv | src/hooks/useMultiTetris.js:324-356 | a frame of the game loop keeps the invariant |
| Lifecycle.StartKeepsInv | src/hooks/useMultiTetris.js:358-392 | startGame keeps the invariant |
| Lifecycle.RestartKeepsInv | src/hooks/useMultiTetris.js:425-443 | restartGame keeps the invariant |
| Lifecycle.ShiftSpec | src/hooks/useMultiTetris.js:134-162 | a blocked move changes nothing; a free move changes x by exactly dx and keeps y, the shape and the board; while locking it zeroes the lock timer and counts one move |
| Lifecycle.ShiftRoundTrip | src/hooks/useMultiTetris.js:134-162 | moveLeft after moveRight (or the reverse) restores the state, except that while locking the timer is zeroed and two moves are counted |
| Lifecycle.RotateSpec | src/hooks/useMultiTetris.js:272-284 | a failed rotation changes nothing; a successful one puts in play the next clockwise state, which does not collide, and while locking zeroes the timer and counts one move |
| Lifecycle.FreeDropSpec | src/hooks/useMultiTetris.js:237-242 | a free soft drop moves y by +1, keeps x, the shape and the board, leaves the locking state and zeroes the timer, the move counter and the drop counter |
| Lifecycle.BlockedDropSpec | src/hooks/useMultiTetris.js:205-236 | a blocked soft drop leaves the piece in place; only the first one enters locking and zeroes the timer and counter; it locks iff timer >= LOCK_DELAY or moves >= MAX_LOCK_MOVES; a lock grows the total by the rows cleared and leaves no full row |
| Lifecycle.LockCounts | src/hooks/useMultiTetris.js:225-230 | a lock adds exactly the cleared count to the running total |
| Lifecycle.LandedSpec | src/hooks/useMultiTetris.js:249-252 | hardDrop's while loop lands the piece at the ghost row: at or below the piece, free, resting on what is below |
| Lifecycle.HardDropSpec | src/hooks/useMultiTetris.js:245-270 | hardDrop locks at the ghost row: the total grows by the rows cleared, no full row is left, hold is re-armed, and the lock state, timer and counter are zeroed |
| Lifecycle.HoldSpec | src/hooks/useMultiTetris.js:286-322 | a hold with canHold false changes nothing; otherwise the current piece is held with its shape as it is and hold is disarmed, so a second hold changes nothing; a swap brings the held piece back centred at y = 0 and keeps the queue and the board |
| Lifecycle.GarbageSpec | src/hooks/useMultiTetris.js:164-185 | count <= 0 changes nothing; otherwise the row count is kept, the old rows shift up by count, each of the bottom count rows has one 0 cell at its hole and COLORS.length everywhere else, a count above ROWS leaves a board made only of the last ROWS garbage rows; the piece's y becomes max(y - count, 0) |
| Lifecycle.TickSpec | src/hooks/useMultiTetris.js:324-343 | a stopped or paused game is frozen; otherwise the drop counter grows by the elapsed time and the lock timer grows only while locking; a drop counter past the interval makes the frame exactly a soft drop of the advanced state, after which the counter is 0 |
| Lifecycle.AfterSpawn | src/hooks/useMultiTetris.js:92-123 | a spawn always leaves a current piece and changes neither the board, the hold slot, hold's arming, the line total nor pause; reports are only appended |
| Lifecycle.AfterLock | src/hooks/useMultiTetris.js:219-235 | a lock leaves a current piece, re-arms hold, leaves the locking state with a zero move counter, keeps the hold slot and pause, never lowers the line total and only appends reports |
| Lifecycle.AfterSoftDrop | src/hooks/useMultiTetris.js:201-243 | a soft drop keeps the hold slot, pause, the frame clock and the drop interval, never lowers the line total, only appends reports, and on an active board restarts the drop counter and leaves a current piece |
| Lifecycle.AfterHardDrop | src/hooks/useMultiTetris.js:245-270 | a hard drop keeps the hold slot and pause, never lowers the line total, only appends reports, and on an active board leaves a new current piece with hold re-armed, the locking state left and the lock timer and move counter at 0 |
| Lifecycle.AfterShift | src/hooks/useMultiTetris.js:134-162 | a sideways move changes nothing but the current piece and the two lock counters; the piece keeps its row and shape and its column changes by 0 or dx |
| Lifecycle.AfterRotate | src/hooks/useMultiTetris.js:272-284 | a rotation changes nothing but the current piece and the two lock counters, and never removes the piece |
| Lifecycle.AfterHold | src/hooks/useMultiTetris.js:286-322 | with hold disarmed nothing changes; an accepted hold disarms it, stores the current piece's shape, colour and type, keeps the board and the line total, and leaves a current piece |
| Lifecycle.AfterGarbage | src/hooks/useMultiTetris.js:164-185 | garbage changes only the board and the current piece, keeps the number of rows, and neither adds nor removes the piece |
| Lifecycle.AfterTick | src/hooks/useMultiTetris.js:324-356 | a frame keeps the hold slot, pause and the drop interval, never lowers the line total and only appends reports; in a running game it records the frame time and leaves a current piece |
| Lifecycle.Reset | src/hooks/useMultiTetris.js:363-384 | startGame's reset gives an empty ROWS x COLS board, an empty and armed hold slot, no pause, a zero line total and the initial drop interval, and sends no report |
| Lifecycle.AfterStart | src/hooks/useMultiTetris.js:358-392 | ignored while a game runs; otherwise the game starts with a current piece on a ROWS-row board, an empty armed hold slot, no pause, a zero line total and the initial drop interval |
| Lifecycle.AfterRestart | src/hooks/useMultiTetris.js:425-443 | a restart always leaves a current piece on a ROWS-row board with an empty hold slot, no pause and a zero line total |
| Lifecycle.PauseFreezes | src/hooks/useMultiTetris.js:445-449 | while paused, frames, moves, drops, rotation, hold and startGame change nothing; togglePause twice is the identity |
| Lifecycle.SpawnDrawsFromBag | src/hooks/useMultiTetris.js:85-100 | with enough types in the bag, a spawn pops one type (five when the queue is empty) from its end, and the new piece is the head of the queue or the last type of the bag |
| Lifecycle.SpawnRefillsBag | src/hooks/useMultiTetris.js:85-90 | the bag is regenerated only when it is empty, and the draw then takes its last type |
| Lifecycle.StartSpec | src/hooks/useMultiTetris.js:358-391 | startGame from a stopped board gives an empty board, a zero total, an empty hold slot with hold armed, four queued pieces, no locking and INITIAL_DROP_INTERVAL; the first piece fits, so the game runs |
| Lifecycle.GarbageGrid | src/hooks/useMultiTetris.js:167-177 | addGarbageLines' shift/push loop computes the garbaged grid |
| Lifecycle.PlayerBoard.constructor | src/hooks/useMultiTetris.js:30-60 | the board starts as the hook's initial refs and satisfies the invariant |
| Lifecycle.PlayerBoard.GetNextPieceFromBag | src/hooks/useMultiTetris.js:85-90 | regenerates an empty bag, pops its last type and returns that created piece |
| Lifecycle.PlayerBoard.FillQueue | src/hooks/useMultiTetris.js:93-97 | an empty queue is filled with the pieces of four draws |
| Lifecycle.PlayerBoard.TakeNext | src/hooks/useMultiTetris.js:92-100 | fill, shift and push leave the spawn queue of SpawnQueue |
| Lifecycle.PlayerBoard.CheckTopOut | src/hooks/useMultiTetris.js:102-119 | returns false, after game over and the score report, exactly when the current piece collides |
| Lifecycle.PlayerBoard.SpawnPiece | src/hooks/useMultiTetris.js:92-123 | performs AfterSpawn and returns true iff the new piece does not collide |
| Lifecycle.PlayerBoard.SendLinesCleared | src/hooks/useMultiTetris.js:125-132 | reports a count only when it is positive and the board is online |
| Lifecycle.PlayerBoard.Settle | src/hooks/useMultiTetris.js:219-230 | merge, clear, and count the cleared rows |
| Lifecycle.PlayerBoard.AddLines | src/hooks/useMultiTetris.js:225-230 | a positive count is added to the total and reported |
| Lifecycle.PlayerBoard.Rearm | src/hooks/useMultiTetris.js:233-235 | re-arms hold and leaves the lock state with the move counter at 0 |
| Lifecycle.PlayerBoard.LockPiece | src/hooks/useMultiTetris.js:219-235 | performs AfterLock and keeps the invariant |
| Lifecycle.PlayerBoard.Adjust | src/hooks/useMultiTetris.js:143-146 | after a successful move, a board that is locking zeroes the timer and counts one move |
| Lifecycle.PlayerBoard.Shift | src/hooks/useMultiTetris.js:134-162 | performs AfterShift and keeps the invariant |
| Lifecycle.PlayerBoard.MoveLeft | src/hooks/useMultiTetris.js:134-147 | performs AfterShift by -1 and keeps the invariant |
| Lifecycle.PlayerBoard.MoveRight | src/hooks/useMultiTetris.js:149-162 | performs AfterShift by +1 and keeps the invariant |
| Lifecycle.PlayerBoard.BlockedDrop | src/hooks/useMultiTetris.js:206-236 | performs the blocked branch of softDrop |
| Lifecycle.PlayerBoard.EnterLock | src/hooks/useMultiTetris.js:209-213 | enters locking with timer and counter at 0 and keeps the invariant |
| Lifecycle.PlayerBoard.SoftDrop | src/hooks/useMultiTetris.js:201-243 | performs AfterSoftDrop and keeps the invariant |
| Lifecycle.PlayerBoard.ZeroDropCounter | src/hooks/useMultiTetris.js:242 | restarts the gravity counter |
| Lifecycle.PlayerBoard.Descend | src/hooks/useMultiTetris.js:237-241 | takes the piece one row down and leaves the lock state |
| Lifecycle.PlayerBoard.HardDrop | src/hooks/useMultiTetris.js:245-270 | performs AfterHardDrop and keeps the invariant |
| Lifecycle.PlayerBoard.ZeroLockTimer | src/hooks/useMultiTetris.js:269 | zeroes the lock timer |
| Lifecycle.PlayerBoard.Rotate | src/hooks/useMultiTetris.js:272-284 | performs AfterRotate and keeps the invariant |
| Lifecycle.PlayerBoard.Hold | src/hooks/useMultiTetris.js:286-322 | performs AfterHold and keeps the invariant |
| Lifecycle.PlayerBoard.Store | src/hooks/useMultiTetris.js:290-296 | puts the piece into the empty slot |
| Lifecycle.PlayerBoard.SwapHeld | src/hooks/useMultiTetris.js:298-317 | brings back the held piece, centred, and holds the current one |
| Lifecycle.PlayerBoard.Disarm | src/hooks/useMultiTetris.js:320 | spends hold |
| Lifecycle.PlayerBoard.AddGarbageLines | src/hooks/useMultiTetris.js:164-185 | performs AfterGarbage and keeps the invariant |
| Lifecycle.PlayerBoard.Lift | src/hooks/useMultiTetris.js:179-184 | moves the piece up by count, but not above row 0 |
| Lifecycle.PlayerBoard.GameLoop | src/hooks/useMultiTetris.js:324-356 | performs AfterTick and keeps the invariant |
| Lifecycle.PlayerBoard.Advance | src/hooks/useMultiTetris.js:333-339 | advances the frame clock, the drop counter and, while locking, the lock timer |
| Lifecycle.PlayerBoard.ResetBoard | src/hooks/useMultiTetris.js:363-384 | performs startGame's reset of every ref |
| Lifecycle.PlayerBoard.ResetFlags | src/hooks/useMultiTetris.js:363-368 | the game is not over, started and not paused |
| Lifecycle.PlayerBoard.ClearBoard | src/hooks/useMultiTetris.js:382-384 | an empty board, an empty hold slot and a fresh bag |
| Lifecycle.PlayerBoard.ResetCounters | src/hooks/useMultiTetris.js:369-374 | a zero total, the initial interval and a zero drop counter |
| Lifecycle.PlayerBoard.ResetClocks | src/hooks/useMultiTetris.js:375-377 | a zero frame clock and lock timer, and not locking |
| Lifecycle.PlayerBoard.ResetQueue | src/hooks/useMultiTetris.js:378-380 | an empty queue, a zero move counter and hold armed |
| Lifecycle.PlayerBoard.StartGame | src/hooks/useMultiTetris.js:358-392 | performs AfterStart and keeps the invariant |
| Lifecycle.PlayerBoard.RestartGame | src/hooks/useMultiTetris.js:425-443 | performs AfterRestart (stop, then start) and keeps the invariant |
| Lifecycle.PlayerBoard.TogglePause | src/hooks/useMultiTetris.js:445-449 | flips pause only in a running game that is not over, and keeps the invariant |
| Rooms.Ids | server/server.js:215 | the keys of the players map, in insertion order |
| Rooms.NameOf | server/server.js:328 | players.get(u)?.name is defined exactly for members |
| Rooms.Upsert | server/server.js:160-164 | players.set adds the key and adds an entry only when the key is new |
| Rooms.Without | server/server.js:209 | players.delete removes exactly the key |
| Rooms.UpsertDistinct | server/server.js:160-164 | players.set keeps the players a map |
| Rooms.WithoutMember | server/server.js:209-216 | deleting a member keeps the map distinct and removes exactly one entry, and the first remaining key is the first key other than u |
| Rooms.WithoutAbsent | server/server.js:205-209 | deleting a key that is absent changes nothing |
| Rooms.DistinctCount | server/server.js:538 | players.size is the number of distinct member ids |
| Rooms.Dropped | server/server.js:238 | rooms.delete removes exactly that id from the insertion order |
| Rooms.DroppedUnique | server/server.js:238 | rooms.delete keeps the order free of repeats |
| Rooms.SetState | server/server.js:427 | gameStates.set stores the entry |
| Rooms.SurvivorsSpec | server/server.js:478-489 | the players counted as alive are members whose stored state is not over |
| Rooms.NewRoomOK | server/server.js:76-103 | a new room is sound: its creator is the sole player and the host, and it is waiting, not started and not finished |
| Rooms.JoinedOK | server/server.js:155-169 | an accepted join keeps the room sound, adds the joiner and keeps the host |
| Rooms.DepartedOK | server/server.js:209-217 | a departure that does not empty the room keeps it sound and removes exactly that member; a departing host hands over to the first remaining member in insertion order |
| Rooms.DepartEmpties | server/server.js:231 | only the last member's departure empties a room |
| Rooms.TargetIsOther | server/server.js:310-320 | each attacker's target is another player of the room |
| Rooms.TargetsKeys | server/server.js:310-331 | after k rounds exactly the first k players have a target |
| Rooms.TargetsAt | server/server.js:310-322 | no later round overwrites an attacker's target |
| Rooms.TargetsNoSelf | server/server.js:304-332 | no player targets itself, and every target is a player |
| Rooms.TwoPlayersTargetEachOther | server/server.js:312-314 | with two players the targets are mutual |
| Rooms.BootKeepsInv | server/server.js:34-38 | the empty server is sound |
| Rooms.CreateKeepsInv | server/server.js:68-126 | createRoom keeps the server invariant |
| Rooms.JoinKeepsInv | server/server.js:128-197 | joinRoom keeps the server invariant |
| Rooms.ClosedKeepsInv | server/server.js:231-241 | deleting a room together with its interval keeps the invariant |
| Rooms.DepartKeepsInv | server/server.js:209-241 | a member's departure keeps the invariant, including the deletion of an emptied room |
| Rooms.LeaveKeepsInv | server/server.js:199-244 | leaveRoom keeps the invariant |
| Rooms.DepartOneKeepsInv | server/server.js:581-613 | one round of disconnect's loop keeps the invariant |
| Rooms.DepartAllKeepsInv | server/server.js:581-614 | disconnect's loop keeps the invariant |
| Rooms.DisconnectKeepsInv | server/server.js:568-615 | disconnect keeps the invariant |
| Rooms.AimedOK | server/server.js:304-332 | assignTargets keeps a room sound (no self-targets) |
| Rooms.AssignedIdle | server/server.js:304-306 | assignTargets on a room of one player or none changes nothing, which is what a re-targeting tick meets after players leave |
| Rooms.AssignedKeepsInv | server/server.js:304-332 | assignTargets keeps the server invariant |
| Rooms.StartStores | server/server.js:288-340 | an accepted start changes only that room, and adds its interval |
| Rooms.StartKeepsInv | server/server.js:249-351 | startGame keeps the invariant |
| Rooms.PageLoadedKeepsInv | server/server.js:354-376 | tetrisPageLoaded keeps the invariant |
| Rooms.LineClearedKeepsInv | server/server.js:379-412 | lineCleared keeps the invariant |
| Rooms.UpdateStateKeepsInv | server/server.js:415-435 | updateGameState keeps the invariant |
| Rooms.WonKeepsInv | server/server.js:492-512 | the end of a match keeps the invariant |
| Rooms.MarkedOverKeepsInv | server/server.js:455-472 | marking a player over keeps the invariant |
| Rooms.GameOverKeepsInv | server/server.js:438-513 | gameOver keeps the invariant |
| Rooms.ReopenedKeepsInv | server/server.js:538-565 | reopening a room keeps the invariant |
| Rooms.AcknowledgedKeepsInv | server/server.js:524-535 | recording a restart acknowledgement keeps the invariant |
| Rooms.RestartKeepsInv | server/server.js:516-566 | restartGame keeps the invariant |
| Rooms.ListedIds | server/server.js:44-58 | the ids of a room list, in order |
| Rooms.RoomListSpec | server/server.js:44-58 | getPublicRoomList lists every room exactly once, in insertion order, each with its own player count and host |
| Rooms.CreateSpec | server/server.js:68-126 | without a userId or nickname only the error is emitted; otherwise the only change to the table is the new room, appended to the order, with the creator as sole player and host, waiting and not started; the user and socket are bound both ways; roomCreated and then roomListUpdated are emitted |
| Rooms.JoinRefusals | server/server.js:129-153 | joinRoom refuses a started room, then a full room (size >= maxPlayers), then a private room with a wrong password, all before it looks at the identity; it accepts iff none of the four checks applies |
| Rooms.JoinRefusedSpec | server/server.js:129-153 | a refused join changes nothing but the error emit |
| Rooms.JoinSpec | server/server.js:155-196 | an accepted join adds the user to the room, binds it to the socket, keeps the host, never overfills the room and leaves every other room unchanged |
| Rooms.LeaveSpec | server/server.js:199-244 | a member leaving deletes the room, with its interval and from the order, exactly when it was the last member; otherwise only that member is removed, and a departing host hands over to the first remaining member |
| Rooms.LeaveKeepsOthers | server/server.js:199-244 | leaveRoom changes no other room |
| Rooms.LeaveIgnored | server/server.js:200-207 | leaveRoom for a missing room or a non-member does nothing |
| Rooms.DepartOneSpec | server/server.js:581-614 | one round of the loop removes the user from that room and changes nothing else |
| Rooms.DepartAllSpec | server/server.js:581-614 | after the loop the user is in none of the visited rooms, and rooms it was not in are unchanged |
| Rooms.DisconnectSpec | server/server.js:568-615 | the socket is unbound, and so is the user's socket entry when it pointed at this socket; the user is in no room afterwards; rooms it was not in are unchanged |
| Rooms.AimedSpec | server/server.js:304-332 | with two or more players every player, and only a player, gets a target, and that target is another player |
| Rooms.StartRefusals | server/server.js:249-287 | startGame is accepted iff the room exists, the caller is its host, it has not started and it has at least two players; a refusal changes nothing but the error emit |
| Rooms.StartedSpec | server/server.js:288-340 | an accepted start leaves the room started, playing, not finished, armed, with the same players, no stored states, no restart acknowledgements, nobody recorded as on the game page, and every player aimed at another |
| Rooms.StartSpec | server/server.js:249-351 | an accepted startGame changes only that room, which becomes the started room, and sets its interval |
| Rooms.GarbageBounds | server/server.js:386-395 | the garbage never exceeds the lines cleared, grows with them, and is at least 1 from 2 lines up |
| Rooms.LineClearedSpec | server/server.js:379-412 | lineCleared changes nothing but the emits. When the attacker has a target in the room's targetMap, the mapped garbage is at least one row, the target's stored state is not over and the target has a socket, it emits exactly one receiveGarbage of that garbage to the target's socket. Otherwise it changes nothing, in particular when the attacker has no target or the target is over |
| Rooms.SetStateIsOver | server/server.js:427 | storing u's state sets what is known about u being over, and about nobody else |
| Rooms.RevivedSpec | server/server.js:552-557 | after the loop no stored state is over, and the same users have states |
| Rooms.UpdateStateSpec | server/server.js:415-435 | the caller's stored flag becomes the one sent, the others are unchanged, and the room except the sender is told |
| Rooms.PageLoadedSpec | server/server.js:354-376 | the caller is recorded in movedToTetris and, iff it has a target, told it again; nothing else changes |
| Rooms.GameOverIgnored | server/server.js:442-449 | gameOver for a missing room, an unbound socket or a finished match does nothing |
| Rooms.WinnerSpec | server/server.js:474-492 | there is a winner iff exactly one member with a stored state is not over, and the winner is that member |
| Rooms.GameOverWins | server/server.js:491-512 | a match-ending gameOver finishes the room, clears its interval and announces the winner last |
| Rooms.GameOverContinues | server/server.js:455-472 | otherwise gameOver only marks the caller over |
| Rooms.GameOverSpec | server/server.js:438-513 | the caller is over afterwards; the match ends iff exactly one stored-state member is alive and there is more than one player; then the room is finished, not started and waiting, with the winner alive |
| Rooms.AllAcknowledged | server/server.js:538 | with member-only acknowledgements, counting them equal to the players is the same as every player having acknowledged |
| Rooms.RestartSpec | server/server.js:516-566 | once every player has acknowledged, the room is reopened and its interval cleared; until then only the acknowledgement is recorded |
| Rooms.ReopenSpec | server/server.js:538-563 | a reopened room keeps its players, is not finished, not started, waiting, unarmed, has no acknowledgements and no stored state over |
| Rooms.TargetStep | server/server.js:310-331 | one attacker's round: the 2-player `find` or the pick, its map entry and its emit |
| Rooms.TargetOf | server/server.js:310-320 | with distinct player ids the target is one of the players and never the attacker |
| Rooms.GarbageFor | server/server.js:386-395 | at most 4 rows, none for zero or negative lines, never more than the lines cleared, at least one from two lines up, and none for a positive count only on a single line without the 30% chance |
| Rooms.JoinCheck | server/server.js:129-153 | the join passes iff the room exists, is waiting, is not full, the password matches a private room's and the request names a user and a nickname; it fails with 'no such room' exactly for a missing room, and a missing identity is reported only when it is missing |
| Rooms.StartCheck | server/server.js:249-287 | the start passes iff the room exists, the caller is its host, it has not started and it has at least two players; 'no room' is reported exactly for a missing room |
| Rooms.AfterCreate | server/server.js:68-126 | createRoom only appends emits, keeps the intervals and every other room; the room id is in the table afterwards iff it was or the request named a user and a nickname, in which case the creator is its only player and host and is bound to the socket both ways |
| Rooms.AfterJoin | server/server.js:128-197 | joinRoom changes at most the joined room, keeps the table's ids, order and intervals, and only appends emits |
| Rooms.AfterDepart | server/server.js:209-241 | a departure only removes rooms and intervals, changes no room but the one left, keeps the user/socket maps and only appends emits |
| Rooms.AfterLeave | server/server.js:199-244 | leaveRoom only removes rooms and intervals, changes no room but the one left, keeps the user/socket maps and only appends emits |
| Rooms.DepartOne | server/server.js:582-613 | one round of disconnect's loop only removes rooms and intervals, changes no other room, keeps the user/socket maps and only appends emits |
| Rooms.DepartAll | server/server.js:581-614 | disconnect's loop only removes rooms and intervals, keeps the user/socket maps and only appends emits |
| Rooms.AfterDisconnect | server/server.js:568-615 | disconnect only removes rooms and intervals, only appends emits, and unbinds the socket of a bound user |
| Rooms.AfterStart | server/server.js:249-351 | startGame changes at most that room and its interval, keeps the table's ids and order, only appends emits, and an accepted start leaves the room started with a live interval |
| Rooms.AfterPageLoaded | server/server.js:354-376 | tetrisPageLoaded changes at most that room, keeps the intervals and emits at most one message |
| Rooms.AfterLineCleared | server/server.js:379-412 | lineCleared changes nothing but the emits, and emits at most one message |
| Rooms.AfterUpdateState | server/server.js:415-435 | updateGameState changes at most that room, keeps the intervals and only appends emits |
| Rooms.AfterGameOver | server/server.js:438-513 | gameOver changes at most that room, never adds an interval, keeps the table's ids and order and only appends emits |
| Rooms.AfterRestart | server/server.js:516-566 | restartGame changes at most that room, never adds an interval, keeps the table's ids and order and only appends emits |
| Rooms.TargetLoop | server/server.js:310-331 | the forEach builds the target map and the targetAssigned emits |
| Rooms.CountSurvivors | server/server.js:474-489 | the loop counts the alive members with stored states, and with a count of one its last one is the winner |
| Rooms.ReviveAll | server/server.js:552-557 | the loop clears every isGameOver flag |
| Rooms.Coordinator.constructor | server/server.js:34-38 | the server starts with no rooms, no bindings and no emits |
| Rooms.Coordinator.Add | server/server.js:85-103 | stores a room and appends its id to the insertion order |
| Rooms.Coordinator.Bind | server/server.js:105-106 | binds the user and the socket both ways |
| Rooms.Coordinator.Close | server/server.js:231-241 | deletes the room, clearing its interval, and tells everyone |
| Rooms.Coordinator.Unbind | server/server.js:576-579 | unbinds the socket, and the user's entry only when it points at this socket |
| Rooms.Coordinator.GetPublicRoomList | server/server.js:44-58 | returns RoomList, the listed rooms of RoomListSpec |
| Rooms.Coordinator.GetRoomList | server/server.js:63-66 | sends the list back to the asking socket and keeps the invariant |
| Rooms.Coordinator.CreateRoom | server/server.js:68-126 | performs AfterCreate and keeps the invariant |
| Rooms.Coordinator.JoinRoom | server/server.js:128-197 | performs AfterJoin and keeps the invariant |
| Rooms.Coordinator.Depart | server/server.js:209-241 | performs one member's departure |
| Rooms.Coordinator.LeaveRoom | server/server.js:199-244 | performs AfterLeave and keeps the invariant |
| Rooms.Coordinator.AssignTargets | server/server.js:304-332 | performs Assigned on the room |
| Rooms.Coordinator.StartGame | server/server.js:249-351 | performs AfterStart and keeps the invariant |
| Rooms.Coordinator.Retarget | server/server.js:340 | a tick of the 15-second interval re-assigns the targets and keeps the invariant |
| Rooms.Coordinator.TetrisPageLoaded | server/server.js:354-376 | performs AfterPageLoaded and keeps the invariant |
| Rooms.Coordinator.LineCleared | server/server.js:379-412 | performs AfterLineCleared and keeps the invariant |
| Rooms.Coordinator.UpdateGameState | server/server.js:415-435 | performs AfterUpdateState and keeps the invariant |
| Rooms.Coordinator.Win | server/server.js:492-512 | ends the match for the winner |
| Rooms.Coordinator.GameOver | server/server.js:438-513 | performs AfterGameOver and keeps the invariant |
| Rooms.Coordinator.Reopen | server/server.js:538-565 | reopens the room |
| Rooms.Coordinator.RestartGame | server/server.js:516-566 | performs AfterRestart and keeps the invariant |
| Rooms.Coordinator.LeaveIfMember | server/server.js:582-613 | one round of disconnect's loop |
| Rooms.Coordinator.Disconnect | server/server.js:568-615 | performs AfterDisconnect (unbind, then the loop over the rooms in insertion order) and keeps the invariant |

## Left out

- Transport: the socket.io and Express setup, `socket.join`/`socket.leave`, and console logging are not modelled. An emit is an `Event` appended to `events`, and its audience is one socket, a room, a room except the sender, or everyone.
- Rendering: canvas drawing, `updatePreviewDisplays`, canvas sizing in startGame, and the ghost drawn in gameLoop are not modelled.
- React: the `useState` setters and the ref-mirroring effects are not modelled; only the ref values are kept.
- Elapsed time: the elapsed-time counter and its 1-second interval are not modelled.
- Animation frames: `requestAnimationFrame` and `cancelAnimationFrame` are not modelled. A frame is a call of `GameLoop` with its timestamp.
- Intervals: the server's interval handles are modelled by the room's `armed` flag and the `timers` set. The 15-second tick is the method `Retarget`, called whenever it occurs.
- Randomness: every random draw is an argument. This covers the room id, the target picks, the single-line 30% chance, the hole columns and the shuffle indices.
- Rooms.Coordinator.CreateRoom: requires the generated id to be new. An id collision would overwrite a room; this is not modelled.
- Game states: the relayed `gameState` payload is reduced to its `isGameOver` flag. `createdAt` (a clock value) is not kept.
- Input types: ids and passwords are strings, and "missing" means the empty string. Non-string payloads, `Number(maxPlayers)` of a non-number, and the `instanceof` repairs of `gameStates`/`movedToTetris`/`playersRestarted` are not modelled: these fields always have their types here. A `maxPlayers` of 0 becomes 6.
- Status: the `'finished'` status that the comment on the room record lists is never set by the code, and it is not modelled.
- Rooms.RestartSpec: requires every recorded acknowledgement to come from a member. restartGame compares `playersRestarted.size` with `players.size` (server/server.js:538), so an acknowledgement from a non-member, or from a player who has since left, can reopen the room before every player has acknowledged. `AfterRestart` models that comparison as written, but the lemma's iff only holds for member-only acknowledgements.
- Rooms.TargetOf: for two players, the `find` picks the first id that differs from the attacker. The lemmas rely on member ids being distinct, which the players map guarantees.
- Rooms.AfterDisconnect: the loop visits the rooms in the insertion order they had when it began. A JavaScript Map iterator skips entries deleted during iteration, and the model does the same by checking that the room still exists.
- Board.MergePiece: requires the grid to have at least ROWS rows; with fewer, JavaScript reads an undefined row and the write throws a TypeError. Every caller passes a ROWS-row grid. It also requires every occupied cell in a row of [0, ROWS) to have a column inside its row. For a column at or past the row's length, JavaScript would instead grow the row array; for a negative column it would set a non-index property and leave the row's cells and length unchanged. The board proves this precondition holds for its pieces, whose cells are always within the columns.
- Board.ClearLines: requires `ROWS <= grid.length`, since the scan reads `grid[y]` for y < ROWS. Rows at or beyond ROWS are never cleared, as in the code.
- Lifecycle bag draws: one set of shuffle choices is passed per callback, and every regeneration of the bag within that callback uses it. The code regenerates at most once per callback: startGame draws five types from a fresh bag of seven, and every other spawn draws one.
- Lifecycle.Config: COLS >= 4 and one colour per type are assumed for the board. A created piece spans the columns floor(COLS/2)-2 .. floor(COLS/2)+1.
- Lifecycle.PlayerBoard.RestartGame: the `setTimeout(startGame, 0)` is taken to run at once, so restart is stop-then-start.
- Lifecycle.PlayerBoard.TogglePause: the flag flips at once. The React state and its mirroring effect are not modelled.
- Lifecycle.PlayerBoard.StartGame: the guard that the three canvases exist is taken to hold.
- Lifecycle reports: a board is online when it has a socket and a room. The lineCleared and gameOver reports are kept in `reports`, and the server handlers are modelled separately in `Rooms`.
- hardDrop's own `while` loop is the same loop as getGhostPosition's, and `HardDrop` uses `GetGhostPosition` for it.
- Integers: the numbers are unbounded. JavaScript's doubles do not overflow at the values the game reaches.
