# Falling-blocks engine: a Dafny model

This project models the game-rules engine of a browser falling-blocks game (`script.js`).

- **Play field:** a 20 x 10 board. A cell is empty, holds a piece-type letter, or holds the `'PUZZLE'` tag.
- **Pieces:** seven tetromino kinds with square bitmaps. Rotation is a quarter turn plus a first-fit search over the wall-kick tables of the Super Rotation System.
- **Queue and hold:** a piece queue refilled by whole shuffled batches, and a hold slot usable once per spawn.
- **Three modes:**
  - NORMAL: level and gravity follow the cleared lines.
  - 40_LINES: the game ends at 40 lines.
  - BIG_BANG: I pieces only, ten puzzle stages.

The model has four modules.

- `Shapes` holds the piece catalogue.
  - The bitmaps, and the clockwise and counter-clockwise transforms with their laws.
  - The two kick tables, stored as lists of `(from, to, offsets)` entries, with the lookup that `rotate` performs.
- `Board` holds the board and its pure operations.
  - The collision test `isValid`, the write of a locked piece and row clearing.
  - The Big Bang puzzle board and the landing row of a drop.
  - The first-fit kick search.
- `Rules` holds a snapshot `GameState` of the engine's module-level variables, and each operation as a function on snapshots.
  - It defines one invariant, `Inv`, and proves that every operation keeps it.
  - `Inv` says that no row is full between locks. The piece's bitmap is its kind's bitmap at its rotation index, and the piece is in bounds. The queue holds 6 to 15 kinds. Level and gravity agree with the mode. The mode's end conditions hold.
  - "No full row" has a consequence: a lock fills at most the four rows its bitmap spans. So the index into the score table `[0, 100, 300, 500, 800]` always stays in range.
- `Game` is a class with the same fields as the source's variables. Its methods update those fields step by step, with the source's loops:
  - the kick loop of `rotate`;
  - the descent loop of `hardDrop`;
  - the cell-by-cell write of `lockPiece`;
  - the bottom-up `clearLines` scan that splices a full row out, unshifts an empty row and re-checks the same index;
  - the row and column loops of `generateBigBangPuzzle`.

  Each method's ensures, together with its modifies frame, gives the whole new state, mostly as `State() == F(old(State()), ...)` where F is the matching `Rules` function. Each public method also keeps `Valid()`, the engine invariant. The constructor has no old state: it states the started session field by field (board, piece, queue, counters and flags).

The two random draws of the source become parameters:
- `bag` is the shuffled batch: seven kinds, each present. It is ignored in BIG_BANG, which always appends seven `I`.
- `hole` is the column in 0..6 where the puzzle gap starts.

The elapsed frame time of the gravity step is the parameter `dt`.

In a few places the code does something a reader might not expect. The model does what the code does:
- **Queue length.** The refill test runs before the pop, so the queue can hold only 6 kinds after the first spawn.
- **Stage limit.** The game ends when the stage counter exceeds 10.
- **Clearing after a top-out.** `clearLines` still runs after a top-out.
- **Spawn after the last stage.** The spawn still runs after the stage check has ended the game at stage 11.
- **Hold swap.** The returning held piece is placed with no fit test.
- **No guards.** `move`, `softDrop` and `hardDrop` have no pause or game-over guard.
- **Gravity lock keeps the counter.** A lock caused by gravity does not reset `dropCounter`. That reset happens only on a successful one-row drop. So the next frame drops the new piece by one row at once (`Rules.GravityLockKeepsCounter`).

## Model

| member | source | states |
|---|---|---|
| `Shapes.Shape` | script.js:48-56 | defines SHAPES: the rotation-0 bitmap of each of the seven kinds |
| `Shapes.RotateCW` | script.js:112 | defines the clockwise transform new[i][j] = old[n-1-j][i]; the result is square of the same size |
| `Shapes.RotateCCW` | script.js:112 | defines the counter-clockwise transform new[i][j] = old[j][n-1-i]; the result is square of the same size |
| `Shapes.Orient` | script.js:48-56 | defines the bitmap of a kind at a rotation index; at every index it stays square, 2 to 4 wide and has a filled cell |
| `Shapes.Kicks` | script.js:114-115 | defines the offset list `rotate` tries: the I table for I, the JLSTZ table otherwise (JLSTZ_TABLE and I_TABLE transcribe lines 59-72), keyed by "from-to", with the [[0, 0]] fallback |
| `Board.IsValid` | script.js:101-107 | defines isValid: every filled cell, moved by the offset, lies inside the walls, above the floor, and in a row above the board or on an empty cell |
| `Board.Stamp` | script.js:131-136 | defines the write of lockPiece: each in-board cell under a filled bitmap cell takes the piece's type, all other cells are kept |
| `Board.PuzzleRow` | script.js:163-166 | defines one puzzle row: a puzzle cell exactly at the columns x < hole or x > hole + 3 |
| `Board.PuzzleGrid` | script.js:160-168 | defines generateBigBangPuzzle's board: the empty board with the bottom four rows replaced by puzzle rows |
| `Rules.Inv` | script.js:74-76 | defines the engine invariant over the module-level variables: no full row, the piece's bitmap is its kind's bitmap at its index and in bounds, 6 to 15 kinds queued (only I in BIG_BANG), level and gravity in step with the mode, the 40-line end, stage 1..11 with 11 meaning over, and puzzle cells on an unfinished BIG_BANG board |
| `Rules.SpawnAt` | script.js:92-96 | defines the fresh piece: the kind's bitmap, rotation 0, column 5 - floor(width / 2), row -1 for I and 0 otherwise |
| `Rules.SpawnState` | script.js:85-99 | defines spawnPiece on a snapshot |
| `Rules.AfterStamp` | script.js:131-136 | defines the write step of lockPiece, with game over when a filled cell is above the board |
| `Rules.AfterClear` | script.js:147-158 | defines clearLines on a snapshot |
| `Rules.Credit` | script.js:153-157 | defines the counter updates of clearLines for a number of cleared rows |
| `Rules.StageCheck` | script.js:139-142 | defines the BIG_BANG stage advance |
| `Rules.StageAndSpawn` | script.js:138-144 | defines the end of lockPiece: nothing once over, else the stage check and the spawn |
| `Rules.LockState` | script.js:130-145 | defines lockPiece on a snapshot: write, clear, then stage check and spawn |
| `Rules.RotateState` | script.js:109-124 | defines rotate on a snapshot: nothing while paused or over or for O, otherwise the kick search |
| `Rules.MoveState` | script.js:126 | defines move on a snapshot |
| `Rules.SoftDropState` | script.js:127 | defines softDrop on a snapshot |
| `Rules.HardDropState` | script.js:128 | defines hardDrop on a snapshot: the descent to the landing row, then the lock |
| `Rules.HoldState` | script.js:170-178 | defines hold on a snapshot |
| `Rules.UpdateState` | script.js:232-236 | defines the gravity step of update on a snapshot |
| `Rules.Reset` | script.js:252-254 | defines the field resets of startGame, with the board of Rules.StartGrid |
| `Shapes.ShapeFacts` | script.js:48-56 | every catalogue bitmap is square, 2 to 4 cells wide, and has a filled cell |
| `Shapes.CCWUndoesCW` | script.js:112 | the counter-clockwise transform undoes the clockwise one |
| `Shapes.CWUndoesCCW` | script.js:112 | the clockwise transform undoes the counter-clockwise one |
| `Shapes.HalfTurn` | script.js:112 | two clockwise turns send cell (i, j) to (n-1-i, n-1-j) |
| `Shapes.FourTurns` | script.js:112 | four clockwise turns give back the original bitmap |
| `Shapes.TurnsKeepFilled` | script.js:112 | a bitmap with a filled cell still has a filled cell after any number of clockwise turns |
| `Shapes.TurnIndex` | script.js:112-113 | turning the bitmap of index r in direction dir gives the bitmap of index (r + dir + 4) % 4, which lies in 0..3 |
| `Shapes.OrientTurn` | script.js:112-113 | a piece's bitmap and rotation index move together under a turn |
| `Shapes.LookupSpec` | script.js:115 | a table lookup fails exactly when no entry has the "from-to" key, and otherwise returns the offsets of an entry with that key |
| `Shapes.KickDataFive` | script.js:59-72 | every offset list of KICK_DATA has five offsets and starts with [0, 0] |
| `Shapes.KicksFromOrigin` | script.js:115 | the list `rotate` tries is never empty and starts with [0, 0], and a key found in the table gives five offsets |
| `Shapes.KickDataComplete` | script.js:59-72 | both tables have a key for every quarter turn from every index 0..3, so the `[[0, 0]]` fallback is never used |
| `Shapes.TablePaired` | script.js:59-72 | the entries come in pairs "a-b" and "b-a", and the second list is the first with every offset negated |
| `Board.EmptyGrid` | script.js:83 | a fresh board is 20 x 10, with no full row and no puzzle cell |
| `Board.ShiftValid` | script.js:101-107 | testing at offset (ox, oy) is the same as testing the piece moved by (ox, oy) |
| `Board.ValidInBounds` | script.js:101-107 | every filled cell of a position that passes the test is inside the walls and above the floor |
| `Board.AboveBoardIsFree` | script.js:105 | rows above the board never block: a bitmap inside the walls and above row 0 fits on every board |
| `Board.OutOfBoundsIsInvalid` | script.js:105 | a filled cell outside a wall or at or below the floor makes the test fail |
| `Board.StampKeepsOtherRows` | script.js:131-136 | the write of a locked piece leaves every row outside its bitmap rows untouched |
| `Board.LockClearsAtMostFour` | script.js:130-137 | on a board with no full row, writing a piece fills at most as many rows as its bitmap has |
| `Board.ClearedGrid` | script.js:147-152 | the board after clearing is 20 x 10 and has no full row |
| `Board.KeepIsFilter` | script.js:149-151 | the surviving rows are exactly the non-full rows of the board |
| `Board.KeepAppend` | script.js:147-152 | survivors and the full-row count split over the two parts of a board |
| `Board.KeepAllFull` | script.js:147-152 | rows that are all full are all removed |
| `Board.KeepNoneFull` | script.js:147-152 | rows none of which is full are all kept, and nothing is counted |
| `Board.ClearNothing` | script.js:147-153 | clearing a board with no full row changes nothing and counts 0 |
| `Board.ClearBottomRows` | script.js:147-152 | with exactly the bottom k rows full, clearing counts k, moves every other row down by k in order, and puts k empty rows on top |
| `Board.PuzzleGridFacts` | script.js:160-168 | for a hole in 0..6, the puzzle board has no full row, holds puzzle cells, and its top 16 rows are empty |
| `Board.PuzzleRowCount` | script.js:163-167 | each puzzle row holds exactly six puzzle cells |
| `Board.DropY` | script.js:128 | the landing row is at or below the start row; one row lower is invalid there, and valid from every row between the start row and it |
| `Board.LandingKeepsPlace` | script.js:128 | a piece that is in bounds, or valid, stays so at its landing row |
| `Board.GhostLanding` | script.js:203-204 | the ghost descent stops at the landing row, the row that hardDrop locks at |
| `Board.FirstFit` | script.js:117-123 | the index found is the first kick in list order at which the bitmap fits; none means that no kick fits |
| `Board.KickCommit` | script.js:117-123 | the committed piece is unchanged, or it carries the new bitmap and index at a position where it fits |
| `Board.KickCommitIsFirstFit` | script.js:117-123 | the kick search is all or nothing and first-fit: the piece is unchanged exactly when no kick fits, otherwise it moves by the first fitting kick, and in place when [0, 0] fits |
| `Board.KickCommitAt` | script.js:117-121 | when kick t is the first that fits, the piece moves by (kx, -ky) and takes the new bitmap and index |
| `Board.KickCommitNone` | script.js:117-124 | when no kick fits, the piece is left unchanged |
| `Board.Rotated` | script.js:109-124 | a rotated piece is unchanged, or has the turned bitmap and the new index at a position where it fits |
| `Board.RotatedIsFirstFit` | script.js:109-124 | rotation is all or nothing: unchanged exactly when no kick fits, otherwise bitmap, index and position move together by the first fitting kick; a turn that fits in place is taken in place |
| `Board.RotatedCommit` | script.js:111-123 | a rotated piece that changed has the given turned bitmap, an index in 0..3, and is in bounds |
| `Rules.LevelFor` | script.js:155 | the level is the one whose band of ten lines contains the line count |
| `Rules.GravityInterval` | script.js:155 | the interval lies in 100..1000 ms and reaches 100 exactly from level 19 on |
| `Rules.GravityNonIncreasing` | script.js:155 | a higher level never has a longer interval |
| `Rules.SpawnAtFacts` | script.js:92-96 | a fresh piece is well placed, and it fits whenever the top four rows are empty |
| `Rules.SpawnKeepsInv` | script.js:85-99 | a spawn from a queue of at most 15 kinds leaves 6 to 15 kinds, and it keeps the invariant |
| `Rules.SpawnQueue` | script.js:86-91 | the new piece and queue make up the old queue, plus one batch exactly when fewer than 10 kinds were queued |
| `Rules.SpawnFrame` | script.js:85-99 | a spawn changes only the queue, the piece, the hold flag and the game-over flag; the piece is a fresh one at rotation 0 and its spawn position; the game is over afterwards exactly when it was over before or the fresh piece does not fit |
| `Rules.StageAndSpawnFrame` | script.js:138-144 | the end of a lock leaves counters, hold, mode and pause alone, and does nothing once the game is over |
| `Rules.ClearScore` | script.js:153-157 | a clear of c rows adds c to the lines and Points(c) times the old level to the score; it keeps the gravity counter; in NORMAL it never lengthens the interval, and in other modes it leaves the interval unchanged |
| `Rules.ClearKeepsCounters` | script.js:130-157 | write and clear keep the board well formed with no full row, keep level and gravity in step with the mode and the 40-line end, and never clear game over |
| `Rules.StageCheckReady` | script.js:139-142 | on a running game, the stage check leaves either a fresh puzzle board or the game over at stage 11 |
| `Rules.LockKeepsInv` | script.js:130-145 | a lock keeps the invariant, whatever batch and hole are supplied |
| `Rules.LockScore` | script.js:130-154 | a lock that fills c rows has c at most 4, adds c to the lines, and adds Points(c) times the level before the lock to the score |
| `Rules.LockAdvancesStage` | script.js:139-142 | in BIG_BANG, a lock that leaves no puzzle cell moves to the next stage: past stage 10 the game is over, otherwise a puzzle board with the given hole is dealt |
| `Rules.LockKeepsStage` | script.js:138-143 | a lock that tops out, leaves a puzzle cell, or is not in BIG_BANG keeps the stage counter |
| `Rules.InvWithPiece` | script.js:119-120 | replacing the piece with a well-placed one of an allowed kind keeps the invariant |
| `Rules.RotatedPieceOk` | script.js:111-123 | a rotated piece is well placed: its bitmap is its kind's bitmap at its new index, and it is in bounds |
| `Rules.RotateKeepsInv` | script.js:109-124 | rotation, including the O, paused and game-over no-ops, keeps the invariant |
| `Rules.MoveKeepsInv` | script.js:126 | a move keeps the invariant |
| `Rules.MoveBack` | script.js:126 | a successful move is undone by the opposite move, and a failed move changes nothing |
| `Rules.SoftDropKeepsInv` | script.js:127 | a soft drop, whether a step down or a lock, keeps the invariant |
| `Rules.LandedKeepsInv` | script.js:128 | the descent of hardDrop keeps the invariant and changes only the row of the piece |
| `Rules.HardDropKeepsInv` | script.js:128 | a hard drop keeps the invariant |
| `Rules.HardDropWhenLanded` | script.js:127-128 | from a piece that cannot go lower, hard drop, soft drop and lock are the same step |
| `Rules.HoldKeepsInv` | script.js:170-178 | hold, with or without a held piece, keeps the invariant |
| `Rules.HoldOncePerSpawn` | script.js:170-178 | right after a hold, a second hold changes nothing |
| `Rules.HoldSwap` | script.js:172-177 | a hold stores the current kind and disables hold; a held kind returns at rotation 0 and its spawn position with the queue untouched; otherwise the queue front spawns |
| `Rules.TickKeepsInv` | script.js:235-236 | advancing the gravity counter changes only the counter, and keeps the invariant |
| `Rules.UpdateKeepsInv` | script.js:233-236 | the gravity step keeps the invariant |
| `Rules.GravityKeepsInv` | script.js:236 | the interval test, and the soft drop it may trigger, keep the invariant |
| `Rules.LockKeepsCounter` | script.js:130-157 | a lock leaves the gravity counter alone and never lengthens the interval |
| `Rules.GravityLockKeepsCounter` | script.js:127 | a gravity step that locks leaves the counter above the new interval, so the next step drops the new piece at once |
| `Rules.StartKeepsInv` | script.js:251-260 | a new session satisfies the invariant: it is running with hold allowed, nothing held, score and lines 0, and the first batch split into the piece and a queue of six |
| `Game.Game.constructor` | script.js:251-260 | a new object is a started session in the given mode: the empty board (the puzzle board in BIG_BANG), the first batch split into a fresh piece and six queued kinds, nothing held, hold allowed, score and lines 0, level 1, gravity 1000 with a zero counter, stage 1, running and not paused |
| `Game.Game.StartGame` | script.js:251-260 | the fields end as the reset followed by the first spawn, in the invariant, with a queue of six |
| `Game.Game.ResetSession` | script.js:252-259 | the field resets of startGame, with the puzzle board dealt in BIG_BANG |
| `Game.Game.SpawnPiece` | script.js:85-99 | push a batch when fewer than 10 kinds are queued, shift the front, place it, and test the fit |
| `Game.Game.Rotate` | script.js:109-124 | the fields end as the rotation function says, and the invariant is kept |
| `Game.Game.TurnWithKicks` | script.js:111-123 | the turned bitmap, the new index and the kind's kick list, then the kick loop, give the rotation |
| `Game.Game.TryKicks` | script.js:117-123 | the kick loop commits exactly the first fitting kick, or leaves the piece as it was |
| `Game.Game.Move` | script.js:126 | the column changes by dx exactly when the shifted position fits, and the invariant is kept |
| `Game.Game.SoftDrop` | script.js:127 | one row down with the counter reset, or a lock; the invariant is kept |
| `Game.Game.HardDrop` | script.js:128 | a descent to the landing row, then a lock; the invariant is kept |
| `Game.Game.DropToLanding` | script.js:128 | the while loop stops at the landing row, with only the piece's row changed |
| `Game.Game.LockPiece` | script.js:130-145 | write, clear, stage check and spawn, as the lock function says, keeping the invariant |
| `Game.Game.NextStage` | script.js:139-142 | the BIG_BANG stage advance, with game over past stage 10 or a fresh puzzle otherwise |
| `Game.Game.StampPiece` | script.js:131-136 | the board becomes the stamped board, and game over is set exactly when some filled cell is above the board |
| `Game.Game.ClearLines` | script.js:147-158 | the rows are cleared and the counters credited, as the clear function says |
| `Game.Game.CreditLines` | script.js:153-157 | lines, score, the NORMAL level and interval, and the 40-line end, for the number of rows removed |
| `Game.Game.RemoveFullRows` | script.js:148-152 | the splice-and-unshift scan leaves the cleared board and counts the full rows |
| `Game.Game.GenerateBigBangPuzzle` | script.js:160-168 | the board becomes the puzzle board for the hole |
| `Game.Game.Hold` | script.js:170-178 | the fields end as the hold function says, and the invariant is kept |
| `Game.Game.Update` | script.js:233-236 | the gravity step as the update function says, keeping the invariant |
| `Game.RowIsFull` | script.js:150 | the inner scan finds a row full exactly when it has no empty cell |

Proof helpers. The loop invariants of `Game.Game.StampPiece` and `Game.Game.RemoveFullRows` are bundled in ghost predicates, and the steps of those loops are lemmas that model nothing on their own: `Game.WriteCell`, `Game.NextRow` and `Game.WriteDone` for the write loop of script.js:131-136, and `Game.ScanStart`, `Game.ClearFullRow`, `Game.DropScannedRow`, `Game.ScanRowIs`, `Game.ClearKeptRow` and `Game.ScanDone` for the scan of script.js:149-152. `Board.ScanStep`, `Rules.SpawnStateIs`, `Rules.ResetIs`, `Rules.RotateIsKickSearch` and `Rules.GravityLocks` unfold a definition for the method proofs.

## Left out

- DOM lookups, screens, the result display, canvas drawing, colours and the side panels: these are presentation. Only the ghost descent of `draw` is modelled (`Board.GhostLanding`).
- Keyboard, touch and gamepad decoding with their repeat timing: this is input plumbing. Every action it triggers is a method of `Game.Game`.
- The pause toggle: the model has only the `isPaused` flag as reset by `startGame` and read by the guards. The key handler that flips it is input plumbing.
- `requestAnimationFrame`, `performance.now`, `lastTime` and the `setInterval` timer: these are host scheduling and wall-clock time. The gravity step takes the elapsed `dt` as a parameter. The elapsed-time display counter `timer` is not modelled.
- `Math.random` and the comparator shuffle: the refill batch `bag` and the puzzle `hole` are caller-supplied. `Rules.IsBag` asks for seven kinds with each kind present, i.e. a permutation. The shuffle's distribution is not modelled.
- `location.reload`: a browser side effect.
- The string keys `"from-to"` of KICK_DATA are modelled as integer pairs. A rotation index always lies in 0..3, so no other key can arise.
- Grid cells hold a three-way `Cell` value instead of `0`, a letter or `'PUZZLE'`. The source's `=== 0` test becomes `== Empty`.
- Game.Game.ClearLines: requires at most four full rows. On more, the source indexes past the score table and the score becomes NaN. `Board.LockClearsAtMostFour` shows this cannot happen from a lock on a board with no full row, and `Rules.Inv` keeps that condition.
- Rules.AfterClear: the same at-most-four-rows requirement as `Game.Game.ClearLines`, for the same reason.
- Rules.Credit: the same requirement on its count argument.
- Game.Game.LockPiece: requires the engine invariant `Valid()`. The other public methods of `Game.Game` require it too. The source has no such check, but every reachable state satisfies it.
- Rules.Inv: asks only that the piece is in bounds, not that it fits. A held piece returned by the swap is placed with no fit test, and a spawn that does not fit ends the game with the piece still in place.
