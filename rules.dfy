/** The rules of a session as functions of a snapshot of the engine state: scoring,
    level and gravity, the piece queue with its batch refill, spawning, and the whole
    effect of locking a piece (write, clear, mode rules, next spawn). One invariant,
    Inv, holds between player actions, and every step keeps it. */
module Rules {
  import opened Shapes
  import opened Board

  /** The three modes 'NORMAL', '40_LINES' and 'BIG_BANG'. */
  datatype Mode = Normal | FortyLines | BigBang

  /** The engine's module-level variables at one instant. */
  datatype GameState = GameState(
    grid: Grid,
    piece: Piece,
    next: seq<Kind>,
    hold: Option<Kind>,
    canHold: bool,
    score: nat,
    lines: nat,
    level: nat,
    dropInterval: int,
    dropCounter: int,
    over: bool,
    paused: bool,
    mode: Mode,
    stage: nat)

  // ---------------------------------------------------------------------
  // Scoring, level and gravity
  // ---------------------------------------------------------------------

  /** The score table [0, 100, 300, 500, 800], indexed by the number of rows cleared. */
  function Points(cleared: nat): nat
    requires cleared <= 4
  {
    [0, 100, 300, 500, 800][cleared]
  }

  /** The level for a number of cleared lines (NORMAL mode): one more per 10 lines. */
  function LevelFor(lines: nat): (level: nat)
    ensures level >= 1 && (level - 1) * 10 <= lines < level * 10
  {
    lines / 10 + 1
  }

  /** The gravity interval in ms: 1000 at level 1, 50 less per level, never below 100. */
  function GravityInterval(level: int): (ms: int)
    requires level >= 1
    ensures 100 <= ms <= 1000
    ensures ms == 100 <==> level >= 19
  {
    if 1000 - (level - 1) * 50 > 100 then 1000 - (level - 1) * 50 else 100
  }

  /** A higher level never falls more slowly. */
  lemma GravityNonIncreasing(a: int, b: int)
    requires 1 <= a <= b
    ensures GravityInterval(b) <= GravityInterval(a)
  {
  }

  // ---------------------------------------------------------------------
  // Queue and spawning
  // ---------------------------------------------------------------------

  /** A shuffled batch: the seven kinds in some order (seven entries, each kind among
      them, so each exactly once). */
  predicate IsBag(bag: seq<Kind>) {
    |bag| == 7 && forall k: Kind :: k in bag
  }

  const SEVEN_I: seq<Kind> := [I, I, I, I, I, I, I]

  /** The batch spawnPiece appends: the shuffled catalogue, or seven I in BIG_BANG. */
  function Batch(mode: Mode, bag: seq<Kind>): seq<Kind> {
    if mode == BigBang then SEVEN_I else bag
  }

  /** The queue before the pop: one batch more when fewer than 10 types are queued. */
  function Refill(next: seq<Kind>, mode: Mode, bag: seq<Kind>): seq<Kind> {
    if |next| < 10 then next + Batch(mode, bag) else next
  }

  /** A fresh piece of kind k: rotation 0, centred (5 - floor(width / 2)), and one row
      higher for I, whose first bitmap row is empty. */
  function SpawnAt(k: Kind): Piece {
    ShapeFacts(k);
    Piece(k, Shape(k), 0, COLS / 2 - |Shape(k)[0]| / 2, if k == I then -1 else 0)
  }

  /** The piece's bitmap is its kind's bitmap at its rotation index, and it is in bounds. */
  ghost predicate PieceOk(p: Piece) {
    0 <= p.rotation < 4 && p.matrix == Orient(p.kind, p.rotation) && InBounds(p)
  }

  /** The four top rows are empty. */
  ghost predicate TopClear(g: Grid)
    requires WellFormed(g)
  {
    forall r, c :: 0 <= r < 4 && 0 <= c < COLS ==> g[r][c] == Empty
  }

  /** A fresh piece is well placed, and fits whenever the top four rows are empty. */
  lemma SpawnAtFacts(g: Grid, k: Kind)
    requires WellFormed(g)
    ensures PieceOk(SpawnAt(k))
    ensures TopClear(g) ==> IsValid(g, SpawnAt(k), 0, 0, SpawnAt(k).matrix)
  {
    ShapeFacts(k);
    var p := SpawnAt(k);
    var n := |p.matrix|;
    assert 3 <= p.x && p.x + n <= 7 && -1 <= p.y <= 0;
    assert p.matrix == Orient(k, 0);
    forall i, j | 0 <= i < n && 0 <= j < |p.matrix[i]| && p.matrix[i][j] != 0
      ensures 0 <= p.x + j < COLS && p.y + i < ROWS && (TopClear(g) && p.y + i >= 0 ==> g[p.y + i][p.x + j] == Empty)
    {
    }
  }

  /** The part of the invariant that does not concern the active piece. */
  ghost predicate Ready(s: GameState) {
    && WellFormed(s.grid) && NoFullRow(s.grid)
    && |s.next| <= 15
    && (s.mode == BigBang ==> (forall k :: 0 <= k < |s.next| ==> s.next[k] == I) && (s.hold.Some? ==> s.hold.value == I))
    && (s.mode == Normal ==> s.level == LevelFor(s.lines) && s.dropInterval == GravityInterval(s.level))
    && (s.mode != Normal ==> s.level == 1 && s.dropInterval == 1000)
    && (s.mode == FortyLines && s.lines >= 40 ==> s.over)
    && 1 <= s.stage <= 11 && (s.mode != BigBang ==> s.stage == 1) && (s.stage == 11 ==> s.over)
    && (s.mode == BigBang && !s.over ==> !NoPuzzle(s.grid))
  }

  /** The engine invariant between player actions. No row is full; the piece's bitmap and
      rotation index agree and it is in bounds; 6 to 15 types are queued; BIG_BANG deals
      only I; level and gravity follow the lines in NORMAL and stay at 1 and 1000
      otherwise; 40_LINES is over once 40 lines are cleared; the Big Bang stage is 1..11,
      and 11 means over; an unfinished Big Bang board holds puzzle cells. */
  ghost predicate Inv(s: GameState) {
    Ready(s) && PieceOk(s.piece) && 6 <= |s.next| && (s.mode == BigBang ==> s.piece.kind == I)
  }

  /** spawnPiece: refill, pop the front type, place it, re-enable hold, and end the game
      when the fresh piece does not fit. */
  function SpawnState(s: GameState, bag: seq<Kind>): GameState
    requires WellFormed(s.grid) && IsBag(bag)
  {
    var q := Refill(s.next, s.mode, bag);
    var p := SpawnAt(q[0]);
    s.(next := q[1..], piece := p, canHold := true, over := s.over || !IsValid(s.grid, p, 0, 0, p.matrix))
  }

  /** SpawnState spelled out for a given refilled queue q and fresh piece p. */
  lemma SpawnStateIs(s: GameState, bag: seq<Kind>, q: seq<Kind>, p: Piece)
    requires WellFormed(s.grid) && IsBag(bag)
    requires q == Refill(s.next, s.mode, bag) && |q| >= 1 && p == SpawnAt(q[0])
    ensures SpawnState(s, bag) ==
            s.(next := q[1..], piece := p, canHold := true, over := s.over || !IsValid(s.grid, p, 0, 0, p.matrix))
  {
  }

  /** A spawn keeps the invariant: the queue, at most 15 before, holds 6 to 15 after. */
  lemma SpawnKeepsInv(s: GameState, bag: seq<Kind>)
    requires Ready(s) && IsBag(bag)
    ensures Inv(SpawnState(s, bag))
  {
    var q := Refill(s.next, s.mode, bag);
    var r := SpawnState(s, bag);
    SpawnAtFacts(s.grid, q[0]);
    assert r.next == q[1..];
    if s.mode == BigBang {
      assert forall k :: 0 <= k < |q| ==> q[k] == I;
    }
  }

  /** A spawn pops exactly the front of the refilled queue, and refills only below 10. */
  lemma SpawnQueue(s: GameState, bag: seq<Kind>)
    requires WellFormed(s.grid) && IsBag(bag)
    ensures var r := SpawnState(s, bag);
            |s.next| >= 10 ==> [r.piece.kind] + r.next == s.next
    ensures var r := SpawnState(s, bag);
            |s.next| < 10 ==> [r.piece.kind] + r.next == s.next + Batch(s.mode, bag)
  {
    var q := Refill(s.next, s.mode, bag);
    assert [q[0]] + q[1..] == q;
  }

  // ---------------------------------------------------------------------
  // Locking
  // ---------------------------------------------------------------------

  /** The write of lockPiece: the piece's cells go into the grid, and a cell above the
      board ends the game. */
  function AfterStamp(s: GameState): GameState
    requires WellFormed(s.grid)
  {
    s.(grid := Stamp(s.grid, s.piece), over := s.over || AboveTop(s.piece))
  }

  /** clearLines: full rows removed; then, when any were, lines and score go up, NORMAL
      recomputes level and gravity, and 40_LINES ends at 40 lines. */
  function AfterClear(s: GameState): GameState
    requires WellFormed(s.grid) && CountFull(s.grid) <= 4
  {
    Credit(s.(grid := ClearedGrid(s.grid)), CountFull(s.grid))
  }

  /** The counters after c cleared rows: lines, score at the level before the clear, the
      NORMAL level and gravity, and the end of a FORTY_LINES game at 40 lines. */
  function Credit(s: GameState, c: nat): GameState
    requires c <= 4
  {
    if c == 0 then s
    else
      var lines := s.lines + c;
      var level := if s.mode == Normal then LevelFor(lines) else s.level;
      s.(lines := lines, score := s.score + Points(c) * s.level, level := level,
         dropInterval := if s.mode == Normal then GravityInterval(level) else s.dropInterval,
         over := s.over || (s.mode == FortyLines && lines >= 40))
  }

  /** The BIG_BANG stage check of lockPiece: a board with no puzzle cell left moves to the
      next stage, which past stage 10 ends the game and otherwise deals a fresh puzzle. */
  function StageCheck(s: GameState, hole: int): (r: GameState)
    ensures WellFormed(s.grid) ==> WellFormed(r.grid)
  {
    if s.mode == BigBang && NoPuzzle(s.grid) then
      if s.stage + 1 > 10 then s.(stage := s.stage + 1, over := true)
      else s.(stage := s.stage + 1, grid := PuzzleGrid(hole))
    else s
  }

  /** The end of lockPiece once the write and the clear are done: nothing more when the
      game is over; otherwise the stage check and then the next spawn, which runs even
      when the stage check has just ended the game. */
  function StageAndSpawn(s: GameState, bag: seq<Kind>, hole: int): GameState
    requires WellFormed(s.grid) && IsBag(bag)
  {
    if s.over then s else SpawnState(StageCheck(s, hole), bag)
  }

  /** The whole of lockPiece: write, clear, then the stage check and the next spawn. */
  function LockState(s: GameState, bag: seq<Kind>, hole: int): GameState
    requires WellFormed(s.grid) && NoFullRow(s.grid) && |s.piece.matrix| <= 4 && IsBag(bag)
  {
    LockClearsAtMostFour(s.grid, s.piece);
    StageAndSpawn(AfterClear(AfterStamp(s)), bag, hole)
  }

  /** A spawn changes only the queue, the piece, the hold flag and the game-over flag: the
      piece is a fresh one at rotation 0, and the game ends exactly when it was over already
      or the fresh piece does not fit. */
  lemma SpawnFrame(s: GameState, bag: seq<Kind>)
    requires WellFormed(s.grid) && IsBag(bag)
    ensures var r := SpawnState(s, bag);
            && r == s.(next := r.next, piece := r.piece, canHold := true, over := r.over)
            && r.piece == SpawnAt(r.piece.kind) && r.piece.rotation == 0
            && (r.over <==> s.over || !IsValid(s.grid, r.piece, 0, 0, r.piece.matrix))
  {
  }

  /** The end of a lock leaves the counters, the hold, the mode and the pause flag alone,
      never clears the game-over flag, and does nothing at all once the game is over. */
  lemma StageAndSpawnFrame(s: GameState, bag: seq<Kind>, hole: int)
    requires WellFormed(s.grid) && IsBag(bag)
    ensures var r := StageAndSpawn(s, bag, hole);
            && r.lines == s.lines && r.score == s.score && r.level == s.level
            && r.dropInterval == s.dropInterval && r.dropCounter == s.dropCounter
            && r.mode == s.mode && r.hold == s.hold && r.paused == s.paused
            && (s.over ==> r == s)
  {
    if !s.over {
      SpawnFrame(StageCheck(s, hole), bag);
    }
  }

  /** A clear of c rows, at most 4, adds c to the lines and Points(c) times the level in
      force before the clear to the score; it leaves the gravity counter alone and never
      lengthens the interval of a state whose level follows its lines. */
  lemma ClearScore(s: GameState)
    requires WellFormed(s.grid) && CountFull(s.grid) <= 4
    ensures var c := CountFull(s.grid);
            var r := AfterClear(s);
            && r.lines == s.lines + c && r.score == s.score + Points(c) * s.level
            && r.dropCounter == s.dropCounter
            && ((s.mode == Normal && s.level == LevelFor(s.lines) && s.dropInterval == GravityInterval(s.level))
                  ==> r.dropInterval <= s.dropInterval)
            && (s.mode != Normal ==> r.dropInterval == s.dropInterval)
  {
    var c := CountFull(s.grid);
    if s.mode == Normal && s.level == LevelFor(s.lines) && c > 0 {
      GravityNonIncreasing(s.level, LevelFor(s.lines + c));
    }
  }

  /** Write and clear keep everything of Ready except, in BIG_BANG, a puzzle cell. */
  lemma {:induction false} ClearKeepsCounters(s: GameState)
    requires Inv(s)
    ensures (LockClearsAtMostFour(s.grid, s.piece);
             var s1 := AfterClear(AfterStamp(s));
             && WellFormed(s1.grid) && NoFullRow(s1.grid)
             && s1.piece == s.piece && s1.next == s.next && s1.hold == s.hold
             && s1.mode == s.mode && s1.stage == s.stage && (s.over ==> s1.over)
             && (s1.mode == Normal ==> s1.level == LevelFor(s1.lines) && s1.dropInterval == GravityInterval(s1.level))
             && (s1.mode != Normal ==> s1.level == 1 && s1.dropInterval == 1000)
             && (s1.mode == FortyLines && s1.lines >= 40 ==> s1.over))
  {
    LockClearsAtMostFour(s.grid, s.piece);
  }

  /** The stage check restores the Big Bang part of Ready on a running game: either a
      fresh puzzle board or the end of the game. */
  lemma StageCheckReady(s: GameState, hole: int)
    requires 0 <= hole < 7 && WellFormed(s.grid) && NoFullRow(s.grid) && |s.next| <= 15
    requires s.mode == BigBang ==> (forall k :: 0 <= k < |s.next| ==> s.next[k] == I) && (s.hold.Some? ==> s.hold.value == I)
    requires s.mode == Normal ==> s.level == LevelFor(s.lines) && s.dropInterval == GravityInterval(s.level)
    requires s.mode != Normal ==> s.level == 1 && s.dropInterval == 1000
    requires s.mode == FortyLines && s.lines >= 40 ==> s.over
    requires !s.over && 1 <= s.stage <= 10 && (s.mode != BigBang ==> s.stage == 1)
    ensures Ready(StageCheck(s, hole))
  {
    if s.mode == BigBang && NoPuzzle(s.grid) && s.stage + 1 <= 10 {
      PuzzleGridFacts(hole);
    }
  }

  /** Locking keeps the invariant, whatever the batch and hole the caller supplies. */
  lemma LockKeepsInv(s: GameState, bag: seq<Kind>, hole: int)
    requires Inv(s) && IsBag(bag) && 0 <= hole < 7
    ensures Inv(LockState(s, bag, hole))
  {
    LockClearsAtMostFour(s.grid, s.piece);
    ClearKeepsCounters(s);
    var s1 := AfterClear(AfterStamp(s));
    if !s1.over {
      StageCheckReady(s1, hole);
      SpawnKeepsInv(StageCheck(s1, hole), bag);
    }
  }

  /** A lock adds the number c of rows it fills, at most 4, to the lines, and
      Points(c) times the level in force before the lock to the score. */
  lemma LockScore(s: GameState, bag: seq<Kind>, hole: int)
    requires WellFormed(s.grid) && NoFullRow(s.grid) && |s.piece.matrix| <= 4 && IsBag(bag)
    ensures (LockClearsAtMostFour(s.grid, s.piece);
             var c := CountFull(Stamp(s.grid, s.piece));
             var r := LockState(s, bag, hole);
             c <= 4 && r.lines == s.lines + c && r.score == s.score + Points(c) * s.level)
  {
    LockClearsAtMostFour(s.grid, s.piece);
    var s0 := AfterStamp(s);
    ClearScore(s0);
    StageAndSpawnFrame(AfterClear(s0), bag, hole);
  }

  /** In BIG_BANG, a lock that leaves no puzzle cell and does not top out moves to the
      next stage: past stage 10 the game is over, otherwise a fresh puzzle board with the
      given hole is dealt. */
  lemma LockAdvancesStage(s: GameState, bag: seq<Kind>, hole: int)
    requires WellFormed(s.grid) && NoFullRow(s.grid) && |s.piece.matrix| <= 4 && IsBag(bag)
    requires s.mode == BigBang
    ensures (LockClearsAtMostFour(s.grid, s.piece);
             var s1 := AfterClear(AfterStamp(s));
             var r := LockState(s, bag, hole);
             !s1.over && NoPuzzle(s1.grid) ==>
               && r.stage == s.stage + 1
               && (s.stage >= 10 ==> r.over)
               && (s.stage < 10 ==> r.grid == PuzzleGrid(hole)))
  {
    LockClearsAtMostFour(s.grid, s.piece);
    var s1 := AfterClear(AfterStamp(s));
    assert s1.stage == s.stage && s1.mode == BigBang;
    var s2 := StageCheck(s1, hole);
    if !s1.over && NoPuzzle(s1.grid) {
      assert s2.stage == s.stage + 1 && (s.stage >= 10 ==> s2.over) && (s.stage < 10 ==> s2.grid == PuzzleGrid(hole));
      SpawnFrame(s2, bag);
      assert LockState(s, bag, hole) == SpawnState(s2, bag);
    }
  }

  /** The converse: a lock keeps the stage when it tops out, leaves a puzzle cell, or is
      not in BIG_BANG. */
  lemma LockKeepsStage(s: GameState, bag: seq<Kind>, hole: int)
    requires WellFormed(s.grid) && NoFullRow(s.grid) && |s.piece.matrix| <= 4 && IsBag(bag)
    ensures (LockClearsAtMostFour(s.grid, s.piece);
             var s1 := AfterClear(AfterStamp(s));
             (s1.over || !NoPuzzle(s1.grid) || s.mode != BigBang) ==> LockState(s, bag, hole).stage == s.stage)
  {
    LockClearsAtMostFour(s.grid, s.piece);
    var s1 := AfterClear(AfterStamp(s));
    assert s1.stage == s.stage;
    if !s1.over {
      SpawnFrame(StageCheck(s1, hole), bag);
    }
  }

  // ---------------------------------------------------------------------
  // Player actions, hold, gravity and session start
  // ---------------------------------------------------------------------

  /** rotate(dir): nothing while paused or over, nor for O; otherwise the kick search. */
  function RotateState(s: GameState, dir: int): GameState
    requires WellFormed(s.grid) && IsSquare(s.piece.matrix) && (dir == 1 || dir == -1)
  {
    if s.paused || s.over || s.piece.kind == O then s
    else s.(piece := Rotated(s.grid, s.piece, dir))
  }

  /** A rotation that runs is the kick search for the turned bitmap nm, the new index nr
      and the kick list of the kind. */
  lemma RotateIsKickSearch(s: GameState, dir: int, nm: Matrix, nr: int, kicks: seq<Kick>)
    requires WellFormed(s.grid) && IsSquare(s.piece.matrix) && (dir == 1 || dir == -1)
    requires !s.paused && !s.over && s.piece.kind != O
    requires nm == Turn(s.piece.matrix, dir) && nr == (s.piece.rotation + dir + 4) % 4
    requires kicks == Kicks(s.piece.kind, s.piece.rotation, nr)
    ensures nr != s.piece.rotation
    ensures RotateState(s, dir) == s.(piece := KickCommit(s.grid, s.piece, nm, nr, kicks))
  {
    RotatedIsKickCommit(s.grid, s.piece, dir);
  }

  /** Replacing a well-placed piece keeps the invariant. */
  lemma InvWithPiece(s: GameState, q: Piece)
    requires Inv(s) && PieceOk(q) && (s.mode == BigBang ==> q.kind == I)
    ensures Inv(s.(piece := q))
  {
    assert Ready(s.(piece := q));
  }

  /** A rotated piece is well placed: a committed bitmap is the kind's bitmap at the new
      index, and it fits, so it is in bounds. */
  lemma RotatedPieceOk(g: Grid, p: Piece, dir: int)
    requires WellFormed(g) && PieceOk(p) && (dir == 1 || dir == -1)
    ensures var q := Rotated(g, p, dir); PieceOk(q) && q.kind == p.kind
  {
    OrientTurn(p.kind, p.rotation, dir);
    RotatedCommit(g, p, dir, Orient(p.kind, (p.rotation + dir + 4) % 4));
  }

  /** A rotation keeps the invariant. */
  lemma RotateKeepsInv(s: GameState, dir: int)
    requires Inv(s) && (dir == 1 || dir == -1)
    ensures Inv(RotateState(s, dir))
  {
    if !(s.paused || s.over || s.piece.kind == O) {
      var q := Rotated(s.grid, s.piece, dir);
      RotatedPieceOk(s.grid, s.piece, dir);
      InvWithPiece(s, q);
    }
  }

  /** move(dx): shift the column by dx exactly when the shifted position is valid. */
  function MoveState(s: GameState, dx: int): GameState
    requires WellFormed(s.grid)
  {
    if IsValid(s.grid, s.piece, dx, 0, s.piece.matrix) then s.(piece := s.piece.(x := s.piece.x + dx))
    else s
  }

  lemma MoveKeepsInv(s: GameState, dx: int)
    requires Inv(s)
    ensures Inv(MoveState(s, dx))
  {
    var r := MoveState(s, dx);
    if r != s {
      ShiftValid(s.grid, s.piece, dx, 0, s.piece.matrix);
      assert s.piece.(x := s.piece.x + dx, y := s.piece.y + 0) == r.piece;
      ValidInBounds(s.grid, r.piece);
    }
  }

  /** From a valid position, a move that succeeds is undone by the opposite move, and a
      move that fails changes nothing. */
  lemma MoveBack(s: GameState, dx: int)
    requires WellFormed(s.grid) && IsValid(s.grid, s.piece, 0, 0, s.piece.matrix)
    ensures MoveState(s, dx) == s || MoveState(MoveState(s, dx), -dx) == s
  {
    var r := MoveState(s, dx);
    if r != s {
      var q := r.piece;
      ShiftValid(s.grid, q, -dx, 0, q.matrix);
      assert q.(x := q.x + -dx, y := q.y + 0) == s.piece;
    }
  }

  /** softDrop: one row down and the gravity counter reset when that fits, else a lock. */
  function SoftDropState(s: GameState, bag: seq<Kind>, hole: int): GameState
    requires WellFormed(s.grid) && NoFullRow(s.grid) && |s.piece.matrix| <= 4 && IsBag(bag)
  {
    if IsValid(s.grid, s.piece, 0, 1, s.piece.matrix) then
      s.(piece := s.piece.(y := s.piece.y + 1), dropCounter := 0)
    else LockState(s, bag, hole)
  }

  lemma SoftDropKeepsInv(s: GameState, bag: seq<Kind>, hole: int)
    requires Inv(s) && IsBag(bag) && 0 <= hole < 7
    ensures Inv(SoftDropState(s, bag, hole))
  {
    if IsValid(s.grid, s.piece, 0, 1, s.piece.matrix) {
      ShiftValid(s.grid, s.piece, 0, 1, s.piece.matrix);
      assert s.piece.(x := s.piece.x + 0, y := s.piece.y + 1) == s.piece.(y := s.piece.y + 1);
      ValidInBounds(s.grid, s.piece.(y := s.piece.y + 1));
    } else {
      LockKeepsInv(s, bag, hole);
    }
  }

  /** hardDrop: the piece goes down to its landing row, then locks. */
  function HardDropState(s: GameState, bag: seq<Kind>, hole: int): GameState
    requires WellFormed(s.grid) && NoFullRow(s.grid) && HasFilled(s.piece.matrix) && |s.piece.matrix| <= 4
    requires IsBag(bag)
  {
    LockState(Landed(s), bag, hole)
  }

  /** The descent loop of hardDrop: the piece at its landing row. */
  function Landed(s: GameState): GameState
    requires WellFormed(s.grid) && HasFilled(s.piece.matrix)
  {
    s.(piece := s.piece.(y := DropY(s.grid, s.piece)))
  }

  /** The descent keeps the invariant and changes only the row of the piece. */
  lemma LandedKeepsInv(s: GameState)
    requires Inv(s)
    ensures var r := Landed(s);
            Inv(r) && r.piece.matrix == s.piece.matrix && r.piece.kind == s.piece.kind
            && r.piece.rotation == s.piece.rotation
  {
    LandingKeepsPlace(s.grid, s.piece);
    InvWithPiece(s, s.piece.(y := DropY(s.grid, s.piece)));
  }

  lemma HardDropKeepsInv(s: GameState, bag: seq<Kind>, hole: int)
    requires Inv(s) && IsBag(bag) && 0 <= hole < 7
    ensures Inv(HardDropState(s, bag, hole))
  {
    LandedKeepsInv(s);
    LockKeepsInv(Landed(s), bag, hole);
  }

  /** A hard drop from a piece that cannot go lower is the lock a soft drop performs. */
  lemma HardDropWhenLanded(s: GameState, bag: seq<Kind>, hole: int)
    requires Inv(s) && IsBag(bag) && !IsValid(s.grid, s.piece, 0, 1, s.piece.matrix)
    ensures HardDropState(s, bag, hole) == SoftDropState(s, bag, hole) == LockState(s, bag, hole)
  {
    assert DropY(s.grid, s.piece) == s.piece.y;
    assert s.(piece := s.piece.(y := s.piece.y)) == s;
  }

  /** hold: nothing unless a hold is allowed and the game is running; otherwise the
      current type is stored, and the previously held type returns at its spawn position
      (with no fit test), or the next piece spawns when nothing was held. */
  function HoldState(s: GameState, bag: seq<Kind>): GameState
    requires WellFormed(s.grid) && IsBag(bag)
  {
    if !s.canHold || s.paused || s.over then s
    else
      var s1 := s.(hold := Some(s.piece.kind));
      var s2 := if s.hold.Some? then s1.(piece := SpawnAt(s.hold.value)) else SpawnState(s1, bag);
      s2.(canHold := false)
  }

  lemma HoldKeepsInv(s: GameState, bag: seq<Kind>)
    requires Inv(s) && IsBag(bag)
    ensures Inv(HoldState(s, bag))
  {
    if s.canHold && !s.paused && !s.over {
      var s1 := s.(hold := Some(s.piece.kind));
      if s.hold.Some? {
        SpawnAtFacts(s.grid, s.hold.value);
      } else {
        SpawnKeepsInv(s1, bag);
      }
    }
  }

  /** Hold works once per spawn: right after a hold, a second hold changes nothing. */
  lemma HoldOncePerSpawn(s: GameState, bag: seq<Kind>, bag2: seq<Kind>)
    requires WellFormed(s.grid) && IsBag(bag) && IsBag(bag2)
    ensures HoldState(HoldState(s, bag), bag2) == HoldState(s, bag)
  {
    var r := HoldState(s, bag);
    assert !r.canHold || r == s;
  }

  /** A swap brings the held type back at rotation 0 and its spawn position, stores the
      current type and leaves the queue alone; with nothing held, the current type is
      stored and the queue front becomes the piece, as a spawn would. */
  lemma HoldSwap(s: GameState, bag: seq<Kind>)
    requires WellFormed(s.grid) && IsBag(bag) && s.canHold && !s.paused && !s.over
    ensures var r := HoldState(s, bag);
            && r.hold == Some(s.piece.kind) && !r.canHold && r.grid == s.grid
            && (s.hold.Some? ==> r.piece == SpawnAt(s.hold.value) && r.next == s.next && r.over == s.over)
            && (s.hold.None? ==> r == SpawnState(s.(hold := Some(s.piece.kind)), bag).(canHold := false))
  {
  }

  /** The gravity step of update: nothing once over or while paused; otherwise the
      elapsed dt is added to the counter, and a soft drop runs once it exceeds the
      interval. */
  function UpdateState(s: GameState, dt: int, bag: seq<Kind>, hole: int): GameState
    requires WellFormed(s.grid) && NoFullRow(s.grid) && |s.piece.matrix| <= 4 && IsBag(bag)
  {
    if s.over || s.paused then s
    else Gravity(Tick(s, dt), bag, hole)
  }

  /** The counter advance of update: dt more milliseconds on the gravity counter. */
  function Tick(s: GameState, dt: int): GameState
  {
    s.(dropCounter := s.dropCounter + dt)
  }

  /** The counter test of update: a soft drop once the counter exceeds the interval. */
  function Gravity(s: GameState, bag: seq<Kind>, hole: int): GameState
    requires WellFormed(s.grid) && NoFullRow(s.grid) && |s.piece.matrix| <= 4 && IsBag(bag)
  {
    if s.dropCounter > s.dropInterval then SoftDropState(s, bag, hole) else s
  }

  /** Advancing the counter changes nothing but the counter and keeps the invariant. */
  lemma TickKeepsInv(s: GameState, dt: int)
    requires Inv(s)
    ensures var r := Tick(s, dt);
            && Inv(r) && r.dropCounter == s.dropCounter + dt && r.piece == s.piece && r.grid == s.grid
            && r.dropInterval == s.dropInterval && r.over == s.over && r.paused == s.paused
  {
    assert Ready(Tick(s, dt));
  }

  lemma UpdateKeepsInv(s: GameState, dt: int, bag: seq<Kind>, hole: int)
    requires Inv(s) && IsBag(bag) && 0 <= hole < 7
    ensures Inv(UpdateState(s, dt, bag, hole))
  {
    if !s.over && !s.paused {
      TickKeepsInv(s, dt);
      GravityKeepsInv(Tick(s, dt), bag, hole);
    }
  }

  lemma GravityKeepsInv(s: GameState, bag: seq<Kind>, hole: int)
    requires Inv(s) && IsBag(bag) && 0 <= hole < 7
    ensures Inv(Gravity(s, bag, hole))
  {
    SoftDropKeepsInv(s, bag, hole);
  }

  /** A lock leaves the gravity counter alone and never lengthens the interval. */
  lemma LockKeepsCounter(s: GameState, bag: seq<Kind>, hole: int)
    requires WellFormed(s.grid) && NoFullRow(s.grid) && |s.piece.matrix| <= 4 && IsBag(bag)
    requires s.mode == Normal ==> s.level == LevelFor(s.lines) && s.dropInterval == GravityInterval(s.level)
    ensures var r := LockState(s, bag, hole);
            r.dropCounter == s.dropCounter && r.dropInterval <= s.dropInterval
  {
    LockClearsAtMostFour(s.grid, s.piece);
    var s0 := AfterStamp(s);
    ClearScore(s0);
    StageAndSpawnFrame(AfterClear(s0), bag, hole);
  }

  /** A gravity step that locks does not reset the counter, so it still exceeds the
      (possibly shorter) interval: the next step with dt >= 0 drops the new piece at once. */
  lemma GravityLockKeepsCounter(s: GameState, dt: int, bag: seq<Kind>, hole: int)
    requires WellFormed(s.grid) && NoFullRow(s.grid) && |s.piece.matrix| <= 4 && IsBag(bag)
    requires s.mode == Normal ==> s.level == LevelFor(s.lines) && s.dropInterval == GravityInterval(s.level)
    requires !s.over && !s.paused && s.dropCounter + dt > s.dropInterval
    requires !IsValid(s.grid, s.piece, 0, 1, s.piece.matrix)
    ensures var r := UpdateState(s, dt, bag, hole);
            r.dropCounter == s.dropCounter + dt && r.dropCounter > r.dropInterval
  {
    var s1 := Tick(s, dt);
    LockKeepsCounter(s1, bag, hole);
    GravityLocks(s, dt, bag, hole);
  }

  /** A gravity step whose counter exceeds the interval on a piece that cannot go lower is
      the lock of the state with the counter advanced. */
  lemma GravityLocks(s: GameState, dt: int, bag: seq<Kind>, hole: int)
    requires WellFormed(s.grid) && NoFullRow(s.grid) && |s.piece.matrix| <= 4 && IsBag(bag)
    requires !s.over && !s.paused && s.dropCounter + dt > s.dropInterval
    requires !IsValid(s.grid, s.piece, 0, 1, s.piece.matrix)
    ensures UpdateState(s, dt, bag, hole) == LockState(Tick(s, dt), bag, hole)
  {
    var s1 := Tick(s, dt);
    assert UpdateState(s, dt, bag, hole) == Gravity(s1, bag, hole);
    assert Gravity(s1, bag, hole) == LockState(s1, bag, hole);
  }

  /** The engine part of startGame: a fresh board (the puzzle board in BIG_BANG), zero
      score and lines, level 1, stage 1, an empty queue and hold, running, gravity 1000
      with a zero counter; then the first spawn. */
  function StartState(s: GameState, mode: Mode, bag: seq<Kind>, hole: int): GameState
    requires IsBag(bag)
  {
    SpawnState(Reset(s, mode, hole), bag)
  }

  /** The reset of startGame before its first spawn. */
  function Reset(s: GameState, mode: Mode, hole: int): GameState
  {
    s.(grid := StartGrid(mode, hole),
       score := 0, lines := 0, level := 1, stage := 1, next := [], hold := None,
       over := false, paused := false, mode := mode, dropInterval := 1000, dropCounter := 0)
  }

  /** The reset state field by field. */
  lemma ResetIs(s: GameState, r: GameState, mode: Mode, hole: int)
    requires r.grid == StartGrid(mode, hole) && r.piece == s.piece && r.canHold == s.canHold
    requires r.score == 0 && r.lines == 0 && r.level == 1 && r.stage == 1 && r.next == [] && r.hold == None
    requires !r.over && !r.paused && r.mode == mode && r.dropInterval == 1000 && r.dropCounter == 0
    ensures r == Reset(s, mode, hole)
  {
  }

  /** The board of a new session: the puzzle board in BIG_BANG, empty otherwise. */
  function StartGrid(mode: Mode, hole: int): Grid
  {
    if mode == BigBang then PuzzleGrid(hole) else EmptyGrid()
  }

  /** A session starts in the invariant and running, with hold allowed, and the first
      batch is split into the first piece and a queue of six. */
  lemma StartKeepsInv(s: GameState, mode: Mode, bag: seq<Kind>, hole: int)
    requires IsBag(bag) && 0 <= hole < 7
    ensures var r := StartState(s, mode, bag, hole);
            && Inv(r) && !r.over && r.canHold && r.hold == None && r.score == 0 && r.lines == 0
            && r.mode == mode && [r.piece.kind] + r.next == Batch(mode, bag) && |r.next| == 6
  {
    var g := if mode == BigBang then PuzzleGrid(hole) else EmptyGrid();
    if mode == BigBang {
      PuzzleGridFacts(hole);
    }
    assert TopClear(g);
    var s0 := Reset(s, mode, hole);
    assert Ready(s0);
    SpawnKeepsInv(s0, bag);
    SpawnQueue(s0, bag);
    SpawnAtFacts(g, Batch(mode, bag)[0]);
  }
}
