/** The engine's module-level variables as one object, and its operations as methods
    that update them step by step as the source does: the spawn with its batch refill,
    rotation with the kick loop, the moves and drops, the cell-by-cell write of a lock,
    the bottom-up clearing loop with splice and unshift, the puzzle board, hold, the
    gravity step and the reset of a session. Each method is proved to leave exactly the
    state the matching Rules function describes, and to keep the engine invariant. */
module Game {
  import opened Shapes
  import opened Board
  import opened Rules

  class Game {
    var grid: Grid
    var piece: Piece
    var nextPieces: seq<Kind>
    var holdPiece: Option<Kind>
    var canHold: bool
    var score: nat
    var lines: nat
    var level: nat
    var dropInterval: int
    var dropCounter: int
    var isGameOver: bool
    var isPaused: bool
    var mode: Mode
    var bigBangStage: nat

    /** The fields as a Rules snapshot. */
    ghost function State(): GameState
      reads this
    {
      GameState(grid, piece, nextPieces, holdPiece, canHold, score, lines, level,
                dropInterval, dropCounter, isGameOver, isPaused, mode, bigBangStage)
    }

    ghost predicate Valid()
      reads this
    {
      Inv(State())
    }

    /** A session in mode m, started as startGame does. */
    constructor (m: Mode, bag: seq<Kind>, hole: int)
      requires IsBag(bag) && 0 <= hole < 7
      ensures Valid() && !isGameOver && canHold && holdPiece == None && score == 0 && lines == 0
      ensures mode == m && [piece.kind] + nextPieces == Batch(m, bag) && |nextPieces| == 6
      ensures grid == StartGrid(m, hole) && piece == SpawnAt(piece.kind) && !isPaused
      ensures bigBangStage == 1 && level == 1 && dropInterval == 1000 && dropCounter == 0
    {
      grid := EmptyGrid();
      piece := SpawnAt(I);
      nextPieces := [];
      holdPiece := None;
      canHold := true;
      score := 0;
      lines := 0;
      level := 1;
      dropInterval := 1000;
      dropCounter := 0;
      isGameOver := false;
      isPaused := false;
      mode := m;
      bigBangStage := 1;
      new;
      StartGame(m, bag, hole);
    }

    /** The engine part of startGame: reset the counters, queue and hold, deal the
        puzzle board in BIG_BANG, then spawn. */
    method StartGame(m: Mode, bag: seq<Kind>, hole: int)
      requires IsBag(bag) && 0 <= hole < 7
      modifies this
      ensures State() == StartState(old(State()), m, bag, hole)
      ensures Valid() && !isGameOver && canHold && holdPiece == None && score == 0 && lines == 0
      ensures mode == m && [piece.kind] + nextPieces == Batch(m, bag) && |nextPieces| == 6
    {
      ResetSession(m, hole);
      SpawnPiece(bag);
      StartKeepsInv(old(State()), m, bag, hole);
    }

    /** The resets of startGame before its first spawn, with the puzzle board in BIG_BANG. */
    method ResetSession(m: Mode, hole: int)
      requires 0 <= hole < 7
      modifies this`grid, this`score, this`lines, this`level, this`bigBangStage, this`nextPieces,
               this`holdPiece, this`isGameOver, this`isPaused, this`mode, this`dropInterval, this`dropCounter
      ensures State() == Reset(old(State()), m, hole)
    {
      ghost var s0 := State();
      grid := EmptyGrid();
      score := 0;
      lines := 0;
      level := 1;
      bigBangStage := 1;
      nextPieces := [];
      holdPiece := None;
      isGameOver := false;
      isPaused := false;
      mode := m;
      dropInterval := 1000;
      dropCounter := 0;
      if m == BigBang {
        GenerateBigBangPuzzle(hole);
      }
      ResetIs(s0, State(), m, hole);
    }

    /** spawnPiece. */
    method SpawnPiece(bag: seq<Kind>)
      requires WellFormed(grid) && IsBag(bag)
      modifies this
      ensures State() == SpawnState(old(State()), bag)
    {
      ghost var s0 := State();
      if |nextPieces| < 10 {
        nextPieces := nextPieces + Batch(mode, bag);
      }
      ghost var q := nextPieces;
      var t := nextPieces[0];
      nextPieces := nextPieces[1..];
      piece := SpawnAt(t);
      canHold := true;
      if !IsValid(grid, piece, 0, 0, piece.matrix) {
        isGameOver := true;
      }
      SpawnStateIs(s0, bag, q, piece);
    }

    /** rotate(dir): try the kicks in order and commit the first that fits. */
    method Rotate(dir: int)
      requires Valid() && (dir == 1 || dir == -1)
      modifies this
      ensures State() == RotateState(old(State()), dir)
      ensures Valid()
    {
      RotateKeepsInv(State(), dir);
      if isPaused || isGameOver || piece.kind == O {
        return;
      }
      TurnWithKicks(dir);
    }

    /** The body of rotate on a running game and a piece other than O: the turned bitmap,
        the new index and the kick list of the kind, then the kick loop. */
    method TurnWithKicks(dir: int)
      requires WellFormed(grid) && IsSquare(piece.matrix) && (dir == 1 || dir == -1)
      requires !isPaused && !isGameOver && piece.kind != O
      modifies this
      ensures State() == RotateState(old(State()), dir)
    {
      ghost var s0 := State();
      var nm := Turn(piece.matrix, dir);
      var nextRot := (piece.rotation + dir + 4) % 4;
      var kicks := Kicks(piece.kind, piece.rotation, nextRot);
      RotateIsKickSearch(s0, dir, nm, nextRot, kicks);
      TryKicks(nm, nextRot, kicks);
    }

    /** The kick loop of rotate: commit bitmap nm, index nr and the offset of the first kick
        in list order at which nm fits; keep the piece when none fits. */
    method TryKicks(nm: Matrix, nr: int, kicks: seq<Kick>)
      requires WellFormed(grid) && nr != piece.rotation
      modifies this`piece
      ensures State() == old(State()).(piece := KickCommit(old(grid), old(piece), nm, nr, kicks))
    {
      var i := 0;
      while i < |kicks|
        invariant 0 <= i <= |kicks|
        invariant piece == old(piece)
        invariant forall t :: 0 <= t < i ==> !IsValid(grid, piece, kicks[t].0, -kicks[t].1, nm)
      {
        var kx := kicks[i].0;
        var ky := kicks[i].1;
        if IsValid(grid, piece, kx, -ky, nm) {
          KickCommitAt(grid, piece, nm, nr, kicks, i);
          piece := piece.(x := piece.x + kx, y := piece.y - ky, matrix := nm, rotation := nr);
          return;
        }
        i := i + 1;
      }
      KickCommitNone(grid, piece, nm, nr, kicks);
    }

    /** move(dx). */
    method Move(dx: int)
      requires Valid()
      modifies this
      ensures State() == MoveState(old(State()), dx)
      ensures Valid()
    {
      MoveKeepsInv(State(), dx);
      if IsValid(grid, piece, dx, 0, piece.matrix) {
        piece := piece.(x := piece.x + dx);
      }
    }

    /** softDrop. */
    method SoftDrop(bag: seq<Kind>, hole: int)
      requires Valid() && IsBag(bag) && 0 <= hole < 7
      modifies this
      ensures State() == SoftDropState(old(State()), bag, hole)
      ensures Valid()
    {
      SoftDropKeepsInv(State(), bag, hole);
      if IsValid(grid, piece, 0, 1, piece.matrix) {
        piece := piece.(y := piece.y + 1);
        dropCounter := 0;
      } else {
        LockPiece(bag, hole);
      }
    }

    /** hardDrop: move down while one row lower fits, then lock. */
    method HardDrop(bag: seq<Kind>, hole: int)
      requires Valid() && IsBag(bag) && 0 <= hole < 7
      modifies this
      ensures State() == HardDropState(old(State()), bag, hole)
      ensures Valid()
    {
      HardDropKeepsInv(State(), bag, hole);
      LandedKeepsInv(State());
      DropToLanding();
      LockPiece(bag, hole);
    }

    /** The descent loop of hardDrop: one row down while one row lower fits. */
    method DropToLanding()
      requires WellFormed(grid) && HasFilled(piece.matrix)
      modifies this`piece
      ensures State() == Landed(old(State()))
    {
      ghost var target := DropY(grid, piece);
      while IsValid(grid, piece, 0, 1, piece.matrix)
        invariant piece == old(piece).(y := piece.y)
        invariant old(piece).y <= piece.y <= target
        decreases target - piece.y
      {
        piece := piece.(y := piece.y + 1);
      }
    }

    /** lockPiece: write the piece, clear rows, then, unless over, the Big Bang stage
        check and the next spawn. */
    method LockPiece(bag: seq<Kind>, hole: int)
      requires Valid() && IsBag(bag) && 0 <= hole < 7
      modifies this
      ensures State() == LockState(old(State()), bag, hole)
      ensures Valid()
    {
      ghost var s0 := State();
      LockKeepsInv(s0, bag, hole);
      LockClearsAtMostFour(grid, piece);
      StampPiece();
      ClearLines();
      if !isGameOver {
        NextStage(hole);
        SpawnPiece(bag);
      }
    }

    /** The BIG_BANG stage check of lockPiece: a board without puzzle cells moves to the
        next stage, which past stage 10 ends the game and otherwise deals a fresh puzzle. */
    method NextStage(hole: int)
      requires WellFormed(grid) && 0 <= hole < 7
      modifies this
      ensures State() == StageCheck(old(State()), hole)
    {
      if mode == BigBang && NoPuzzle(grid) {
        bigBangStage := bigBangStage + 1;
        if bigBangStage > 10 {
          isGameOver := true;
        } else {
          GenerateBigBangPuzzle(hole);
        }
      }
    }

    /** The write loop of lockPiece: the type goes into every filled in-board cell, and a
        filled cell above the board ends the game. */
    method StampPiece()
      requires WellFormed(grid) && InBounds(piece)
      modifies this`grid, this`isGameOver
      ensures State() == AfterStamp(old(State()))
    {
      var p := piece;
      var m := p.matrix;
      ghost var g0 := grid;
      ghost var over0 := isGameOver;
      var i := 0;
      while i < |m|
        invariant 0 <= i <= |m|
        invariant Written(g0, p, grid, i, 0)
        invariant isGameOver == (over0 || ToppedOut(p, i, 0))
      {
        var j := 0;
        while j < |m[i]|
          invariant 0 <= j <= |m[i]|
          invariant Written(g0, p, grid, i, j)
          invariant isGameOver == (over0 || ToppedOut(p, i, j))
        {
          WriteCell(g0, p, grid, i, j);
          if m[i][j] != 0 {
            if p.y + i < 0 {
              isGameOver := true;
            } else {
              grid := grid[p.y + i := grid[p.y + i][p.x + j := Block(p.kind)]];
            }
          }
          j := j + 1;
        }
        NextRow(g0, p, grid, i);
        i := i + 1;
      }
      WriteDone(g0, p, grid);
    }

    /** clearLines: the row scan, then the counters. */
    method ClearLines()
      requires WellFormed(grid) && CountFull(grid) <= 4
      modifies this`grid, this`lines, this`score, this`level, this`dropInterval, this`isGameOver
      ensures State() == AfterClear(old(State()))
    {
      var cleared := RemoveFullRows();
      CreditLines(cleared);
    }

    /** The counter update of clearLines for the number of rows removed. */
    method CreditLines(cleared: nat)
      requires cleared <= 4
      modifies this`lines, this`score, this`level, this`dropInterval, this`isGameOver
      ensures State() == Credit(old(State()), cleared)
    {
      if cleared > 0 {
        lines := lines + cleared;
        score := score + Points(cleared) * level;
        if mode == Normal {
          level := LevelFor(lines);
          dropInterval := GravityInterval(level);
        }
        if mode == FortyLines && lines >= 40 {
          isGameOver := true;
        }
      }
    }

    /** The labelled loop of clearLines: scan from the bottom; a full row is spliced out,
        an empty row is unshifted on top and the same row index is scanned again. */
    method RemoveFullRows() returns (cleared: nat)
      requires WellFormed(grid)
      modifies this`grid
      ensures cleared == CountFull(old(grid))
      ensures grid == ClearedGrid(old(grid))
    {
      ghost var g0 := grid;
      cleared := 0;
      var y := ROWS - 1;
      ghost var k := ROWS;
      ScanStart(g0);
      while y >= 0
        invariant ScanInv(g0, grid, cleared, k, y)
        decreases y + 1 + k
      {
        ScanRowIs(g0, grid, cleared, k, y);
        var full := RowIsFull(grid[y]);
        if full {
          ClearFullRow(g0, grid, cleared, k, y);
          grid := [EmptyRow()] + (grid[..y] + grid[y + 1..]);
          cleared := cleared + 1;
          k := k - 1;
        } else {
          ClearKeptRow(g0, grid, cleared, k, y);
          if k > 0 {
            k := k - 1;
          }
          y := y - 1;
        }
      }
      ScanDone(g0, grid, cleared, k, y);
    }

    /** generateBigBangPuzzle with the drawn hole column. */
    method GenerateBigBangPuzzle(hole: int)
      requires 0 <= hole < 7
      modifies this`grid
      ensures grid == PuzzleGrid(hole)
    {
      grid := EmptyGrid();
      var y := ROWS - 1;
      while y >= ROWS - 4
        invariant ROWS - 5 <= y <= ROWS - 1
        invariant |grid| == ROWS
        invariant forall r :: 0 <= r < ROWS ==> grid[r] == if r > y then PuzzleRow(hole) else EmptyRow()
      {
        var x := 0;
        while x < COLS
          invariant 0 <= x <= COLS
          invariant |grid| == ROWS && |grid[y]| == COLS
          invariant forall r :: 0 <= r < ROWS && r != y ==> grid[r] == if r > y then PuzzleRow(hole) else EmptyRow()
          invariant forall c :: 0 <= c < COLS ==> grid[y][c] == if c < x then PuzzleRow(hole)[c] else Empty
        {
          if x < hole || x > hole + 3 {
            grid := grid[y := grid[y][x := Puzzle]];
          }
          x := x + 1;
        }
        assert grid[y] == PuzzleRow(hole);
        y := y - 1;
      }
      assert grid == PuzzleGrid(hole);
    }

    /** hold. */
    method Hold(bag: seq<Kind>)
      requires Valid() && IsBag(bag)
      modifies this
      ensures State() == HoldState(old(State()), bag)
      ensures Valid()
    {
      HoldKeepsInv(State(), bag);
      if !canHold || isPaused || isGameOver {
        return;
      }
      var oldType := holdPiece;
      holdPiece := Some(piece.kind);
      if oldType.Some? {
        piece := SpawnAt(oldType.value);
      } else {
        SpawnPiece(bag);
      }
      canHold := false;
    }

    /** The gravity step of update, with dt the time since the previous frame. */
    method Update(dt: int, bag: seq<Kind>, hole: int)
      requires Valid() && IsBag(bag) && 0 <= hole < 7
      modifies this
      ensures State() == UpdateState(old(State()), dt, bag, hole)
      ensures Valid()
    {
      ghost var s0 := State();
      if isGameOver {
        return;
      }
      if !isPaused {
        TickKeepsInv(s0, dt);
        dropCounter := dropCounter + dt;
        assert State() == Tick(s0, dt);
        if dropCounter > dropInterval {
          SoftDrop(bag, hole);
        }
      }
    }
  }

  /** The write loop of lockPiece before bitmap cell (i, j): the board cells under the
      filled cells before it in row-major order hold the piece's type, the others are as
      in g0. */
  ghost predicate Written(g0: Grid, p: Piece, grid: seq<Row>, i: int, j: int) {
    && WellFormed(g0) && WellFormed(grid)
    && forall r, c :: 0 <= r < ROWS && 0 <= c < COLS ==>
         grid[r][c] == if Covers(p, r, c) && (r - p.y < i || (r - p.y == i && c - p.x < j))
                       then Block(p.kind) else g0[r][c]
  }

  /** Some filled cell before (i, j) in row-major order lies above the board. */
  ghost predicate ToppedOut(p: Piece, i: int, j: int) {
    exists a, b :: 0 <= a < |p.matrix| && 0 <= b < |p.matrix[a]| && p.matrix[a][b] != 0 && p.y + a < 0
                   && (a < i || (a == i && b < j))
  }

  /** One step of the write loop at bitmap cell (i, j). */
  lemma WriteCell(g0: Grid, p: Piece, grid: seq<Row>, i: int, j: int)
    requires InBounds(p) && Written(g0, p, grid, i, j) && 0 <= i < |p.matrix| && 0 <= j < |p.matrix[i]|
    ensures ToppedOut(p, i, j + 1) == (ToppedOut(p, i, j) || (p.matrix[i][j] != 0 && p.y + i < 0))
    ensures p.matrix[i][j] == 0 || p.y + i < 0 ==> Written(g0, p, grid, i, j + 1)
    ensures p.matrix[i][j] != 0 && p.y + i >= 0 ==>
              && 0 <= p.y + i < ROWS && 0 <= p.x + j < COLS
              && Written(g0, p, grid[p.y + i := grid[p.y + i][p.x + j := Block(p.kind)]], i, j + 1)
  {
    if ToppedOut(p, i, j + 1) && !(p.matrix[i][j] != 0 && p.y + i < 0) {
      var a, b :| 0 <= a < |p.matrix| && 0 <= b < |p.matrix[a]| && p.matrix[a][b] != 0 && p.y + a < 0
                  && (a < i || (a == i && b < j + 1));
      assert ToppedOut(p, i, j);
    }
    if ToppedOut(p, i, j) {
      var a, b :| 0 <= a < |p.matrix| && 0 <= b < |p.matrix[a]| && p.matrix[a][b] != 0 && p.y + a < 0
                  && (a < i || (a == i && b < j));
      assert ToppedOut(p, i, j + 1);
    }
    if p.matrix[i][j] != 0 && p.y + i < 0 {
      assert ToppedOut(p, i, j + 1);
    }
  }

  /** The end of bitmap row i is the start of row i + 1. */
  lemma NextRow(g0: Grid, p: Piece, grid: seq<Row>, i: int)
    requires 0 <= i < |p.matrix| && Written(g0, p, grid, i, |p.matrix[i]|)
    ensures Written(g0, p, grid, i + 1, 0)
    ensures ToppedOut(p, i, |p.matrix[i]|) == ToppedOut(p, i + 1, 0)
  {
  }

  /** When the loop ends, every filled cell is written: the board is the stamped board, and
      the game is over exactly when it was or some filled cell lies above the board. */
  lemma WriteDone(g0: Grid, p: Piece, grid: seq<Row>)
    requires Written(g0, p, grid, |p.matrix|, 0)
    ensures grid == Stamp(g0, p)
    ensures ToppedOut(p, |p.matrix|, 0) == AboveTop(p)
  {
    forall r | 0 <= r < ROWS
      ensures grid[r] == Stamp(g0, p)[r]
    {
    }
  }

  /** The inner loop of clearLines: a row is full when the scan finds no empty cell. */
  method RowIsFull(row: Row) returns (full: bool)
    requires |row| == COLS
    ensures full <==> IsFull(row)
  {
    var x := 0;
    while x < COLS && row[x] != Empty
      invariant 0 <= x <= COLS
      invariant forall c :: 0 <= c < x ==> row[c] != Empty
    {
      x := x + 1;
    }
    full := x == COLS;
  }

  /** The state of the clearLines scan over the original board g0, with k rows of g0 still
      to scan: the cleared rows come back as empty rows on top, then the unscanned rows
      g0[..k], then the kept scanned rows; y is the scan position, the last unscanned row. */
  ghost predicate ScanInv(g0: Grid, grid: seq<Row>, cleared: nat, k: int, y: int) {
    && WellFormed(g0) && 0 <= k <= ROWS && cleared == CountFull(g0[k..])
    && grid == Empties(cleared) + g0[..k] + Keep(g0[k..])
    && -1 <= y <= cleared + k - 1 && (k > 0 ==> y == cleared + k - 1)
  }

  /** The scan starts at the bottom row with nothing scanned. */
  lemma ScanStart(g0: Grid)
    requires WellFormed(g0)
    ensures ScanInv(g0, g0, 0, ROWS, ROWS - 1)
  {
    assert g0[..ROWS] == g0 && g0[ROWS..] == [];
  }

  /** A full row at scan position y is the row g0[k - 1]; removing it and putting an empty
      row on top gives the next scan state. */
  lemma ClearFullRow(g0: Grid, grid: seq<Row>, cleared: nat, k: int, y: int)
    requires ScanInv(g0, grid, cleared, k, y) && 0 <= y
    requires IsFull(grid[y])
    ensures k > 0
    ensures ScanInv(g0, [EmptyRow()] + (grid[..y] + grid[y + 1..]), cleared + 1, k - 1, y)
  {
    ScanRowIs(g0, grid, cleared, k, y);
    if k == 0 {
      assert false;
    }
    ScanStep(g0, k);
    DropScannedRow(g0, grid, cleared, k);
  }

  /** The splice of clearLines at the scan position of a full row g0[k - 1]. */
  lemma DropScannedRow(g0: Grid, grid: seq<Row>, cleared: nat, k: int)
    requires WellFormed(g0) && 0 < k <= ROWS && IsFull(g0[k - 1])
    requires grid == Empties(cleared) + g0[..k] + Keep(g0[k..])
    ensures [EmptyRow()] + (grid[..cleared + k - 1] + grid[cleared + k..]) == Empties(cleared + 1) + g0[..k - 1] + Keep(g0[k - 1..])
  {
    var e, p, x, rest := Empties(cleared), g0[..k - 1], g0[k - 1], Keep(g0[k..]);
    TakeLast(g0, k);
    CutOut(e, p, x, rest, grid);
    KeepSkipsFull(g0, k);
    EmptiesCons(cleared);
    ConsRegroup(EmptyRow(), e, p, rest);
  }

  /** The first k elements are the first k - 1 and the k-th. */
  lemma TakeLast<T>(s: seq<T>, k: int)
    requires 0 < k <= |s|
    ensures s[..k] == s[..k - 1] + [s[k - 1]]
  {
  }

  /** Cutting x out of e + (p + [x]) + rest leaves (e + p) + rest. */
  lemma CutOut<T>(e: seq<T>, p: seq<T>, x: T, rest: seq<T>, s: seq<T>)
    requires s == e + (p + [x]) + rest
    ensures s[..|e| + |p|] + s[|e| + |p| + 1..] == (e + p) + rest
  {
    assert s == (e + p) + [x] + rest;
    Splice(e + p, x, rest, s);
  }

  /** Moving the last element of the middle part to the front of the last part. */
  lemma Regroup<T>(e: seq<T>, p: seq<T>, x: T, rest: seq<T>)
    ensures e + (p + [x]) + rest == e + p + ([x] + rest)
  {
  }

  /** Regrouping an element pushed in front of three concatenated parts. */
  lemma ConsRegroup<T>(a: T, e: seq<T>, p: seq<T>, rest: seq<T>)
    ensures [a] + ((e + p) + rest) == ([a] + e) + p + rest
  {
  }

  /** The row at scan position y: an empty row pushed on top, or the next row of g0 still
      to be scanned. */
  lemma ScanRowIs(g0: Grid, grid: seq<Row>, cleared: nat, k: int, y: int)
    requires ScanInv(g0, grid, cleared, k, y) && 0 <= y
    ensures |grid[y]| == COLS
    ensures k == 0 ==> !IsFull(grid[y])
    ensures k > 0 ==> grid[y] == g0[k - 1]
  {
    if k == 0 {
      assert grid[y] == EmptyRow();
    }
  }

  /** The scan ends with every row of g0 scanned. */
  lemma ScanDone(g0: Grid, grid: seq<Row>, cleared: nat, k: int, y: int)
    requires ScanInv(g0, grid, cleared, k, y) && y < 0
    ensures cleared == CountFull(g0) && grid == ClearedGrid(g0)
  {
    assert g0[0..] == g0 && g0[..0] == [];
  }

  /** Cutting a sequence around one element. */
  lemma Splice<T>(a: seq<T>, x: T, c: seq<T>, s: seq<T>)
    requires s == a + [x] + c
    ensures s[|a|] == x && s[..|a|] == a && s[|a| + 1..] == c
  {
  }

  /** A row at scan position y that is not full stays, and the scan moves one row up. */
  lemma ClearKeptRow(g0: Grid, grid: seq<Row>, cleared: nat, k: int, y: int)
    requires ScanInv(g0, grid, cleared, k, y) && 0 <= y
    requires !IsFull(grid[y])
    ensures ScanInv(g0, grid, cleared, if k > 0 then k - 1 else k, y - 1)
  {
    if k > 0 {
      var e, p, x, rest := Empties(cleared), g0[..k - 1], g0[k - 1], Keep(g0[k..]);
      ScanRowIs(g0, grid, cleared, k, y);
      TakeLast(g0, k);
      ScanStep(g0, k);
      Regroup(e, p, x, rest);
    }
  }
}
