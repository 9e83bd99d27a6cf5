/** The playing field: a ROWS x COLS grid of cells, the collision test for a
    piece's bitmap, the write of a locked piece, full-row removal, the Big Bang
    puzzle board, the landing row of a drop and the first-fit search over a list
    of wall kicks. */
module Board {
  import opened Shapes

  const COLS: int := 10
  const ROWS: int := 20

  /** A cell holds 0 (Empty), a piece-type letter, or the tag 'PUZZLE'. */
  datatype Cell = Empty | Block(kind: Kind) | Puzzle

  type Row = seq<Cell>
  type Grid = seq<Row>

  /** The active piece: its type, bitmap, rotation index and the board position of the
      bitmap's top-left cell (x is the column, y the row; rows grow downwards). */
  datatype Piece = Piece(kind: Kind, matrix: Matrix, rotation: int, x: int, y: int)

  predicate WellFormed(g: Grid) {
    |g| == ROWS && forall r :: 0 <= r < |g| ==> |g[r]| == COLS
  }

  function EmptyRow(): (row: Row)
    ensures |row| == COLS && !IsFull(row)
  {
    var row := seq(COLS, _ => Empty);
    assert row[0] == Empty;
    row
  }

  /** createEmptyGrid */
  function EmptyGrid(): (g: Grid)
    ensures WellFormed(g) && NoFullRow(g) && NoPuzzle(g)
  {
    assert EmptyRow()[0] == Empty;
    seq(ROWS, _ => EmptyRow())
  }

  /** A row with no empty cell. */
  predicate IsFull(row: Row) {
    forall c :: 0 <= c < |row| ==> row[c] != Empty
  }

  predicate NoFullRow(g: Grid) {
    forall r :: 0 <= r < |g| ==> !IsFull(g[r])
  }

  /** No cell holds the puzzle tag. */
  predicate NoPuzzle(g: Grid) {
    forall r, c :: 0 <= r < |g| && 0 <= c < |g[r]| ==> g[r][c] != Puzzle
  }

  // ---------------------------------------------------------------------
  // Collision
  // ---------------------------------------------------------------------

  /** A board position a filled cell may occupy: inside the side walls, above the floor,
      and either above the board (always free) or on an empty cell. */
  predicate CellFree(g: Grid, col: int, row: int)
    requires WellFormed(g)
  {
    0 <= col < COLS && row < ROWS && (row < 0 || g[row][col] == Empty)
  }

  /** isValid(piece, ox, oy, m): every filled cell of m, placed at the piece's position
      moved by (ox, oy), lands on a free position. */
  predicate IsValid(g: Grid, p: Piece, ox: int, oy: int, m: Matrix)
    requires WellFormed(g)
  {
    forall i, j :: 0 <= i < |m| && 0 <= j < |m[i]| && m[i][j] != 0 ==> CellFree(g, p.x + j + ox, p.y + i + oy)
  }

  /** Every filled cell of the piece's own bitmap is inside the side walls and above the floor. */
  predicate InBounds(p: Piece) {
    forall i, j :: 0 <= i < |p.matrix| && 0 <= j < |p.matrix[i]| && p.matrix[i][j] != 0 ==>
      0 <= p.x + j < COLS && p.y + i < ROWS
  }

  /** Testing at an offset is testing the piece moved by that offset. */
  lemma ShiftValid(g: Grid, p: Piece, ox: int, oy: int, m: Matrix)
    requires WellFormed(g)
    ensures IsValid(g, p, ox, oy, m) <==> IsValid(g, p.(x := p.x + ox, y := p.y + oy), 0, 0, m)
  {
    var q := p.(x := p.x + ox, y := p.y + oy);
    forall i, j | 0 <= i < |m| && 0 <= j < |m[i]| && m[i][j] != 0
      ensures CellFree(g, p.x + j + ox, p.y + i + oy) == CellFree(g, q.x + j + 0, q.y + i + 0)
    {
      assert p.x + j + ox == q.x + j + 0 && p.y + i + oy == q.y + i + 0;
    }
  }

  /** A position that passes the test is in bounds. */
  lemma ValidInBounds(g: Grid, p: Piece)
    requires WellFormed(g) && IsValid(g, p, 0, 0, p.matrix)
    ensures InBounds(p)
  {
    forall i, j | 0 <= i < |p.matrix| && 0 <= j < |p.matrix[i]| && p.matrix[i][j] != 0
      ensures 0 <= p.x + j < COLS && p.y + i < ROWS
    {
      assert CellFree(g, p.x + j + 0, p.y + i + 0);
    }
  }

  /** Rows above the board never block: a bitmap whose filled cells are all inside the
      side walls and above row 0 fits on every grid. */
  lemma AboveBoardIsFree(g: Grid, p: Piece, ox: int, oy: int, m: Matrix)
    requires WellFormed(g)
    requires forall i, j :: 0 <= i < |m| && 0 <= j < |m[i]| && m[i][j] != 0 ==>
               0 <= p.x + j + ox < COLS && p.y + i + oy < 0
    ensures IsValid(g, p, ox, oy, m)
  {
  }

  /** A bitmap with a filled cell at or below the floor or outside a wall fits on no grid. */
  lemma OutOfBoundsIsInvalid(g: Grid, p: Piece, ox: int, oy: int, m: Matrix, i: int, j: int)
    requires WellFormed(g)
    requires 0 <= i < |m| && 0 <= j < |m[i]| && m[i][j] != 0
    requires p.x + j + ox < 0 || p.x + j + ox >= COLS || p.y + i + oy >= ROWS
    ensures !IsValid(g, p, ox, oy, m)
  {
  }

  // ---------------------------------------------------------------------
  // Locking a piece into the grid
  // ---------------------------------------------------------------------

  /** Board cell (row, col) lies under a filled cell of the piece. */
  predicate Covers(p: Piece, row: int, col: int) {
    0 <= row - p.y < |p.matrix| && 0 <= col - p.x < |p.matrix[row - p.y]| && p.matrix[row - p.y][col - p.x] != 0
  }

  /** Some filled cell of the piece lies above row 0 (the top-out of lockPiece). */
  predicate AboveTop(p: Piece) {
    exists i, j :: 0 <= i < |p.matrix| && 0 <= j < |p.matrix[i]| && p.matrix[i][j] != 0 && p.y + i < 0
  }

  /** The grid after lockPiece writes the piece's type into each board cell under a
      filled cell of its bitmap; every other cell is unchanged. */
  function Stamp(g: Grid, p: Piece): (r: Grid)
    requires WellFormed(g)
    ensures WellFormed(r)
  {
    seq(ROWS, row requires 0 <= row < ROWS =>
      seq(COLS, col requires 0 <= col < COLS => if Covers(p, row, col) then Block(p.kind) else g[row][col]))
  }

  /** Rows outside the piece's bitmap rows are untouched by the write. */
  lemma StampKeepsOtherRows(g: Grid, p: Piece, row: int)
    requires WellFormed(g) && 0 <= row < ROWS
    requires row < p.y || row >= p.y + |p.matrix|
    ensures Stamp(g, p)[row] == g[row]
  {
    var s := Stamp(g, p);
    forall col | 0 <= col < COLS
      ensures s[row][col] == g[row][col]
    {
      assert !Covers(p, row, col);
    }
  }

  /** At most hi - lo rows are full when every full row lies in [lo, hi). */
  lemma {:induction false} FullRowsWithin(rows: seq<Row>, lo: int, hi: int)
    requires 0 <= lo <= hi
    requires forall k :: 0 <= k < |rows| && IsFull(rows[k]) ==> lo <= k < hi
    ensures CountFull(rows) <= hi - lo
  {
    if rows != [] {
      var tail := rows[1..];
      var lo', hi' := if lo > 0 then lo - 1 else 0, if hi > 0 then hi - 1 else 0;
      forall k | 0 <= k < |tail| && IsFull(tail[k])
        ensures lo' <= k < hi'
      {
        assert tail[k] == rows[k + 1];
      }
      FullRowsWithin(tail, lo', hi');
      assert lo == 0 && hi == 0 ==> !IsFull(rows[0]);
    }
  }

  /** On a grid with no full row, writing a piece fills at most as many rows as its bitmap
      has rows, so a lock clears at most 4 rows and the score table index stays in range. */
  lemma LockClearsAtMostFour(g: Grid, p: Piece)
    requires WellFormed(g) && NoFullRow(g)
    ensures CountFull(Stamp(g, p)) <= |p.matrix|
  {
    var s := Stamp(g, p);
    var lo := if p.y > 0 then p.y else 0;
    var hi := if p.y + |p.matrix| > lo then p.y + |p.matrix| else lo;
    forall k | 0 <= k < |s| && IsFull(s[k])
      ensures lo <= k < hi
    {
      if k < p.y || k >= p.y + |p.matrix| {
        StampKeepsOtherRows(g, p, k);
      }
    }
    FullRowsWithin(s, lo, hi);
  }

  // ---------------------------------------------------------------------
  // Clearing full rows
  // ---------------------------------------------------------------------

  /** The number of full rows. */
  function CountFull(rows: seq<Row>): (n: nat)
    ensures n <= |rows|
  {
    if rows == [] then 0 else (if IsFull(rows[0]) then 1 else 0) + CountFull(rows[1..])
  }

  /** The rows that are not full, in their original order. */
  function Keep(rows: seq<Row>): (r: seq<Row>)
    ensures |r| + CountFull(rows) == |rows|
  {
    if rows == [] then []
    else (if IsFull(rows[0]) then [] else [rows[0]]) + Keep(rows[1..])
  }

  /** Keep is a filter: every kept row is a non-full row of the input, and every non-full
      row of the input is kept. */
  lemma {:induction false} KeepIsFilter(rows: seq<Row>)
    ensures forall k :: 0 <= k < |Keep(rows)| ==> !IsFull(Keep(rows)[k]) && Keep(rows)[k] in rows
    ensures forall k :: 0 <= k < |rows| && !IsFull(rows[k]) ==> rows[k] in Keep(rows)
  {
    if rows != [] {
      KeepIsFilter(rows[1..]);
      assert forall k :: 1 <= k < |rows| ==> rows[k] == rows[1..][k - 1];
    }
  }

  /** n empty rows. */
  function Empties(n: nat): (r: seq<Row>)
    ensures |r| == n
  {
    seq(n, _ => EmptyRow())
  }

  /** The grid clearLines leaves: the full rows are gone, the others keep their order at
      the bottom, and as many empty rows as were removed fill the top. */
  function ClearedGrid(g: Grid): (r: Grid)
    requires WellFormed(g)
    ensures WellFormed(r) && NoFullRow(r)
  {
    var n := CountFull(g);
    KeepIsFilter(g);
    var r := Empties(n) + Keep(g);
    assert EmptyRow()[0] == Empty;
    assert forall k :: 0 <= k < n ==> r[k] == EmptyRow();
    assert forall k :: n <= k < |r| ==> r[k] == Keep(g)[k - n];
    r
  }

  /** One step of the bottom-up scan: the row just above the scanned suffix is dropped
      when full and kept otherwise. */
  lemma ScanStep(rows: seq<Row>, k: int)
    requires 0 < k <= |rows|
    ensures Keep(rows[k - 1..]) == (if IsFull(rows[k - 1]) then [] else [rows[k - 1]]) + Keep(rows[k..])
    ensures CountFull(rows[k - 1..]) == (if IsFull(rows[k - 1]) then 1 else 0) + CountFull(rows[k..])
  {
    assert rows[k - 1..][0] == rows[k - 1];
    assert rows[k - 1..][1..] == rows[k..];
  }

  /** A full row is dropped by the filter. */
  lemma KeepSkipsFull(rows: seq<Row>, k: int)
    requires 0 < k <= |rows| && IsFull(rows[k - 1])
    ensures Keep(rows[k - 1..]) == Keep(rows[k..])
  {
    ScanStep(rows, k);
  }

  /** An empty row pushed on n empty rows gives n + 1 empty rows. */
  lemma EmptiesCons(n: nat)
    ensures [EmptyRow()] + Empties(n) == Empties(n + 1)
  {
    assert forall i :: 0 <= i < n + 1 ==> ([EmptyRow()] + Empties(n))[i] == EmptyRow();
  }

  /** Filtering distributes over concatenation: the kept rows of a split grid are the kept
      rows of the upper part followed by those of the lower part. */
  lemma {:induction false} KeepAppend(a: seq<Row>, b: seq<Row>)
    ensures Keep(a + b) == Keep(a) + Keep(b)
    ensures CountFull(a + b) == CountFull(a) + CountFull(b)
  {
    if a != [] {
      assert (a + b)[1..] == a[1..] + b;
      KeepAppend(a[1..], b);
    } else {
      assert a + b == b;
    }
  }

  /** Rows that are all full are all removed. */
  lemma {:induction false} KeepAllFull(rows: seq<Row>)
    requires forall k :: 0 <= k < |rows| ==> IsFull(rows[k])
    ensures Keep(rows) == [] && CountFull(rows) == |rows|
  {
    if rows != [] {
      KeepAllFull(rows[1..]);
    }
  }

  /** Rows none of which is full are all kept. */
  lemma {:induction false} KeepNoneFull(rows: seq<Row>)
    requires forall k :: 0 <= k < |rows| ==> !IsFull(rows[k])
    ensures Keep(rows) == rows && CountFull(rows) == 0
  {
    if rows != [] {
      KeepNoneFull(rows[1..]);
    }
  }

  /** Clearing a grid with no full row changes nothing. */
  lemma ClearNothing(g: Grid)
    requires WellFormed(g) && NoFullRow(g)
    ensures CountFull(g) == 0 && ClearedGrid(g) == g
  {
    KeepNoneFull(g);
  }

  /** When exactly the bottom k rows are full, clearing removes those k rows, shifts
      every other row down by k, and leaves k empty rows on top. */
  lemma ClearBottomRows(g: Grid, k: nat)
    requires WellFormed(g) && k <= ROWS
    requires forall rr :: ROWS - k <= rr < ROWS ==> IsFull(g[rr])
    requires forall rr :: 0 <= rr < ROWS - k ==> !IsFull(g[rr])
    ensures CountFull(g) == k
    ensures ClearedGrid(g) == Empties(k) + g[..ROWS - k]
  {
    var top, bottom := g[..ROWS - k], g[ROWS - k..];
    assert g == top + bottom;
    KeepAppend(top, bottom);
    KeepNoneFull(top);
    KeepAllFull(bottom);
  }

  // ---------------------------------------------------------------------
  // Big Bang puzzle board
  // ---------------------------------------------------------------------

  /** A puzzle row: the tag in every column except the four columns hole..hole+3. */
  function PuzzleRow(hole: int): (row: Row)
    ensures |row| == COLS
  {
    seq(COLS, c => if c < hole || c > hole + 3 then Puzzle else Empty)
  }

  /** The board generateBigBangPuzzle leaves: empty, except for the bottom 4 rows. */
  function PuzzleGrid(hole: int): (g: Grid)
    ensures WellFormed(g)
  {
    var g := seq(ROWS, r => if r >= ROWS - 4 then PuzzleRow(hole) else EmptyRow());
    assert forall r :: 0 <= r < ROWS ==> g[r] == if r >= ROWS - 4 then PuzzleRow(hole) else EmptyRow();
    g
  }

  /** For a hole in 0..6 the puzzle board has no full row and does hold puzzle cells. */
  lemma PuzzleGridFacts(hole: int)
    requires 0 <= hole < 7
    ensures NoFullRow(PuzzleGrid(hole)) && !NoPuzzle(PuzzleGrid(hole))
    ensures forall r :: 0 <= r < ROWS - 4 ==> PuzzleGrid(hole)[r] == EmptyRow()
  {
    var g := PuzzleGrid(hole);
    forall r | 0 <= r < ROWS
      ensures !IsFull(g[r])
    {
      if r >= ROWS - 4 {
        assert g[r] == PuzzleRow(hole);
        assert g[r][hole] == Empty;
      } else {
        assert g[r] == EmptyRow();
      }
    }
    var c := if hole > 0 then 0 else COLS - 1;
    assert g[ROWS - 1] == PuzzleRow(hole);
    assert g[ROWS - 1][c] == Puzzle;
  }

  /** The number of puzzle cells in a row. */
  function CountPuzzle(row: Row): (n: nat)
    ensures n <= |row|
  {
    if row == [] then 0 else CountPuzzle(row[..|row| - 1]) + (if row[|row| - 1] == Puzzle then 1 else 0)
  }

  lemma {:induction false} PuzzlePrefixCount(hole: int, k: int)
    requires 0 <= hole < 7 && 0 <= k <= COLS
    ensures CountPuzzle(PuzzleRow(hole)[..k]) == if k <= hole then k else if k <= hole + 4 then hole else k - 4
  {
    if k > 0 {
      var row := PuzzleRow(hole);
      assert row[..k][..k - 1] == row[..k - 1];
      PuzzlePrefixCount(hole, k - 1);
    }
  }

  /** Every puzzle row holds exactly 6 puzzle cells. */
  lemma PuzzleRowCount(hole: int)
    requires 0 <= hole < 7
    ensures CountPuzzle(PuzzleRow(hole)) == 6
  {
    PuzzlePrefixCount(hole, COLS);
    assert PuzzleRow(hole)[..COLS] == PuzzleRow(hole);
  }

  // ---------------------------------------------------------------------
  // Landing row
  // ---------------------------------------------------------------------

  /** With a filled cell, a piece that fits one row lower is above the floor. */
  lemma DropBounded(g: Grid, p: Piece)
    requires WellFormed(g) && HasFilled(p.matrix) && IsValid(g, p, 0, 1, p.matrix)
    ensures p.y + 1 < ROWS
  {
    var i, j :| 0 <= i < |p.matrix| && 0 <= j < |p.matrix[i]| && p.matrix[i][j] != 0;
    assert CellFree(g, p.x + j + 0, p.y + i + 1);
  }

  /** The row a drop from p reaches: the first y, counting down from p.y, from which one
      row lower is no longer valid (the ghost descent and hardDrop). */
  function DropY(g: Grid, p: Piece): (y: int)
    requires WellFormed(g) && HasFilled(p.matrix)
    ensures y >= p.y
    ensures !IsValid(g, p.(y := y), 0, 1, p.matrix)
    ensures forall k :: p.y <= k < y ==> IsValid(g, p.(y := k), 0, 1, p.matrix)
    decreases ROWS - p.y
  {
    if IsValid(g, p, 0, 1, p.matrix) then
      DropBounded(g, p);
      assert p.(y := p.y) == p;
      DropY(g, p.(y := p.y + 1))
    else
      assert p.(y := p.y) == p;
      p.y
  }

  /** A piece in bounds stays in bounds at its landing row, and a valid piece stays valid. */
  lemma LandingKeepsPlace(g: Grid, p: Piece)
    requires WellFormed(g) && HasFilled(p.matrix)
    ensures InBounds(p) ==> InBounds(p.(y := DropY(g, p)))
    ensures IsValid(g, p, 0, 0, p.matrix) ==> IsValid(g, p.(y := DropY(g, p)), 0, 0, p.matrix)
  {
    var y := DropY(g, p);
    if y > p.y {
      var q := p.(y := y - 1);
      assert IsValid(g, q, 0, 1, p.matrix);
      ShiftValid(g, q, 0, 1, p.matrix);
      assert q.(x := q.x + 0, y := q.y + 1) == p.(y := y);
      ValidInBounds(g, p.(y := y));
    } else {
      assert p.(y := y) == p;
    }
  }

  /** The ghost descent of draw: a copy of the piece moved down while one row lower is
      valid. */
  method GhostLanding(g: Grid, p: Piece) returns (y: int)
    requires WellFormed(g) && HasFilled(p.matrix)
    ensures y == DropY(g, p)
  {
    var shadow := p;
    while IsValid(g, shadow, 0, 1, shadow.matrix)
      invariant shadow == p.(y := shadow.y)
      invariant p.y <= shadow.y <= DropY(g, p)
      decreases DropY(g, p) - shadow.y
    {
      shadow := shadow.(y := shadow.y + 1);
    }
    y := shadow.y;
  }

  // ---------------------------------------------------------------------
  // Wall-kick search
  // ---------------------------------------------------------------------

  /** The index of the first kick, from position `from` on, at which matrix m fits. */
  function FirstFit(g: Grid, p: Piece, m: Matrix, kicks: seq<Kick>, from: nat): (r: Option<nat>)
    requires WellFormed(g) && from <= |kicks|
    ensures r.Some? ==> from <= r.value < |kicks| && IsValid(g, p, kicks[r.value].0, -kicks[r.value].1, m)
    ensures r.Some? ==> forall t :: from <= t < r.value ==> !IsValid(g, p, kicks[t].0, -kicks[t].1, m)
    ensures r.None? ==> forall t :: from <= t < |kicks| ==> !IsValid(g, p, kicks[t].0, -kicks[t].1, m)
    decreases |kicks| - from
  {
    if from == |kicks| then None
    else if IsValid(g, p, kicks[from].0, -kicks[from].1, m) then Some(from)
    else FirstFit(g, p, m, kicks, from + 1)
  }

  /** The commit of a kick search: the piece with bitmap nm and index nr, moved by the
      first kick in list order at which nm fits, or the piece unchanged when none fits. */
  function KickCommit(g: Grid, p: Piece, nm: Matrix, nr: int, kicks: seq<Kick>): (r: Piece)
    requires WellFormed(g)
    ensures r == p || (r.kind == p.kind && r.matrix == nm && r.rotation == nr && IsValid(g, r, 0, 0, nm))
  {
    match FirstFit(g, p, nm, kicks, 0)
    case None => p
    case Some(t) =>
      ShiftValid(g, p, kicks[t].0, -kicks[t].1, nm);
      p.(x := p.x + kicks[t].0, y := p.y - kicks[t].1, matrix := nm, rotation := nr)
  }

  /** A kick search that changes the index is all or nothing and first-fit: the piece is
      unchanged exactly when no kick fits, and otherwise moves by the first kick that fits. */
  lemma KickCommitIsFirstFit(g: Grid, p: Piece, nm: Matrix, nr: int, kicks: seq<Kick>)
    requires WellFormed(g) && nr != p.rotation
    ensures KickCommit(g, p, nm, nr, kicks) == p <==>
              forall t :: 0 <= t < |kicks| ==> !IsValid(g, p, kicks[t].0, -kicks[t].1, nm)
    ensures forall t :: 0 <= t < |kicks| && IsValid(g, p, kicks[t].0, -kicks[t].1, nm) &&
                        (forall u :: 0 <= u < t ==> !IsValid(g, p, kicks[u].0, -kicks[u].1, nm)) ==>
              KickCommit(g, p, nm, nr, kicks) == p.(x := p.x + kicks[t].0, y := p.y - kicks[t].1, matrix := nm, rotation := nr)
    ensures |kicks| >= 1 && kicks[0] == (0, 0) && IsValid(g, p, 0, 0, nm) ==>
              KickCommit(g, p, nm, nr, kicks) == p.(matrix := nm, rotation := nr)
  {
    forall t | 0 <= t < |kicks| && IsValid(g, p, kicks[t].0, -kicks[t].1, nm) &&
               (forall u :: 0 <= u < t ==> !IsValid(g, p, kicks[u].0, -kicks[u].1, nm))
      ensures KickCommit(g, p, nm, nr, kicks) == p.(x := p.x + kicks[t].0, y := p.y - kicks[t].1, matrix := nm, rotation := nr)
    {
      KickCommitAt(g, p, nm, nr, kicks, t);
    }
    if forall t :: 0 <= t < |kicks| ==> !IsValid(g, p, kicks[t].0, -kicks[t].1, nm) {
      KickCommitNone(g, p, nm, nr, kicks);
    } else {
      assert FirstFit(g, p, nm, kicks, 0).Some?;
    }
    if |kicks| >= 1 && kicks[0] == (0, 0) && IsValid(g, p, 0, 0, nm) {
      KickCommitAt(g, p, nm, nr, kicks, 0);
      assert p.(x := p.x + kicks[0].0, y := p.y - kicks[0].1, matrix := nm, rotation := nr)
          == p.(matrix := nm, rotation := nr);
    }
  }

  /** The commit at the first fitting kick t. */
  lemma KickCommitAt(g: Grid, p: Piece, nm: Matrix, nr: int, kicks: seq<Kick>, t: int)
    requires WellFormed(g) && nr != p.rotation && 0 <= t < |kicks|
    requires IsValid(g, p, kicks[t].0, -kicks[t].1, nm)
    requires forall u :: 0 <= u < t ==> !IsValid(g, p, kicks[u].0, -kicks[u].1, nm)
    ensures KickCommit(g, p, nm, nr, kicks) == p.(x := p.x + kicks[t].0, y := p.y - kicks[t].1, matrix := nm, rotation := nr)
  {
    var f := FirstFit(g, p, nm, kicks, 0);
    assert f.Some?;
    assert f.value == t;
  }

  /** No kick fits: the piece stays. */
  lemma KickCommitNone(g: Grid, p: Piece, nm: Matrix, nr: int, kicks: seq<Kick>)
    requires WellFormed(g) && nr != p.rotation
    requires forall u :: 0 <= u < |kicks| ==> !IsValid(g, p, kicks[u].0, -kicks[u].1, nm)
    ensures KickCommit(g, p, nm, nr, kicks) == p
  {
    assert FirstFit(g, p, nm, kicks, 0).None?;
  }

  /** The piece after rotate(dir): the turned bitmap and the new rotation index, committed
      by the kick search over the list for this piece type and index pair. */
  function Rotated(g: Grid, p: Piece, dir: int): (r: Piece)
    requires WellFormed(g) && IsSquare(p.matrix) && (dir == 1 || dir == -1)
    ensures r == p || (r.kind == p.kind && r.matrix == Turn(p.matrix, dir) &&
                       r.rotation == (p.rotation + dir + 4) % 4 && IsValid(g, r, 0, 0, r.matrix))
  {
    var nr := (p.rotation + dir + 4) % 4;
    KickCommit(g, p, Turn(p.matrix, dir), nr, Kicks(p.kind, p.rotation, nr))
  }

  /** Rotation is all or nothing and first-fit: the piece is unchanged exactly when no kick
      fits, and otherwise bitmap, index and position move together by the first kick in
      list order that fits; as every list starts with [0, 0], a turn that fits in place
      is taken in place. */
  lemma RotatedIsFirstFit(g: Grid, p: Piece, dir: int, nm: Matrix, nr: int, kicks: seq<Kick>)
    requires WellFormed(g) && IsSquare(p.matrix) && (dir == 1 || dir == -1)
    requires nm == Turn(p.matrix, dir) && nr == (p.rotation + dir + 4) % 4 && kicks == Kicks(p.kind, p.rotation, nr)
    ensures Rotated(g, p, dir) == p <==> forall t :: 0 <= t < |kicks| ==> !IsValid(g, p, kicks[t].0, -kicks[t].1, nm)
    ensures forall t :: 0 <= t < |kicks| && IsValid(g, p, kicks[t].0, -kicks[t].1, nm) &&
                        (forall u :: 0 <= u < t ==> !IsValid(g, p, kicks[u].0, -kicks[u].1, nm)) ==>
              Rotated(g, p, dir) == p.(x := p.x + kicks[t].0, y := p.y - kicks[t].1, matrix := nm, rotation := nr)
    ensures IsValid(g, p, 0, 0, nm) ==> Rotated(g, p, dir) == p.(matrix := nm, rotation := nr)
  {
    assert nr != p.rotation;
    KicksFromOrigin(p.kind, p.rotation, nr);
    RotatedIsKickCommit(g, p, dir);
    KickCommitIsFirstFit(g, p, nm, nr, kicks);
  }

  lemma RotatedIsKickCommit(g: Grid, p: Piece, dir: int)
    requires WellFormed(g) && IsSquare(p.matrix) && (dir == 1 || dir == -1)
    ensures Rotated(g, p, dir) ==
            KickCommit(g, p, Turn(p.matrix, dir), (p.rotation + dir + 4) % 4, Kicks(p.kind, p.rotation, (p.rotation + dir + 4) % 4))
  {
  }

  /** The commit of Rotated stated for a given turned bitmap m, with its bounds. */
  lemma RotatedCommit(g: Grid, p: Piece, dir: int, m: Matrix)
    requires WellFormed(g) && IsSquare(p.matrix) && (dir == 1 || dir == -1)
    requires Turn(p.matrix, dir) == m
    ensures var q := Rotated(g, p, dir);
            q == p || (q.kind == p.kind && q.matrix == m && q.rotation == (p.rotation + dir + 4) % 4 &&
                       0 <= q.rotation < 4 && InBounds(q))
  {
    var q := Rotated(g, p, dir);
    if q != p {
      ValidInBounds(g, q);
    }
  }
}
