/** The piece catalogue of the engine: the seven tetromino kinds, their
    rotation-0 bitmaps, the quarter-turn transforms of a square bitmap, and the
    wall-kick tables of the Super Rotation System keyed by "from-to" rotation. */
module Shapes {

  datatype Option<T> = None | Some(value: T)

  /** The seven piece types; the tags 'I', 'J', ... of the source. */
  datatype Kind = I | J | L | O | S | T | Z

  /** A bitmap: a cell is filled when it is not 0. */
  type Matrix = seq<seq<int>>

  predicate IsSquare(m: Matrix) {
    forall i :: 0 <= i < |m| ==> |m[i]| == |m|
  }

  predicate HasFilled(m: Matrix) {
    exists i, j :: 0 <= i < |m| && 0 <= j < |m[i]| && m[i][j] != 0
  }

  /** The rotation-0 bitmap of each kind. */
  function Shape(k: Kind): Matrix {
    match k
    case I => [[0, 0, 0, 0], [1, 1, 1, 1], [0, 0, 0, 0], [0, 0, 0, 0]]
    case J => [[1, 0, 0], [1, 1, 1], [0, 0, 0]]
    case L => [[0, 0, 1], [1, 1, 1], [0, 0, 0]]
    case O => [[1, 1], [1, 1]]
    case S => [[0, 1, 1], [1, 1, 0], [0, 0, 0]]
    case T => [[0, 1, 0], [1, 1, 1], [0, 0, 0]]
    case Z => [[1, 1, 0], [0, 1, 1], [0, 0, 0]]
  }

  /** Every bitmap is square, 2 to 4 cells wide, and has a filled cell. */
  lemma ShapeFacts(k: Kind)
    ensures IsSquare(Shape(k)) && 2 <= |Shape(k)| <= 4
    ensures HasFilled(Shape(k))
  {
    var m := Shape(k);
    assert m[1][1] != 0;
  }

  /** Clockwise quarter turn: new[i][j] = old[n-1-j][i]. */
  function RotateCW(m: Matrix): (r: Matrix)
    requires IsSquare(m)
    ensures IsSquare(r) && |r| == |m|
  {
    var n := |m|;
    seq(n, i requires 0 <= i < n => seq(n, j requires 0 <= j < n => m[n - 1 - j][i]))
  }

  /** Counter-clockwise quarter turn: new[i][j] = old[j][n-1-i]. */
  function RotateCCW(m: Matrix): (r: Matrix)
    requires IsSquare(m)
    ensures IsSquare(r) && |r| == |m|
  {
    var n := |m|;
    seq(n, i requires 0 <= i < n => seq(n, j requires 0 <= j < n => m[j][n - 1 - i]))
  }

  /** The transform `rotate` applies for direction dir: clockwise for 1, otherwise counter-clockwise. */
  function Turn(m: Matrix, dir: int): (r: Matrix)
    requires IsSquare(m)
    ensures IsSquare(r) && |r| == |m|
  {
    if dir == 1 then RotateCW(m) else RotateCCW(m)
  }

  /** n clockwise quarter turns. */
  function TurnsCW(m: Matrix, n: nat): (r: Matrix)
    requires IsSquare(m)
    ensures IsSquare(r) && |r| == |m|
  {
    if n == 0 then m else RotateCW(TurnsCW(m, n - 1))
  }

  /** The bitmap a piece of kind k carries at rotation index r: at every index it keeps
      the size of the catalogue bitmap and a filled cell. */
  function Orient(k: Kind, r: nat): (m: Matrix)
    ensures IsSquare(m) && 2 <= |m| <= 4
    ensures HasFilled(m)
  {
    ShapeFacts(k);
    TurnsKeepFilled(Shape(k), r);
    TurnsCW(Shape(k), r)
  }

  lemma CCWUndoesCW(m: Matrix)
    requires IsSquare(m)
    ensures RotateCCW(RotateCW(m)) == m
  {
    var n := |m|;
    var c := RotateCW(m);
    var r := RotateCCW(c);
    forall i | 0 <= i < n
      ensures r[i] == m[i]
    {
      forall j | 0 <= j < n
        ensures r[i][j] == m[i][j]
      {
        assert r[i][j] == c[j][n - 1 - i];
      }
    }
  }

  lemma CWUndoesCCW(m: Matrix)
    requires IsSquare(m)
    ensures RotateCW(RotateCCW(m)) == m
  {
    var n := |m|;
    var c := RotateCCW(m);
    var r := RotateCW(c);
    forall i | 0 <= i < n
      ensures r[i] == m[i]
    {
      forall j | 0 <= j < n
        ensures r[i][j] == m[i][j]
      {
        assert r[i][j] == c[n - 1 - j][i];
      }
    }
  }

  /** Two clockwise turns send cell (i, j) to (n-1-i, n-1-j). */
  lemma HalfTurn(m: Matrix)
    requires IsSquare(m)
    ensures var h := RotateCW(RotateCW(m));
            forall i, j :: 0 <= i < |m| && 0 <= j < |m| ==> h[i][j] == m[|m| - 1 - i][|m| - 1 - j]
  {
    var n := |m|;
    var c := RotateCW(m);
    var h := RotateCW(c);
    forall i, j | 0 <= i < n && 0 <= j < n
      ensures h[i][j] == m[n - 1 - i][n - 1 - j]
    {
      assert h[i][j] == c[n - 1 - j][i];
    }
  }

  /** Four clockwise turns give back the original bitmap. */
  lemma {:induction false} FourTurns(m: Matrix)
    requires IsSquare(m)
    ensures TurnsCW(m, 4) == m
  {
    var n := |m|;
    var h := RotateCW(RotateCW(m));
    HalfTurn(m);
    HalfTurn(h);
    var f := RotateCW(RotateCW(h));
    forall i | 0 <= i < n
      ensures f[i] == m[i]
    {
      forall j | 0 <= j < n
        ensures f[i][j] == m[i][j]
      {
        assert f[i][j] == h[n - 1 - i][n - 1 - j];
      }
    }
    assert TurnsCW(m, 1) == RotateCW(m);
    assert TurnsCW(m, 2) == h;
    assert TurnsCW(m, 3) == RotateCW(h);
    assert TurnsCW(m, 4) == f;
  }

  /** A clockwise turn keeps a filled cell. */
  lemma RotateCWKeepsFilled(m: Matrix)
    requires IsSquare(m) && HasFilled(m)
    ensures HasFilled(RotateCW(m))
  {
    var n := |m|;
    var a, b :| 0 <= a < n && 0 <= b < |m[a]| && m[a][b] != 0;
    assert RotateCW(m)[b][n - 1 - a] == m[a][b];
  }

  lemma {:induction false} TurnsKeepFilled(m: Matrix, n: nat)
    requires IsSquare(m) && HasFilled(m)
    ensures HasFilled(TurnsCW(m, n))
  {
    if n > 0 {
      TurnsKeepFilled(m, n - 1);
      RotateCWKeepsFilled(TurnsCW(m, n - 1));
    }
  }

  /** Turning the bitmap of rotation index r in direction dir gives the bitmap of the
      new index (r + dir + 4) % 4, which stays in 0..3. */
  lemma TurnIndex(s: Matrix, r: nat, dir: int)
    requires IsSquare(s) && r < 4 && (dir == 1 || dir == -1)
    ensures 0 <= (r + dir + 4) % 4 < 4
    ensures Turn(TurnsCW(s, r), dir) == TurnsCW(s, (r + dir + 4) % 4)
  {
    if dir == 1 {
      if r == 3 {
        FourTurns(s);
      }
    } else if r == 0 {
      FourTurns(s);
      assert TurnsCW(s, 4) == RotateCW(TurnsCW(s, 3));
      CCWUndoesCW(TurnsCW(s, 3));
    } else {
      assert TurnsCW(s, r) == RotateCW(TurnsCW(s, r - 1));
      CCWUndoesCW(TurnsCW(s, r - 1));
    }
  }

  /** For a piece kind: matrix and rotation index move together under `rotate`'s turn. */
  lemma OrientTurn(k: Kind, r: nat, dir: int)
    requires r < 4 && (dir == 1 || dir == -1)
    ensures 0 <= (r + dir + 4) % 4 < 4
    ensures Turn(Orient(k, r), dir) == Orient(k, (r + dir + 4) % 4)
  {
    ShapeFacts(k);
    TurnIndex(Shape(k), r, dir);
  }

  // ---------------------------------------------------------------------
  // Wall kicks
  // ---------------------------------------------------------------------

  /** The two tables of KICK_DATA: one for I, one shared by J, L, S, T and Z. */
  datatype KickTable = JLSTZ | IKicks

  /** An offset [kx, ky]; ky counts upwards, so it is applied to the row as -ky. */
  type Kick = (int, int)

  /** One key "from-to" of a kick table with its list of offsets. */
  datatype Entry = Entry(from: int, to: int, offsets: seq<Kick>)

  /** KICK_DATA['JLSTZ']. */
  const JLSTZ_TABLE: seq<Entry> := [
    Entry(0, 1, [(0, 0), (-1, 0), (-1, 1), (0, -2), (-1, -2)]),
    Entry(1, 0, [(0, 0), (1, 0), (1, -1), (0, 2), (1, 2)]),
    Entry(1, 2, [(0, 0), (1, 0), (1, -1), (0, 2), (1, 2)]),
    Entry(2, 1, [(0, 0), (-1, 0), (-1, 1), (0, -2), (-1, -2)]),
    Entry(2, 3, [(0, 0), (1, 0), (1, 1), (0, -2), (1, -2)]),
    Entry(3, 2, [(0, 0), (-1, 0), (-1, -1), (0, 2), (-1, 2)]),
    Entry(3, 0, [(0, 0), (-1, 0), (-1, -1), (0, 2), (-1, 2)]),
    Entry(0, 3, [(0, 0), (1, 0), (1, 1), (0, -2), (1, -2)])]

  /** KICK_DATA['I']. */
  const I_TABLE: seq<Entry> := [
    Entry(0, 1, [(0, 0), (-2, 0), (1, 0), (-2, -1), (1, 2)]),
    Entry(1, 0, [(0, 0), (2, 0), (-1, 0), (2, 1), (-1, -2)]),
    Entry(1, 2, [(0, 0), (-1, 0), (2, 0), (-1, 2), (2, -1)]),
    Entry(2, 1, [(0, 0), (1, 0), (-2, 0), (1, -2), (-2, 1)]),
    Entry(2, 3, [(0, 0), (2, 0), (-1, 0), (2, 1), (-1, -2)]),
    Entry(3, 2, [(0, 0), (-2, 0), (1, 0), (-2, -1), (1, 2)]),
    Entry(3, 0, [(0, 0), (1, 0), (-2, 0), (1, -2), (-2, 1)]),
    Entry(0, 3, [(0, 0), (-1, 0), (2, 0), (-1, 2), (2, -1)])]

  function Table(t: KickTable): seq<Entry> {
    match t
    case JLSTZ => JLSTZ_TABLE
    case IKicks => I_TABLE
  }

  /** The offsets stored under key "from-to", or None when the table has no such key. */
  function Lookup(entries: seq<Entry>, from: int, to: int): Option<seq<Kick>>
  {
    if |entries| == 0 then None
    else if entries[0].from == from && entries[0].to == to then Some(entries[0].offsets)
    else Lookup(entries[1..], from, to)
  }

  /** A lookup fails exactly when no entry has the key, and otherwise returns the offsets
      of an entry that has it. */
  lemma {:induction false} LookupSpec(entries: seq<Entry>, from: int, to: int)
    ensures var r := Lookup(entries, from, to);
            && (r.None? <==> forall e :: 0 <= e < |entries| ==> !(entries[e].from == from && entries[e].to == to))
            && (r.Some? ==> exists e :: 0 <= e < |entries| && entries[e].from == from && entries[e].to == to
                                        && entries[e].offsets == r.value)
  {
    if |entries| > 0 {
      LookupSpec(entries[1..], from, to);
      assert forall e :: 1 <= e < |entries| ==> entries[e] == entries[1..][e - 1];
    }
  }

  /** Every list of a table has five offsets and starts with [0, 0]. */
  ghost predicate FiveFromOrigin(entries: seq<Entry>) {
    forall e :: 0 <= e < |entries| ==> |entries[e].offsets| == 5 && entries[e].offsets[0] == (0, 0)
  }

  lemma TablesFiveFromOrigin(t: KickTable)
    ensures FiveFromOrigin(Table(t))
  {
  }

  /** KICK_DATA[table]["from-to"], or None for a key the table does not have. */
  function KickData(t: KickTable, from: int, to: int): Option<seq<Kick>>
  {
    Lookup(Table(t), from, to)
  }

  /** Every list found has five offsets and starts with [0, 0]. */
  lemma KickDataFive(t: KickTable, from: int, to: int)
    ensures var r := KickData(t, from, to);
            r.Some? ==> |r.value| == 5 && r.value[0] == (0, 0)
  {
    TablesFiveFromOrigin(t);
    LookupSpec(Table(t), from, to);
  }

  /** The table `rotate` consults for a kind. */
  function TableFor(k: Kind): KickTable {
    if k == I then IKicks else JLSTZ
  }

  /** The offsets `rotate` tries, in order: the table entry, or the single offset [0, 0]
      when the table has no entry for the key. Every list begins with [0, 0]. */
  function Kicks(k: Kind, from: int, to: int): seq<Kick>
  {
    match KickData(TableFor(k), from, to)
    case Some(l) => l
    case None => [(0, 0)]
  }

  /** The list tried always starts with the in-place offset [0, 0], and has five offsets
      when the table has the key. */
  lemma KicksFromOrigin(k: Kind, from: int, to: int)
    ensures var r := Kicks(k, from, to);
            |r| >= 1 && r[0] == (0, 0) && (KickData(TableFor(k), from, to).Some? ==> |r| == 5)
  {
    KickDataFive(TableFor(k), from, to);
  }

  function Negate(l: seq<Kick>): (r: seq<Kick>)
    ensures |r| == |l|
    ensures forall i :: 0 <= i < |l| ==> r[i] == (-l[i].0, -l[i].1)
  {
    seq(|l|, i requires 0 <= i < |l| => (-l[i].0, -l[i].1))
  }

  /** Both tables have an entry for every quarter turn from every rotation index, so the
      [0, 0] fallback of `rotate` is never taken for a rotation index in 0..3. */
  lemma KickDataComplete(t: KickTable, r: int, dir: int)
    requires 0 <= r < 4 && (dir == 1 || dir == -1)
    ensures KickData(t, r, (r + dir + 4) % 4).Some?
  {
    var to := (r + dir + 4) % 4;
    var T := Table(t);
    var e := if dir == 1 then 2 * r else 2 * ((r + 3) % 4) + 1;
    assert T[e].from == r && T[e].to == to;
    LookupSpec(T, r, to);
  }

  /** The entries come in pairs "a-b", "b-a", and the second of each pair is the first
      negated offset by offset. */
  lemma TablePaired(t: KickTable, e: int)
    requires 0 <= e < 4
    ensures var T := Table(t);
            T[2 * e + 1].from == T[2 * e].to && T[2 * e + 1].to == T[2 * e].from &&
            T[2 * e + 1].offsets == Negate(T[2 * e].offsets)
  {
  }
}
