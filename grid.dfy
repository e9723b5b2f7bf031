/** The minefield as a value: tiles, positions, boards, and counting over a board. */
module Grid {

  /** One cell of the minefield (the `Minefield_s` struct). */
  datatype Tile = Tile(isMine: bool, borderingMineCount: int, isOpened: bool, isFlagged: bool)

  /** The tile a freshly allocated grid holds: the C# default struct value. */
  const EmptyTile := Tile(false, 0, false, false)

  /** A (row, column) coordinate, the source's `int[] {y, x}`. */
  datatype Pos = Pos(row: int, col: int)

  /** Row-major grid of tiles; `b[i][j]` is `Minefield[i, j]`. */
  type Board = seq<seq<Tile>>

  /** The bounds test the source writes as `i >= 0 && j >= 0 && i < ScreenHeight && j < ScreenWidth`. */
  predicate InBounds(b: Board, i: int, j: int)
  {
    0 <= i < |b| && 0 <= j < |b[i]|
  }

  predicate SameShape(a: Board, b: Board)
  {
    |a| == |b| && forall i | 0 <= i < |a| :: |a[i]| == |b[i]|
  }

  /** A `height` by `width` grid of default tiles, as `new Minefield_s[height, width]` allocates it. */
  function EmptyBoard(height: nat, width: nat): (b: Board)
    ensures |b| == height
    ensures forall i | 0 <= i < height :: |b[i]| == width
    ensures forall i, j | InBounds(b, i, j) :: b[i][j] == EmptyTile
  {
    seq(height, i => seq(width, j => EmptyTile))
  }

  /** The board with tile (i, j) replaced by `t`. */
  function Update(b: Board, i: int, j: int, t: Tile): (r: Board)
    requires InBounds(b, i, j)
    ensures SameShape(b, r)
    ensures r[i][j] == t
    ensures forall p, q | InBounds(b, p, q) && (p != i || q != j) :: r[p][q] == b[p][q]
  {
    b[i := b[i][j := t]]
  }

  /** The board with tile (i, j) opened (`Minefield[i, j].isOpened = true`). */
  function Open(b: Board, i: int, j: int): (r: Board)
    requires InBounds(b, i, j)
    ensures SameShape(b, r)
    ensures r[i][j] == b[i][j].(isOpened := true)
    ensures forall p, q | InBounds(b, p, q) && (p != i || q != j) :: r[p][q] == b[p][q]
  {
    Update(b, i, j, b[i][j].(isOpened := true))
  }

  /**
   * (p, q) lies in the 3x3 block around (y, x) at or after (i, j) in the row-major order of the
   * source's nested `for (i = y - 1; i < y + 2; i++) for (j = x - 1; j < x + 2; j++)` loops.
   */
  predicate Pending(y: int, x: int, i: int, j: int, p: int, q: int)
  {
    y - 1 <= p <= y + 1 && x - 1 <= q <= x + 1 && (p > i || (p == i && q >= j))
  }

  /** The tile properties the game counts: mines, flags, and tiles not yet opened. */
  datatype TileTest = IsMine | IsFlagged | IsClosed

  predicate Holds(p: TileTest, t: Tile)
  {
    match p
    case IsMine => t.isMine
    case IsFlagged => t.isFlagged
    case IsClosed => !t.isOpened
  }

  function Ind(c: bool): nat { if c then 1 else 0 }

  /** Number of tiles of `row` satisfying `p`. */
  function CountRow(row: seq<Tile>, p: TileTest): (n: nat)
    ensures n <= |row|
  {
    if row == [] then 0 else CountRow(row[..|row| - 1], p) + Ind(Holds(p, row[|row| - 1]))
  }

  /** Number of tiles of `b` satisfying `p`, counted row by row as `foreach` walks a 2-D array. */
  function Count(b: Board, p: TileTest): nat
  {
    if b == [] then 0 else Count(b[..|b| - 1], p) + CountRow(b[|b| - 1], p)
  }

  lemma {:induction false} CountRowUpdate(row: seq<Tile>, j: int, t: Tile, p: TileTest)
    requires 0 <= j < |row|
    ensures CountRow(row[j := t], p) == CountRow(row, p) - Ind(Holds(p, row[j])) + Ind(Holds(p, t))
  {
    var n := |row| - 1;
    if j < n {
      assert row[j := t][..n] == row[..n][j := t];
      CountRowUpdate(row[..n], j, t, p);
    } else {
      assert row[j := t][..n] == row[..n];
    }
  }

  /** Replacing one tile changes a count by the difference of the two tiles' contributions. */
  lemma {:induction false} CountUpdate(b: Board, i: int, j: int, t: Tile, p: TileTest)
    requires InBounds(b, i, j)
    ensures Count(Update(b, i, j, t), p) == Count(b, p) - Ind(Holds(p, b[i][j])) + Ind(Holds(p, t))
  {
    var n := |b| - 1;
    var r := Update(b, i, j, t);
    if i < n {
      assert r[..n] == Update(b[..n], i, j, t);
      CountUpdate(b[..n], i, j, t, p);
    } else {
      assert r[..n] == b[..n];
      CountRowUpdate(b[i], j, t, p);
    }
  }

  /** Splitting off the last row of a prefix: the step a row-major loop takes at the end of a row. */
  lemma CountPrefixStep(b: Board, i: int, p: TileTest)
    requires 0 <= i < |b|
    ensures Count(b[..i + 1], p) == Count(b[..i], p) + CountRow(b[i], p)
  {
    assert b[..i + 1][..i] == b[..i];
  }

  lemma CountRowPrefixStep(row: seq<Tile>, j: int, p: TileTest)
    requires 0 <= j < |row|
    ensures CountRow(row[..j + 1], p) == CountRow(row[..j], p) + Ind(Holds(p, row[j]))
  {
    assert row[..j + 1][..j] == row[..j];
  }

  lemma {:induction false} CountRowNone(row: seq<Tile>, p: TileTest)
    requires forall j | 0 <= j < |row| :: !Holds(p, row[j])
    ensures CountRow(row, p) == 0
  {
    if row != [] {
      CountRowNone(row[..|row| - 1], p);
    }
  }

  /** A count is zero when no tile satisfies the predicate. */
  lemma {:induction false} CountNone(b: Board, p: TileTest)
    requires forall i, j | InBounds(b, i, j) :: !Holds(p, b[i][j])
    ensures Count(b, p) == 0
  {
    if b != [] {
      var n := |b| - 1;
      CountNone(b[..n], p);
      CountRowNone(b[n], p);
    }
  }

  lemma {:induction false} CountRowAgree(r1: seq<Tile>, r2: seq<Tile>, p: TileTest)
    requires |r1| == |r2| && forall j | 0 <= j < |r1| :: Holds(p, r1[j]) == Holds(p, r2[j])
    ensures CountRow(r1, p) == CountRow(r2, p)
  {
    if r1 != [] {
      CountRowAgree(r1[..|r1| - 1], r2[..|r2| - 1], p);
    }
  }

  /** Two boards of one shape that agree on a predicate tile by tile have the same count. */
  lemma {:induction false} CountAgree(a: Board, b: Board, p: TileTest)
    requires SameShape(a, b) && forall i, j | InBounds(a, i, j) :: Holds(p, a[i][j]) == Holds(p, b[i][j])
    ensures Count(a, p) == Count(b, p)
  {
    if a != [] {
      var n := |a| - 1;
      CountAgree(a[..n], b[..n], p);
      CountRowAgree(a[n], b[n], p);
    }
  }
}
