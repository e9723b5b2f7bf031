/** `CountMineBordering`: each mine bumps the count of every in-bounds, non-mine tile of its 3x3 block. */
module Adjacency {
  import opened Grid
  import opened Placement

  /** The body of the innermost loop at (i, j): `Minefield[i, j].borderingMineCount++` when allowed. */
  function Bump(b: Board, i: int, j: int): (r: Board)
    ensures SameShape(b, r)
  {
    if InBounds(b, i, j) && !b[i][j].isMine then
      Update(b, i, j, b[i][j].(borderingMineCount := b[i][j].borderingMineCount + 1))
    else b
  }

  /** The two inner loops for the mine at (y, x), from (i, j) on in row-major order. */
  function BumpFrom(b: Board, y: int, x: int, i: int, j: int): (r: Board)
    requires y - 1 <= i <= y + 2 && x - 1 <= j <= x + 2
    ensures SameShape(b, r)
    decreases y + 2 - i, x + 2 - j
  {
    if i == y + 2 then b
    else if j == x + 2 then BumpFrom(b, y, x, i + 1, x - 1)
    else BumpFrom(Bump(b, i, j), y, x, i, j + 1)
  }

  /** The board after the outer `foreach` has handled the mine locations `locs` in order. */
  function Bordering(b: Board, locs: seq<Pos>): (r: Board)
    ensures SameShape(b, r)
  {
    if locs == [] then b
    else
      var p := locs[|locs| - 1];
      BumpFrom(Bordering(b, locs[..|locs| - 1]), p.row, p.col, p.row - 1, p.col - 1)
  }

  /** The outer `foreach` handles one more location. */
  lemma BorderingStep(b: Board, locs: seq<Pos>, n: nat, prev: Board, y: int, x: int)
    requires n < |locs| && prev == Bordering(b, locs[..n]) && locs[n] == Pos(y, x)
    ensures Bordering(b, locs[..n + 1]) == BumpFrom(prev, y, x, y - 1, x - 1)
  {
    assert locs[..n + 1][..n] == locs[..n];
  }

  /** How many of the locations have (i, j) in their 3x3 block. */
  function AdjacentCount(locs: seq<Pos>, i: int, j: int): nat
  {
    if locs == [] then 0
    else
      var p := locs[|locs| - 1];
      AdjacentCount(locs[..|locs| - 1], i, j) + Ind(Pending(p.row, p.col, p.row - 1, p.col - 1, i, j))
  }

  lemma {:induction false} BumpFromTiles(b: Board, y: int, x: int, i: int, j: int)
    requires y - 1 <= i <= y + 2 && x - 1 <= j <= x + 2
    ensures forall p, q | InBounds(b, p, q) ::
      BumpFrom(b, y, x, i, j)[p][q] ==
        b[p][q].(borderingMineCount := b[p][q].borderingMineCount + Ind(!b[p][q].isMine && Pending(y, x, i, j, p, q)))
    decreases y + 2 - i, x + 2 - j
  {
    if i == y + 2 {
    } else if j == x + 2 {
      BumpFromTiles(b, y, x, i + 1, x - 1);
    } else {
      BumpFromTiles(Bump(b, i, j), y, x, i, j + 1);
    }
  }

  /**
   * After the counting pass, a non-mine tile's count has grown by the number of locations whose
   * block holds it; every other field, and every mine tile, is unchanged.
   */
  lemma {:induction false} BorderingTiles(b: Board, locs: seq<Pos>)
    ensures forall p, q | InBounds(b, p, q) ::
      Bordering(b, locs)[p][q] ==
        b[p][q].(borderingMineCount := b[p][q].borderingMineCount + (if b[p][q].isMine then 0 else AdjacentCount(locs, p, q)))
  {
    if locs != [] {
      var n := |locs| - 1;
      var m := locs[n];
      BorderingTiles(b, locs[..n]);
      BumpFromTiles(Bordering(b, locs[..n]), m.row, m.col, m.row - 1, m.col - 1);
    }
  }

  function MineAt(b: Board, i: int, j: int): nat
  {
    Ind(InBounds(b, i, j) && b[i][j].isMine)
  }

  /** The reference count: mines among the in-bounds tiles of the 3x3 block around (i, j). */
  function NeighbourMines(b: Board, i: int, j: int): nat
  {
    MineAt(b, i - 1, j - 1) + MineAt(b, i - 1, j) + MineAt(b, i - 1, j + 1) +
    MineAt(b, i, j - 1)     + MineAt(b, i, j)     + MineAt(b, i, j + 1) +
    MineAt(b, i + 1, j - 1) + MineAt(b, i + 1, j) + MineAt(b, i + 1, j + 1)
  }

  function LocAt(locs: seq<Pos>, i: int, j: int): nat
  {
    Ind(Pos(i, j) in locs)
  }

  /** How many of (i, j - 1), (i, j), (i, j + 1) are locations. */
  function InRowOfThree(locs: seq<Pos>, i: int, j: int): nat
  {
    LocAt(locs, i, j - 1) + LocAt(locs, i, j) + LocAt(locs, i, j + 1)
  }

  /** How many tiles of the 3x3 block around (i, j) are locations. */
  function InBlock(locs: seq<Pos>, i: int, j: int): nat
  {
    InRowOfThree(locs, i - 1, j) + InRowOfThree(locs, i, j) + InRowOfThree(locs, i + 1, j)
  }

  /** Appending a new location `m` adds one to the rows of three that hold it. */
  lemma InRowOfThreeSnoc(init: seq<Pos>, m: Pos, i: int, j: int)
    requires m !in init
    ensures InRowOfThree(init + [m], i, j) == InRowOfThree(init, i, j) + Ind(m.row == i && j - 1 <= m.col <= j + 1)
  {
    var locs := init + [m];
    forall q
      ensures LocAt(locs, i, q) == LocAt(init, i, q) + Ind(Pos(i, q) == m)
    {
      assert Pos(i, q) in locs <==> Pos(i, q) in init || Pos(i, q) == m;
    }
  }

  lemma {:induction false} AdjacentCountInBlock(locs: seq<Pos>, i: int, j: int)
    requires Distinct(locs)
    ensures AdjacentCount(locs, i, j) == InBlock(locs, i, j)
  {
    if locs != [] {
      var n := |locs| - 1;
      var m := locs[n];
      var init := locs[..n];
      AdjacentCountInBlock(init, i, j);
      assert locs == init + [m];
      assert m !in init;
      InRowOfThreeSnoc(init, m, i - 1, j);
      InRowOfThreeSnoc(init, m, i, j);
      InRowOfThreeSnoc(init, m, i + 1, j);
    }
  }

  /** The locations of `locs` are exactly the mines of `b`. */
  ghost predicate MinesAt(b: Board, locs: seq<Pos>)
  {
    AllInBounds(b, locs) && forall i, j | InBounds(b, i, j) :: b[i][j].isMine <==> Pos(i, j) in locs
  }

  /**
   * When the locations are distinct and are exactly the board's mines, counting them per block gives
   * the number of mines around each tile.
   */
  lemma AdjacentCountIsNeighbourMines(b: Board, locs: seq<Pos>, i: int, j: int)
    requires Distinct(locs) && MinesAt(b, locs)
    ensures AdjacentCount(locs, i, j) == NeighbourMines(b, i, j)
  {
    AdjacentCountInBlock(locs, i, j);
    forall p, q
      ensures MineAt(b, p, q) == LocAt(locs, p, q)
    {
      if Pos(p, q) in locs {
        var n :| 0 <= n < |locs| && locs[n] == Pos(p, q);
        assert InBounds(b, locs[n].row, locs[n].col);
      }
    }
  }

  /**
   * The grid before the first space press: as allocated, except that `f` may have flagged tiles, the
   * only change an action makes before the mines are placed.
   */
  ghost predicate BeforeSetup(b: Board)
  {
    forall i, j | InBounds(b, i, j) :: !b[i][j].isMine && b[i][j].borderingMineCount == 0 && !b[i][j].isOpened
  }

  /** Placing and then counting before the first press: what every tile holds afterwards. */
  lemma SetupTiles(b0: Board, locs: seq<Pos>)
    requires AllInBounds(b0, locs) && BeforeSetup(b0)
    ensures var b := Bordering(Place(b0, locs), locs);
      SameShape(b0, b) && MinesAt(b, locs) &&
      forall i, j | InBounds(b, i, j) ::
        b[i][j] == b0[i][j].(isMine := Pos(i, j) in locs,
                             borderingMineCount := if Pos(i, j) in locs then 0 else AdjacentCount(locs, i, j))
  {
    var placed := Place(b0, locs);
    PlaceTiles(b0, locs);
    BorderingTiles(placed, locs);
  }

  /**
   * The set-up the game runs on the first space press: placing distinct in-bounds locations and then
   * counting makes exactly those tiles mines, gives every other tile the number of mines in its 3x3
   * block (so at most 8), leaves mine tiles at 0, opens nothing and keeps every flag as it was.
   */
  lemma SetupCounts(b0: Board, locs: seq<Pos>)
    requires AllInBounds(b0, locs) && Distinct(locs) && BeforeSetup(b0)
    ensures var b := Bordering(Place(b0, locs), locs);
      SameShape(b0, b) && Count(b, IsMine) == |locs| &&
      forall i, j | InBounds(b, i, j) ::
        b[i][j].isMine == (Pos(i, j) in locs) && !b[i][j].isOpened && b[i][j].isFlagged == b0[i][j].isFlagged &&
        b[i][j].borderingMineCount == (if b[i][j].isMine then 0 else NeighbourMines(b, i, j)) &&
        0 <= b[i][j].borderingMineCount <= 8
  {
    var placed := Place(b0, locs);
    var b := Bordering(placed, locs);
    SetupTiles(b0, locs);
    CountNone(b0, IsMine);
    PlaceCount(b0, locs);
    BorderingTiles(placed, locs);
    CountAgree(placed, b, IsMine);
    forall i, j | InBounds(b, i, j) && !b[i][j].isMine
      ensures b[i][j].borderingMineCount == NeighbourMines(b, i, j) <= 8
    {
      AdjacentCountIsNeighbourMines(b, locs, i, j);
    }
  }
}
