/** The recursive flood fill `RevealEmptyNeighborTiles`, as a function on boards, and what it guarantees. */
module FloodFill {
  import opened Grid

  /** `b` arises from `a` by opening closed, unflagged, non-mine tiles and nothing else. */
  ghost predicate SafeOpening(a: Board, b: Board)
  {
    SameShape(a, b) &&
    forall i, j | InBounds(a, i, j) ::
      b[i][j] == a[i][j] ||
      (b[i][j] == a[i][j].(isOpened := true) && !a[i][j].isOpened && !a[i][j].isFlagged && !a[i][j].isMine)
  }

  lemma SafeOpeningTrans(a: Board, b: Board, c: Board)
    requires SafeOpening(a, b) && SafeOpening(b, c)
    ensures SafeOpening(a, c)
  {
    forall i, j | InBounds(a, i, j)
      ensures c[i][j] == a[i][j] ||
        (c[i][j] == a[i][j].(isOpened := true) && !a[i][j].isOpened && !a[i][j].isFlagged && !a[i][j].isMine)
    {
      assert InBounds(b, i, j);
    }
  }

  /**
   * The flood fill from (y, x): nothing when the tile borders a mine, otherwise the neighbours are
   * visited row by row; each closed, unflagged, non-mine neighbour is opened and the fill restarts there.
   */
  function Reveal(b: Board, y: int, x: int): (r: Board)
    requires InBounds(b, y, x)
    ensures SameShape(b, r)
    ensures Count(r, IsClosed) <= Count(b, IsClosed)
    ensures b[y][x].borderingMineCount != 0 ==> r == b
    decreases Count(b, IsClosed), 4, 0
  {
    if b[y][x].borderingMineCount != 0 then b else RevealFrom(b, y, x, y - 1, x - 1)
  }

  /** The neighbour loop of the flood fill around (y, x), from neighbour (i, j) on in row-major order. */
  function RevealFrom(b: Board, y: int, x: int, i: int, j: int): (r: Board)
    requires y - 1 <= i <= y + 2 && x - 1 <= j <= x + 2
    ensures SameShape(b, r)
    ensures Count(r, IsClosed) <= Count(b, IsClosed)
    decreases Count(b, IsClosed), y + 2 - i, x + 2 - j
  {
    if i == y + 2 then b
    else if j == x + 2 then RevealFrom(b, y, x, i + 1, x - 1)
    else if !InBounds(b, i, j) then RevealFrom(b, y, x, i, j + 1)
    else if !b[i][j].isOpened && !b[i][j].isFlagged && !b[i][j].isMine then
      var b1 := Open(b, i, j);
      CountUpdate(b, i, j, b1[i][j], IsClosed);
      var b2 := Reveal(b1, i, j);
      RevealFrom(b2, y, x, i, j + 1)
    else RevealFrom(b, y, x, i, j + 1)
  }

  /** The neighbour loop moves on to the next row once a row is done. */
  lemma RevealFromRowEnd(b: Board, y: int, x: int, i: int)
    requires y - 1 <= i <= y + 1
    ensures RevealFrom(b, y, x, i, x + 2) == RevealFrom(b, y, x, i + 1, x - 1)
  {
  }

  /** The flood fill only opens tiles that are closed, unflagged and not mines. */
  lemma {:induction false} RevealSafe(b: Board, y: int, x: int)
    requires InBounds(b, y, x)
    ensures SafeOpening(b, Reveal(b, y, x))
    decreases Count(b, IsClosed), 4, 0
  {
    if b[y][x].borderingMineCount == 0 {
      RevealFromSafe(b, y, x, y - 1, x - 1);
    }
  }

  lemma {:induction false} RevealFromSafe(b: Board, y: int, x: int, i: int, j: int)
    requires y - 1 <= i <= y + 2 && x - 1 <= j <= x + 2
    ensures SafeOpening(b, RevealFrom(b, y, x, i, j))
    decreases Count(b, IsClosed), y + 2 - i, x + 2 - j
  {
    if i == y + 2 {
    } else if j == x + 2 {
      RevealFromSafe(b, y, x, i + 1, x - 1);
    } else if !InBounds(b, i, j) {
      RevealFromSafe(b, y, x, i, j + 1);
    } else if !b[i][j].isOpened && !b[i][j].isFlagged && !b[i][j].isMine {
      var b1 := Open(b, i, j);
      CountUpdate(b, i, j, b1[i][j], IsClosed);
      var b2 := Reveal(b1, i, j);
      RevealSafe(b1, i, j);
      RevealFromSafe(b2, y, x, i, j + 1);
      var r := RevealFrom(b2, y, x, i, j + 1);
      SafeOpeningTrans(b1, b2, r);
      SafeOpeningTrans(b, b1, r);
    } else {
      RevealFromSafe(b, y, x, i, j + 1);
    }
  }

  /** Every in-bounds, unflagged, non-mine tile of the 3x3 block around (y, x) is open. */
  ghost predicate Expanded(b: Board, y: int, x: int)
  {
    forall i, j | y - 1 <= i <= y + 1 && x - 1 <= j <= x + 1 && InBounds(b, i, j) ::
      !b[i][j].isFlagged && !b[i][j].isMine ==> b[i][j].isOpened
  }

  /** Every tile opened on the way from `a` to `b` whose count is zero has its block opened in `b`. */
  ghost predicate ZerosExpanded(a: Board, b: Board)
    requires SameShape(a, b)
  {
    forall i, j | InBounds(a, i, j) && !a[i][j].isOpened && b[i][j].isOpened && b[i][j].borderingMineCount == 0 ::
      Expanded(b, i, j)
  }

  lemma ExpandedGrows(a: Board, b: Board, y: int, x: int)
    requires SafeOpening(a, b) && Expanded(a, y, x)
    ensures Expanded(b, y, x)
  {
    forall i, j | y - 1 <= i <= y + 1 && x - 1 <= j <= x + 1 && InBounds(b, i, j)
      ensures !b[i][j].isFlagged && !b[i][j].isMine ==> b[i][j].isOpened
    {
      assert InBounds(a, i, j);
    }
  }

  /**
   * Flood-fill closure: after the fill from (y, x), every zero-count tile it opened has its whole
   * block open, and so does (y, x) itself when its count is zero. Opening a zero tile therefore opens
   * its connected zero region together with the region's border.
   */
  lemma {:induction false} RevealExpands(b: Board, y: int, x: int)
    requires InBounds(b, y, x)
    ensures ZerosExpanded(b, Reveal(b, y, x))
    ensures b[y][x].borderingMineCount == 0 ==> Expanded(Reveal(b, y, x), y, x)
    decreases Count(b, IsClosed), 4, 0
  {
    if b[y][x].borderingMineCount == 0 {
      RevealFromExpands(b, y, x, y - 1, x - 1);
      RevealFromSafe(b, y, x, y - 1, x - 1);
    }
  }

  lemma {:induction false} RevealFromExpands(b: Board, y: int, x: int, i: int, j: int)
    requires y - 1 <= i <= y + 2 && x - 1 <= j <= x + 2
    ensures ZerosExpanded(b, RevealFrom(b, y, x, i, j))
    ensures forall p, q | Pending(y, x, i, j, p, q) && InBounds(b, p, q) && !b[p][q].isFlagged && !b[p][q].isMine ::
      RevealFrom(b, y, x, i, j)[p][q].isOpened
    decreases Count(b, IsClosed), y + 2 - i, x + 2 - j
  {
    var r := RevealFrom(b, y, x, i, j);
    if i == y + 2 {
    } else if j == x + 2 {
      RevealFromExpands(b, y, x, i + 1, x - 1);
    } else if !InBounds(b, i, j) {
      RevealFromExpands(b, y, x, i, j + 1);
    } else if !b[i][j].isOpened && !b[i][j].isFlagged && !b[i][j].isMine {
      var b1 := Open(b, i, j);
      CountUpdate(b, i, j, b1[i][j], IsClosed);
      var b2 := Reveal(b1, i, j);
      RevealExpands(b1, i, j);
      RevealFromExpands(b2, y, x, i, j + 1);
      RevealSafe(b1, i, j);
      RevealFromSafe(b2, y, x, i, j + 1);
      ExpandStep(b, b1, b2, r, y, x, i, j);
    } else {
      RevealFromExpands(b, y, x, i, j + 1);
      RevealFromSafe(b, y, x, i, j + 1);
      forall p, q | Pending(y, x, i, j, p, q) && InBounds(b, p, q) && !b[p][q].isFlagged && !b[p][q].isMine
        ensures r[p][q].isOpened
      {
        if p == i && q == j {
          assert b[p][q].isOpened;
        }
      }
    }
  }

  /** The opening step of `RevealFromExpands`, given what the two recursive calls established. */
  lemma ExpandStep(b: Board, b1: Board, b2: Board, r: Board, y: int, x: int, i: int, j: int)
    requires InBounds(b, i, j) && !b[i][j].isOpened && !b[i][j].isFlagged && !b[i][j].isMine
    requires y - 1 <= i <= y + 1 && x - 1 <= j <= x + 1
    requires b1 == Open(b, i, j)
    requires SafeOpening(b1, b2) && SafeOpening(b2, r)
    requires ZerosExpanded(b1, b2) && (b1[i][j].borderingMineCount == 0 ==> Expanded(b2, i, j))
    requires ZerosExpanded(b2, r)
    requires forall p, q | Pending(y, x, i, j + 1, p, q) && InBounds(b2, p, q) && !b2[p][q].isFlagged && !b2[p][q].isMine ::
      r[p][q].isOpened
    ensures SameShape(b, r) && ZerosExpanded(b, r)
    ensures forall p, q | Pending(y, x, i, j, p, q) && InBounds(b, p, q) && !b[p][q].isFlagged && !b[p][q].isMine ::
      r[p][q].isOpened
  {
    SafeOpeningTrans(b1, b2, r);
    forall p, q | InBounds(b, p, q) && !b[p][q].isOpened && r[p][q].isOpened && r[p][q].borderingMineCount == 0
      ensures Expanded(r, p, q)
    {
      assert InBounds(b1, p, q) && InBounds(b2, p, q);
      if p == i && q == j {
        ExpandedGrows(b2, r, i, j);
      } else if b2[p][q].isOpened {
        ExpandedGrows(b2, r, p, q);
      }
    }
    forall p, q | Pending(y, x, i, j, p, q) && InBounds(b, p, q) && !b[p][q].isFlagged && !b[p][q].isMine
      ensures r[p][q].isOpened
    {
      assert InBounds(b1, p, q) && InBounds(b2, p, q);
    }
  }

  /** `a` is `c` or one of its eight neighbours. */
  predicate Near(a: Pos, c: Pos)
  {
    -1 <= a.row - c.row <= 1 && -1 <= a.col - c.col <= 1
  }

  /** Tile `p` is closed in `a` and open in `r`. */
  ghost predicate NewlyOpened(a: Board, r: Board, p: Pos)
  {
    InBounds(a, p.row, p.col) && InBounds(r, p.row, p.col) &&
    !a[p.row][p.col].isOpened && r[p.row][p.col].isOpened
  }

  /**
   * Step `n` of a chain from `a` to `r`: tile `n` has no bordering mine and is next to tile `n + 1`,
   * and unless it starts the chain it was opened on the way.
   */
  ghost predicate Link(a: Board, r: Board, path: seq<Pos>, n: int)
    requires 0 <= n < |path| - 1
  {
    Near(path[n], path[n + 1]) && InBounds(a, path[n].row, path[n].col) &&
    a[path[n].row][path[n].col].borderingMineCount == 0 &&
    (n > 0 ==> NewlyOpened(a, r, path[n]))
  }

  /** `path` is a chain of neighbouring tiles along which the fill from `a` to `r` can travel. */
  ghost predicate FillPath(a: Board, r: Board, path: seq<Pos>)
  {
    |path| >= 2 && forall n | 0 <= n < |path| - 1 :: Link(a, r, path, n)
  }

  /** A chain stays a chain when the counts agree and every tile opened on the way is still one. */
  lemma PathTransfer(a1: Board, r1: Board, a2: Board, r2: Board, path: seq<Pos>)
    requires FillPath(a1, r1, path) && SameShape(a1, a2)
    requires forall i, j | InBounds(a1, i, j) :: a2[i][j].borderingMineCount == a1[i][j].borderingMineCount
    requires forall q | NewlyOpened(a1, r1, q) :: NewlyOpened(a2, r2, q)
    ensures FillPath(a2, r2, path)
  {
    forall n | 0 <= n < |path| - 1
      ensures Link(a2, r2, path, n)
    {
      assert Link(a1, r1, path, n);
      assert InBounds(a1, path[n].row, path[n].col);
    }
  }

  /** A zero-count tile next to the start of a chain, whose start was opened on the way, extends it. */
  lemma PathPrepend(a: Board, r: Board, start: Pos, path: seq<Pos>)
    requires FillPath(a, r, path) && NewlyOpened(a, r, path[0]) && Near(start, path[0])
    requires InBounds(a, start.row, start.col) && a[start.row][start.col].borderingMineCount == 0
    ensures FillPath(a, r, [start] + path)
  {
    var q := [start] + path;
    forall n | 0 <= n < |q| - 1
      ensures Link(a, r, q, n)
    {
      if n > 0 {
        assert Link(a, r, path, n - 1);
        assert q[n] == path[n - 1] && q[n + 1] == path[n];
      }
    }
  }

  /** Every tile opened on the way from `a` to `r` is the end of a chain that starts at `start`. */
  ghost predicate Reached(a: Board, r: Board, start: Pos)
  {
    forall p | NewlyOpened(a, r, p) ::
      exists path :: FillPath(a, r, path) && path[0] == start && path[|path| - 1] == p
  }

  /**
   * The fill opens no more than it must: every tile the fill from (y, x) opens is joined to (y, x) by
   * a chain of neighbouring tiles without bordering mines, each of them opened by the same fill. With
   * `RevealExpands` this pins the opened tiles to the zero region around (y, x) and its border.
   */
  lemma {:induction false} RevealReach(b: Board, y: int, x: int)
    requires InBounds(b, y, x)
    ensures Reached(b, Reveal(b, y, x), Pos(y, x))
    decreases Count(b, IsClosed), 4, 0, 0
  {
    if b[y][x].borderingMineCount == 0 {
      RevealFromReach(b, y, x, y - 1, x - 1, Reveal(b, y, x));
    }
  }

  lemma {:induction false} RevealFromReach(b: Board, y: int, x: int, i: int, j: int, r: Board)
    requires y - 1 <= i <= y + 2 && x - 1 <= j <= x + 2
    requires InBounds(b, y, x) && b[y][x].borderingMineCount == 0
    requires r == RevealFrom(b, y, x, i, j)
    ensures Reached(b, r, Pos(y, x))
    decreases Count(b, IsClosed), y + 2 - i, x + 2 - j, 1
  {
    if i == y + 2 {
    } else if j == x + 2 {
      RevealFromRowEnd(b, y, x, i);
      RevealFromReach(b, y, x, i + 1, x - 1, r);
    } else if InBounds(b, i, j) && !b[i][j].isOpened && !b[i][j].isFlagged && !b[i][j].isMine {
      OpenReach(b, y, x, i, j);
    } else {
      RevealFromSkip(b, y, x, i, j);
      RevealFromReach(b, y, x, i, j + 1, r);
    }
  }

  /** A neighbour outside the grid, or not closed, unflagged and safe, is passed over. */
  lemma RevealFromSkip(b: Board, y: int, x: int, i: int, j: int)
    requires y - 1 <= i <= y + 1 && x - 1 <= j <= x + 1
    requires !(InBounds(b, i, j) && !b[i][j].isOpened && !b[i][j].isFlagged && !b[i][j].isMine)
    ensures RevealFrom(b, y, x, i, j) == RevealFrom(b, y, x, i, j + 1)
  {
  }

  /** `RevealFromReach` when the neighbour (i, j) is opened and the fill restarts there. */
  lemma {:induction false} OpenReach(b: Board, y: int, x: int, i: int, j: int)
    requires y - 1 <= i <= y + 1 && x - 1 <= j <= x + 1
    requires InBounds(b, y, x) && b[y][x].borderingMineCount == 0
    requires InBounds(b, i, j) && !b[i][j].isOpened && !b[i][j].isFlagged && !b[i][j].isMine
    ensures Reached(b, RevealFrom(b, y, x, i, j), Pos(y, x))
    decreases Count(b, IsClosed), y + 2 - i, x + 2 - j, 0
  {
    var b1 := Open(b, i, j);
    CountUpdate(b, i, j, b1[i][j], IsClosed);
    var b2 := Reveal(b1, i, j);
    RevealSafe(b1, i, j);
    assert InBounds(b2, y, x) && b2[y][x].borderingMineCount == 0 by {
      assert InBounds(b1, y, x);
    }
    RevealFromSafe(b2, y, x, i, j + 1);
    var r := RevealFrom(b2, y, x, i, j + 1);
    RevealReach(b1, i, j);
    RevealFromReach(b2, y, x, i, j + 1, r);
    OpeningKeeps(b, b1, b2, r, i, j);
    OpeningSteps(b, b1, b2, r, y, x, i, j);
    assert r == RevealFrom(b, y, x, i, j);
  }

  /** The opening step of `RevealFromReach`, given what the two recursive calls established. */
  lemma OpeningSteps(b: Board, b1: Board, b2: Board, r: Board, y: int, x: int, i: int, j: int)
    requires y - 1 <= i <= y + 1 && x - 1 <= j <= x + 1
    requires InBounds(b, y, x) && b[y][x].borderingMineCount == 0
    requires SameShape(b, b1) && SameShape(b, b2) && SameShape(b, r)
    requires forall p, q | InBounds(b, p, q) ::
      b1[p][q].borderingMineCount == b[p][q].borderingMineCount &&
      b2[p][q].borderingMineCount == b[p][q].borderingMineCount
    requires NewlyOpened(b, r, Pos(i, j))
    requires forall q | NewlyOpened(b1, b2, q) :: NewlyOpened(b, r, q)
    requires forall q | NewlyOpened(b2, r, q) :: NewlyOpened(b, r, q)
    requires forall p, q | InBounds(b, p, q) && (p != i || q != j) :: b1[p][q].isOpened == b[p][q].isOpened
    requires Reached(b1, b2, Pos(i, j)) && Reached(b2, r, Pos(y, x))
    ensures Reached(b, r, Pos(y, x))
  {
    forall p | NewlyOpened(b, r, p)
      ensures exists path :: FillPath(b, r, path) && path[0] == Pos(y, x) && path[|path| - 1] == p
    {
      OpeningStepAt(b, b1, b2, r, y, x, i, j, p);
    }
  }

  /** `OpeningSteps` for one tile `p` opened on the way from `b` to `r`. */
  lemma OpeningStepAt(b: Board, b1: Board, b2: Board, r: Board, y: int, x: int, i: int, j: int, p: Pos)
    requires y - 1 <= i <= y + 1 && x - 1 <= j <= x + 1
    requires InBounds(b, y, x) && b[y][x].borderingMineCount == 0
    requires SameShape(b, b1) && SameShape(b, b2) && SameShape(b, r)
    requires forall p, q | InBounds(b, p, q) ::
      b1[p][q].borderingMineCount == b[p][q].borderingMineCount &&
      b2[p][q].borderingMineCount == b[p][q].borderingMineCount
    requires NewlyOpened(b, r, Pos(i, j))
    requires forall q | NewlyOpened(b1, b2, q) :: NewlyOpened(b, r, q)
    requires forall q | NewlyOpened(b2, r, q) :: NewlyOpened(b, r, q)
    requires forall p, q | InBounds(b, p, q) && (p != i || q != j) :: b1[p][q].isOpened == b[p][q].isOpened
    requires Reached(b1, b2, Pos(i, j)) && Reached(b2, r, Pos(y, x))
    requires NewlyOpened(b, r, p)
    ensures exists path :: FillPath(b, r, path) && path[0] == Pos(y, x) && path[|path| - 1] == p
  {
    if p == Pos(i, j) {
      DirectStep(b, r, Pos(y, x), p);
    } else if b2[p.row][p.col].isOpened {
      assert InBounds(b1, p.row, p.col) && InBounds(b2, p.row, p.col);
      RestartStep(b, b1, b2, r, Pos(y, x), Pos(i, j), p);
    } else {
      assert InBounds(b2, p.row, p.col) && InBounds(r, p.row, p.col);
      LaterStep(b, b2, r, Pos(y, x), p);
    }
  }

  /** A neighbour opened on the way is reached in one step from a zero-count tile. */
  lemma DirectStep(b: Board, r: Board, start: Pos, p: Pos)
    requires Near(start, p) && InBounds(b, start.row, start.col) && b[start.row][start.col].borderingMineCount == 0
    ensures exists path :: FillPath(b, r, path) && path[0] == start && path[|path| - 1] == p
  {
    var path := [start, p];
    assert Link(b, r, path, 0);
  }

  /** A tile opened by the fill restarted at neighbour `mid` is reached through `mid`. */
  lemma RestartStep(b: Board, b1: Board, b2: Board, r: Board, start: Pos, mid: Pos, p: Pos)
    requires Near(start, mid) && InBounds(b, start.row, start.col) && b[start.row][start.col].borderingMineCount == 0
    requires SameShape(b1, b)
    requires forall i, j | InBounds(b1, i, j) :: b[i][j].borderingMineCount == b1[i][j].borderingMineCount
    requires forall q | NewlyOpened(b1, b2, q) :: NewlyOpened(b, r, q)
    requires NewlyOpened(b, r, mid)
    requires Reached(b1, b2, mid) && NewlyOpened(b1, b2, p)
    ensures exists path :: FillPath(b, r, path) && path[0] == start && path[|path| - 1] == p
  {
    var path :| FillPath(b1, b2, path) && path[0] == mid && path[|path| - 1] == p;
    PathTransfer(b1, b2, b, r, path);
    PathPrepend(b, r, start, path);
    var longer := [start] + path;
    assert longer[|longer| - 1] == p;
  }

  /** A tile opened by the rest of the neighbour loop keeps the chain that loop gave it. */
  lemma LaterStep(b: Board, b2: Board, r: Board, start: Pos, p: Pos)
    requires SameShape(b2, b)
    requires forall i, j | InBounds(b2, i, j) :: b[i][j].borderingMineCount == b2[i][j].borderingMineCount
    requires forall q | NewlyOpened(b2, r, q) :: NewlyOpened(b, r, q)
    requires Reached(b2, r, start) && NewlyOpened(b2, r, p)
    ensures exists path :: FillPath(b, r, path) && path[0] == start && path[|path| - 1] == p
  {
    var path :| FillPath(b2, r, path) && path[0] == start && path[|path| - 1] == p;
    PathTransfer(b2, r, b, r, path);
  }

  /**
   * Opening (i, j) and then filling twice keeps every count, and a tile opened by either fill, or
   * (i, j) itself, is opened on the way from `b` to `r`.
   */
  lemma OpeningKeeps(b: Board, b1: Board, b2: Board, r: Board, i: int, j: int)
    requires InBounds(b, i, j) && !b[i][j].isOpened && b1 == Open(b, i, j)
    requires SafeOpening(b1, b2) && SafeOpening(b2, r)
    ensures SameShape(b, b1) && SameShape(b, b2) && SameShape(b, r)
    ensures forall p, q | InBounds(b, p, q) ::
      b1[p][q].borderingMineCount == b[p][q].borderingMineCount &&
      b2[p][q].borderingMineCount == b[p][q].borderingMineCount
    ensures NewlyOpened(b, r, Pos(i, j))
    ensures forall q | NewlyOpened(b1, b2, q) :: NewlyOpened(b, r, q)
    ensures forall q | NewlyOpened(b2, r, q) :: NewlyOpened(b, r, q)
    ensures forall p, q | InBounds(b, p, q) && (p != i || q != j) :: b1[p][q].isOpened == b[p][q].isOpened
  {
    forall p, q | InBounds(b, p, q)
      ensures b1[p][q].borderingMineCount == b[p][q].borderingMineCount &&
        b2[p][q].borderingMineCount == b[p][q].borderingMineCount
    {
      assert InBounds(b1, p, q);
    }
    assert InBounds(b1, i, j) && InBounds(b2, i, j);
    forall q | NewlyOpened(b1, b2, q)
      ensures NewlyOpened(b, r, q)
    {
      assert InBounds(b2, q.row, q.col);
    }
    forall q | NewlyOpened(b2, r, q)
      ensures NewlyOpened(b, r, q)
    {
      assert InBounds(b1, q.row, q.col);
    }
  }
}
