/** `HandleChord`: pressing space on an opened tile opens its unflagged neighbours when the flags match. */
module Chording {
  import opened Grid
  import opened FloodFill

  /**
   * The flag-counting loop of the chord around (y, x), from (i, j) on in row-major order. As written
   * in the source, the cell skipped is the absolute cell (0, 0), not the centre (y, x).
   */
  function FlagsFrom(b: Board, y: int, x: int, i: int, j: int): nat
    requires y - 1 <= i <= y + 2 && x - 1 <= j <= x + 2
    decreases y + 2 - i, x + 2 - j
  {
    if i == y + 2 then 0
    else if j == x + 2 then FlagsFrom(b, y, x, i + 1, x - 1)
    else Ind(InBounds(b, i, j) && !(i == 0 && j == 0) && b[i][j].isFlagged) + FlagsFrom(b, y, x, i, j + 1)
  }

  /** The `neighborTilesFlagCount` the chord compares with the centre's count. */
  function FlagsAround(b: Board, y: int, x: int): nat
  {
    FlagsFrom(b, y, x, y - 1, x - 1)
  }

  /** `b` arises from `a` by opening unflagged tiles (mines included) and nothing else. */
  ghost predicate Opening(a: Board, b: Board)
  {
    SameShape(a, b) &&
    forall i, j | InBounds(a, i, j) ::
      b[i][j] == a[i][j] || (b[i][j] == a[i][j].(isOpened := true) && !a[i][j].isFlagged)
  }

  lemma OpeningTrans(a: Board, b: Board, c: Board)
    requires Opening(a, b) && Opening(b, c)
    ensures Opening(a, c)
  {
    forall i, j | InBounds(a, i, j)
      ensures c[i][j] == a[i][j] || (c[i][j] == a[i][j].(isOpened := true) && !a[i][j].isFlagged)
    {
      assert InBounds(b, i, j);
    }
  }

  lemma SafeOpeningIsOpening(a: Board, b: Board)
    requires SafeOpening(a, b)
    ensures Opening(a, b)
  {
  }

  /** What the chord does to one in-bounds neighbour (i, j): open it and flood from it, unless flagged. */
  function ChordStep(b: Board, i: int, j: int): (r: Board)
    requires InBounds(b, i, j)
    ensures SameShape(b, r)
  {
    if !b[i][j].isFlagged then Reveal(Open(b, i, j), i, j) else b
  }

  /** A chord step opens only unflagged tiles, and opens (i, j) itself unless it is flagged. */
  lemma ChordStepOpens(b: Board, i: int, j: int)
    requires InBounds(b, i, j)
    ensures Opening(b, ChordStep(b, i, j))
    ensures !b[i][j].isFlagged ==> ChordStep(b, i, j)[i][j].isOpened
  {
    if !b[i][j].isFlagged {
      var b1 := Open(b, i, j);
      var b2 := Reveal(b1, i, j);
      RevealSafe(b1, i, j);
      SafeOpeningIsOpening(b1, b2);
      OpeningTrans(b, b1, b2);
      assert InBounds(b1, i, j);
    }
  }

  /**
   * The opening loop of the chord around (y, x) from (i, j) on: each in-bounds neighbour goes through
   * `ChordStep`, and the loop stops with `true` at the first unflagged, opened mine.
   */
  function ChordFrom(b: Board, y: int, x: int, i: int, j: int): (r: (Board, bool))
    requires y - 1 <= i <= y + 2 && x - 1 <= j <= x + 2
    ensures SameShape(b, r.0)
    decreases y + 2 - i, x + 2 - j
  {
    if i == y + 2 then (b, false)
    else if j == x + 2 then ChordFrom(b, y, x, i + 1, x - 1)
    else if !InBounds(b, i, j) then ChordFrom(b, y, x, i, j + 1)
    else
      var b1 := ChordStep(b, i, j);
      if !b1[i][j].isFlagged && b1[i][j].isOpened && b1[i][j].isMine then (b1, true)
      else ChordFrom(b1, y, x, i, j + 1)
  }

  /** The chord's opening loop opens only unflagged tiles. */
  lemma {:induction false} ChordFromOpens(b: Board, y: int, x: int, i: int, j: int)
    requires y - 1 <= i <= y + 2 && x - 1 <= j <= x + 2
    ensures Opening(b, ChordFrom(b, y, x, i, j).0)
    decreases y + 2 - i, x + 2 - j
  {
    if i == y + 2 {
    } else if j == x + 2 {
      ChordFromOpens(b, y, x, i + 1, x - 1);
    } else if !InBounds(b, i, j) {
      ChordFromOpens(b, y, x, i, j + 1);
    } else {
      var b1: Board := ChordStep(b, i, j);
      ChordStepOpens(b, i, j);
      if !(!b1[i][j].isFlagged && b1[i][j].isOpened && b1[i][j].isMine) {
        ChordFromOpens(b1, y, x, i, j + 1);
        OpeningTrans(b, b1, ChordFrom(b1, y, x, i, j + 1).0);
      }
    }
  }

  /** `HandleChord(y, x)`: the new board, and whether a mine was opened. */
  function Chord(b: Board, y: int, x: int): (r: (Board, bool))
    requires InBounds(b, y, x)
  {
    if b[y][x].borderingMineCount != FlagsAround(b, y, x) then (b, false)
    else ChordFrom(b, y, x, y - 1, x - 1)
  }

  /** Some in-bounds, unflagged mine lies in the block around (y, x) at or after (i, j). */
  ghost predicate PendingMine(b: Board, y: int, x: int, i: int, j: int)
  {
    exists p, q :: Pending(y, x, i, j, p, q) && InBounds(b, p, q) && !b[p][q].isFlagged && b[p][q].isMine
  }

  lemma {:induction false} ChordFromOutcome(b: Board, y: int, x: int, i: int, j: int)
    requires y - 1 <= i <= y + 2 && x - 1 <= j <= x + 2
    ensures ChordFrom(b, y, x, i, j).1 <==> PendingMine(b, y, x, i, j)
    ensures ChordFrom(b, y, x, i, j).1 ==>
      exists p, q :: Pending(y, x, i, j, p, q) && InBounds(b, p, q) &&
        ChordFrom(b, y, x, i, j).0[p][q].isOpened && ChordFrom(b, y, x, i, j).0[p][q].isMine
    ensures !ChordFrom(b, y, x, i, j).1 ==>
      forall p, q | Pending(y, x, i, j, p, q) && InBounds(b, p, q) && !b[p][q].isFlagged ::
        ChordFrom(b, y, x, i, j).0[p][q].isOpened
    decreases y + 2 - i, x + 2 - j
  {
    var r := ChordFrom(b, y, x, i, j);
    if i == y + 2 {
    } else if j == x + 2 {
      ChordFromOutcome(b, y, x, i + 1, x - 1);
      if PendingMine(b, y, x, i, j) {
        var p, q :| Pending(y, x, i, j, p, q) && InBounds(b, p, q) && !b[p][q].isFlagged && b[p][q].isMine;
        assert Pending(y, x, i + 1, x - 1, p, q);
      }
      if PendingMine(b, y, x, i + 1, x - 1) {
        var p, q :| Pending(y, x, i + 1, x - 1, p, q) && InBounds(b, p, q) && !b[p][q].isFlagged && b[p][q].isMine;
        assert Pending(y, x, i, j, p, q);
      }
    } else if !InBounds(b, i, j) {
      ChordFromOutcome(b, y, x, i, j + 1);
      if PendingMine(b, y, x, i, j) {
        var p, q :| Pending(y, x, i, j, p, q) && InBounds(b, p, q) && !b[p][q].isFlagged && b[p][q].isMine;
        assert Pending(y, x, i, j + 1, p, q);
      }
      if PendingMine(b, y, x, i, j + 1) {
        var p, q :| Pending(y, x, i, j + 1, p, q) && InBounds(b, p, q) && !b[p][q].isFlagged && b[p][q].isMine;
        assert Pending(y, x, i, j, p, q);
      }
    } else {
      var b1: Board := ChordStep(b, i, j);
      ChordStepOpens(b, i, j);
      if !b1[i][j].isFlagged && b1[i][j].isOpened && b1[i][j].isMine {
        assert Pending(y, x, i, j, i, j);
      } else {
        ChordFromOutcome(b1, y, x, i, j + 1);
        ChordFromOpens(b1, y, x, i, j + 1);
        ChordSkipStep(b, b1, r.0, y, x, i, j);
      }
    }
  }

  /** The step of `ChordFromOutcome` where neighbour (i, j) is handled and the loop goes on. */
  lemma ChordSkipStep(b: Board, b1: Board, r: Board, y: int, x: int, i: int, j: int)
    requires y - 1 <= i <= y + 1 && x - 1 <= j <= x + 1 && InBounds(b, i, j)
    requires b1 == ChordStep(b, i, j)
    requires Opening(b, b1) && (!b[i][j].isFlagged ==> b1[i][j].isOpened)
    requires !(!b1[i][j].isFlagged && b1[i][j].isOpened && b1[i][j].isMine)
    requires Opening(b1, r)
    requires ChordFrom(b1, y, x, i, j + 1) == (r, ChordFrom(b1, y, x, i, j + 1).1)
    requires ChordFrom(b1, y, x, i, j + 1).1 <==> PendingMine(b1, y, x, i, j + 1)
    requires ChordFrom(b1, y, x, i, j + 1).1 ==>
      exists p, q :: Pending(y, x, i, j + 1, p, q) && InBounds(b1, p, q) && r[p][q].isOpened && r[p][q].isMine
    requires !ChordFrom(b1, y, x, i, j + 1).1 ==>
      forall p, q | Pending(y, x, i, j + 1, p, q) && InBounds(b1, p, q) && !b1[p][q].isFlagged :: r[p][q].isOpened
    ensures ChordFrom(b1, y, x, i, j + 1).1 <==> PendingMine(b, y, x, i, j)
    ensures ChordFrom(b1, y, x, i, j + 1).1 ==>
      exists p, q :: Pending(y, x, i, j, p, q) && InBounds(b, p, q) && r[p][q].isOpened && r[p][q].isMine
    ensures !ChordFrom(b1, y, x, i, j + 1).1 ==>
      forall p, q | Pending(y, x, i, j, p, q) && InBounds(b, p, q) && !b[p][q].isFlagged :: r[p][q].isOpened
  {
    if ChordFrom(b1, y, x, i, j + 1).1 {
      var p, q :| Pending(y, x, i, j + 1, p, q) && InBounds(b1, p, q) && r[p][q].isOpened && r[p][q].isMine;
      assert Pending(y, x, i, j, p, q) && InBounds(b, p, q);
      var p', q' :| Pending(y, x, i, j + 1, p', q') && InBounds(b1, p', q') && !b1[p'][q'].isFlagged && b1[p'][q'].isMine;
      assert Pending(y, x, i, j, p', q') && InBounds(b, p', q') && !b[p'][q'].isFlagged && b[p'][q'].isMine;
    } else {
      forall p, q | Pending(y, x, i, j, p, q) && InBounds(b, p, q) && !b[p][q].isFlagged
        ensures !b[p][q].isMine
      {
        assert InBounds(b1, p, q);
        if p != i || q != j {
          assert Pending(y, x, i, j + 1, p, q);
        }
      }
      forall p, q | Pending(y, x, i, j, p, q) && InBounds(b, p, q) && !b[p][q].isFlagged
        ensures r[p][q].isOpened
      {
        assert InBounds(b1, p, q);
        if p == i && q == j {
          assert b1[i][j].isOpened;
        } else {
          assert Pending(y, x, i, j + 1, p, q);
        }
      }
    }
  }

  /**
   * The chord's outcome. With a flag mismatch nothing changes and the result is false. Otherwise only
   * unflagged tiles are opened, the result is true exactly when an unflagged mine lies in the 3x3
   * block (and then a mine of the block is open), and when it is false every unflagged in-bounds tile
   * of the block is open.
   */
  lemma ChordOutcome(b: Board, y: int, x: int)
    requires InBounds(b, y, x)
    ensures Opening(b, Chord(b, y, x).0)
    ensures b[y][x].borderingMineCount != FlagsAround(b, y, x) ==> Chord(b, y, x) == (b, false)
    ensures b[y][x].borderingMineCount == FlagsAround(b, y, x) ==>
      (Chord(b, y, x).1 <==>
        exists p, q :: y - 1 <= p <= y + 1 && x - 1 <= q <= x + 1 && InBounds(b, p, q) && !b[p][q].isFlagged && b[p][q].isMine)
    ensures Chord(b, y, x).1 ==>
      exists p, q :: y - 1 <= p <= y + 1 && x - 1 <= q <= x + 1 && InBounds(b, p, q) &&
        Chord(b, y, x).0[p][q].isOpened && Chord(b, y, x).0[p][q].isMine
    ensures b[y][x].borderingMineCount == FlagsAround(b, y, x) && !Chord(b, y, x).1 ==>
      forall p, q | y - 1 <= p <= y + 1 && x - 1 <= q <= x + 1 && InBounds(b, p, q) && !b[p][q].isFlagged ::
        Chord(b, y, x).0[p][q].isOpened
  {
    if b[y][x].borderingMineCount == FlagsAround(b, y, x) {
      ChordFromOutcome(b, y, x, y - 1, x - 1);
      ChordFromOpens(b, y, x, y - 1, x - 1);
      if PendingMine(b, y, x, y - 1, x - 1) {
        var p, q :| Pending(y, x, y - 1, x - 1, p, q) && InBounds(b, p, q) && !b[p][q].isFlagged && b[p][q].isMine;
        assert y - 1 <= p <= y + 1 && x - 1 <= q <= x + 1;
      }
    }
  }

  /**
   * (p, q) is the first in-bounds, unflagged mine of the block around (y, x) at or after (i, j), in
   * the row-major order the chord visits the block in.
   */
  ghost predicate FirstMine(b: Board, y: int, x: int, i: int, j: int, p: int, q: int)
  {
    Pending(y, x, i, j, p, q) && InBounds(b, p, q) && !b[p][q].isFlagged && b[p][q].isMine &&
    forall p', q' | Pending(y, x, i, j, p', q') && !Pending(y, x, p, q, p', q') && InBounds(b, p', q') ::
      b[p'][q'].isFlagged || !b[p'][q'].isMine
  }

  /** `a` and `b` have the same shape, and the same mines and flags. */
  ghost predicate SameMinesAndFlags(a: Board, b: Board)
  {
    SameShape(a, b) &&
    forall i, j | InBounds(a, i, j) :: b[i][j].isMine == a[i][j].isMine && b[i][j].isFlagged == a[i][j].isFlagged
  }

  lemma OpeningKeepsMines(a: Board, b: Board)
    requires Opening(a, b)
    ensures SameMinesAndFlags(a, b)
  {
    forall i, j | InBounds(a, i, j)
      ensures b[i][j].isMine == a[i][j].isMine && b[i][j].isFlagged == a[i][j].isFlagged
    {
    }
  }

  /** A chord step opens no mine other than (i, j) itself. */
  lemma ChordStepMines(b: Board, i: int, j: int)
    requires InBounds(b, i, j)
    ensures forall p, q | InBounds(b, p, q) && b[p][q].isMine && (p != i || q != j) ::
      ChordStep(b, i, j)[p][q].isOpened == b[p][q].isOpened
  {
    if !b[i][j].isFlagged {
      var b1 := Open(b, i, j);
      RevealSafe(b1, i, j);
      forall p, q | InBounds(b, p, q) && b[p][q].isMine && (p != i || q != j)
        ensures ChordStep(b, i, j)[p][q].isOpened == b[p][q].isOpened
      {
        assert InBounds(b1, p, q);
      }
    }
  }

  /** The first mine from the end of a row on is the first mine from the start of the next row on. */
  lemma FirstMineRowEnd(b: Board, y: int, x: int, i: int, j: int)
    requires j == x + 2
    ensures forall p, q :: FirstMine(b, y, x, i, j, p, q) <==> FirstMine(b, y, x, i + 1, x - 1, p, q)
  {
  }

  /**
   * Passing over (i, j) when it is not an in-bounds, unflagged mine does not change which mine comes
   * first, on a board with the same mines and flags.
   */
  lemma FirstMineSkip(b: Board, b1: Board, y: int, x: int, i: int, j: int)
    requires y - 1 <= i <= y + 1 && x - 1 <= j <= x + 1
    requires SameMinesAndFlags(b, b1)
    requires !(InBounds(b, i, j) && !b[i][j].isFlagged && b[i][j].isMine)
    ensures forall p, q :: FirstMine(b, y, x, i, j, p, q) <==> FirstMine(b1, y, x, i, j + 1, p, q)
  {
    forall p, q
      ensures FirstMine(b, y, x, i, j, p, q) ==> FirstMine(b1, y, x, i, j + 1, p, q)
    {
      if FirstMine(b, y, x, i, j, p, q) {
        assert InBounds(b1, p, q);
        forall p', q' | Pending(y, x, i, j + 1, p', q') && !Pending(y, x, p, q, p', q') && InBounds(b1, p', q')
          ensures b1[p'][q'].isFlagged || !b1[p'][q'].isMine
        {
          assert Pending(y, x, i, j, p', q') && InBounds(b, p', q');
        }
      }
    }
    forall p, q
      ensures FirstMine(b1, y, x, i, j + 1, p, q) ==> FirstMine(b, y, x, i, j, p, q)
    {
      if FirstMine(b1, y, x, i, j + 1, p, q) {
        assert InBounds(b, p, q);
        forall p', q' | Pending(y, x, i, j, p', q') && !Pending(y, x, p, q, p', q') && InBounds(b, p', q')
          ensures b[p'][q'].isFlagged || !b[p'][q'].isMine
        {
          if p' != i || q' != j {
            assert Pending(y, x, i, j + 1, p', q') && InBounds(b1, p', q');
          }
        }
      }
    }
  }

  /** An in-bounds, unflagged mine at (i, j) is the first mine from (i, j) on, and the only one. */
  lemma FirstMineHere(b: Board, y: int, x: int, i: int, j: int)
    requires y - 1 <= i <= y + 1 && x - 1 <= j <= x + 1
    requires InBounds(b, i, j) && !b[i][j].isFlagged && b[i][j].isMine
    ensures FirstMine(b, y, x, i, j, i, j)
    ensures forall p, q | FirstMine(b, y, x, i, j, p, q) :: p == i && q == j
  {
  }

  /**
   * The chord's opening loop from (i, j) on opens at most one mine: a mine whose `isOpened` changes
   * is the first unflagged mine from (i, j) on, and the result is then true; when the result is true,
   * that first mine is open.
   */
  lemma {:induction false} ChordFromMines(b: Board, y: int, x: int, i: int, j: int)
    requires y - 1 <= i <= y + 2 && x - 1 <= j <= x + 2
    ensures forall p, q | InBounds(b, p, q) && b[p][q].isMine && ChordFrom(b, y, x, i, j).0[p][q].isOpened != b[p][q].isOpened ::
      ChordFrom(b, y, x, i, j).1 && FirstMine(b, y, x, i, j, p, q)
    ensures ChordFrom(b, y, x, i, j).1 ==>
      forall p, q | FirstMine(b, y, x, i, j, p, q) :: ChordFrom(b, y, x, i, j).0[p][q].isOpened
    decreases y + 2 - i, x + 2 - j
  {
    if i == y + 2 {
    } else if j == x + 2 {
      ChordFromMines(b, y, x, i + 1, x - 1);
      FirstMineRowEnd(b, y, x, i, j);
    } else if !InBounds(b, i, j) {
      ChordFromMines(b, y, x, i, j + 1);
      OpeningKeepsMines(b, b);
      FirstMineSkip(b, b, y, x, i, j);
    } else {
      var b1: Board := ChordStep(b, i, j);
      ChordStepOpens(b, i, j);
      ChordStepMines(b, i, j);
      OpeningKeepsMines(b, b1);
      if !b1[i][j].isFlagged && b1[i][j].isOpened && b1[i][j].isMine {
        FirstMineHere(b, y, x, i, j);
      } else {
        ChordFromMines(b1, y, x, i, j + 1);
        ChordMineStep(b, b1, ChordFrom(b1, y, x, i, j + 1), y, x, i, j);
      }
    }
  }

  /** The step of `ChordFromMines` where neighbour (i, j) is handled and the loop goes on. */
  lemma ChordMineStep(b: Board, b1: Board, r: (Board, bool), y: int, x: int, i: int, j: int)
    requires y - 1 <= i <= y + 1 && x - 1 <= j <= x + 1 && InBounds(b, i, j)
    requires SameMinesAndFlags(b, b1) && (!b[i][j].isFlagged ==> b1[i][j].isOpened)
    requires b[i][j].isFlagged ==> b1[i][j] == b[i][j]
    requires !(!b1[i][j].isFlagged && b1[i][j].isOpened && b1[i][j].isMine)
    requires forall p, q | InBounds(b, p, q) && b[p][q].isMine && (p != i || q != j) :: b1[p][q].isOpened == b[p][q].isOpened
    requires SameShape(b1, r.0)
    requires forall p, q | InBounds(b1, p, q) && b1[p][q].isMine && r.0[p][q].isOpened != b1[p][q].isOpened ::
      r.1 && FirstMine(b1, y, x, i, j + 1, p, q)
    requires r.1 ==> forall p, q | FirstMine(b1, y, x, i, j + 1, p, q) :: r.0[p][q].isOpened
    ensures forall p, q | InBounds(b, p, q) && b[p][q].isMine && r.0[p][q].isOpened != b[p][q].isOpened ::
      r.1 && FirstMine(b, y, x, i, j, p, q)
    ensures r.1 ==> forall p, q | FirstMine(b, y, x, i, j, p, q) :: r.0[p][q].isOpened
  {
    assert InBounds(b1, i, j);
    FirstMineSkip(b, b1, y, x, i, j);
    forall p, q | InBounds(b, p, q) && b[p][q].isMine && r.0[p][q].isOpened != b[p][q].isOpened
      ensures r.1 && FirstMine(b, y, x, i, j, p, q)
    {
      assert InBounds(b1, p, q);
      assert b1[p][q].isMine && r.0[p][q].isOpened != b1[p][q].isOpened;
    }
  }

  /**
   * A chord opens at most one mine, the first unflagged mine of the 3x3 block in row-major order: a
   * mine whose `isOpened` changes is that first mine, and the result is then true; when the result is
   * true, that first mine is open.
   */
  lemma ChordMines(b: Board, y: int, x: int)
    requires InBounds(b, y, x)
    ensures forall p, q | InBounds(b, p, q) && b[p][q].isMine && Chord(b, y, x).0[p][q].isOpened != b[p][q].isOpened ::
      Chord(b, y, x).1 && FirstMine(b, y, x, y - 1, x - 1, p, q)
    ensures Chord(b, y, x).1 ==>
      forall p, q | FirstMine(b, y, x, y - 1, x - 1, p, q) :: Chord(b, y, x).0[p][q].isOpened
  {
    if b[y][x].borderingMineCount == FlagsAround(b, y, x) {
      ChordFromMines(b, y, x, y - 1, x - 1);
    }
  }

  lemma {:induction false} FlagsFromIgnoresOrigin(b: Board, y: int, x: int, i: int, j: int, t: Tile)
    requires InBounds(b, 0, 0)
    requires y - 1 <= i <= y + 2 && x - 1 <= j <= x + 2
    ensures FlagsFrom(Update(b, 0, 0, t), y, x, i, j) == FlagsFrom(b, y, x, i, j)
    decreases y + 2 - i, x + 2 - j
  {
    if i == y + 2 {
    } else if j == x + 2 {
      FlagsFromIgnoresOrigin(b, y, x, i + 1, x - 1, t);
    } else {
      FlagsFromIgnoresOrigin(b, y, x, i, j + 1, t);
    }
  }

  /** As written, a flag on the corner tile (0, 0) never takes part in a chord's flag count. */
  lemma FlagsAroundIgnoresOrigin(b: Board, y: int, x: int, t: Tile)
    requires InBounds(b, 0, 0)
    ensures FlagsAround(Update(b, 0, 0, t), y, x) == FlagsAround(b, y, x)
  {
    FlagsFromIgnoresOrigin(b, y, x, y - 1, x - 1, t);
  }
}
