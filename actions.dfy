/** `OpenOrFlagTile`, the player's action on the tile under the cursor, and the rules it keeps. */
module Actions {
  import opened Grid
  import opened FloodFill
  import opened Chording

  /** Key codes as the curses input loop delivers them. */
  const Space: int := ' ' as int
  const LowerF: int := 'f' as int
  const UpperF: int := 'F' as int

  /** The new board and whether a mine was opened (the loss signal). */
  function OpenOrFlag(b: Board, key: int, y: int, x: int): (Board, bool)
    requires InBounds(b, y, x)
  {
    var t := b[y][x];
    if key == Space && !t.isOpened && !t.isFlagged then
      var b1 := Open(b, y, x);
      if t.isMine then (b1, true) else (Reveal(b1, y, x), false)
    else if key == Space && t.isOpened && !t.isFlagged then
      Chord(b, y, x)
    else if (key == LowerF || key == UpperF) && !t.isOpened then
      (Update(b, y, x, t.(isFlagged := !t.isFlagged)), false)
    else
      (b, false)
  }

  /** The game is won when every tile that is not a mine is opened; flags play no part. */
  ghost predicate Won(b: Board)
  {
    forall i, j | InBounds(b, i, j) :: b[i][j].isMine || b[i][j].isOpened
  }

  /** The rule every action keeps: no tile is both flagged and opened. */
  ghost predicate FlagsClosed(b: Board)
  {
    forall i, j | InBounds(b, i, j) :: b[i][j].isFlagged ==> !b[i][j].isOpened
  }

  /** `b` follows `a` in play: same mines and counts, and every opened tile stays opened. */
  ghost predicate Follows(a: Board, b: Board)
  {
    SameShape(a, b) &&
    forall i, j | InBounds(a, i, j) ::
      b[i][j].isMine == a[i][j].isMine &&
      b[i][j].borderingMineCount == a[i][j].borderingMineCount &&
      (a[i][j].isOpened ==> b[i][j].isOpened)
  }

  /** Every action keeps flags off opened tiles, never closes a tile and never moves a mine or a count. */
  lemma OpenOrFlagKeepsRules(b: Board, key: int, y: int, x: int)
    requires InBounds(b, y, x) && FlagsClosed(b)
    ensures FlagsClosed(OpenOrFlag(b, key, y, x).0)
    ensures Follows(b, OpenOrFlag(b, key, y, x).0)
  {
    var t := b[y][x];
    var r: Board := OpenOrFlag(b, key, y, x).0;
    if key == Space && !t.isOpened && !t.isFlagged {
      var b1 := Open(b, y, x);
      if !t.isMine {
        RevealSafe(b1, y, x);
        forall i, j | InBounds(r, i, j)
          ensures r[i][j].isFlagged ==> !r[i][j].isOpened
        {
          assert InBounds(b1, i, j);
        }
      }
    } else if key == Space && t.isOpened && !t.isFlagged {
      ChordOutcome(b, y, x);
      forall i, j | InBounds(r, i, j)
        ensures r[i][j].isFlagged ==> !r[i][j].isOpened
      {
        assert InBounds(b, i, j);
      }
    }
  }

  /**
   * Space on a closed, unflagged tile opens it and reports a loss exactly when it is a mine; a mine
   * is opened alone, a safe tile starts the flood fill.
   */
  lemma OpenClosedTile(b: Board, y: int, x: int)
    requires InBounds(b, y, x) && !b[y][x].isOpened && !b[y][x].isFlagged
    ensures OpenOrFlag(b, Space, y, x).0[y][x].isOpened
    ensures OpenOrFlag(b, Space, y, x).1 == b[y][x].isMine
    ensures b[y][x].isMine ==> OpenOrFlag(b, Space, y, x).0 == Open(b, y, x)
    ensures !b[y][x].isMine ==> OpenOrFlag(b, Space, y, x).0 == Reveal(Open(b, y, x), y, x)
  {
    var b1 := Open(b, y, x);
    if !b[y][x].isMine {
      RevealSafe(b1, y, x);
      assert InBounds(b1, y, x);
    }
  }

  /** Space on a flagged tile, `f` on an opened tile, and any other key change nothing. */
  lemma NoOpActions(b: Board, key: int, y: int, x: int)
    requires InBounds(b, y, x)
    requires (key == Space && b[y][x].isFlagged) ||
             ((key == LowerF || key == UpperF) && b[y][x].isOpened) ||
             (key != Space && key != LowerF && key != UpperF)
    ensures OpenOrFlag(b, key, y, x) == (b, false)
  {
  }

  /** `f` on a closed tile flips only its flag, so flagging twice gives back the board. */
  lemma FlagTwice(b: Board, key: int, y: int, x: int)
    requires InBounds(b, y, x) && !b[y][x].isOpened && (key == LowerF || key == UpperF)
    ensures var r := OpenOrFlag(b, key, y, x);
      !r.1 && r.0 == Update(b, y, x, b[y][x].(isFlagged := !b[y][x].isFlagged)) &&
      OpenOrFlag(r.0, key, y, x) == (b, false)
  {
    var u := b[y][x].(isFlagged := !b[y][x].isFlagged);
    var r: Board := OpenOrFlag(b, key, y, x).0;
    assert r == b[y := b[y][x := u]];
    assert r[y][x].(isFlagged := !r[y][x].isFlagged) == b[y][x];
    assert b[y][x := u][x := b[y][x]] == b[y];
    assert Update(r, y, x, b[y][x]) == b;
  }

  /** Flagging a closed tile adds one flag to the board, unflagging it removes one. */
  lemma FlagChangesFlagCount(b: Board, key: int, y: int, x: int)
    requires InBounds(b, y, x) && !b[y][x].isOpened && (key == LowerF || key == UpperF)
    ensures Count(OpenOrFlag(b, key, y, x).0, IsFlagged) ==
      Count(b, IsFlagged) + (if b[y][x].isFlagged then -1 else 1)
  {
    CountUpdate(b, y, x, b[y][x].(isFlagged := !b[y][x].isFlagged), IsFlagged);
  }

  /** A reported loss is real: some mine is open afterwards. */
  lemma HitOpensMine(b: Board, key: int, y: int, x: int)
    requires InBounds(b, y, x)
    ensures OpenOrFlag(b, key, y, x).1 ==>
      exists i, j :: InBounds(b, i, j) && OpenOrFlag(b, key, y, x).0[i][j].isOpened && OpenOrFlag(b, key, y, x).0[i][j].isMine
  {
    var t := b[y][x];
    if key == Space && !t.isOpened && !t.isFlagged {
    } else if key == Space && t.isOpened && !t.isFlagged {
      ChordOutcome(b, y, x);
    }
  }
}
