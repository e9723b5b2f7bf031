/**
 * The two pieces of `Program` that belong to the game's logic: the cursor update on arrow keys and
 * the mine-count clamp applied to the command-line arguments, plus the first space press, which
 * places the mines around the cursor and then acts on the tile under it like any space press.
 */
module Program {
  import opened Grid
  import opened Placement
  import opened Adjacency
  import opened Actions
  import opened Engine

  /** The curses arrow key codes (`KEY_DOWN`, `KEY_UP`, `KEY_LEFT`, `KEY_RIGHT`). */
  const KeyDown: int := 258
  const KeyUp: int := 259
  const KeyLeft: int := 260
  const KeyRight: int := 261

  predicate IsArrow(key: int)
  {
    key == KeyUp || key == KeyDown || key == KeyLeft || key == KeyRight
  }

  /** Where the cursor `p` goes on `key`, on a minefield of `height` rows and `width` columns. */
  function Moved(key: int, p: Pos, height: int, width: int): Pos
  {
    if key == KeyUp && p.row > 0 then p.(row := p.row - 1)
    else if key == KeyDown && p.row < height - 1 then p.(row := p.row + 1)
    else if key == KeyLeft && p.col > 0 then p.(col := p.col - 1)
    else if key == KeyRight && p.col < width - 1 then p.(col := p.col + 1)
    else p
  }

  /**
   * `UpdatePlayerPosition(key, playerPositionYX, ...)`: the `{y, x}` array is changed in place and
   * returned.
   */
  method UpdatePlayerPosition(key: int, playerPositionYX: array<int>, minefieldScreenHeight: int, minefieldScreenWidth: int)
    returns (r: array<int>)
    requires playerPositionYX.Length == 2
    modifies playerPositionYX
    ensures r == playerPositionYX
    ensures Pos(r[0], r[1]) ==
      Moved(key, Pos(old(playerPositionYX[0]), old(playerPositionYX[1])), minefieldScreenHeight, minefieldScreenWidth)
  {
    if key == KeyUp && playerPositionYX[0] > 0 {
      playerPositionYX[0] := playerPositionYX[0] - 1;
    } else if key == KeyDown && playerPositionYX[0] < minefieldScreenHeight - 1 {
      playerPositionYX[0] := playerPositionYX[0] + 1;
    } else if key == KeyLeft && playerPositionYX[1] > 0 {
      playerPositionYX[1] := playerPositionYX[1] - 1;
    } else if key == KeyRight && playerPositionYX[1] < minefieldScreenWidth - 1 {
      playerPositionYX[1] := playerPositionYX[1] + 1;
    }
    return playerPositionYX;
  }

  /** A cursor inside the minefield stays inside it, whatever the key. */
  lemma MovedStaysInside(key: int, p: Pos, height: int, width: int)
    requires 0 <= p.row < height && 0 <= p.col < width
    ensures var r := Moved(key, p, height, width); 0 <= r.row < height && 0 <= r.col < width
  {
  }

  /**
   * The cursor moves exactly when an arrow key points away from an edge, and then by exactly one
   * step along that arrow's axis.
   */
  lemma MovedOneStep(key: int, p: Pos, height: int, width: int)
    ensures var r := Moved(key, p, height, width);
      (r != p <==>
        (key == KeyUp && p.row > 0) || (key == KeyDown && p.row < height - 1) ||
        (key == KeyLeft && p.col > 0) || (key == KeyRight && p.col < width - 1)) &&
      (r.row - p.row) * (r.row - p.row) + (r.col - p.col) * (r.col - p.col) <= 1 &&
      (r.row != p.row ==> r.row - p.row == (if key == KeyUp then -1 else 1)) &&
      (r.col != p.col ==> r.col - p.col == (if key == KeyLeft then -1 else 1))
  {
  }

  /** Every key other than the four arrows, space and `f` included, leaves the cursor where it is. */
  lemma OtherKeysStay(key: int, p: Pos, height: int, width: int)
    requires !IsArrow(key)
    ensures Moved(key, p, height, width) == p
  {
  }

  /** C#'s `/` on `int`, which truncates toward zero, for a positive divisor. */
  function TruncDiv(a: int, b: int): (q: int)
    requires b > 0
    ensures 0 <= a ==> 0 <= q && 0 <= a - q * b < b
    ensures a < 0 ==> q <= 0 && -b < a - q * b <= 0
  {
    if a >= 0 then a / b else -((-a) / b)
  }

  /**
   * The mine-count clamp in `Main`: when the minefield has no more tiles than requested mines, the
   * count becomes half the tiles; otherwise the request stands.
   */
  function ClampMineCount(height: int, width: int, totalMines: int): int
  {
    if height * width <= totalMines then TruncDiv(height * width, 2) else totalMines
  }

  /**
   * The clamp leaves a request below the tile count untouched, halves the tile count otherwise,
   * and on a non-empty minefield always leaves fewer mines than tiles, so at least one tile (the
   * first one opened) can stay free of mines.
   */
  lemma ClampMineCountBounds(height: int, width: int, totalMines: int)
    ensures var t := ClampMineCount(height, width, totalMines);
      (height * width > totalMines ==> t == totalMines) &&
      (height * width <= totalMines ==> 0 <= height * width - 2 * t <= 1 || (height * width < 0 && -1 <= height * width - 2 * t <= 0)) &&
      (height * width > 0 ==> t < height * width) &&
      (totalMines >= 0 && height * width >= 0 ==> t >= 0)
  {
  }

  /**
   * Before the first space press the grid is as allocated but for flags: a new grid qualifies, and
   * every key other than space keeps it so.
   */
  lemma BeforeSetupKept(b: Board, key: int, y: int, x: int)
    requires InBounds(b, y, x) && BeforeSetup(b) && key != Space
    ensures BeforeSetup(OpenOrFlag(b, key, y, x).0)
    ensures forall h: nat, w: nat :: BeforeSetup(EmptyBoard(h, w))
  {
    var r := OpenOrFlag(b, key, y, x).0;
    forall i, j | InBounds(r, i, j)
      ensures !r[i][j].isMine && r[i][j].borderingMineCount == 0 && !r[i][j].isOpened
    {
      assert InBounds(b, i, j);
    }
  }

  /**
   * After placement around `exclude` and counting, the excluded tile is closed and not a mine, and
   * keeps the flag it had before the press.
   */
  lemma ExcludedTileSafe(b0: Board, locs: seq<Pos>, exclude: Pos)
    requires AllInBounds(b0, locs) && Distinct(locs) && exclude !in locs && InBounds(b0, exclude.row, exclude.col)
    requires BeforeSetup(b0)
    ensures var b := Bordering(Place(b0, locs), locs);
      InBounds(b, exclude.row, exclude.col) && !b[exclude.row][exclude.col].isMine &&
      !b[exclude.row][exclude.col].isOpened &&
      b[exclude.row][exclude.col].isFlagged == b0[exclude.row][exclude.col].isFlagged
  {
    SetupTiles(b0, locs);
  }

  /**
   * The first space press: `exclude` takes the cursor, the mines are placed and counted, the cursor
   * does not move (space is not an arrow), and space acts on the tile under it. That tile is never a
   * mine, so the press never loses; it is opened unless it was flagged beforehand, in which case the
   * press changes nothing after the set-up. `placed` is false when the draws run out before placement
   * finishes; the game then never gets past this point.
   */
  method FirstPress(minefield: Mines, playerPositionYX: Pos, draws: seq<Pos>) returns (placed: bool, wrongTileChoosen: bool)
    requires minefield.Valid() && BeforeSetup(minefield.board)
    requires 0 <= playerPositionYX.row < minefield.screenHeight && 0 <= playerPositionYX.col < minefield.screenWidth
    requires forall d | d in draws :: 0 <= d.row < minefield.screenHeight && 0 <= d.col < minefield.screenWidth
    modifies minefield, minefield.minefield
    ensures minefield.Valid()
    ensures placed == ChooseMines(playerPositionYX, draws, minefield.totalMines).Some?
    ensures !placed ==> minefield.board == old(minefield.board)
    ensures placed ==>
      AllInBounds(old(minefield.board), minefield.mineLocations) &&
      (minefield.board, wrongTileChoosen) ==
        OpenOrFlag(Bordering(Place(old(minefield.board), minefield.mineLocations), minefield.mineLocations),
                   Space, playerPositionYX.row, playerPositionYX.col)
    ensures placed ==> |minefield.mineLocations| == (if minefield.totalMines < 0 then 0 else minefield.totalMines)
    ensures placed ==> playerPositionYX !in minefield.mineLocations
    ensures !wrongTileChoosen
    ensures placed && !old(minefield.board[playerPositionYX.row][playerPositionYX.col].isFlagged) ==>
      minefield.board[playerPositionYX.row][playerPositionYX.col].isOpened
    ensures placed && old(minefield.board[playerPositionYX.row][playerPositionYX.col].isFlagged) ==>
      minefield.board == Bordering(Place(old(minefield.board), minefield.mineLocations), minefield.mineLocations) &&
      !minefield.board[playerPositionYX.row][playerPositionYX.col].isOpened
  {
    var exclude := playerPositionYX;
    placed := minefield.AddMines(exclude, draws);
    if !placed {
      return false, false;
    }
    ghost var b0 := old(minefield.board);
    ghost var locs := minefield.mineLocations;
    minefield.CountMineBordering();
    ExcludedTileSafe(b0, locs, exclude);
    ghost var b: Board := minefield.board;
    OtherKeysStay(Space, playerPositionYX, minefield.screenHeight, minefield.screenWidth);
    var yx := new int[2];
    yx[0], yx[1] := playerPositionYX.row, playerPositionYX.col;
    yx := UpdatePlayerPosition(Space, yx, minefield.screenHeight, minefield.screenWidth);
    var cursor := Pos(yx[0], yx[1]);
    if b[cursor.row][cursor.col].isFlagged {
      NoOpActions(b, Space, cursor.row, cursor.col);
    } else {
      OpenClosedTile(b, cursor.row, cursor.col);
    }
    wrongTileChoosen := minefield.OpenOrFlagTile(Space, cursor);
  }

  /**
   * As written, the first press protects the cursor tile only if it is not flagged: on a 1x2 grid,
   * `f` at (0, 0) and then space place the single mine at (0, 1), the only other draw, and open
   * nothing; moving right and pressing space then opens the mine.
   */
  lemma FlaggedFirstTileLoses()
    ensures var b0 := OpenOrFlag(EmptyBoard(1, 2), LowerF, 0, 0).0;
      BeforeSetup(b0) && b0[0][0].isFlagged
    ensures ChooseMines(Pos(0, 0), [Pos(0, 1)], 1) == Some([Pos(0, 1)])
    ensures Moved(KeyRight, Pos(0, 0), 1, 2) == Pos(0, 1)
    ensures var b0 := OpenOrFlag(EmptyBoard(1, 2), LowerF, 0, 0).0;
      AllInBounds(b0, [Pos(0, 1)]) &&
      var b := Bordering(Place(b0, [Pos(0, 1)]), [Pos(0, 1)]);
      InBounds(b, 0, 0) && InBounds(b, 0, 1) &&
      OpenOrFlag(b, Space, 0, 0) == (b, false) && !b[0][0].isOpened && OpenOrFlag(b, Space, 0, 1).1
  {
    var e := EmptyBoard(1, 2);
    assert InBounds(e, 0, 0);
    var b0: Board := OpenOrFlag(e, LowerF, 0, 0).0;
    assert b0[0][0].isFlagged;
    var locs := [Pos(0, 1)];
    assert AllInBounds(b0, locs);
    SetupTiles(b0, locs);
    var b := Bordering(Place(b0, locs), locs);
    assert InBounds(b, 0, 0) && InBounds(b, 0, 1);
    assert Pos(0, 1) in locs && Pos(0, 0) !in locs;
    assert b[0][0].isFlagged && !b[0][0].isOpened;
    assert b[0][1].isMine && !b[0][1].isFlagged && !b[0][1].isOpened;
    assert !Rejects(Pos(0, 1), Pos(0, 0), [], false);
    assert [] + [Pos(0, 1)] == [Pos(0, 1)];
    assert Choose(Pos(0, 0), [], [Pos(0, 1)], 1, false) == Some([Pos(0, 1)]);
    assert [Pos(0, 1)][1..] == [];
  }
}
