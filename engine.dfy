/**
 * The `Mines` class: the minefield engine over a 2-D array of tiles updated in place. The ghost field
 * `board` mirrors the array as a board value, and each method is proved to leave it equal to the
 * model's function of the old board.
 */
module Engine {
  import opened Grid
  import opened Placement
  import opened Adjacency
  import opened FloodFill
  import opened Chording
  import opened Actions

  class Mines {
    const screenHeight: nat
    const screenWidth: nat
    const totalMines: int
    const minefield: array2<Tile>
    var mineLocations: seq<Pos>
    /** The minefield's contents as a board value. */
    ghost var board: Board

    ghost predicate Valid()
      reads this, minefield
    {
      minefield.Length0 == screenHeight && minefield.Length1 == screenWidth &&
      |board| == screenHeight && (forall i | 0 <= i < screenHeight :: |board[i]| == screenWidth) &&
      forall i, j | 0 <= i < screenHeight && 0 <= j < screenWidth :: board[i][j] == minefield[i, j]
    }

    constructor (height: nat, width: nat, total: int)
      ensures Valid() && fresh(minefield)
      ensures screenHeight == height && screenWidth == width && totalMines == total
      ensures board == EmptyBoard(height, width)
      ensures mineLocations == []
    {
      screenHeight := height;
      screenWidth := width;
      totalMines := total;
      minefield := new Tile[height, width]((i, j) => EmptyTile);
      mineLocations := [];
      board := EmptyBoard(height, width);
    }

    /** `Minefield[i, j] = t`, the one way the methods below write a tile. */
    method SetTile(i: int, j: int, t: Tile)
      requires Valid() && 0 <= i < screenHeight && 0 <= j < screenWidth
      modifies this, minefield
      ensures Valid() && board == Update(old(board), i, j, t) && mineLocations == old(mineLocations)
    {
      minefield[i, j] := t;
      board := Update(board, i, j, t);
    }

    /**
     * `Add_Mines(exclude)`, with `draws` standing for what `random.Next` returns. On success the
     * locations are distinct, drawn, never `exclude`, `totalMines` many, and exactly they become
     * mines; when the draws run out (the source's loop would still be running) nothing changes.
     */
    method AddMines(exclude: Pos, draws: seq<Pos>) returns (ok: bool)
      requires Valid()
      requires forall d | d in draws :: 0 <= d.row < screenHeight && 0 <= d.col < screenWidth
      modifies this, minefield
      ensures Valid()
      ensures ok == ChooseMines(exclude, draws, totalMines).Some?
      ensures ok ==> mineLocations == ChooseMines(exclude, draws, totalMines).value
      ensures ok ==> GoodLocations(mineLocations, exclude, draws, totalMines)
      ensures ok ==> AllInBounds(old(board), mineLocations) && board == Place(old(board), mineLocations)
      ensures !ok ==> board == old(board) && mineLocations == old(mineLocations)
    {
      ghost var target := ChooseMines(exclude, draws, totalMines);
      var randomLocations: seq<Pos> := [];
      var k := 0;
      var i := 0;
      while i < totalMines
        invariant 0 <= i && 0 <= k <= |draws| && |randomLocations| == i
        invariant Choose(exclude, draws[k..], randomLocations, totalMines, false) == target
      {
        var isDuplicateOrExclude := false;
        var random: Pos := exclude;
        while true
          invariant 0 <= k <= |draws|
          invariant Choose(exclude, draws[k..], randomLocations, totalMines, isDuplicateOrExclude) == target
          decreases |draws| - k
        {
          if k == |draws| {
            return false;
          }
          random := draws[k];
          ghost var rest := draws[k..];
          ghost var dup0 := isDuplicateOrExclude;
          k := k + 1;
          if random == exclude {
            isDuplicateOrExclude := true;
          } else {
            var n := 0;
            while n < |randomLocations|
              invariant 0 <= n <= |randomLocations|
              invariant forall m | 0 <= m < n :: randomLocations[m] != random
              invariant isDuplicateOrExclude == (if n == 0 then dup0 else false)
            {
              if randomLocations[n] == random {
                isDuplicateOrExclude := true;
                break;
              } else {
                isDuplicateOrExclude := false;
              }
              n := n + 1;
            }
          }
          assert isDuplicateOrExclude == Rejects(random, exclude, randomLocations, dup0);
          assert rest[0] == random && rest[1..] == draws[k..];
          if !isDuplicateOrExclude {
            break;
          }
        }
        randomLocations := randomLocations + [random];
        i := i + 1;
      }
      assert target == Some(randomLocations);
      ChooseMinesGood(exclude, draws, totalMines);

      ghost var b0 := board;
      for n := 0 to |randomLocations|
        invariant Valid()
        invariant AllInBounds(b0, randomLocations[..n])
        invariant board == Place(b0, randomLocations[..n])
      {
        var p := randomLocations[n];
        assert randomLocations[..n + 1][..n] == randomLocations[..n];
        assert p in draws;
        SetTile(p.row, p.col, minefield[p.row, p.col].(isMine := true));
      }
      assert randomLocations[..|randomLocations|] == randomLocations;
      mineLocations := randomLocations;
      ok := true;
    }

    /** `CountMineBordering()`: every mine bumps the counts of the non-mine tiles around it. */
    method CountMineBordering()
      requires Valid()
      modifies this, minefield
      ensures Valid() && board == Bordering(old(board), mineLocations) && mineLocations == old(mineLocations)
    {
      ghost var b0 := board;
      var locations := mineLocations;
      for n := 0 to |locations|
        invariant Valid() && mineLocations == locations
        invariant board == Bordering(b0, locations[..n])
      {
        var y, x := locations[n].row, locations[n].col;
        ghost var prev := board;
        BumpAround(y, x);
        BorderingStep(b0, locations, n, prev, y, x);
      }
      assert locations[..|locations|] == locations;
    }

    /** The two inner loops of `CountMineBordering` for the mine at (y, x). */
    method BumpAround(y: int, x: int)
      requires Valid()
      modifies this, minefield
      ensures Valid() && mineLocations == old(mineLocations)
      ensures board == BumpFrom(old(board), y, x, y - 1, x - 1)
    {
      ghost var target := BumpFrom(board, y, x, y - 1, x - 1);
      for i := y - 1 to y + 2
        invariant Valid() && mineLocations == old(mineLocations)
        invariant BumpFrom(board, y, x, i, x - 1) == target
      {
        for j := x - 1 to x + 2
          invariant Valid() && mineLocations == old(mineLocations)
          invariant BumpFrom(board, y, x, i, j) == target
        {
          BumpTile(i, j);
        }
      }
    }

    /** The innermost body: bump the count at (i, j) when it is in bounds and not a mine. */
    method BumpTile(i: int, j: int)
      requires Valid()
      modifies this, minefield
      ensures Valid() && mineLocations == old(mineLocations)
      ensures board == Bump(old(board), i, j)
    {
      if i >= 0 && j >= 0 && i < screenHeight && j < screenWidth && !minefield[i, j].isMine {
        SetTile(i, j, minefield[i, j].(borderingMineCount := minefield[i, j].borderingMineCount + 1));
      }
    }

    /** `OpenOrFlagTile(key, playerPositionYX)`: the new board and the result are `OpenOrFlag`'s. */
    method OpenOrFlagTile(key: int, playerPositionYX: Pos) returns (hit: bool)
      requires Valid()
      requires 0 <= playerPositionYX.row < screenHeight && 0 <= playerPositionYX.col < screenWidth
      modifies this, minefield
      ensures Valid() && mineLocations == old(mineLocations)
      ensures (board, hit) == OpenOrFlag(old(board), key, playerPositionYX.row, playerPositionYX.col)
    {
      var x, y := playerPositionYX.col, playerPositionYX.row;
      if key == Space && !minefield[y, x].isOpened && !minefield[y, x].isFlagged {
        SetTile(y, x, minefield[y, x].(isOpened := true));
        if minefield[y, x].isMine {
          return true;
        }
        RevealEmptyNeighborTiles(y, x);
      } else if key == Space && minefield[y, x].isOpened && !minefield[y, x].isFlagged {
        hit := HandleChord(y, x);
        return;
      } else if (key == LowerF || key == UpperF) && !minefield[y, x].isOpened {
        SetTile(y, x, minefield[y, x].(isFlagged := !minefield[y, x].isFlagged));
      }
      return false;
    }

    /** `RevealEmptyNeighborTiles(y, x)`: the recursive flood fill, equal to `Reveal`. */
    method RevealEmptyNeighborTiles(y: int, x: int)
      requires Valid() && 0 <= y < screenHeight && 0 <= x < screenWidth
      modifies this, minefield
      ensures Valid() && mineLocations == old(mineLocations)
      ensures board == Reveal(old(board), y, x)
      decreases Count(board, IsClosed), 3
    {
      if minefield[y, x].borderingMineCount != 0 {
        return;
      }
      ghost var target := Reveal(board, y, x);
      ghost var closed := Count(board, IsClosed);
      for i := y - 1 to y + 2
        invariant Valid() && mineLocations == old(mineLocations)
        invariant RevealFrom(board, y, x, i, x - 1) == target
        invariant Count(board, IsClosed) <= closed
      {
        RevealRow(y, x, i);
        RevealFromRowEnd(board, y, x, i);
      }
    }

    /** Row `i` of the flood fill's neighbour loops around (y, x). */
    method RevealRow(y: int, x: int, i: int)
      requires Valid() && y - 1 <= i <= y + 1
      modifies this, minefield
      ensures Valid() && mineLocations == old(mineLocations)
      ensures RevealFrom(board, y, x, i, x + 2) == RevealFrom(old(board), y, x, i, x - 1)
      ensures Count(board, IsClosed) <= old(Count(board, IsClosed))
      decreases Count(board, IsClosed), 1
    {
      ghost var closed := Count(board, IsClosed);
      for j := x - 1 to x + 2
        invariant Valid() && mineLocations == old(mineLocations)
        invariant RevealFrom(board, y, x, i, j) == RevealFrom(old(board), y, x, i, x - 1)
        invariant Count(board, IsClosed) <= closed
      {
        RevealNeighbor(y, x, i, j);
      }
    }

    /** The innermost body of the flood fill: open neighbour (i, j) and fill from it when allowed. */
    method RevealNeighbor(y: int, x: int, i: int, j: int)
      requires Valid() && y - 1 <= i <= y + 1 && x - 1 <= j <= x + 1
      modifies this, minefield
      ensures Valid() && mineLocations == old(mineLocations)
      ensures RevealFrom(board, y, x, i, j + 1) == RevealFrom(old(board), y, x, i, j)
      ensures Count(board, IsClosed) <= old(Count(board, IsClosed))
      decreases Count(board, IsClosed), 0
    {
      if i < 0 || j < 0 || i >= screenHeight || j >= screenWidth {
        return;
      }
      if !minefield[i, j].isOpened && !minefield[i, j].isFlagged && !minefield[i, j].isMine {
        ghost var before: Board := board;
        SetTile(i, j, minefield[i, j].(isOpened := true));
        CountUpdate(before, i, j, before[i][j].(isOpened := true), IsClosed);
        RevealEmptyNeighborTiles(i, j);
      }
    }

    /** `HandleChord(y, x)`: count the flags around, then open the unflagged neighbours; equal to `Chord`. */
    method HandleChord(y: int, x: int) returns (hit: bool)
      requires Valid() && 0 <= y < screenHeight && 0 <= x < screenWidth
      modifies this, minefield
      ensures Valid() && mineLocations == old(mineLocations)
      ensures (board, hit) == Chord(old(board), y, x)
    {
      var neighborTilesFlagCount := CountNeighborFlags(y, x);
      if minefield[y, x].borderingMineCount != neighborTilesFlagCount {
        return false;
      }
      ghost var target := Chord(board, y, x);
      for i := y - 1 to y + 2
        invariant Valid() && mineLocations == old(mineLocations)
        invariant ChordFrom(board, y, x, i, x - 1) == target
      {
        hit := ChordRow(y, x, i);
        if hit {
          return;
        }
      }
      return false;
    }

    /** The flag-counting loops of `HandleChord`, which skip the absolute cell (0, 0). */
    method CountNeighborFlags(y: int, x: int) returns (count: nat)
      requires Valid()
      ensures count == FlagsAround(board, y, x)
    {
      count := 0;
      for i := y - 1 to y + 2
        invariant count + FlagsFrom(board, y, x, i, x - 1) == FlagsAround(board, y, x)
      {
        for j := x - 1 to x + 2
          invariant count + FlagsFrom(board, y, x, i, j) == FlagsAround(board, y, x)
        {
          if i < 0 || j < 0 || i >= screenHeight || j >= screenWidth {
            continue;
          } else if i == 0 && j == 0 {
            continue;
          } else if minefield[i, j].isFlagged {
            count := count + 1;
          }
        }
      }
    }

    /** Row `i` of the chord's opening loops; `hit` when it stopped at an opened mine. */
    method ChordRow(y: int, x: int, i: int) returns (hit: bool)
      requires Valid() && y - 1 <= i <= y + 1
      modifies this, minefield
      ensures Valid() && mineLocations == old(mineLocations)
      ensures ChordFrom(old(board), y, x, i, x - 1) ==
        if hit then (board, true) else ChordFrom(board, y, x, i + 1, x - 1)
    {
      for j := x - 1 to x + 2
        invariant Valid() && mineLocations == old(mineLocations)
        invariant ChordFrom(old(board), y, x, i, x - 1) == ChordFrom(board, y, x, i, j)
      {
        hit := ChordNeighbor(y, x, i, j);
        if hit {
          return;
        }
      }
      return false;
    }

    /** The innermost body of the chord: open (i, j) and fill from it unless flagged; `hit` on a mine. */
    method ChordNeighbor(y: int, x: int, i: int, j: int) returns (hit: bool)
      requires Valid() && y - 1 <= i <= y + 1 && x - 1 <= j <= x + 1
      modifies this, minefield
      ensures Valid() && mineLocations == old(mineLocations)
      ensures ChordFrom(old(board), y, x, i, j) ==
        if hit then (board, true) else ChordFrom(board, y, x, i, j + 1)
    {
      if i < 0 || j < 0 || i >= screenHeight || j >= screenWidth {
        return false;
      }
      if !minefield[i, j].isFlagged {
        SetTile(i, j, minefield[i, j].(isOpened := true));
        RevealEmptyNeighborTiles(i, j);
      }
      hit := !minefield[i, j].isFlagged && minefield[i, j].isOpened && minefield[i, j].isMine;
    }

    /** `CountRemainingMines(totalMines)`: the given total minus the flags on the board, unclamped. */
    method CountRemainingMines(totalMines: int) returns (remaining: int)
      requires Valid()
      ensures remaining == totalMines - Count(board, IsFlagged)
    {
      var flagCount := 0;
      for i := 0 to screenHeight
        invariant flagCount == Count(board[..i], IsFlagged)
      {
        for j := 0 to screenWidth
          invariant flagCount == Count(board[..i], IsFlagged) + CountRow(board[i][..j], IsFlagged)
        {
          CountRowPrefixStep(board[i], j, IsFlagged);
          if minefield[i, j].isFlagged {
            flagCount := flagCount + 1;
          }
        }
        CountPrefixStep(board, i, IsFlagged);
        assert board[i][..screenWidth] == board[i];
      }
      assert board[..screenHeight] == board;
      return totalMines - flagCount;
    }

    /** `HasWon()`: true exactly when every non-mine tile is opened, whatever the flags. */
    method HasWon() returns (won: bool)
      requires Valid()
      ensures won == Won(board)
    {
      for i := 0 to screenHeight
        invariant forall p, q | 0 <= p < i && 0 <= q < screenWidth :: minefield[p, q].isMine || minefield[p, q].isOpened
      {
        for j := 0 to screenWidth
          invariant forall q | 0 <= q < j :: minefield[i, q].isMine || minefield[i, q].isOpened
        {
          if !minefield[i, j].isMine && !minefield[i, j].isOpened {
            assert !Won(board) by {
              assert InBounds(board, i, j);
            }
            return false;
          }
        }
      }
      return true;
    }
  }
}
