# Minesweeper minefield engine in Dafny

This project models the engine of a terminal Minesweeper game, `Minesweeper/Program.cs`. The model covers:

- **The `Mines` class.** It holds a `height × width` grid of tiles. Each tile has four fields: `isMine`, `borderingMineCount`, `isOpened` and `isFlagged`.
- **Mine placement.** `Add_Mines` places mines by rejection sampling around an excluded cell.
- **Counting.** `CountMineBordering` counts each tile's neighbouring mines.
- **The player's action.** `OpenOrFlagTile` dispatches to two operations:
  - the recursive flood fill `RevealEmptyNeighborTiles`;
  - the chord `HandleChord`.
- **Read-only folds.** `CountRemainingMines` and `HasWon`.
- **From `Program`:**
  - the cursor update `UpdatePlayerPosition`;
  - the mine-count clamp in `Main`;
  - the first space press, which places the mines around the cursor and then acts on the tile under it like any space press.

The model has two layers.

- **Pure layer.** Each operation is a function on `Board = seq<seq<Tile>>`. It is written in the source's own loop order: row-major over the 3×3 block, recursion where the source recurses. Lemmas state what the source promises about these functions.
  - `Grid`: tiles, boards, and counting over a board.
  - `Placement`: the rejection loop and the marking loop of `Add_Mines`.
  - `Adjacency`: `CountMineBordering`.
  - `FloodFill`: the flood fill.
  - `Chording`: the chord.
  - `Actions`: the dispatch in `OpenOrFlagTile`, and the rules every action keeps.
- **Imperative layer.** `Engine.Mines` is a class over `array2<Tile>` whose methods update the array in place.
  - The ghost field `board` mirrors the array. `Valid()` ties the two together.
  - Each method is proved to leave `board` equal to the pure function of the old board, or to return what that function returns.
  - Every tile write goes through `SetTile`.
  - The source's nested loops are split at the loop body. `BumpAround`/`BumpTile`, `RevealRow`/`RevealNeighbor`, `CountNeighborFlags` and `ChordRow`/`ChordNeighbor` are the inner loops and bodies of `CountMineBordering`, `RevealEmptyNeighborTiles` and `HandleChord`. Each one is proved against the same row-major function.
- **`Program` module.** The cursor update works in place on an `int[2]`, as the source does. The clamp is a function. `FirstPress` drives a `Mines` object through the first space press.

**Behaviours of the code that the model keeps as written:**

- **The chord's flag count skips the absolute cell (0, 0), not the chord's centre.**
  - The centre is always opened, so it is never flagged.
  - The real effect is that a flag on (0, 0) is never counted (`Chording.FlagsAroundIgnoresOrigin`).
- **A chord that opens a mine also runs the flood fill from that mine.**
  - Mines keep a count of 0, so the fill spreads from the mine before `true` is returned.
  - `ChordStep` reproduces this.
- **Placement can never finish once the very first draw equals `exclude`.**
  - The rejection flag is then never cleared, because the duplicate scan runs over an empty list.
  - The random source is modelled as a finite sequence of draws. "Never finishes" and "the draws ran out" both show up as `ChooseMines` returning `None` (`Placement.FirstDrawExcludedNeverEnds`).
- **The mine-count clamp applies only when `height * width <= mines`, and then gives `height * width / 2`, truncated toward zero.**
  - Any smaller request is kept, so a request may use more than half the tiles.
  - It is never more than `height * width - 1` on a non-empty grid.
- **The flood fill recurses and visits neighbours in row-major order.**
  - The model keeps that recursion and that order, rather than using a work list.
  - Termination is on the number of closed tiles: each recursive call follows the opening of a closed tile.
- **The first space press protects the tile under the cursor from mines, but opens it only if it is not flagged.**
  - Flags can be set before the first press. With the cursor tile flagged, the mines are placed and counted, and the press then changes nothing.
  - Every other tile may then hold a mine. On a 1×2 grid, `f` at (0, 0), space, right arrow and space lose (`Program.FlaggedFirstTileLoses`).
- **A chord stops at the first unflagged mine of the block in row-major order.** That mine is the only one it opens (`Chording.ChordMines`).
- **`CountRemainingMines` is not clamped**, so it can be negative.
- **`HasWon` ignores flags.**

## Model

| member | source | states |
|---|---|---|
| Grid.EmptyBoard | Minesweeper/Program.cs:19-25 | a new grid has `height` rows of `width` default tiles: no mine, count 0, closed, unflagged |
| Engine.Mines.constructor | Minesweeper/Program.cs:19-25 | the engine keeps the dimensions and the mine total and allocates a `height × width` grid of default tiles |
| Engine.Mines.SetTile | Minesweeper/Program.cs:69-72 | writing one tile changes that tile of the board and nothing else |
| Placement.ChooseMinesGood | Minesweeper/Program.cs:33-65 | when the rejection loop finishes, the locations are pairwise distinct, never `exclude`, all taken from the draws (so in bounds), and exactly `TotalMines` many (none for a negative total) |
| Placement.FirstDrawExcludedNeverEnds | Minesweeper/Program.cs:40-64 | if the first draw is `exclude` and a mine is wanted, no later draw is ever accepted |
| Placement.ChooseFreshDraws | Minesweeper/Program.cs:33-65 | with distinct draws that avoid `exclude`, placement takes exactly the first `TotalMines` draws, in order |
| Placement.PlaceTiles | Minesweeper/Program.cs:68-72 | the marking loop sets `isMine` exactly on the chosen locations and changes no other field |
| Placement.PlaceCount | Minesweeper/Program.cs:68-72 | on a grid without mines, marking k distinct locations leaves exactly k mines |
| Engine.Mines.AddMines | Minesweeper/Program.cs:28-75 | succeeds exactly when the rejection loop finishes on the draws; then `mineLocations` is the chosen list, the board is the marked board, and the list is distinct, avoids `exclude` and has `TotalMines` entries; otherwise nothing changes |
| Adjacency.BumpFromTiles | Minesweeper/Program.cs:84-93 | the block loops for one mine add one to the count of every in-bounds non-mine tile still to be visited, and change nothing else |
| Adjacency.BorderingTiles | Minesweeper/Program.cs:78-95 | after the counting pass, a non-mine tile's count has grown by the number of locations whose 3×3 block holds it; mine tiles and all other fields are unchanged |
| Adjacency.AdjacentCountInBlock | Minesweeper/Program.cs:78-95 | for distinct locations, the number of locations whose block holds (i, j) equals the number of locations in (i, j)'s own block |
| Adjacency.AdjacentCountIsNeighbourMines | Minesweeper/Program.cs:78-95 | when the locations are exactly the board's mines, that number is the count of mines among the in-bounds neighbours and the tile itself |
| Adjacency.SetupTiles | Minesweeper/Program.cs:68-95 | placing and then counting on a grid with no mines, counts or opened tiles (flags allowed) gives every tile its mine bit and its block count (0 for mines), and changes no other field, flags included |
| Adjacency.SetupCounts | Minesweeper/Program.cs:68-95 | after placement and counting on a grid with no mines, counts or opened tiles: the mines are exactly the locations, their number is the number of locations, every non-mine count equals its neighbouring mines and lies in 0..8, mines keep 0, nothing is opened, and every flag set before the first press is kept |
| Engine.Mines.CountMineBordering | Minesweeper/Program.cs:78-95 | the array becomes the counted board for the stored `mineLocations` |
| Engine.Mines.BumpAround | Minesweeper/Program.cs:84-93 | the two block loops for one mine do what the block function does |
| Engine.Mines.BumpTile | Minesweeper/Program.cs:88-91 | the guarded increment bumps the count only on an in-bounds non-mine tile |
| FloodFill.Reveal | Minesweeper/Program.cs:171-194 | the fill keeps the grid's shape, never increases the number of closed tiles, and does nothing from a tile whose count is not zero |
| FloodFill.RevealSafe | Minesweeper/Program.cs:171-194 | the fill only opens tiles that were closed, unflagged and not mines, and changes no other field: it never closes a tile and never touches mines, flags or counts |
| FloodFill.RevealExpands | Minesweeper/Program.cs:171-194 | every zero-count tile the fill opens, and the start tile if its count is zero, ends with every unflagged non-mine tile of its 3×3 block open |
| FloodFill.RevealReach | Minesweeper/Program.cs:171-194 | the fill opens nothing beyond what it must: every tile it opens is joined to the start by a chain of neighbouring tiles with count zero, each of them opened by the same fill; with `RevealExpands` the opened tiles are exactly the zero region reached from the start and its border |
| Engine.Mines.RevealEmptyNeighborTiles | Minesweeper/Program.cs:171-194 | the recursive method leaves the array equal to the fill from (y, x); it terminates on the number of closed tiles |
| Engine.Mines.RevealRow | Minesweeper/Program.cs:179-193 | one row of the neighbour loops does what the fill's row does, and closes nothing |
| Engine.Mines.RevealNeighbor | Minesweeper/Program.cs:182-191 | the loop body skips out-of-range cells, opens a closed, unflagged non-mine neighbour and recurses from it |
| Chording.ChordStepOpens | Minesweeper/Program.cs:233-237 | handling one neighbour opens only unflagged tiles and opens that neighbour unless it is flagged, even a mine |
| Chording.ChordFromOpens | Minesweeper/Program.cs:224-246 | the chord's opening loops only open unflagged tiles |
| Chording.ChordFromOutcome | Minesweeper/Program.cs:224-246 | the opening loops return true exactly when an unflagged mine lies among the neighbours still to visit, and then an open mine is among them; when they return false every such unflagged neighbour is open |
| Chording.ChordOutcome | Minesweeper/Program.cs:196-247 | on a flag mismatch the board is unchanged and the result false; otherwise only unflagged tiles open, the result is true exactly when an unflagged mine is in the block (and a mine of the block is then open), and a false result leaves every unflagged tile of the block open |
| Chording.ChordMines | Minesweeper/Program.cs:224-246 | the chord opens at most one mine, the first unflagged mine of the block in row-major order: any mine whose `isOpened` changes is that first mine and the result is then true; a true result leaves that first mine open |
| Chording.FlagsAroundIgnoresOrigin | Minesweeper/Program.cs:198-216 | as written, whatever the tile at (0, 0) holds, it never changes the chord's flag count |
| Engine.Mines.HandleChord | Minesweeper/Program.cs:196-247 | the method leaves the array as the chord function does and returns its result |
| Engine.Mines.CountNeighborFlags | Minesweeper/Program.cs:198-216 | the flag-counting loops return the chord's flag count, which skips (0, 0) |
| Engine.Mines.ChordRow | Minesweeper/Program.cs:224-245 | one row of the opening loops either stops with `true` where the chord does, or leaves the state the chord reaches at the next row |
| Engine.Mines.ChordNeighbor | Minesweeper/Program.cs:228-242 | the loop body opens and fills from an unflagged neighbour, and reports `true` exactly when the chord stops there |
| Actions.OpenOrFlagKeepsRules | Minesweeper/Program.cs:142-169 | every action keeps flagged tiles closed, never closes a tile, and never changes where the mines are or their counts |
| Actions.OpenClosedTile | Minesweeper/Program.cs:146-155 | space on a closed, unflagged tile opens it and reports a loss exactly when it is a mine; a mine is opened alone with nothing else changed, and on a safe tile the flood fill then runs from it |
| Actions.NoOpActions | Minesweeper/Program.cs:142-169 | space on a flagged tile, `f`/`F` on an opened tile, and any other key change nothing and return false |
| Actions.FlagTwice | Minesweeper/Program.cs:163-166 | `f`/`F` on a closed tile flips only its flag, so doing it twice restores the board |
| Actions.FlagChangesFlagCount | Minesweeper/Program.cs:163-166 | flagging a closed tile adds one to the number of flags, unflagging removes one |
| Actions.HitOpensMine | Minesweeper/Program.cs:142-169 | a reported loss always leaves an opened mine on the board |
| Engine.Mines.OpenOrFlagTile | Minesweeper/Program.cs:142-169 | the method leaves the array as the dispatch function does and returns its loss flag |
| Engine.Mines.CountRemainingMines | Minesweeper/Program.cs:249-261 | the result is the given total minus the number of flagged tiles, unclamped |
| Engine.Mines.HasWon | Minesweeper/Program.cs:263-273 | the result is true exactly when every non-mine tile is opened, whatever the flags |
| Program.UpdatePlayerPosition | Minesweeper/Program.cs:294-314 | the `{y, x}` array is updated in place, returned, and holds the moved cursor |
| Program.MovedStaysInside | Minesweeper/Program.cs:294-314 | a cursor inside the minefield stays inside it |
| Program.MovedOneStep | Minesweeper/Program.cs:294-314 | the cursor moves exactly when an arrow key points away from an edge, and then by one step along that arrow |
| Program.OtherKeysStay | Minesweeper/Program.cs:294-314 | any key other than the four arrows leaves the cursor unchanged |
| Program.TruncDiv | Minesweeper/Program.cs:387 | C# integer division by a positive divisor: the quotient truncates toward zero and the remainder has the dividend's sign |
| Program.ClampMineCountBounds | Minesweeper/Program.cs:385-388 | a request below the tile count stands; otherwise it becomes half the tile count truncated; on a non-empty grid the result is below the tile count |
| Program.BeforeSetupKept | Minesweeper/Program.cs:163-166 | before the first space press the grid holds no mines, counts or opened tiles: a new grid qualifies, and every key other than space, `f` included, keeps it so |
| Program.ExcludedTileSafe | Minesweeper/Program.cs:436-443 | after placement around `exclude` and counting on a grid with no mines, counts or opened tiles, the excluded tile is closed, not a mine, and keeps whatever flag it had |
| Program.FirstPress | Minesweeper/Program.cs:436-446 | the first space press places the mines away from the cursor and counts them, and the board then becomes what space does to the cursor tile of the counted board; the cursor stays in place and the press never loses; an unflagged cursor tile ends open, a flagged one leaves the counted board unchanged |
| Program.FlaggedFirstTileLoses | Minesweeper/Program.cs:436-446 | as written, with the cursor tile flagged before the first press, the press opens nothing and a later press can open a mine: on a 1×2 grid, `f` at (0, 0), space, right arrow and space lose |

## Left out

- **Drawing and the event loop.** `DisplayMines`, `CalculateRemainingMines` and the NCurses windows, colours and input in `Main` are left out. They only draw, and their state is the terminal's.
- **Argument parsing and terminal-size clamping.** `int.Parse` with `Math.Abs`, the fallback to defaults, and the `GetMaxYX` clamp are left out. They turn text and terminal size into the three numbers the model takes as parameters.
- **Restart and exit.** Restart by calling `Main` again, and `ShouldExit`, are left out: they start a new engine or end the program and hold no engine logic.
- **`System.Random`.** It is replaced by the sequence of positions it would draw. An endless rejection loop appears as the draws running out.
- Engine.Mines.AddMines: the source loops forever when no acceptable draw comes; the model returns `false` when its draws run out, with the board unchanged.
- Engine.Mines.constructor: dimensions are `nat`. A negative dimension, which the source's `GetMaxYX` clamp can produce on a tiny terminal, makes C# throw on allocation, and that path is not modelled.
- Engine.Mines.CountMineBordering: `mineLocations` starts as the empty list. In the source it is `null` until `Add_Mines` runs, and calling `CountMineBordering` before that would throw.
- Program.ClampMineCountBounds: products and counts are unbounded integers, so 32-bit overflow of `height * width` is not modelled. Parsed values are bounded by the terminal clamp, so such overflow cannot occur in play.
- **Recursion depth.** Deep flood-fill recursion may overflow the .NET stack on large boards. The model does not capture stack overflow.
- **The whole event loop.** Only the first space press is modelled as a sequence (`FirstPress`). Every later turn is a single `UpdatePlayerPosition` followed by a single `OpenOrFlagTile`.
