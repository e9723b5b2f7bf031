/**
 * `Add_Mines`: mine placement by rejection sampling. The random source is replaced by the sequence of
 * positions it would draw; running out of draws stands for the loop never finishing.
 */
module Placement {
  import opened Grid

  datatype Option<T> = None | Some(value: T)

  /**
   * The `isDuplicateOrExclude` flag after one pass of the do-while body on draw `d`. The `foreach`
   * over the chosen list leaves the flag untouched when the list is empty, so a rejected draw of
   * `exclude` before the first mine is chosen keeps rejecting every later draw.
   */
  function Rejects(d: Pos, exclude: Pos, chosen: seq<Pos>, dup: bool): bool
  {
    if d == exclude then true
    else if chosen == [] then dup
    else d in chosen
  }

  /**
   * The locations the rejection loop settles on for `total` mines, having chosen `chosen` so far
   * with flag `dup`, from the remaining draws; `None` when the draws run out first.
   */
  function Choose(exclude: Pos, draws: seq<Pos>, chosen: seq<Pos>, total: int, dup: bool): Option<seq<Pos>>
    decreases |draws|
  {
    if |chosen| >= total then Some(chosen)
    else if draws == [] then None
    else if Rejects(draws[0], exclude, chosen, dup) then Choose(exclude, draws[1..], chosen, total, true)
    else Choose(exclude, draws[1..], chosen + [draws[0]], total, false)
  }

  /** The mine locations `Add_Mines(exclude)` settles on from `draws`. */
  function ChooseMines(exclude: Pos, draws: seq<Pos>, total: int): Option<seq<Pos>>
  {
    Choose(exclude, draws, [], total, false)
  }

  predicate Distinct(s: seq<Pos>)
  {
    forall m, n | 0 <= m < n < |s| :: s[m] != s[n]
  }

  /** The promises of placement: distinct, drawn, never `exclude`, and `total` of them. */
  ghost predicate GoodLocations(locs: seq<Pos>, exclude: Pos, draws: seq<Pos>, total: int)
  {
    Distinct(locs) && exclude !in locs && (forall p | p in locs :: p in draws) &&
    |locs| == (if total < 0 then 0 else total)
  }

  lemma {:induction false} ChooseGood(exclude: Pos, draws: seq<Pos>, chosen: seq<Pos>, total: int, dup: bool)
    requires Distinct(chosen) && exclude !in chosen && |chosen| <= (if total < 0 then 0 else total)
    ensures Choose(exclude, draws, chosen, total, dup).Some? ==>
      var locs := Choose(exclude, draws, chosen, total, dup).value;
      Distinct(locs) && exclude !in locs && (forall p | p in locs :: p in chosen || p in draws) &&
      |locs| == (if total < 0 then 0 else total)
    decreases |draws|
  {
    if |chosen| >= total {
    } else if draws == [] {
    } else if Rejects(draws[0], exclude, chosen, dup) {
      ChooseGood(exclude, draws[1..], chosen, total, true);
    } else {
      var d := draws[0];
      assert d != exclude && d !in chosen;
      ChooseGood(exclude, draws[1..], chosen + [d], total, false);
    }
  }

  /**
   * When placement succeeds the locations are pairwise distinct, never `exclude`, each one of the
   * draws (so in bounds when every draw is), and there are exactly `total` of them.
   */
  lemma ChooseMinesGood(exclude: Pos, draws: seq<Pos>, total: int)
    ensures ChooseMines(exclude, draws, total).Some? ==>
      GoodLocations(ChooseMines(exclude, draws, total).value, exclude, draws, total)
  {
    ChooseGood(exclude, draws, [], total, false);
  }

  lemma {:induction false} ChooseStuck(exclude: Pos, draws: seq<Pos>, total: int)
    requires total > 0
    ensures Choose(exclude, draws, [], total, true) == None
    decreases |draws|
  {
    if draws != [] {
      ChooseStuck(exclude, draws[1..], total);
    }
  }

  /**
   * As written, a first draw equal to `exclude` leaves the flag set with nothing chosen yet, and
   * then every later draw is rejected: the loop never ends, whatever the random source produces.
   */
  lemma FirstDrawExcludedNeverEnds(exclude: Pos, draws: seq<Pos>, total: int)
    requires total > 0 && draws != [] && draws[0] == exclude
    ensures ChooseMines(exclude, draws, total) == None
  {
    ChooseStuck(exclude, draws[1..], total);
  }

  /** With no bad draw, placement takes the first `total` draws. */
  lemma {:induction false} ChooseFreshDraws(exclude: Pos, draws: seq<Pos>, chosen: seq<Pos>, total: int)
    requires 0 <= |chosen| <= total <= |chosen| + |draws|
    requires Distinct(chosen + draws) && exclude !in draws
    ensures Choose(exclude, draws, chosen, total, false) == Some(chosen + draws[..total - |chosen|])
    decreases |draws|
  {
    if |chosen| < total {
      assert draws[0] !in chosen by {
        forall m | 0 <= m < |chosen|
          ensures chosen[m] != draws[0]
        {
          assert (chosen + draws)[m] == chosen[m];
          assert (chosen + draws)[|chosen|] == draws[0];
        }
      }
      assert chosen + draws == (chosen + [draws[0]]) + draws[1..];
      ChooseFreshDraws(exclude, draws[1..], chosen + [draws[0]], total);
      assert (chosen + [draws[0]]) + draws[1..][..total - |chosen| - 1] == chosen + draws[..total - |chosen|];
    } else {
      assert chosen + draws[..0] == chosen;
    }
  }

  /** `Minefield[p.row, p.col].isMine = true`. */
  function Mark(b: Board, p: Pos): (r: Board)
    requires InBounds(b, p.row, p.col)
    ensures SameShape(b, r)
  {
    Update(b, p.row, p.col, b[p.row][p.col].(isMine := true))
  }

  predicate AllInBounds(b: Board, locs: seq<Pos>)
  {
    forall n | 0 <= n < |locs| :: InBounds(b, locs[n].row, locs[n].col)
  }

  /** The final `foreach` of `Add_Mines`: every chosen location becomes a mine, in order. */
  function Place(b: Board, locs: seq<Pos>): (r: Board)
    requires AllInBounds(b, locs)
    ensures SameShape(b, r)
  {
    if locs == [] then b
    else
      var r := Place(b, locs[..|locs| - 1]);
      Mark(r, locs[|locs| - 1])
  }

  /** Placing changes only `isMine`, and sets it exactly on the locations. */
  lemma {:induction false} PlaceTiles(b: Board, locs: seq<Pos>)
    requires AllInBounds(b, locs)
    ensures forall i, j | InBounds(b, i, j) ::
      Place(b, locs)[i][j] == b[i][j].(isMine := b[i][j].isMine || Pos(i, j) in locs)
  {
    if locs != [] {
      var n := |locs| - 1;
      PlaceTiles(b, locs[..n]);
      assert locs == locs[..n] + [locs[n]];
      forall i, j | InBounds(b, i, j)
        ensures Place(b, locs)[i][j] == b[i][j].(isMine := b[i][j].isMine || Pos(i, j) in locs)
      {
        assert Pos(i, j) in locs <==> Pos(i, j) in locs[..n] || Pos(i, j) == locs[n];
      }
    }
  }

  /** On a board without mines, placing `k` distinct locations makes exactly `k` mines. */
  lemma {:induction false} PlaceCount(b: Board, locs: seq<Pos>)
    requires AllInBounds(b, locs) && Distinct(locs)
    requires Count(b, IsMine) == 0
    ensures Count(Place(b, locs), IsMine) == |locs|
  {
    if locs != [] {
      var n := |locs| - 1;
      var p := locs[n];
      PlaceCount(b, locs[..n]);
      PlaceTiles(b, locs[..n]);
      var r: Board := Place(b, locs[..n]);
      assert !r[p.row][p.col].isMine by {
        assert p !in locs[..n];
        ZeroCountNone(b, p.row, p.col);
      }
      CountUpdate(r, p.row, p.col, r[p.row][p.col].(isMine := true), IsMine);
    }
  }

  lemma ZeroCountNone(b: Board, i: int, j: int)
    requires InBounds(b, i, j) && Count(b, IsMine) == 0
    ensures !b[i][j].isMine
  {
    if b[i][j].isMine {
      CountUpdate(b, i, j, b[i][j].(isMine := false), IsMine);
    }
  }
}
