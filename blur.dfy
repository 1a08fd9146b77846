/**
  Diffusion of probability mass over a toroidal grid: the 3 x 3 window,
  the wrap-around neighbour index, the scatter of every cell's mass onto
  its neighbourhood, and the final normalization (helpers.cpp, lines
  114-147).
*/
module Blurring {
  import opened Sums
  import opened Grids

  /** A non-empty grid whose rows all have the length of the first one. */
  predicate IsRectangular(g: Grid)
  {
    |g| > 0 && forall i :: 0 <= i < |g| ==> |g[i]| == |g[0]|
  }

  /** The width blur reads off the first row (0 for an empty grid). */
  function Width(g: Grid): nat
  {
    if g == [] then 0 else |g[0]|
  }

  /**
    The 3 x 3 window built from the blurring coefficient: 1 - blurring in the
    middle, blurring / 6 beside it, blurring / 12 in the corners.  blur reads
    it as window[dx + 1][dy + 1].
  */
  function Window(blurring: real): (w: Grid)
    ensures HasShape(w, 3, 3)
  {
    var centerProb := 1.0 - blurring;
    var cornerProb := blurring / 12.0;
    var adjacentProb := blurring / 6.0;
    [[cornerProb, adjacentProb, cornerProb],
     [adjacentProb, centerProb, adjacentProb],
     [cornerProb, adjacentProb, cornerProb]]
  }

  /** The window's weights add up to one, whatever the coefficient. */
  lemma WindowSumsToOne(blurring: real)
    ensures GridSum(Window(blurring)) == 1.0
  {
    GridSumOfThreeByThree(Window(blurring));
  }

  lemma RowSumOfThree(row: seq<real>)
    requires |row| == 3
    ensures RowSum(row) == row[0] + row[1] + row[2]
  {
    assert row[..2][..1] == row[..1];
    assert row[..1][..0] == [];
    assert RowSum(row) == RowSum(row[..2]) + row[2];
    assert RowSum(row[..2]) == RowSum(row[..1]) + row[1];
    assert RowSum(row[..1]) == RowSum([]) + row[0];
  }

  /** The total of a 3 x 3 grid, cell by cell. */
  lemma GridSumOfThreeByThree(w: Grid)
    requires HasShape(w, 3, 3)
    ensures GridSum(w) == w[0][0] + w[0][1] + w[0][2] + w[1][0] + w[1][1] + w[1][2] + w[2][0] + w[2][1] + w[2][2]
  {
    RowSumOfThree(w[0]);
    RowSumOfThree(w[1]);
    RowSumOfThree(w[2]);
    assert w[..3] == w;
    assert w[..2][..1] == w[..1];
    assert w[..1][..0] == w[..0] == [];
    assert GridSum(w) == GridSum(w[..2]) + RowSum(w[2]);
    assert GridSum(w[..2]) == GridSum(w[..1]) + RowSum(w[1]);
    assert GridSum(w[..1]) == GridSum([]) + RowSum(w[0]);
  }

  /**
    A weight depends only on the class of its offset (centre, beside,
    corner), so the window is symmetric and reading it as window[dy + 1][dx + 1]
    instead of window[dx + 1][dy + 1] gives the same weight.
  */
  lemma WindowByOffsetClass(blurring: real)
    ensures forall x, y :: 0 <= x < 3 && 0 <= y < 3 ==>
      Window(blurring)[x][y] ==
        if x == 1 && y == 1 then 1.0 - blurring
        else if x == 1 || y == 1 then blurring / 6.0
        else blurring / 12.0
    ensures forall x, y :: 0 <= x < 3 && 0 <= y < 3 ==> Window(blurring)[x][y] == Window(blurring)[y][x]
  {
  }

  /**
    The neighbour of index i at offset d in a dimension of size n, with
    wrap-around past either edge.  blur computes it as (i + d + n) % n
    (WrapIsModulo).
  */
  function Wrap(i: int, d: int, n: int): (r: int)
    requires 0 <= i < n && -1 <= d <= 1
    ensures 0 <= r < n
    ensures d == 0 ==> r == i
  {
    if i + d < 0 then i + d + n else if i + d < n then i + d else i + d - n
  }

  /**
    blur's index (i + d + n) % n is the wrapped neighbour, so it always lies
    in [0, n), also when n is 1.  Its dividend is never negative, so C++'s
    truncating % and Dafny's % agree on it.
  */
  lemma WrapIsModulo(i: int, d: int, n: int)
    requires 0 <= i < n && -1 <= d <= 1
    ensures 0 <= i + d + n
    ensures (i + d + n) % n == Wrap(i, d, n)
    ensures 0 <= (i + d + n) % n < n
  {
  }

  /** Stepping back by d undoes stepping by d: each cell has exactly one neighbour at each offset. */
  lemma WrapInverse(i: int, p: int, d: int, n: int)
    requires 0 <= i < n && 0 <= p < n && -1 <= d <= 1
    ensures Wrap(i, d, n) == p <==> i == Wrap(p, -d, n)
  {
  }

  /**
    Step t (0 <= t < 9) of the offset sweep, t = 3 * (dx + 1) + (dy + 1):
    the outer loop's dx and the inner loop's dy.
  */
  function Dx(t: nat): int
  {
    if t < 3 then -1 else if t < 6 then 0 else 1
  }

  function Dy(t: nat): int
  {
    t - 3 * (Dx(t) + 1) - 1
  }

  lemma StepOffsets(dx: int, dy: int)
    requires -1 <= dx <= 1 && -1 <= dy <= 1
    ensures Dx(3 * (dx + 1) + (dy + 1)) == dx
    ensures Dy(3 * (dx + 1) + (dy + 1)) == dy
  {
  }

  /**
    The weight of step t: window[dx + 1][dy + 1] (WeightIsWindowEntry); step
    4 is the centre, the odd steps are beside it and the others are corners.
  */
  function Weight(blurring: real, t: nat): real
  {
    if t == 4 then 1.0 - blurring
    else if t == 1 || t == 3 || t == 5 || t == 7 then blurring / 6.0
    else if t < 9 then blurring / 12.0
    else 0.0
  }

  lemma WeightIsWindowEntry(blurring: real, t: nat)
    requires t < 9
    ensures -1 <= Dx(t) <= 1 && -1 <= Dy(t) <= 1
    ensures Weight(blurring, t) == Window(blurring)[Dx(t) + 1][Dy(t) + 1]
  {
  }

  function Weights(blurring: real): nat -> real
  {
    (t: nat) => Weight(blurring, t)
  }

  /** The nine weights of one sweep add up to one. */
  lemma WeightsSumToOne(blurring: real)
    ensures Sum(9, Weights(blurring)) == 1.0
  {
    var w := Weights(blurring);
    calc {
      Sum(9, w);
      Sum(8, w) + w(8);
      Sum(7, w) + w(7) + w(8);
      Sum(6, w) + w(6) + w(7) + w(8);
      Sum(5, w) + w(5) + w(6) + w(7) + w(8);
      Sum(4, w) + w(4) + w(5) + w(6) + w(7) + w(8);
      Sum(3, w) + w(3) + w(4) + w(5) + w(6) + w(7) + w(8);
      Sum(2, w) + w(2) + w(3) + w(4) + w(5) + w(6) + w(7) + w(8);
      Sum(1, w) + w(1) + w(2) + w(3) + w(4) + w(5) + w(6) + w(7) + w(8);
      w(0) + w(1) + w(2) + w(3) + w(4) + w(5) + w(6) + w(7) + w(8);
    }
  }

  /**
    Mass that source cell (i, j) sends to cell (p, q) at step t of its sweep:
    grid[i][j] * window[dx + 1][dy + 1] when (p, q) is the wrapped
    (i + dy, j + dx), and nothing otherwise.
  */
  function Share(g: Grid, blurring: real, i: nat, j: nat, t: nat, p: nat, q: nat): real
  {
    if i < |g| && j < |g[i]| && j < |g[0]| && t < 9
       && Wrap(i, Dy(t), |g|) == p && Wrap(j, Dx(t), |g[0]|) == q
    then g[i][j] * Weight(blurring, t)
    else 0.0
  }

  function ShareSteps(g: Grid, blurring: real, i: nat, j: nat, p: nat, q: nat): nat -> real
  {
    (t: nat) => Share(g, blurring, i, j, t, p, q)
  }

  /** Mass that source (i, j) has sent to (p, q) in the first k steps of its sweep. */
  function Sweep(g: Grid, blurring: real, i: nat, j: nat, k: nat, p: nat, q: nat): real
  {
    Sum(k, ShareSteps(g, blurring, i, j, p, q))
  }

  function SweepsOfRow(g: Grid, blurring: real, i: nat, p: nat, q: nat): nat -> real
  {
    (j: nat) => Sweep(g, blurring, i, j, 9, p, q)
  }

  /** Mass that the first m cells of source row i have sent to (p, q). */
  function RowSpread(g: Grid, blurring: real, i: nat, m: nat, p: nat, q: nat): real
  {
    Sum(m, SweepsOfRow(g, blurring, i, p, q))
  }

  function RowSpreads(g: Grid, blurring: real, p: nat, q: nat): nat -> real
  {
    (i: nat) => RowSpread(g, blurring, i, Width(g), p, q)
  }

  /** Mass that the first n source rows have sent to (p, q). */
  function Spread(g: Grid, blurring: real, n: nat, p: nat, q: nat): real
  {
    Sum(n, RowSpreads(g, blurring, p, q))
  }

  /** newGrid once every source cell has been swept, before normalization. */
  function Accumulated(g: Grid, blurring: real): (r: Grid)
    requires IsRectangular(g)
    ensures HasShape(r, |g|, |g[0]|)
  {
    seq(|g|, p requires 0 <= p < |g| => seq(|g[0]|, q requires 0 <= q < |g[0]| => Spread(g, blurring, |g|, p, q)))
  }

  /** The result of blur: the accumulated grid, normalized. */
  function Blurred(g: Grid, blurring: real): (r: Grid)
    requires IsRectangular(g)
    requires GridSum(g) != 0.0 || |g[0]| == 0
    ensures HasShape(r, |g|, |g[0]|)
  {
    MassConserved(g, blurring);
    Normalized(Accumulated(g, blurring))
  }

  // ---------------------------------------------------------------------
  // Mass conservation: summed over all targets, every sweep step delivers
  // exactly its share, and the shares of one source add up to its mass.

  /**
    The quantities above as grids over the target cell (p, q), one grid per
    loop stage: the stages of one sweep, of one source row, and of the rows.
  */
  function ShareStages(g: Grid, blurring: real, i: nat, j: nat): nat -> ((nat, nat) -> real)
  {
    (t: nat) => (p: nat, q: nat) => Share(g, blurring, i, j, t, p, q)
  }

  function SweepStages(g: Grid, blurring: real, i: nat, j: nat): nat -> ((nat, nat) -> real)
  {
    (k: nat) => (p: nat, q: nat) => Sweep(g, blurring, i, j, k, p, q)
  }

  function RowSpreadStages(g: Grid, blurring: real, i: nat): nat -> ((nat, nat) -> real)
  {
    (m: nat) => (p: nat, q: nat) => RowSpread(g, blurring, i, m, p, q)
  }

  function FullSweeps(g: Grid, blurring: real, i: nat): nat -> ((nat, nat) -> real)
  {
    (j: nat) => (p: nat, q: nat) => Sweep(g, blurring, i, j, 9, p, q)
  }

  function SpreadStages(g: Grid, blurring: real): nat -> ((nat, nat) -> real)
  {
    (n: nat) => (p: nat, q: nat) => Spread(g, blurring, n, p, q)
  }

  function FullRows(g: Grid, blurring: real): nat -> ((nat, nat) -> real)
  {
    (i: nat) => (p: nat, q: nat) => RowSpread(g, blurring, i, Width(g), p, q)
  }

  /** All the mass of one sweep step lands on exactly one cell. */
  lemma ShareLandsOnce(g: Grid, blurring: real, i: nat, j: nat, t: nat)
    requires IsRectangular(g) && i < |g| && j < |g[0]| && t < 9
    ensures Sum2(|g|, |g[0]|, ShareStages(g, blurring, i, j)(t)) == g[i][j] * Weight(blurring, t)
  {
    WeightIsWindowEntry(blurring, t);
    Sum2Single(|g|, |g[0]|, ShareStages(g, blurring, i, j)(t),
               Wrap(i, Dy(t), |g|), Wrap(j, Dx(t), |g[0]|));
  }

  /** What source (i, j) sends at each step of its sweep, wherever it lands. */
  function SourceShares(g: Grid, blurring: real, i: nat, j: nat): nat -> real
    requires i < |g| && j < |g[i]|
  {
    (t: nat) => g[i][j] * Weight(blurring, t)
  }

  /** The nine weighted shares of a source add up to its mass. */
  lemma SourceSharesTotal(g: Grid, blurring: real, i: nat, j: nat)
    requires i < |g| && j < |g[i]|
    ensures Sum(9, SourceShares(g, blurring, i, j)) == g[i][j]
  {
    SumScale(9, Weights(blurring), g[i][j], SourceShares(g, blurring, i, j));
    WeightsSumToOne(blurring);
    TimesOne(g[i][j], Sum(9, Weights(blurring)), Sum(9, SourceShares(g, blurring, i, j)));
  }

  lemma TimesOne(c: real, s: real, cs: real)
    requires s == 1.0 && cs == c * s
    ensures cs == c
  {
  }

  /** Over the whole grid, a source's sweep delivers exactly the source's mass. */
  lemma SourceDeliversItsMass(g: Grid, blurring: real, i: nat, j: nat)
    requires IsRectangular(g) && i < |g| && j < |g[0]|
    ensures Sum2(|g|, |g[0]|, FullSweeps(g, blurring, i)(j)) == g[i][j]
  {
    forall t: nat | t < 9
      ensures Sum2(|g|, |g[0]|, ShareStages(g, blurring, i, j)(t)) == SourceShares(g, blurring, i, j)(t)
    {
      ShareLandsOnce(g, blurring, i, j, t);
    }
    Sum2OfAccumulation(|g|, |g[0]|, SweepStages(g, blurring, i, j), ShareStages(g, blurring, i, j),
                       SourceShares(g, blurring, i, j), 9);
    SourceSharesTotal(g, blurring, i, j);
    Sum2Ext(|g|, |g[0]|, FullSweeps(g, blurring, i)(j), SweepStages(g, blurring, i, j)(9));
  }

  /** Over the whole grid, the sweeps of source row i deliver the row's mass. */
  lemma RowDeliversItsMass(g: Grid, blurring: real, i: nat)
    requires IsRectangular(g) && i < |g|
    ensures Sum2(|g|, |g[0]|, FullRows(g, blurring)(i)) == RowSums(|g[0]|, Cells(g))(i)
  {
    RowSourcesDeliver(g, blurring, i);
    RowSpreadStagesAccumulate(g, blurring, i);
    Sum2OfAccumulation(|g|, |g[0]|, RowSpreadStages(g, blurring, i), FullSweeps(g, blurring, i),
                       Row(Cells(g), i), |g[0]|);
    FullRowIsLastStage(g, blurring, i);
  }

  lemma RowSourcesDeliver(g: Grid, blurring: real, i: nat)
    requires IsRectangular(g) && i < |g|
    ensures forall j: nat :: j < |g[0]| ==> Sum2(|g|, |g[0]|, FullSweeps(g, blurring, i)(j)) == Row(Cells(g), i)(j)
  {
    forall j: nat | j < |g[0]|
      ensures Sum2(|g|, |g[0]|, FullSweeps(g, blurring, i)(j)) == Row(Cells(g), i)(j)
    {
      SourceDeliversItsMass(g, blurring, i, j);
    }
  }

  lemma FullRowIsLastStage(g: Grid, blurring: real, i: nat)
    requires IsRectangular(g)
    ensures Sum2(|g|, |g[0]|, FullRows(g, blurring)(i)) == Sum2(|g|, |g[0]|, RowSpreadStages(g, blurring, i)(|g[0]|))
  {
    Sum2Ext(|g|, |g[0]|, FullRows(g, blurring)(i), RowSpreadStages(g, blurring, i)(|g[0]|));
  }

  /** Each stage of a source row adds one full sweep to the previous stage. */
  lemma RowSpreadStagesAccumulate(g: Grid, blurring: real, i: nat)
    requires IsRectangular(g)
    ensures Accumulates(|g|, |g[0]|, RowSpreadStages(g, blurring, i), FullSweeps(g, blurring, i), |g[0]|)
  {
  }

  /** Over the whole grid, the sweeps of all sources deliver the grid's mass. */
  lemma GridDeliversItsMass(g: Grid, blurring: real)
    requires IsRectangular(g)
    ensures Sum2(|g|, |g[0]|, SpreadStages(g, blurring)(|g|)) == Sum2(|g|, |g[0]|, Cells(g))
  {
    forall i: nat | i < |g|
      ensures Sum2(|g|, |g[0]|, FullRows(g, blurring)(i)) == RowSums(|g[0]|, Cells(g))(i)
    {
      RowDeliversItsMass(g, blurring, i);
    }
    Sum2OfAccumulation(|g|, |g[0]|, SpreadStages(g, blurring), FullRows(g, blurring),
                       RowSums(|g[0]|, Cells(g)), |g|);
  }

  /** Accumulation neither creates nor loses mass: the grid's total is unchanged. */
  lemma MassConserved(g: Grid, blurring: real)
    requires IsRectangular(g)
    ensures GridSum(Accumulated(g, blurring)) == GridSum(g)
  {
    var a, h, w := Accumulated(g, blurring), |g|, |g[0]|;
    GridSumAsSum2(a, w);
    Sum2Ext(h, w, Cells(a), SpreadStages(g, blurring)(h));
    GridDeliversItsMass(g, blurring);
    GridSumAsSum2(g, w);
  }

  // ---------------------------------------------------------------------
  // Gather form: the cell (p, q) of the accumulated grid collects, for each
  // offset (dx, dy), the mass of its neighbour (p - dy, q - dx) (wrapped)
  // weighted by window[dx + 1][dy + 1].

  /** What (p, q) receives at sweep step t, read from the one source that sends it. */
  function Incoming(g: Grid, blurring: real, p: nat, q: nat): nat -> real
  {
    (t: nat) =>
      if p < |g| && q < Width(g) && t < 9
      then Cell(g, Wrap(p, -Dy(t), |g|), Wrap(q, -Dx(t), Width(g))) * Weight(blurring, t)
      else 0.0
  }

  /** Shares reaching (p, q) at step t, as a grid over the sources (i, j). */
  function SharesAt(g: Grid, blurring: real, t: nat, p: nat, q: nat): (nat, nat) -> real
  {
    (i: nat, j: nat) => Share(g, blurring, i, j, t, p, q)
  }

  /** Shares reaching (p, q) at step t from source row i, by step. */
  function IncomingFromRow(g: Grid, blurring: real, i: nat, p: nat, q: nat): nat -> real
  {
    (t: nat) => Sum(Width(g), Row(SharesAt(g, blurring, t, p, q), i))
  }

  /** At each step exactly one source reaches (p, q): its neighbour at the opposite offset. */
  lemma OneSourcePerStep(g: Grid, blurring: real, t: nat, p: nat, q: nat)
    requires IsRectangular(g) && p < |g| && q < |g[0]| && t < 9
    ensures Sum2(|g|, |g[0]|, SharesAt(g, blurring, t, p, q)) == Incoming(g, blurring, p, q)(t)
  {
    var i0, j0 := Wrap(p, -Dy(t), |g|), Wrap(q, -Dx(t), |g[0]|);
    forall i: nat, j: nat | i < |g| && j < |g[0]|
      ensures SharesAt(g, blurring, t, p, q)(i, j) != 0.0 ==> i == i0 && j == j0
    {
      WrapInverse(i, p, Dy(t), |g|);
      WrapInverse(j, q, Dx(t), |g[0]|);
    }
    Sum2Single(|g|, |g[0]|, SharesAt(g, blurring, t, p, q), i0, j0);
    SourceAtStep(g, blurring, t, p, q);
  }

  /** The share that the neighbour at the opposite offset sends at step t is what (p, q) receives then. */
  lemma SourceAtStep(g: Grid, blurring: real, t: nat, p: nat, q: nat)
    requires IsRectangular(g) && p < |g| && q < |g[0]| && t < 9
    ensures Share(g, blurring, Wrap(p, -Dy(t), |g|), Wrap(q, -Dx(t), |g[0]|), t, p, q) == Incoming(g, blurring, p, q)(t)
  {
    var i0, j0 := Wrap(p, -Dy(t), |g|), Wrap(q, -Dx(t), |g[0]|);
    WrapInverse(i0, p, Dy(t), |g|);
    WrapInverse(j0, q, Dx(t), |g[0]|);
    assert Width(g) == |g[0]|;
    assert Cell(g, i0, j0) == g[i0][j0];
  }

  /** The shares reaching (p, q) from source row i, as a grid over (source column, step). */
  function RowShares(g: Grid, blurring: real, i: nat, p: nat, q: nat): (nat, nat) -> real
  {
    (j: nat, t: nat) => Share(g, blurring, i, j, t, p, q)
  }

  /** The sweeps of source row i, regrouped step by step. */
  lemma RowRegrouped(g: Grid, blurring: real, i: nat, p: nat, q: nat)
    requires IsRectangular(g)
    ensures RowSpread(g, blurring, i, |g[0]|, p, q) == Sum(9, IncomingFromRow(g, blurring, i, p, q))
  {
    var f := RowShares(g, blurring, i, p, q);
    SumSwap(|g[0]|, 9, f);
    RowSweepsAsRowSums(g, blurring, i, p, q);
    RowStepsAsColumnSums(g, blurring, i, p, q);
  }

  lemma RowSweepsAsRowSums(g: Grid, blurring: real, i: nat, p: nat, q: nat)
    requires IsRectangular(g)
    ensures RowSpread(g, blurring, i, |g[0]|, p, q) == Sum(|g[0]|, RowSums(9, RowShares(g, blurring, i, p, q)))
  {
    var f := RowShares(g, blurring, i, p, q);
    forall j: nat | j < |g[0]|
      ensures SweepsOfRow(g, blurring, i, p, q)(j) == RowSums(9, f)(j)
    {
      SumExt(9, ShareSteps(g, blurring, i, j, p, q), Row(f, j));
    }
    SumExt(|g[0]|, SweepsOfRow(g, blurring, i, p, q), RowSums(9, f));
  }

  lemma RowStepsAsColumnSums(g: Grid, blurring: real, i: nat, p: nat, q: nat)
    requires IsRectangular(g)
    ensures Sum(9, ColumnSums(|g[0]|, RowShares(g, blurring, i, p, q))) == Sum(9, IncomingFromRow(g, blurring, i, p, q))
  {
    var f := RowShares(g, blurring, i, p, q);
    assert Width(g) == |g[0]|;
    forall t: nat | t < 9
      ensures ColumnSums(|g[0]|, f)(t) == IncomingFromRow(g, blurring, i, p, q)(t)
    {
      forall k: nat | k < |g[0]|
        ensures Column(f, t)(k) == Row(SharesAt(g, blurring, t, p, q), i)(k)
      {
        assert f(k, t) == SharesAt(g, blurring, t, p, q)(i, k);
      }
      SumExt(|g[0]|, Column(f, t), Row(SharesAt(g, blurring, t, p, q), i));
    }
    SumExt(9, ColumnSums(|g[0]|, f), IncomingFromRow(g, blurring, i, p, q));
  }

  /** Every cell of the accumulated grid is the weighted sum of its nine wrapped neighbours. */
  lemma AccumulatedGathers(g: Grid, blurring: real, p: nat, q: nat)
    requires IsRectangular(g) && p < |g| && q < |g[0]|
    ensures Accumulated(g, blurring)[p][q] == Sum(9, Incoming(g, blurring, p, q))
  {
    SumSwap(|g|, 9, RowIncoming(g, blurring, p, q));
    GatherByRows(g, blurring, p, q);
    GatherBySteps(g, blurring, p, q);
  }

  /** What (p, q) receives from source row i at step t, as a grid over (row, step). */
  function RowIncoming(g: Grid, blurring: real, p: nat, q: nat): (nat, nat) -> real
  {
    (i: nat, t: nat) => IncomingFromRow(g, blurring, i, p, q)(t)
  }

  lemma GatherByRows(g: Grid, blurring: real, p: nat, q: nat)
    requires IsRectangular(g)
    ensures Spread(g, blurring, |g|, p, q) == Sum(|g|, RowSums(9, RowIncoming(g, blurring, p, q)))
  {
    var f := RowIncoming(g, blurring, p, q);
    forall i: nat | i < |g|
      ensures RowSpreads(g, blurring, p, q)(i) == RowSums(9, f)(i)
    {
      RowRegrouped(g, blurring, i, p, q);
      SumExt(9, IncomingFromRow(g, blurring, i, p, q), Row(f, i));
    }
    SumExt(|g|, RowSpreads(g, blurring, p, q), RowSums(9, f));
  }

  lemma GatherBySteps(g: Grid, blurring: real, p: nat, q: nat)
    requires IsRectangular(g) && p < |g| && q < |g[0]|
    ensures Sum(9, ColumnSums(|g|, RowIncoming(g, blurring, p, q))) == Sum(9, Incoming(g, blurring, p, q))
  {
    var f := RowIncoming(g, blurring, p, q);
    forall t: nat | t < 9
      ensures ColumnSums(|g|, f)(t) == Incoming(g, blurring, p, q)(t)
    {
      StepGathered(g, blurring, p, q, t);
    }
    SumExt(9, ColumnSums(|g|, f), Incoming(g, blurring, p, q));
  }

  lemma StepGathered(g: Grid, blurring: real, p: nat, q: nat, t: nat)
    requires IsRectangular(g) && p < |g| && q < |g[0]| && t < 9
    ensures ColumnSums(|g|, RowIncoming(g, blurring, p, q))(t) == Incoming(g, blurring, p, q)(t)
  {
    var f := RowIncoming(g, blurring, p, q);
    assert Width(g) == |g[0]|;
    forall a: nat | a < |g|
      ensures Column(f, t)(a) == RowSums(|g[0]|, SharesAt(g, blurring, t, p, q))(a)
    {
      assert Column(f, t)(a) == IncomingFromRow(g, blurring, a, p, q)(t);
    }
    SumExt(|g|, Column(f, t), RowSums(|g[0]|, SharesAt(g, blurring, t, p, q)));
    OneSourcePerStep(g, blurring, t, p, q);
  }

  /** With no blurring every cell keeps exactly its own mass. */
  lemma NoBlurKeepsGrid(g: Grid)
    requires IsRectangular(g)
    ensures Accumulated(g, 0.0) == g
  {
    forall p, q | 0 <= p < |g| && 0 <= q < |g[0]|
      ensures Accumulated(g, 0.0)[p][q] == g[p][q]
    {
      NoBlurKeepsCell(g, p, q);
    }
    SameCells(Accumulated(g, 0.0), g);
  }

  lemma NoBlurKeepsCell(g: Grid, p: nat, q: nat)
    requires IsRectangular(g) && p < |g| && q < |g[0]|
    ensures Accumulated(g, 0.0)[p][q] == g[p][q]
  {
    AccumulatedGathers(g, 0.0, p, q);
    forall t: nat | t < 9
      ensures Incoming(g, 0.0, p, q)(t) == if t == 4 then g[p][q] else 0.0
    {
      NoBlurIncoming(g, p, q, t);
    }
    SumSingle(9, Incoming(g, 0.0, p, q), 4);
  }

  /** With no blurring a cell receives its own mass at the centre step and nothing at the others. */
  lemma NoBlurIncoming(g: Grid, p: nat, q: nat, t: nat)
    requires IsRectangular(g) && p < |g| && q < |g[0]| && t < 9
    ensures Incoming(g, 0.0, p, q)(t) == if t == 4 then g[p][q] else 0.0
  {
    assert Width(g) == |g[0]|;
    IncomingAt(g, 0.0, p, q, t);
  }

  /** blur with a zero coefficient only normalizes. */
  lemma BlurWithoutBlurring(g: Grid)
    requires IsRectangular(g)
    requires GridSum(g) != 0.0 || |g[0]| == 0
    ensures Blurred(g, 0.0) == Normalized(g)
  {
    NoBlurKeepsGrid(g);
  }

  /** All the mass in the centre cell of a 3 x 3 grid. */
  function CentredPoint(): Grid
  {
    [[0.0, 0.0, 0.0], [0.0, 1.0, 0.0], [0.0, 0.0, 0.0]]
  }

  /** Blurring a centred point mass on a 3 x 3 grid lays out the window itself. */
  lemma PointMassSpreadsToWindow(blurring: real)
    ensures IsRectangular(CentredPoint()) && GridSum(CentredPoint()) == 1.0
    ensures Blurred(CentredPoint(), blurring) == Window(blurring)
  {
    var g := CentredPoint();
    GridSumOfThreeByThree(g);
    forall p, q | 0 <= p < 3 && 0 <= q < 3
      ensures Accumulated(g, blurring)[p][q] == Window(blurring)[p][q]
    {
      PointMassReaches(blurring, p, q);
    }
    SameCells(Accumulated(g, blurring), Window(blurring));
    WindowSumsToOne(blurring);
    UnitMassIsNormalized(Window(blurring));
  }

  /** Cell (p, q) receives the centre's mass at the step whose offset leads from the centre to it. */
  lemma PointMassReaches(blurring: real, p: nat, q: nat)
    requires p < 3 && q < 3
    ensures Accumulated(CentredPoint(), blurring)[p][q] == Window(blurring)[p][q]
  {
    CentredIsPointMass();
    PointMassReachesNeighbour(3, 3, 1, 1, blurring, q - 1, p - 1);
    WindowByOffsetClass(blurring);
  }

  lemma CentredIsPointMass()
    ensures CentredPoint() == PointMass(3, 3, 1, 1)
  {
    SameCells(CentredPoint(), PointMass(3, 3, 1, 1));
  }

  lemma IncomingAt(g: Grid, blurring: real, p: nat, q: nat, t: nat)
    requires p < |g| && q < Width(g) && t < 9
    ensures Incoming(g, blurring, p, q)(t) == Cell(g, Wrap(p, -Dy(t), |g|), Wrap(q, -Dx(t), Width(g))) * Weight(blurring, t)
  {
  }

  lemma ZeroTimes(x: real, y: real)
    requires x == 0.0
    ensures x * y == 0.0
  {
  }

  /** The documented example: blurring 0.12 spreads a centred point mass as 0.01 / 0.02 / 0.88. */
  lemma DocumentedExample()
    ensures IsRectangular(CentredPoint()) && GridSum(CentredPoint()) == 1.0
    ensures Blurred(CentredPoint(), 0.12) == [[0.01, 0.02, 0.01], [0.02, 0.88, 0.02], [0.01, 0.02, 0.01]]
  {
    PointMassSpreadsToWindow(0.12);
  }

  // ---------------------------------------------------------------------
  // A point mass anywhere on a torus of at least 3 x 3 cells.

  /** An h x w grid of zeros holding all its mass, 1.0, in cell (a, b). */
  function PointMass(h: nat, w: nat, a: nat, b: nat): (g: Grid)
    requires a < h && b < w
    ensures HasShape(g, h, w)
  {
    seq(h, i => seq(w, j => if i == a && j == b then 1.0 else 0.0))
  }

  /** (p, q) is one of the nine wrapped neighbours of (a, b), the cell itself included. */
  predicate Near(h: nat, w: nat, a: nat, b: nat, p: nat, q: nat)
    requires a < h && b < w
  {
    exists dx, dy :: -1 <= dx <= 1 && -1 <= dy <= 1 && Wrap(a, dy, h) == p && Wrap(b, dx, w) == q
  }

  /** In a dimension of at least three cells the three offsets lead to three different cells. */
  lemma WrapInjective(i: int, d1: int, d2: int, n: int)
    requires 3 <= n && 0 <= i < n && -1 <= d1 <= 1 && -1 <= d2 <= 1
    ensures Wrap(i, d1, n) == Wrap(i, d2, n) <==> d1 == d2
  {
  }

  /** Step t is recovered from its offsets. */
  lemma StepFromOffsets(t: nat)
    requires t < 9
    ensures t == 3 * (Dx(t) + 1) + (Dy(t) + 1)
    ensures -1 <= Dx(t) <= 1 && -1 <= Dy(t) <= 1
  {
  }

  lemma PointMassHasUnitMass(h: nat, w: nat, a: nat, b: nat)
    requires a < h && b < w
    ensures GridSum(PointMass(h, w, a, b)) == 1.0
  {
    var g := PointMass(h, w, a, b);
    GridSumAsSum2(g, w);
    Sum2Single(h, w, Cells(g), a, b);
  }

  /** At step t the target (p, q) receives the weight of t exactly when it is the source's neighbour at t's offset. */
  lemma PointMassIncoming(h: nat, w: nat, a: nat, b: nat, blurring: real, p: nat, q: nat, t: nat)
    requires a < h && b < w && p < h && q < w && t < 9
    ensures Incoming(PointMass(h, w, a, b), blurring, p, q)(t)
         == if Wrap(a, Dy(t), h) == p && Wrap(b, Dx(t), w) == q then Weight(blurring, t) else 0.0
  {
    var g := PointMass(h, w, a, b);
    StepFromOffsets(t);
    assert Width(g) == w;
    IncomingAt(g, blurring, p, q, t);
    WrapInverse(a, p, Dy(t), h);
    WrapInverse(b, q, Dx(t), w);
    var i, j := Wrap(p, -Dy(t), h), Wrap(q, -Dx(t), w);
    if i != a || j != b {
      ZeroTimes(Cell(g, i, j), Weight(blurring, t));
    }
  }

  /** The neighbour of the point mass at offset (dx, dy) receives window[dx + 1][dy + 1]. */
  lemma PointMassReachesNeighbour(h: nat, w: nat, a: nat, b: nat, blurring: real, dx: int, dy: int)
    requires 3 <= h && 3 <= w && a < h && b < w
    requires -1 <= dx <= 1 && -1 <= dy <= 1
    ensures Accumulated(PointMass(h, w, a, b), blurring)[Wrap(a, dy, h)][Wrap(b, dx, w)] == Window(blurring)[dx + 1][dy + 1]
  {
    var g := PointMass(h, w, a, b);
    var p, q := Wrap(a, dy, h), Wrap(b, dx, w);
    var t0 := 3 * (dx + 1) + (dy + 1);
    StepOffsets(dx, dy);
    AccumulatedGathers(g, blurring, p, q);
    PointMassOnlyStep(h, w, a, b, blurring, dx, dy);
    SumSingle(9, Incoming(g, blurring, p, q), t0);
    PointMassIncoming(h, w, a, b, blurring, p, q, t0);
    WeightIsWindowEntry(blurring, t0);
  }

  /** The neighbour at offset (dx, dy) receives nothing at the other eight steps. */
  lemma PointMassOnlyStep(h: nat, w: nat, a: nat, b: nat, blurring: real, dx: int, dy: int)
    requires 3 <= h && 3 <= w && a < h && b < w
    requires -1 <= dx <= 1 && -1 <= dy <= 1
    ensures forall t: nat :: t < 9 && t != 3 * (dx + 1) + (dy + 1) ==>
      Incoming(PointMass(h, w, a, b), blurring, Wrap(a, dy, h), Wrap(b, dx, w))(t) == 0.0
  {
    forall t: nat | t < 9 && t != 3 * (dx + 1) + (dy + 1)
      ensures Incoming(PointMass(h, w, a, b), blurring, Wrap(a, dy, h), Wrap(b, dx, w))(t) == 0.0
    {
      StepFromOffsets(t);
      WrapInjective(a, Dy(t), dy, h);
      WrapInjective(b, Dx(t), dx, w);
      PointMassIncoming(h, w, a, b, blurring, Wrap(a, dy, h), Wrap(b, dx, w), t);
    }
  }

  /** A cell that is not a neighbour of the point mass receives nothing. */
  lemma PointMassMissesFarCells(h: nat, w: nat, a: nat, b: nat, blurring: real, p: nat, q: nat)
    requires a < h && b < w && p < h && q < w
    requires !Near(h, w, a, b, p, q)
    ensures Accumulated(PointMass(h, w, a, b), blurring)[p][q] == 0.0
  {
    var g := PointMass(h, w, a, b);
    AccumulatedGathers(g, blurring, p, q);
    forall t: nat | t < 9
      ensures Incoming(g, blurring, p, q)(t) == 0.0
    {
      StepFromOffsets(t);
      PointMassIncoming(h, w, a, b, blurring, p, q, t);
    }
    SumZero(9, Incoming(g, blurring, p, q));
  }

  /**
    Blurring a single unit of mass on a torus of at least 3 x 3 cells puts
    the window's weight on each of its nine wrapped neighbours (which are
    nine different cells) and nothing anywhere else.
  */
  lemma PointMassBlurred(h: nat, w: nat, a: nat, b: nat, blurring: real)
    requires 3 <= h && 3 <= w && a < h && b < w
    ensures IsRectangular(PointMass(h, w, a, b)) && GridSum(PointMass(h, w, a, b)) == 1.0
    ensures forall dx, dy :: -1 <= dx <= 1 && -1 <= dy <= 1 ==>
      Blurred(PointMass(h, w, a, b), blurring)[Wrap(a, dy, h)][Wrap(b, dx, w)] == Window(blurring)[dx + 1][dy + 1]
    ensures forall p, q :: 0 <= p < h && 0 <= q < w && !Near(h, w, a, b, p, q) ==>
      Blurred(PointMass(h, w, a, b), blurring)[p][q] == 0.0
  {
    var g := PointMass(h, w, a, b);
    PointMassHasUnitMass(h, w, a, b);
    MassConserved(g, blurring);
    UnitMassIsNormalized(Accumulated(g, blurring));
    forall dx, dy | -1 <= dx <= 1 && -1 <= dy <= 1
      ensures Accumulated(g, blurring)[Wrap(a, dy, h)][Wrap(b, dx, w)] == Window(blurring)[dx + 1][dy + 1]
    {
      PointMassReachesNeighbour(h, w, a, b, blurring, dx, dy);
    }
    forall p, q | 0 <= p < h && 0 <= q < w && !Near(h, w, a, b, p, q)
      ensures Accumulated(g, blurring)[p][q] == 0.0
    {
      PointMassMissesFarCells(h, w, a, b, blurring, p, q);
    }
  }

  // ---------------------------------------------------------------------
  // The accumulation loop of blur, stage by stage.

  /**
    newGrid once the first i source rows, the first j sources of row i and
    the first t sweep steps of source (i, j) have been added.
  */
  function PartialGrid(g: Grid, blurring: real, i: nat, j: nat, t: nat): (r: Grid)
    requires IsRectangular(g)
    ensures HasShape(r, |g|, |g[0]|)
  {
    seq(|g|, p requires 0 <= p < |g| => seq(|g[0]|, q requires 0 <= q < |g[0]| =>
      Spread(g, blurring, i, p, q) + RowSpread(g, blurring, i, j, p, q) + Sweep(g, blurring, i, j, t, p, q)))
  }

  /** The zero grid is where accumulation starts. */
  lemma StartFromZeros(g: Grid, blurring: real)
    requires IsRectangular(g)
    ensures Zeros(|g|, |g[0]|) == PartialGrid(g, blurring, 0, 0, 0)
  {
    SameCells(Zeros(|g|, |g[0]|), PartialGrid(g, blurring, 0, 0, 0));
  }

  /**
    Adding grid[i][j] * window[dx + 1][dy + 1] to the wrapped neighbour
    (i + dy, j + dx) performs the next sweep step.
  */
  lemma AddShare(acc: Grid, g: Grid, blurring: real, i: nat, j: nat, dx: int, dy: int, p0: int, q0: int, v: real)
    requires IsRectangular(g) && i < |g| && j < |g[0]|
    requires -1 <= dx <= 1 && -1 <= dy <= 1
    requires p0 == Wrap(i, dy, |g|) && q0 == Wrap(j, dx, |g[0]|)
    requires v == g[i][j] * Window(blurring)[dx + 1][dy + 1]
    requires acc == PartialGrid(g, blurring, i, j, 3 * (dx + 1) + (dy + 1))
    ensures acc[p0 := acc[p0][q0 := acc[p0][q0] + v]] == PartialGrid(g, blurring, i, j, 3 * (dx + 1) + (dy + 1 + 1))
  {
    var t := 3 * (dx + 1) + (dy + 1);
    var acc' := acc[p0 := acc[p0][q0 := acc[p0][q0] + v]];
    var next := PartialGrid(g, blurring, i, j, t + 1);
    forall p, q | 0 <= p < |acc'| && 0 <= q < |acc'[p]|
      ensures acc'[p][q] == next[p][q]
    {
      ShareAtStep(g, blurring, i, j, dx, dy, p, q);
      assert Sweep(g, blurring, i, j, t + 1, p, q) == Sweep(g, blurring, i, j, t, p, q) + Share(g, blurring, i, j, t, p, q);
      assert acc'[p][q] == acc[p][q] + if p == p0 && q == q0 then v else 0.0;
    }
    SameCells(acc', next);
  }

  /** Step t = 3 * (dx + 1) + (dy + 1) sends window[dx + 1][dy + 1] of the source to (i + dy, j + dx) only. */
  lemma ShareAtStep(g: Grid, blurring: real, i: nat, j: nat, dx: int, dy: int, p: nat, q: nat)
    requires IsRectangular(g) && i < |g| && j < |g[0]|
    requires -1 <= dx <= 1 && -1 <= dy <= 1
    ensures Share(g, blurring, i, j, 3 * (dx + 1) + (dy + 1), p, q)
         == if p == Wrap(i, dy, |g|) && q == Wrap(j, dx, |g[0]|) then g[i][j] * Window(blurring)[dx + 1][dy + 1] else 0.0
  {
    StepOffsets(dx, dy);
    WeightIsWindowEntry(blurring, 3 * (dx + 1) + (dy + 1));
  }

  /** A finished sweep completes source (i, j). */
  lemma NextSource(g: Grid, blurring: real, i: nat, j: nat)
    requires IsRectangular(g)
    ensures PartialGrid(g, blurring, i, j, 9) == PartialGrid(g, blurring, i, j + 1, 0)
  {
    SameCells(PartialGrid(g, blurring, i, j, 9), PartialGrid(g, blurring, i, j + 1, 0));
  }

  /** A finished row of sources completes source row i. */
  lemma NextRow(g: Grid, blurring: real, i: nat)
    requires IsRectangular(g)
    ensures PartialGrid(g, blurring, i, |g[0]|, 0) == PartialGrid(g, blurring, i + 1, 0, 0)
  {
    assert Width(g) == |g[0]|;
    SameCells(PartialGrid(g, blurring, i, |g[0]|, 0), PartialGrid(g, blurring, i + 1, 0, 0));
  }

  /** Once every row is done, the grid is the accumulated grid. */
  lemma AllRowsDone(g: Grid, blurring: real)
    requires IsRectangular(g)
    ensures PartialGrid(g, blurring, |g|, 0, 0) == Accumulated(g, blurring)
  {
    SameCells(PartialGrid(g, blurring, |g|, 0, 0), Accumulated(g, blurring));
  }

  /**
    The body of blur up to its return (lines 115-144): every cell's mass is
    added, step by step, to its 3 x 3 wrapped neighbourhood in a grid that
    starts as zeros.  The grid must be rectangular and non-empty (blur reads
    grid[0]).
  */
  method Accumulate(grid: Grid, blurring: real) returns (newGrid: Grid)
    requires IsRectangular(grid)
    ensures newGrid == Accumulated(grid, blurring)
    ensures GridSum(newGrid) == GridSum(grid)
  {
    var window := Window(blurring);
    var height := |grid|;
    var width := |grid[0]|;
    newGrid := Zeros(height, width);
    StartFromZeros(grid, blurring);
    for i := 0 to height
      invariant newGrid == PartialGrid(grid, blurring, i, 0, 0)
    {
      for j := 0 to width
        invariant newGrid == PartialGrid(grid, blurring, i, j, 0)
      {
        newGrid := SpreadCell(newGrid, grid, window, blurring, i, j);
      }
      NextRow(grid, blurring, i);
    }
    AllRowsDone(grid, blurring);
    MassConserved(grid, blurring);
  }

  /**
    One pass of blur's loop over j (lines 132-141): the mass of cell (i, j),
    weighted by window[dx + 1][dy + 1], is added to the wrapped neighbour
    (i + dy, j + dx) for each of the nine offsets.
  */
  method SpreadCell(newGrid: Grid, grid: Grid, window: Grid, blurring: real, i: nat, j: nat) returns (next: Grid)
    requires IsRectangular(grid) && i < |grid| && j < |grid[0]|
    requires window == Window(blurring)
    requires newGrid == PartialGrid(grid, blurring, i, j, 0)
    ensures next == PartialGrid(grid, blurring, i, j + 1, 0)
  {
    var height := |grid|;
    var width := |grid[0]|;
    next := newGrid;
    var gridVal := grid[i][j];
    for dx := -1 to 2
      invariant next == PartialGrid(grid, blurring, i, j, 3 * (dx + 1))
    {
      for dy := -1 to 2
        invariant next == PartialGrid(grid, blurring, i, j, 3 * (dx + 1) + (dy + 1))
      {
        WrapIsModulo(i, dy, height);
        WrapIsModulo(j, dx, width);
        var newI := (i + dy + height) % height;
        var newJ := (j + dx + width) % width;
        var mult := window[dx + 1][dy + 1];
        AddShare(next, grid, blurring, i, j, dx, dy, newI, newJ, gridVal * mult);
        next := next[newI := next[newI][newJ := next[newI][newJ] + gridVal * mult]];
      }
    }
    NextSource(grid, blurring, i, j);
  }

  /**
    blur: spreads every cell over its 3 x 3 toroidal neighbourhood with the
    window's weights, then normalizes.  The total must be non-zero unless the
    grid has no columns.
  */
  method Blur(grid: Grid, blurring: real) returns (r: Grid)
    requires IsRectangular(grid)
    requires GridSum(grid) != 0.0 || |grid[0]| == 0
    ensures r == Blurred(grid, blurring)
    ensures HasShape(r, |grid|, |grid[0]|)
    ensures GridSum(grid) != 0.0 ==> GridSum(r) == 1.0
    ensures blurring == 0.0 ==> r == Normalized(grid)
  {
    var newGrid := Accumulate(grid, blurring);
    r := Normalize(newGrid);
    if blurring == 0.0 {
      BlurWithoutBlurring(grid);
    }
  }
}
