/**
  Grids of probability mass: construction (zeros), cell sums and
  normalization (helpers.cpp, lines 24-79).  Cells are exact reals.
*/
module Grids {
  import opened Sums

  /** Rows outer, columns inner, as vector<vector<float>> in the source. */
  type Grid = seq<seq<real>>

  /** g has exactly `height` rows, each of exactly `width` cells. */
  predicate HasShape(g: Grid, height: nat, width: nat)
  {
    |g| == height && forall i :: 0 <= i < |g| ==> |g[i]| == width
  }

  /** a and b have the same number of rows and row by row the same length. */
  predicate SameShape(a: Grid, b: Grid)
  {
    |a| == |b| && forall i :: 0 <= i < |a| ==> |a[i]| == |b[i]|
  }

  /** Every row is empty, so the grid holds no cell at all. */
  predicate NoCells(g: Grid)
  {
    forall i :: 0 <= i < |g| ==> g[i] == []
  }

  /** zeros(height, width): a height x width grid of 0.0. */
  function Zeros(height: nat, width: nat): (r: Grid)
    ensures HasShape(r, height, width)
    ensures forall i, j :: 0 <= i < height && 0 <= j < width ==> r[i][j] == 0.0
  {
    seq(height, _ => seq(width, _ => 0.0))
  }

  /** The cells of a row, added left to right. */
  function RowSum(row: seq<real>): real
  {
    if row == [] then 0.0 else RowSum(row[..|row| - 1]) + row[|row| - 1]
  }

  /** The cells of a grid, added row by row, as normalize accumulates `total`. */
  function GridSum(g: Grid): real
  {
    if g == [] then 0.0 else GridSum(g[..|g| - 1]) + RowSum(g[|g| - 1])
  }

  /** A grid of probabilities (no negative cell) has a non-negative total. */
  lemma {:induction false} GridSumNonNegative(g: Grid)
    requires NonNegative(g)
    ensures GridSum(g) >= 0.0
  {
    if g != [] {
      GridSumNonNegative(g[..|g| - 1]);
      RowSumNonNegative(g[|g| - 1]);
    }
  }

  /** No cell is negative. */
  predicate NonNegative(g: Grid)
  {
    forall i, j :: 0 <= i < |g| && 0 <= j < |g[i]| ==> g[i][j] >= 0.0
  }

  lemma {:induction false} RowSumNonNegative(row: seq<real>)
    ensures (forall j :: 0 <= j < |row| ==> row[j] >= 0.0) ==> RowSum(row) >= 0.0
  {
    if row != [] {
      RowSumNonNegative(row[..|row| - 1]);
    }
  }

  /** Every cell of a row multiplied by k. */
  function ScaleRow(row: seq<real>, k: real): (r: seq<real>)
    ensures |r| == |row|
  {
    seq(|row|, j requires 0 <= j < |row| => k * row[j])
  }

  /** Every cell multiplied by k. */
  function Scale(g: Grid, k: real): (r: Grid)
    ensures SameShape(r, g)
  {
    seq(|g|, i requires 0 <= i < |g| => ScaleRow(g[i], k))
  }

  /** The result of normalize: every cell divided by the total of all cells. */
  function Normalized(g: Grid): (r: Grid)
    requires GridSum(g) != 0.0 || NoCells(g)
    ensures SameShape(r, g)
  {
    var total := GridSum(g);
    seq(|g|, i requires 0 <= i < |g| => seq(|g[i]|, j requires 0 <= j < |g[i]| => g[i][j] / total))
  }

  /** A grid of zeros holds no mass. */
  lemma {:induction false} ZerosHaveNoMass(height: nat, width: nat)
    ensures GridSum(Zeros(height, width)) == 0.0
  {
    var z := Zeros(height, width);
    if height > 0 {
      assert z[..height - 1] == Zeros(height - 1, width);
      ZerosHaveNoMass(height - 1, width);
      RowOfZerosHasNoMass(z[height - 1]);
    }
  }

  lemma {:induction false} RowOfZerosHasNoMass(row: seq<real>)
    requires forall j :: 0 <= j < |row| ==> row[j] == 0.0
    ensures RowSum(row) == 0.0
  {
    if row != [] {
      RowOfZerosHasNoMass(row[..|row| - 1]);
    }
  }

  /** One more cell of the current row, as in the accumulating loops. */
  lemma PrefixSumStep(g: Grid, i: nat, j: nat)
    requires i < |g| && j < |g[i]|
    ensures GridSum(g[..i]) + RowSum(g[i][..j + 1]) == GridSum(g[..i]) + RowSum(g[i][..j]) + g[i][j]
  {
    assert g[i][..j + 1][..j] == g[i][..j];
  }

  /** A completed row moves from the partial row into the prefix of rows. */
  lemma PrefixRowDone(g: Grid, i: nat)
    requires i < |g|
    ensures GridSum(g[..i + 1]) == GridSum(g[..i]) + RowSum(g[i][..|g[i]|])
  {
    assert g[..i + 1][..i] == g[..i];
    assert g[i][..|g[i]|] == g[i];
  }

  /** Scaling every cell of a row scales its total. */
  lemma RowSumScale(row: seq<real>, k: real)
    ensures RowSum(ScaleRow(row, k)) == k * RowSum(row)
  {
    RowSumAsSum(row);
    RowSumAsSum(ScaleRow(row, k));
    SumScale(|row|, Entries(row), k, Entries(ScaleRow(row, k)));
  }

  /** Scaling every cell of a grid scales its total. */
  lemma GridSumScale(g: Grid, k: real)
    ensures GridSum(Scale(g, k)) == k * GridSum(g)
  {
    GridSumAsSum(g);
    GridSumAsSum(Scale(g, k));
    RowTotalsScaled(g, k);
    ScaledTotal(|g|, RowTotals(g), k, RowTotals(Scale(g, k)), GridSum(g), GridSum(Scale(g, k)));
  }

  /** Scaling every cell of a grid scales each row total. */
  lemma RowTotalsScaled(g: Grid, k: real)
    ensures ScaledBy(|g|, RowTotals(g), k, RowTotals(Scale(g, k)))
  {
    forall i: nat | i < |g|
      ensures RowTotals(Scale(g, k))(i) == k * RowTotals(g)(i)
    {
      RowSumScale(g[i], k);
    }
  }

  /** Grids of the same shape that agree cell by cell are equal. */
  lemma SameCells(a: Grid, b: Grid)
    requires SameShape(a, b)
    requires forall i, j :: 0 <= i < |a| && 0 <= j < |a[i]| ==> a[i][j] == b[i][j]
    ensures a == b
  {
    forall i | 0 <= i < |a|
      ensures a[i] == b[i]
    {
    }
  }

  /** Each normalized cell, multiplied back by the total, is the original cell. */
  lemma NormalizedTimesTotal(g: Grid)
    requires GridSum(g) != 0.0 || NoCells(g)
    ensures forall i, j :: 0 <= i < |g| && 0 <= j < |g[i]| ==> Normalized(g)[i][j] * GridSum(g) == g[i][j]
  {
    forall i, j | 0 <= i < |g| && 0 <= j < |g[i]|
      ensures Normalized(g)[i][j] * GridSum(g) == g[i][j]
    {
      DivideThenMultiply(g[i][j], GridSum(g), Normalized(g)[i][j]);
    }
  }

  lemma DivideThenMultiply(x: real, t: real, q: real)
    requires t != 0.0 && q == x / t
    ensures q * t == x
  {
  }

  /** Normalizing multiplies every cell by the reciprocal of the total. */
  lemma NormalizedIsScale(g: Grid)
    requires GridSum(g) != 0.0
    ensures Normalized(g) == Scale(g, 1.0 / GridSum(g))
  {
    var total := GridSum(g);
    var n, s := Normalized(g), Scale(g, 1.0 / total);
    forall i, j | 0 <= i < |g| && 0 <= j < |g[i]|
      ensures n[i][j] == s[i][j]
    {
      DivideIsScale(g[i][j], total);
    }
    SameCells(n, s);
  }

  lemma DivideIsScale(x: real, t: real)
    requires t != 0.0
    ensures x / t == (1.0 / t) * x
  {
  }

  /** Normalizing yields a grid whose cells add up to one. */
  lemma NormalizedSumsToOne(g: Grid)
    requires GridSum(g) != 0.0
    ensures GridSum(Normalized(g)) == 1.0
  {
    NormalizedIsScale(g);
    GridSumScale(g, 1.0 / GridSum(g));
  }

  /** Normalizing is insensitive to a common non-zero factor on every cell. */
  lemma NormalizeScaleInvariant(g: Grid, k: real)
    requires GridSum(g) != 0.0 && k != 0.0
    ensures GridSum(Scale(g, k)) != 0.0
    ensures Normalized(Scale(g, k)) == Normalized(g)
  {
    var s := Scale(g, k);
    GridSumScale(g, k);
    NormalizedIsScale(g);
    ScaleByReciprocal(g, k, GridSum(g), GridSum(s));
    NormalizedIsScale(s);
  }

  /** Scaling by k and then by 1 / (k * t) is scaling by 1 / t. */
  lemma ScaleByReciprocal(g: Grid, k: real, t: real, kt: real)
    requires k != 0.0 && t != 0.0 && kt == k * t
    ensures kt != 0.0 && Scale(Scale(g, k), 1.0 / kt) == Scale(g, 1.0 / t)
  {
    var c := 1.0 / kt;
    Reciprocal(k, t, kt, c);
    ScaleTwice(g, k, c);
  }

  /** Scaling by a and then by b is scaling by their product. */
  lemma ScaleTwice(g: Grid, a: real, b: real)
    ensures Scale(Scale(g, a), b) == Scale(g, a * b)
  {
    var s, p := Scale(Scale(g, a), b), Scale(g, a * b);
    forall i, j | 0 <= i < |g| && 0 <= j < |g[i]|
      ensures s[i][j] == p[i][j]
    {
      Associate(a, b, g[i][j]);
    }
    SameCells(s, p);
  }

  lemma Associate(a: real, b: real, x: real)
    ensures b * (a * x) == (a * b) * x
  {
  }

  lemma Reciprocal(k: real, t: real, kt: real, c: real)
    requires k != 0.0 && t != 0.0 && kt == k * t && c == 1.0 / kt
    ensures kt != 0.0 && k * c == 1.0 / t
  {
  }

  /** A grid whose cells already add up to one is left as it is by normalize. */
  lemma UnitMassIsNormalized(g: Grid)
    requires GridSum(g) == 1.0
    ensures Normalized(g) == g
  {
    SameCells(Normalized(g), g);
  }

  /** A normalized grid is left as it is by a second normalization. */
  lemma NormalizeIdempotent(g: Grid)
    requires GridSum(g) != 0.0
    ensures GridSum(Normalized(g)) != 0.0
    ensures Normalized(Normalized(g)) == Normalized(g)
  {
    NormalizedSumsToOne(g);
    UnitMassIsNormalized(Normalized(g));
  }

  /** Cell (i, j) of g, and 0.0 outside the grid. */
  function Cell(g: Grid, i: nat, j: nat): real
  {
    if i < |g| && j < |g[i]| then g[i][j] else 0.0
  }

  /** The cells of g as a function of the two indices. */
  function Cells(g: Grid): (nat, nat) -> real
  {
    (i: nat, j: nat) => Cell(g, i, j)
  }

  /** The cells of a row as a function of the index. */
  function Entries(row: seq<real>): nat -> real
  {
    (j: nat) => if j < |row| then row[j] else 0.0
  }

  /** A row's total is the index sum of its entries. */
  lemma {:induction false} RowSumAsSum(row: seq<real>)
    ensures RowSum(row) == Sum(|row|, Entries(row))
  {
    if row != [] {
      RowSumAsSum(row[..|row| - 1]);
      SumExt(|row| - 1, Entries(row[..|row| - 1]), Entries(row));
    }
  }

  /** The row totals of g as a function of the row index. */
  function RowTotals(g: Grid): nat -> real
  {
    (i: nat) => if i < |g| then RowSum(g[i]) else 0.0
  }

  /** A grid's total is the index sum of its row totals. */
  lemma {:induction false} GridSumAsSum(g: Grid)
    ensures GridSum(g) == Sum(|g|, RowTotals(g))
  {
    if g != [] {
      GridSumAsSum(g[..|g| - 1]);
      SumExt(|g| - 1, RowTotals(g[..|g| - 1]), RowTotals(g));
    }
  }

  /** A rectangular grid's total is the double index sum of its cells. */
  lemma {:induction false} GridSumAsSum2(g: Grid, width: nat)
    requires HasShape(g, |g|, width)
    ensures GridSum(g) == Sum2(|g|, width, Cells(g))
  {
    if g != [] {
      var n := |g| - 1;
      GridSumAsSum2(g[..n], width);
      Sum2Ext(n, width, Cells(g[..n]), Cells(g));
      RowSumAsSum(g[n]);
      SumExt(width, Entries(g[n]), Row(Cells(g), n));
    }
  }

  /**
    normalize(grid): the first nested loop adds every cell into `total`, the
    second divides every cell of the (by-value) copy by `total`.
  */
  method Normalize(grid: Grid) returns (r: Grid)
    requires GridSum(grid) != 0.0 || NoCells(grid)
    ensures r == Normalized(grid)
    ensures SameShape(r, grid)
    ensures GridSum(grid) != 0.0 ==> GridSum(r) == 1.0
  {
    var total := 0.0;
    for i := 0 to |grid|
      invariant total == GridSum(grid[..i])
    {
      var row := grid[i];
      for j := 0 to |row|
        invariant total == GridSum(grid[..i]) + RowSum(row[..j])
      {
        PrefixSumStep(grid, i, j);
        total := total + row[j];
      }
      PrefixRowDone(grid, i);
    }
    assert grid[..|grid|] == grid;

    r := grid;
    for i := 0 to |grid|
      invariant SameShape(r, grid)
      invariant forall k, l :: 0 <= k < i && 0 <= l < |grid[k]| ==> r[k][l] == grid[k][l] / total
      invariant forall k :: i <= k < |grid| ==> r[k] == grid[k]
    {
      for j := 0 to |grid[i]|
        invariant SameShape(r, grid)
        invariant forall k, l :: 0 <= k < i && 0 <= l < |grid[k]| ==> r[k][l] == grid[k][l] / total
        invariant forall l :: 0 <= l < j ==> r[i][l] == grid[i][l] / total
        invariant forall l :: j <= l < |grid[i]| ==> r[i][l] == grid[i][l]
        invariant forall k :: i < k < |grid| ==> r[k] == grid[k]
      {
        r := r[i := r[i][j := r[i][j] / total]];
      }
    }
    SameCells(r, Normalized(grid));
    if total != 0.0 {
      NormalizedSumsToOne(grid);
    }
  }
}
