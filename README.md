# Histogram filter helpers, modelled in Dafny

This project models the numerical core of `helpers.cpp`, the helper file of a
2-D discrete histogram filter. A belief is a grid of probability mass over a
toroidal world, where the right edge touches the left and the bottom touches
the top. The modelled operations are these:

- `zeros` builds a grid of 0.0.
- `normalize` divides every cell by the grid's total, so the cells add up to one.
- `blur` spreads every cell's mass over its 3 x 3 wrapped neighbourhood,
  weighted by a window built from the `blurring` coefficient, and then normalizes.
- `read_line` turns one line of map text into a row of cell colours.

The modules are:

- `Sums` (`sums.dfy`): finite index sums `Sum(n, f)` and double sums
  `Sum2(n, m, f)` over real terms. It holds the algebra the proofs need:
  extensionality, additivity, scaling, a single non-zero term, swapping the
  order of two sums, and the total of a grid built by repeated accumulation.
- `Grids` (`grids.dfy`): `Grid = seq<seq<real>>`. It holds `Zeros`, the
  row-by-row total `GridSum`, the specification function `Normalized`, and the
  imperative `Normalize`. `Normalize` keeps both nested loops of the source:
  the summing loop and the in-place division.
- `Blurring` (`blur.dfy`): the window, the wrap-around index, and the
  specification of the accumulated grid as a sum of the shares every source
  cell sends at every step of its 3 x 3 sweep. `Accumulate` keeps the two
  outer loops of the source and `SpreadCell` the two inner ones; together
  they are proved to produce `Accumulated`. `Blur` is `Accumulate` followed
  by `Normalize`, as the source returns `normalize(newGrid)`, and is proved
  equal to `Blurred`, the normalized accumulated grid. The lemmas beside it
  cover:
  - mass conservation;
  - the gather form, where every cell is the weighted sum of its nine wrapped
    neighbours;
  - blurring 0 only normalizing;
  - the point-mass behaviour on any torus of at least 3 x 3 cells;
  - the documented 0.12 example.
- `LineReading` (`read_line.dfy`): `string::find`, the result of `read_line`
  as a recursive function, and the imperative `ReadLine` loop proved equal to
  it. The exception that `token.at(0)` throws on an empty token is the
  `OutOfRange` outcome.

Floats are modelled as exact reals and `int` indices as unbounded integers.
The C++ `%` in `blur` is applied only to non-negative dividends, so the C++
operator and Dafny's `%` agree there (`Blurring.WrapIsModulo`).

A zero total makes `normalize` divide by zero. IEEE arithmetic then turns
zero cells into NaN (0/0) and non-zero cells into plus or minus infinity, as
in a grid such as [[1.0, -1.0]]. The model does not reproduce this. Instead,
`Normalize` and `Blur` require a non-zero total, or a grid with no cells,
where no division happens.

## Model

| member | source | states |
|---|---|---|
| `Grids.Zeros` | helpers.cpp:44-47 | the grid has exactly `height` rows of `width` cells, and every cell is 0.0 |
| `Grids.ZerosHaveNoMass` | helpers.cpp:44-47 | a grid of zeros has total 0 |
| `Grids.GridSumNonNegative` | helpers.cpp:64-71 | `GridSum` is the `total` that normalize's first loop accumulates, row by row; a grid with no negative cell has a non-negative total |
| `Grids.Normalized` | helpers.cpp:73-78 | normalize's result: every cell divided by the total, with the input's shape (its cells are characterized by `NormalizedTimesTotal`, `NormalizedIsScale` and `NormalizedSumsToOne`) |
| `Grids.Normalize` | helpers.cpp:62-79 | the loops give `Normalized(grid)`, with the same shape; when the total is non-zero the result adds up to 1 |
| `Grids.NormalizedTimesTotal` | helpers.cpp:73-77 | every normalized cell, multiplied by the total, gives back the input cell |
| `Grids.NormalizedIsScale` | helpers.cpp:73-77 | dividing every cell by the total is multiplying every cell by the reciprocal of the total |
| `Grids.GridSumScale` | helpers.cpp:64-71 | multiplying every cell by k multiplies the total by k |
| `Grids.ScaleTwice` | helpers.cpp:73-77 | scaling by a and then by b is scaling by a * b |
| `Grids.NormalizedSumsToOne` | helpers.cpp:59-60 | a normalized grid adds up to one whenever the total is non-zero |
| `Grids.NormalizeScaleInvariant` | helpers.cpp:62-79 | multiplying every cell by a common non-zero factor does not change the normalized grid |
| `Grids.UnitMassIsNormalized` | helpers.cpp:73-77 | a grid that already adds up to one is returned unchanged |
| `Grids.NormalizeIdempotent` | helpers.cpp:62-79 | normalizing twice is normalizing once |
| `Grids.GridSumAsSum2` | helpers.cpp:64-71 | the row-by-row total equals the double index sum over all cells of a rectangular grid |
| `Blurring.Window` | helpers.cpp:115-124 | the window is 3 x 3 |
| `Blurring.WindowSumsToOne` | helpers.cpp:115-124 | the nine window weights add up to one for every coefficient |
| `Blurring.WindowByOffsetClass` | helpers.cpp:121-124 | centre is 1 - blurring, edge neighbours blurring / 6, corners blurring / 12; the window is symmetric, so `window[dx+1][dy+1]` equals `window[dy+1][dx+1]` |
| `Blurring.Wrap` | helpers.cpp:136-137 | the wrapped neighbour index lies in [0, n), also for n = 1, and offset 0 leaves the index unchanged |
| `Blurring.WrapIsModulo` | helpers.cpp:136-137 | `(i + d + n) % n` has a non-negative dividend and equals the wrapped neighbour |
| `Blurring.WrapInverse` | helpers.cpp:136-137 | stepping by d reaches p exactly when stepping back from p by d reaches the start |
| `Blurring.WrapInjective` | helpers.cpp:136-137 | in a dimension of at least three cells, the offsets -1, 0 and 1 reach three different cells |
| `Blurring.StepOffsets` | helpers.cpp:134-135 | sweep step `3*(dx+1)+(dy+1)` recovers the outer loop's dx and the inner loop's dy |
| `Blurring.WeightIsWindowEntry` | helpers.cpp:138 | the weight of sweep step t is `window[dx+1][dy+1]` for that step's offsets |
| `Blurring.WeightsSumToOne` | helpers.cpp:115-124 | the nine step weights of one sweep add up to one |
| `Blurring.Accumulated` | helpers.cpp:129-144 | the grid accumulated before normalization has the input's height and width |
| `Blurring.Blurred` | helpers.cpp:114-147 | blur's result has the input's height and width |
| `Blurring.ShareLandsOnce` | helpers.cpp:136-139 | one sweep step of one source adds exactly its share to the grid's total |
| `Blurring.SourceDeliversItsMass` | helpers.cpp:133-141 | the nine steps of one source cell deliver exactly that cell's mass |
| `Blurring.RowDeliversItsMass` | helpers.cpp:132-142 | one row of sources delivers exactly the row's mass |
| `Blurring.MassConserved` | helpers.cpp:129-144 | accumulation neither creates nor loses mass: the accumulated grid's total is the input's total |
| `Blurring.OneSourcePerStep` | helpers.cpp:136-139 | at each sweep step exactly one source reaches a given cell: its neighbour at the opposite offset |
| `Blurring.AccumulatedGathers` | helpers.cpp:131-144 | every accumulated cell is the weighted sum of its nine wrapped neighbours |
| `Blurring.NoBlurKeepsGrid` | helpers.cpp:106-109 | with blurring 0, every cell keeps exactly its own mass |
| `Blurring.BlurWithoutBlurring` | helpers.cpp:106-109 | blur with coefficient 0 equals normalize |
| `Blurring.PointMassHasUnitMass` | helpers.cpp:89-95 | a grid with a single 1.0 cell has total one |
| `Blurring.PointMassReachesNeighbour` | helpers.cpp:131-144 | the point mass's neighbour at offset (dx, dy) receives `window[dx+1][dy+1]` |
| `Blurring.PointMassMissesFarCells` | helpers.cpp:131-144 | cells outside the point mass's wrapped 3 x 3 neighbourhood receive nothing |
| `Blurring.PointMassBlurred` | helpers.cpp:84-100 | on any torus of at least 3 x 3 cells, blurring a unit point mass puts the window's weights on its nine wrapped neighbours and 0 everywhere else |
| `Blurring.PointMassSpreadsToWindow` | helpers.cpp:89-100 | blurring a centred point mass on a 3 x 3 grid yields the window itself |
| `Blurring.DocumentedExample` | helpers.cpp:89-100 | blurring 0.12 turns the centred point into 0.01 / 0.02 / 0.88 exactly as documented |
| `Blurring.ShareAtStep` | helpers.cpp:134-139 | `Share` is what one `+=` of the innermost loop adds: at step 3*(dx+1)+(dy+1), source (i, j) sends `grid[i][j] * window[dx+1][dy+1]` to the wrapped (i+dy, j+dx) and nothing to any other cell |
| `Blurring.SourceAtStep` | helpers.cpp:136-139 | at sweep step t, the source at the opposite offset of p, q sends p, q exactly what the gather form says it receives at that step |
| `Blurring.NoBlurKeepsCell` | helpers.cpp:106-109 | with blurring 0, one accumulated cell holds exactly its own mass |
| `Blurring.StartFromZeros` | helpers.cpp:129 | the grid of zeros is the accumulation before any source has been added |
| `Blurring.AddShare` | helpers.cpp:136-139 | one update of the innermost loop performs exactly the next sweep step of the accumulation |
| `Blurring.NextSource` | helpers.cpp:133-141 | after the nine sweep steps of source (i, j), the working grid is the one where source (i, j + 1) starts |
| `Blurring.NextRow` | helpers.cpp:131-142 | after the last source of row i, the working grid is the one where row i + 1 starts |
| `Blurring.AllRowsDone` | helpers.cpp:131-144 | after the last row, the working grid is the accumulated grid |
| `Blurring.SpreadCell` | helpers.cpp:132-141 | one pass of the loop over j adds exactly source (i, j)'s nine shares to the working grid |
| `Blurring.Accumulate` | helpers.cpp:115-144 | the loops give `Accumulated(grid, blurring)`, whose total is the input's total |
| `Blurring.Blur` | helpers.cpp:114-147 | the loops give `Blurred(grid, blurring)`, of the input's shape; the result adds up to 1 when the input's total is non-zero; blurring 0 gives `Normalized(grid)` |
| `LineReading.Find` | helpers.cpp:215 | `find` returns the first index holding the delimiter, or npos exactly when there is none |
| `LineReading.FindFirst` | helpers.cpp:215 | an index holding the delimiter with no earlier delimiter is what `find` returns |
| `LineReading.ReadLineResult` | helpers.cpp:207-224 | read_line's result, one space-terminated token at a time; no cell of a successful row is a space |
| `LineReading.ReadLine` | helpers.cpp:207-224 | the loop gives `ReadLineResult(line)` |
| `LineReading.PushCell` | helpers.cpp:215-221 | one pass of the loop moves the first token's first character from the rest of the line to the end of the row |
| `LineReading.FailsIffEmptyToken` | helpers.cpp:216-219 | reading throws out_of_range exactly when the line starts with a space or has two spaces in a row |
| `LineReading.OneCellPerSpace` | helpers.cpp:215-221 | a successful read yields one cell per space in the line |
| `LineReading.ReadsFirstChars` | helpers.cpp:207-224 | non-empty space-free tokens, each followed by one space, read back as their first characters in order, whatever space-free text follows |
| `LineReading.TrailingTextDropped` | helpers.cpp:215-223 | text after the last space never changes the result |
| `LineReading.FirstSpaceKept` | helpers.cpp:215-217 | appending any text to a line that ends in a space leaves the first space, and what follows it, in place |

## Left out

- `read_map` (helpers.cpp:233-249) reads a file line by line and pushes one `read_line` row per line. File I/O is not modelled; the per-line behaviour is `LineReading.ReadLine`.
- `close_enough` (helpers.cpp:170-197) is a comparison with a 0.0001 tolerance that serves for testing against float results. It is not part of the filter, and with exact reals equality takes its place.
- The debugging helpers (`debugging_helpers.cpp`, included at helpers.cpp:18) are for display. debugging_helpers.cpp is not part of this model.
- The commented-out `main` (helpers.cpp:253-257) is not code.
- Floating-point rounding is not modelled: cells are exact reals, so the documented 0.12 example holds exactly rather than within a tolerance.
- Grids.Normalize: requires a non-zero total, or a grid without cells. For a zero total the source turns zero cells into NaN (0/0) and non-zero cells into plus or minus infinity, and this model does not reproduce that.
- Grids.Zeros: the height and width are `nat`, while the source takes `int`. A negative size makes the `vector` size constructor throw (`std::length_error`), and the model cannot express that case. `blur` only passes the grid's own sizes, which are never negative.
- LineReading.ReadLine: each `char` of the line stands for one byte of the C++ `std::string`. A Dafny `char` is a Unicode scalar value, so a multi-byte UTF-8 character, such as the one at the start of "é r ", is one `char` here, while `token.at(0)` in the source keeps only its first byte.
- Blurring.Blur: requires a non-empty rectangular grid, because the source reads `grid[0]` and sizes the result from it; ragged or empty grids are outside the model. Like `Normalize`, it also requires a non-zero total unless the grid has no columns.
- Blurring.Blur: `int` indices are unbounded. A grid large enough to overflow `i + dy + height` in 32 bits is not modelled.
- LineReading.Find: models `find` for the one-character delimiter `" "` that `read_line` uses, not for general substrings.
