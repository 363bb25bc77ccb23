# Conway's Game of Life: one generation on a bounded board

This project models `update_board`, the transition function of a small
Game of Life program, and proves what it computes. The function takes a
rectangular board of integers and returns the next generation:

- the board gets a one-cell border of zeros, so cells beyond the edge count as dead and nothing wraps around;
- the eight slices of the padded board, one per Moore offset, are added up to give every cell's neighbour count;
- a fresh board of zeros of the same shape gets 1 written through a survival mask (value 1, count 2 or 3) and then a birth mask (value 0, count 3).

The model has three modules:

- `Grid` (`grid.dfy`) holds the whole-array operations the function is built from, each stated by its net effect. They are zero padding, rectangular windows (slices), element-wise addition, comparison with a constant, `&` and `|` of masks, a board of zeros and masked assignment. Each function promises the shape of its result, and a `...At` lemma beside it gives the value of every element.
- `Life` (`life.dfy`) holds `UpdateBoard`, which follows the same pipeline: `Pad`, then `ShiftedSum` over eight `Window`s, then `SurvivalMask` and `BirthMask`, then two `SetWhere`s into `Zeros`. Beside it is `Neighbours`, an independent cell-by-cell definition of the neighbour count: the sum of the in-board cells among the eight around a cell. `NeighbourCountAt` proves that the padded-slices count equals it. `UpdateBoardCell` states the rules of the game against it. `Generations` is the board after `k` passes of the display loop.
- `LifeProperties` (`life_properties.dfy`) holds the consequences:
  - the binary range;
  - locality of the count;
  - boundary cells;
  - the empty board and an isolated cell;
  - the 2x2 block as a still life;
  - the blinker as an oscillator of period two;
  - the treatment of values other than 0 and 1.

Boards are `seq<seq<int>>` values. The input therefore cannot be changed by the call, and the result is always a new board.

**Cell values are not squashed to 0/1.** The function converts its input with an integer cast (`apputil.py:10`). That cast leaves a value such as 2 as 2. Such a cell adds 2 to each of its neighbours' counts, and it is 0 in the next generation because neither mask matches it. The specification of the program describes the input as first coerced to {0, 1}. The code does not do that, and this model follows the code. `UpdateBoardCell`, `TwoCountsTwice`, `NonBinaryCountsInFull` and `NonBinaryCellClears` state this behaviour.

The specification also asks for at least one row and one column. The code imposes no such limit, and neither does the model: an empty board steps to an empty board.

## Model

| member | source | states |
|---|---|---|
| Grid.Zeros | apputil.py:20 | the board of zeros has the requested number of rows and columns |
| Grid.ZerosAt | apputil.py:20 | every cell of the board of zeros is 0 |
| Grid.Pad | apputil.py:13 | the padded board is two rows and two columns larger than the board |
| Grid.PadAt | apputil.py:13 | position (i, j) of the padded board holds cell (i-1, j-1) of the board, or 0 on the border |
| Grid.Window | apputil.py:15-17 | a slice `g[r0:r0+rows, c0:c0+cols]` has `rows` rows and `cols` columns |
| Grid.WindowAt | apputil.py:15-17 | element (i, j) of the slice is cell (r0+i, c0+j) of the sliced board |
| Grid.Add | apputil.py:14-18 | the sum of two boards of one shape has that shape |
| Grid.AddAt | apputil.py:14-18 | each element of the sum is the sum of the two elements at that position |
| Grid.EqMask | apputil.py:21-22 | a comparison with a constant gives a mask of the board's shape |
| Grid.EqMaskAt | apputil.py:21-22 | the mask is set exactly where the board holds the constant |
| Grid.And | apputil.py:21-22 | the conjunction of two masks has their shape |
| Grid.AndAt | apputil.py:21-22 | the conjunction is set exactly where both masks are |
| Grid.Or | apputil.py:21 | the disjunction of two masks has their shape |
| Grid.OrAt | apputil.py:21 | the disjunction is set exactly where either mask is |
| Grid.SetWhere | apputil.py:21-22 | a masked assignment keeps the board's shape |
| Grid.SetWhereAt | apputil.py:21-22 | a masked assignment writes the value where the mask is set and keeps every other cell |
| Life.MooreIsTheNeighbourhood | apputil.py:14-18 | the eight offsets summed are exactly the cells at distance one, without the cell itself |
| Life.NeighboursUnfold | apputil.py:14-18 | the neighbour count is the sum of the eight surrounding cells, with 0 off the board |
| Life.ShiftedSum | apputil.py:14-18 | the sum of the eight slices has the board's shape |
| Life.ShiftedSumAt | apputil.py:14-18 | element (i, j) of the sum of slices adds the eight cells of the padded board around (i+1, j+1) |
| Life.PaddedRing | apputil.py:12-13 | the eight padded cells around (i+1, j+1) are the eight neighbours of (i, j), with 0 outside the board |
| Life.NeighbourCount | apputil.py:13-18 | the neighbour-count grid has the board's shape |
| Life.NeighbourCountAt | apputil.py:12-18 | the padded-slice count of every cell equals its neighbour count, with no wrap-around |
| Life.SurvivalMask | apputil.py:21 | the survival mask has the board's shape |
| Life.BirthMask | apputil.py:22 | the birth mask has the board's shape |
| Life.MasksDisjoint | apputil.py:21-22 | no cell is in both the survival and the birth mask |
| Life.UpdateBoard | apputil.py:20-24 | the next generation has exactly the rows and columns of the board |
| Life.UpdateBoardCell | apputil.py:20-22 | next cell is 0 or 1; a 1 stays 1 iff its count is 2 or 3; a 0 becomes 1 iff its count is 3; any other value becomes 0 |
| Life.Generations | apputil.py:40-44 | every board the display loop produces has the shape of the first |
| LifeProperties.SumAroundBinaryRange | apputil.py:14-18 | on a 0/1 board a sum over any list of offsets lies between 0 and the length of the list |
| LifeProperties.NeighboursBinaryRange | apputil.py:12-18 | on a 0/1 board every neighbour count lies in 0..8 |
| LifeProperties.UpdateBoardIsBinary | apputil.py:20-22 | every cell of the next generation is 0 or 1, whatever integers the board holds |
| LifeProperties.NeighbourLocality | apputil.py:14-18 | changing cell (k, l) by d changes the count of (i, j) by d exactly when (k, l) is one of its neighbours, and by 0 otherwise |
| LifeProperties.CornerNeighbours | apputil.py:12-18 | the corner cell counts only its three in-board neighbours |
| LifeProperties.NextCell | apputil.py:20-22 | the next value of every cell is the survival-or-birth rule applied to its value and count |
| LifeProperties.ZerosAreStill | apputil.py:14-22 | the all-zero board of any size maps to itself |
| LifeProperties.SingleCellNeighbours | apputil.py:14-18 | on a board with one live cell, a cell counts 1 if it is next to that cell and 0 otherwise |
| LifeProperties.SingleCellNext | apputil.py:14-22 | on a board with one live cell, every cell is 0 in the next generation |
| LifeProperties.IsolatedCellDies | apputil.py:14-22 | a single live cell dies and leaves the all-zero board |
| LifeProperties.RectNeighbours | apputil.py:14-18 | the count of a cell on a rectangle board is the number of its neighbours on the rectangle and the board |
| LifeProperties.RectStep | apputil.py:14-22 | each cell of a rectangle board's next generation is the rule applied to its value and that count |
| LifeProperties.RectSteps | apputil.py:14-22 | a rectangle board steps to another rectangle board when the rule agrees with it cell by cell |
| LifeProperties.BlockIsStill | apputil.py:14-22 | the 4x4 board with a live 2x2 block at rows and columns 1-2 maps to itself |
| LifeProperties.BlinkerTurnsVertical | apputil.py:14-22 | the horizontal three-cell line in the middle of a 5x5 board becomes the vertical one |
| LifeProperties.BlinkerTurnsHorizontal | apputil.py:14-22 | the vertical line becomes the horizontal one again |
| LifeProperties.GenerationsLast | apputil.py:40-44 | generation k+1 is the next generation of generation k |
| LifeProperties.OneStep | apputil.py:40-44 | when a board steps to another, its generations are that board's generations one step later |
| LifeProperties.StillLifeStays | apputil.py:40-44 | a board that maps to itself stays unchanged for any number of steps |
| LifeProperties.TwoSteps | apputil.py:40-44 | two boards that step to each other repeat after every two steps |
| LifeProperties.PeriodTwo | apputil.py:40-44 | for two boards that step to each other, every even step gives the first and every odd step the second |
| LifeProperties.BlinkerHasPeriodTwo | apputil.py:14-22 | the blinker is horizontal after an even number of steps and vertical after an odd number |
| LifeProperties.TwoCountsTwice | apputil.py:14-18 | on [[2, 0, 1], [0, 0, 0]] the 2 counts 2 toward the cell below it, which has a count of 3 |
| LifeProperties.NonBinaryCountsInFull | apputil.py:14-22 | that cell, holding 0 with a count of 3, is born |
| LifeProperties.NonBinaryCellClears | apputil.py:21-22 | the cell holding 2 becomes 0 |

## Left out

- `show_game` (apputil.py:27-54) is not modelled: clearing the output, drawing the heat map and title, showing the plot and sleeping are presentation and time. Only the sequence of boards its loop produces is modelled, as `Life.Generations`.
- The integer cast at apputil.py:10 is not modelled. Its truncation of floats such as 0.7 to 0 and its conversion of booleans are outside the model. Boards are integer grids from the start.
- Inputs that are not rectangular or not two-dimensional are excluded by the `Rectangular` precondition, because numpy rejects them.
- A numpy array with zero rows but a positive column count has no counterpart: a `seq<seq<int>>` without rows has no columns.
- Life.NeighbourCount: numpy adds fixed-width machine integers, while the model adds unbounded integers, so a sum that would overflow (cell values near 2^63) is not modelled.
- The input is never written and the result is newly allocated. Boards are values here, so no separate statement exists for either.
- numpy itself (`np.pad`, slicing, `zeros_like`, masked assignment) is modelled by its net effect on the cells, not by its general semantics.
