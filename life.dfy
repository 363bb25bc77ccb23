/**
 * One generation of Conway's Game of Life on a bounded rectangular board of
 * integers, with no wrap-around: positions outside the board count as dead.
 *
 * `UpdateBoard` follows the array formulation of the transition: pad the
 * board with zeros, add up the eight shifted windows of the padded board to
 * get every cell's neighbour count, start from a board of zeros and write 1
 * through a survival mask and a birth mask. What it computes is stated
 * against `Neighbours`, an independent cell-by-cell definition of the count.
 *
 * Cell values are integers and are not squashed to 0/1: a value such as 2
 * adds 2 to its neighbours' counts and its own cell always becomes 0.
 */
module Life {
  import opened Grid

  type Board = seq<seq<int>>

  /** The eight Moore offsets, in the order the transition adds the windows. */
  const Moore: seq<(int, int)> :=
    [(-1, -1), (-1, 0), (-1, 1),
     (0, -1),           (0, 1),
     (1, -1),  (1, 0),  (1, 1)]

  /** (k, l) is one of the eight cells around (i, j). */
  predicate IsNeighbour(i: int, j: int, k: int, l: int)
  {
    (k, l) != (i, j) && -1 <= k - i <= 1 && -1 <= l - j <= 1
  }

  /** Sum of the cells at (i + di, j + dj) for the offsets (di, dj) in `offs`; outside cells read 0. */
  function SumAround(b: Board, i: int, j: int, offs: seq<(int, int)>): int
    decreases |offs|
  {
    if offs == [] then 0
    else At(b, i + offs[0].0, j + offs[0].1) + SumAround(b, i, j, offs[1..])
  }

  /**
   * The neighbour count of (i, j): the sum of the in-board cells among its
   * eight Moore neighbours, excluding the cell itself.
   */
  function Neighbours(b: Board, i: int, j: int): int
  {
    SumAround(b, i, j, Moore)
  }

  /** The offsets in `Moore` are exactly those of the eight neighbours of a cell. */
  lemma MooreIsTheNeighbourhood(i: int, j: int, k: int, l: int)
    ensures (k - i, l - j) in Moore <==> IsNeighbour(i, j, k, l)
  {
  }

  /** The neighbour count written out as the sum of its eight terms. */
  lemma NeighboursUnfold(b: Board, i: int, j: int)
    ensures Neighbours(b, i, j) ==
      At(b, i - 1, j - 1) + At(b, i - 1, j) + At(b, i - 1, j + 1)
      + At(b, i, j - 1) + At(b, i, j + 1)
      + At(b, i + 1, j - 1) + At(b, i + 1, j) + At(b, i + 1, j + 1)
  {
  }

  /**
   * The sum of the eight windows of the `m + 2` by `n + 2` grid `p` that are
   * shifted by one Moore offset each: p[:-2, :-2] + p[:-2, 1:-1] + ... + p[2:, 2:].
   */
  function ShiftedSum(p: Board, m: nat, n: nat): (s: Board)
    requires HasShape(p, m + 2, n + 2)
    ensures HasShape(s, m, n)
  {
    ShapeIsRectangular(p, m + 2, n + 2);
    var s1 := Add(Window(p, 0, 0, m, n), Window(p, 0, 1, m, n), m, n);
    var s2 := Add(s1, Window(p, 0, 2, m, n), m, n);
    var s3 := Add(s2, Window(p, 1, 0, m, n), m, n);
    var s4 := Add(s3, Window(p, 1, 2, m, n), m, n);
    var s5 := Add(s4, Window(p, 2, 0, m, n), m, n);
    var s6 := Add(s5, Window(p, 2, 1, m, n), m, n);
    Add(s6, Window(p, 2, 2, m, n), m, n)
  }

  /** Element (i, j) of the shifted sum adds the eight cells of `p` around (i + 1, j + 1). */
  lemma ShiftedSumAt(p: Board, m: nat, n: nat, i: nat, j: nat)
    requires HasShape(p, m + 2, n + 2) && i < m && j < n
    ensures ShiftedSum(p, m, n)[i][j] ==
      p[i][j] + p[i][j + 1] + p[i][j + 2] + p[i + 1][j] + p[i + 1][j + 2]
      + p[i + 2][j] + p[i + 2][j + 1] + p[i + 2][j + 2]
  {
  }

  /** The neighbour-count grid of the transition: the shifted sum of the board padded with zeros. */
  function NeighbourCount(b: Board): (count: Board)
    requires Rectangular(b)
    ensures HasShape(count, |b|, Cols(b))
  {
    ShiftedSum(Pad(b), |b|, Cols(b))
  }

  /**
   * The eight cells of the padded board around (i + 1, j + 1) are the eight
   * neighbours of (i, j) in the board itself, with 0 for those outside it.
   */
  lemma PaddedRing(b: Board, i: nat, j: nat)
    requires Rectangular(b) && i < |b| && j < Cols(b)
    ensures var p := Pad(b);
      p[i][j] + p[i][j + 1] + p[i][j + 2] + p[i + 1][j] + p[i + 1][j + 2]
      + p[i + 2][j] + p[i + 2][j + 1] + p[i + 2][j + 2]
      == At(b, i - 1, j - 1) + At(b, i - 1, j) + At(b, i - 1, j + 1)
      + At(b, i, j - 1) + At(b, i, j + 1)
      + At(b, i + 1, j - 1) + At(b, i + 1, j) + At(b, i + 1, j + 1)
  {
  }

  /**
   * Cell (i, j) of the neighbour-count grid is the neighbour count of (i, j):
   * the zero border stands for the dead cells outside the board.
   */
  lemma NeighbourCountAt(b: Board, i: nat, j: nat)
    requires Rectangular(b) && i < |b| && j < Cols(b)
    ensures NeighbourCount(b)[i][j] == Neighbours(b, i, j)
  {
    ShiftedSumAt(Pad(b), |b|, Cols(b), i, j);
    PaddedRing(b, i, j);
    NeighboursUnfold(b, i, j);
  }

  /** The survival mask: cells holding 1 with two or three neighbours. */
  function SurvivalMask(b: Board, count: Board): (mask: seq<seq<bool>>)
    requires Rectangular(b) && HasShape(count, |b|, Cols(b))
    ensures HasShape(mask, |b|, Cols(b))
  {
    var m, n := |b|, Cols(b);
    And(EqMask(b, 1, m, n), Or(EqMask(count, 2, m, n), EqMask(count, 3, m, n), m, n), m, n)
  }

  /** The birth mask: cells holding 0 with exactly three neighbours. */
  function BirthMask(b: Board, count: Board): (mask: seq<seq<bool>>)
    requires Rectangular(b) && HasShape(count, |b|, Cols(b))
    ensures HasShape(mask, |b|, Cols(b))
  {
    var m, n := |b|, Cols(b);
    And(EqMask(b, 0, m, n), EqMask(count, 3, m, n), m, n)
  }

  /**
   * No cell is in both masks: survival needs the value 1 and birth the value
   * 0, so the order of the two masked writes does not matter.
   */
  lemma MasksDisjoint(b: Board, count: Board, i: nat, j: nat)
    requires Rectangular(b) && HasShape(count, |b|, Cols(b)) && i < |b| && j < Cols(b)
    ensures !(SurvivalMask(b, count)[i][j] && BirthMask(b, count)[i][j])
  {
  }

  /**
   * The next generation: a fresh board of zeros of the same shape, with 1
   * written through the survival mask and then through the birth mask.
   */
  function UpdateBoard(b: Board): (next: Board)
    requires Rectangular(b)
    ensures HasShape(next, |b|, Cols(b)) && Rectangular(next) && Cols(next) == Cols(b)
  {
    var m, n := |b|, Cols(b);
    var count := NeighbourCount(b);
    var next := SetWhere(SetWhere(Zeros(m, n), SurvivalMask(b, count), 1, m, n), BirthMask(b, count), 1, m, n);
    ShapeIsRectangular(next, m, n);
    next
  }

  /**
   * The rules of the transition at one cell (i, j) with neighbour count N:
   * the result is 0 or 1; a cell holding 1 is 1 in the next generation
   * exactly when N is 2 or 3; a cell holding 0 is 1 exactly when N is 3; a
   * cell holding any other value is 0 whatever N is.
   */
  lemma UpdateBoardCell(b: Board, i: nat, j: nat)
    requires Rectangular(b) && i < |b| && j < Cols(b)
    ensures var next, n := UpdateBoard(b), Neighbours(b, i, j);
      && (next[i][j] == 0 || next[i][j] == 1)
      && (b[i][j] == 1 ==> (next[i][j] == 1 <==> n == 2 || n == 3))
      && (b[i][j] == 0 ==> (next[i][j] == 1 <==> n == 3))
      && (b[i][j] != 0 && b[i][j] != 1 ==> next[i][j] == 0)
  {
    var m, n := |b|, Cols(b);
    ShapeIsRectangular(b, m, n);
    var count := NeighbourCount(b);
    NeighbourCountAt(b, i, j);
    var z := Zeros(m, n);
    ZerosAt(m, n, i, j);
    var e1, c2, c3 := EqMask(b, 1, m, n), EqMask(count, 2, m, n), EqMask(count, 3, m, n);
    EqMaskAt(b, 1, m, n, i, j);
    EqMaskAt(count, 2, m, n, i, j);
    EqMaskAt(count, 3, m, n, i, j);
    OrAt(c2, c3, m, n, i, j);
    AndAt(e1, Or(c2, c3, m, n), m, n, i, j);
    var e0 := EqMask(b, 0, m, n);
    EqMaskAt(b, 0, m, n, i, j);
    AndAt(e0, c3, m, n, i, j);
    var survival, birth := SurvivalMask(b, count), BirthMask(b, count);
    var first := SetWhere(z, survival, 1, m, n);
    SetWhereAt(z, survival, 1, m, n, i, j);
    SetWhereAt(first, birth, 1, m, n, i, j);
  }

  /**
   * The board after `k` generations, as the display loop produces it by
   * replacing its board with the next generation once per step: the first
   * step, followed by the remaining `k - 1`.
   */
  function Generations(b: Board, k: nat): (r: Board)
    requires Rectangular(b)
    ensures HasShape(r, |b|, Cols(b)) && Rectangular(r) && Cols(r) == Cols(b)
    decreases k
  {
    if k == 0 then b else Generations(UpdateBoard(b), k - 1)
  }
}
