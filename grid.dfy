/**
 * Rectangular integer grids and the whole-array operations the Game of Life
 * transition is built from: zero padding, rectangular windows (slices),
 * element-wise addition, comparison against a constant, element-wise
 * conjunction and disjunction of masks, a grid of zeros, and assignment of a
 * constant through a mask. Each operation is stated by its net effect: its
 * function promises the shape of the result, and a lemma beside it gives the
 * value of every element. (Keeping the element values out of the functions'
 * postconditions keeps proofs about whole boards small.)
 */
module Grid {

  /** Number of columns; a grid without rows has none. */
  function Cols<T>(g: seq<seq<T>>): nat
  {
    if |g| == 0 then 0 else |g[0]|
  }

  /** Every row has the same length. */
  predicate Rectangular<T>(g: seq<seq<T>>)
  {
    forall i :: 0 <= i < |g| ==> |g[i]| == Cols(g)
  }

  /** `g` is a `rows` by `cols` grid. */
  predicate HasShape<T>(g: seq<seq<T>>, rows: nat, cols: nat)
  {
    |g| == rows && forall i :: 0 <= i < |g| ==> |g[i]| == cols
  }

  lemma ShapeIsRectangular<T>(g: seq<seq<T>>, rows: nat, cols: nat)
    requires HasShape(g, rows, cols)
    ensures Rectangular(g)
    ensures rows > 0 ==> Cols(g) == cols
  {
  }

  /** Two grids of the same shape that agree on every element are equal. */
  lemma ElementwiseEqual<T>(x: seq<seq<T>>, y: seq<seq<T>>, rows: nat, cols: nat)
    requires HasShape(x, rows, cols) && HasShape(y, rows, cols)
    requires forall i, j :: 0 <= i < rows && 0 <= j < cols ==> x[i][j] == y[i][j]
    ensures x == y
  {
    forall i | 0 <= i < rows ensures x[i] == y[i] {
    }
  }

  /** The value of a cell, with every position outside the grid reading as 0. */
  function At(g: seq<seq<int>>, i: int, j: int): int
  {
    if 0 <= i < |g| && 0 <= j < |g[i]| then g[i][j] else 0
  }

  /** A `rows` by `cols` grid of zeros. */
  function Zeros(rows: nat, cols: nat): (z: seq<seq<int>>)
    ensures HasShape(z, rows, cols) && Rectangular(z) && (rows > 0 ==> Cols(z) == cols)
  {
    seq(rows, i requires 0 <= i < rows => seq(cols, j requires 0 <= j < cols => 0))
  }

  lemma ZerosAt(rows: nat, cols: nat, i: nat, j: nat)
    requires i < rows && j < cols
    ensures Zeros(rows, cols)[i][j] == 0
  {
  }

  /** The grid surrounded by a border of zeros one cell thick. */
  function Pad(g: seq<seq<int>>): (p: seq<seq<int>>)
    requires Rectangular(g)
    ensures HasShape(p, |g| + 2, Cols(g) + 2) && Rectangular(p) && Cols(p) == Cols(g) + 2
  {
    seq(|g| + 2, i =>
      seq(Cols(g) + 2, j =>
        if 1 <= i <= |g| && 1 <= j <= Cols(g) then g[i - 1][j - 1] else 0))
  }

  /**
   * Position (i, j) of the padded grid holds the cell (i - 1, j - 1) of `g`,
   * or 0 where that cell lies outside `g`.
   */
  lemma PadAt(g: seq<seq<int>>, i: nat, j: nat)
    requires Rectangular(g) && i < |g| + 2 && j < Cols(g) + 2
    ensures Pad(g)[i][j] == At(g, i - 1, j - 1)
  {
  }

  /**
   * The `rows` by `cols` window of `g` whose top-left corner is (r0, c0),
   * that is, the slice g[r0 : r0 + rows, c0 : c0 + cols].
   */
  function Window(g: seq<seq<int>>, r0: nat, c0: nat, rows: nat, cols: nat): (w: seq<seq<int>>)
    requires Rectangular(g)
    requires r0 + rows <= |g| && c0 + cols <= Cols(g)
    ensures HasShape(w, rows, cols)
  {
    seq(rows, i requires 0 <= i < rows => seq(cols, j requires 0 <= j < cols => g[r0 + i][c0 + j]))
  }

  lemma WindowAt(g: seq<seq<int>>, r0: nat, c0: nat, rows: nat, cols: nat, i: nat, j: nat)
    requires Rectangular(g)
    requires r0 + rows <= |g| && c0 + cols <= Cols(g)
    requires i < rows && j < cols
    ensures Window(g, r0, c0, rows, cols)[i][j] == g[r0 + i][c0 + j]
  {
  }

  /** Element-wise sum of two grids of the same shape. */
  function Add(x: seq<seq<int>>, y: seq<seq<int>>, rows: nat, cols: nat): (s: seq<seq<int>>)
    requires HasShape(x, rows, cols) && HasShape(y, rows, cols)
    ensures HasShape(s, rows, cols)
  {
    seq(rows, i requires 0 <= i < rows => seq(cols, j requires 0 <= j < cols => x[i][j] + y[i][j]))
  }

  lemma AddAt(x: seq<seq<int>>, y: seq<seq<int>>, rows: nat, cols: nat, i: nat, j: nat)
    requires HasShape(x, rows, cols) && HasShape(y, rows, cols)
    requires i < rows && j < cols
    ensures Add(x, y, rows, cols)[i][j] == x[i][j] + y[i][j]
  {
  }

  /** The mask of the positions where `g` holds `v` (the comparison g == v). */
  function EqMask(g: seq<seq<int>>, v: int, rows: nat, cols: nat): (m: seq<seq<bool>>)
    requires HasShape(g, rows, cols)
    ensures HasShape(m, rows, cols)
  {
    seq(rows, i requires 0 <= i < rows => seq(cols, j requires 0 <= j < cols => g[i][j] == v))
  }

  lemma EqMaskAt(g: seq<seq<int>>, v: int, rows: nat, cols: nat, i: nat, j: nat)
    requires HasShape(g, rows, cols)
    requires i < rows && j < cols
    ensures EqMask(g, v, rows, cols)[i][j] <==> g[i][j] == v
  {
  }

  /** Element-wise conjunction of two masks (the operator &). */
  function And(x: seq<seq<bool>>, y: seq<seq<bool>>, rows: nat, cols: nat): (m: seq<seq<bool>>)
    requires HasShape(x, rows, cols) && HasShape(y, rows, cols)
    ensures HasShape(m, rows, cols)
  {
    seq(rows, i requires 0 <= i < rows => seq(cols, j requires 0 <= j < cols => x[i][j] && y[i][j]))
  }

  lemma AndAt(x: seq<seq<bool>>, y: seq<seq<bool>>, rows: nat, cols: nat, i: nat, j: nat)
    requires HasShape(x, rows, cols) && HasShape(y, rows, cols)
    requires i < rows && j < cols
    ensures And(x, y, rows, cols)[i][j] <==> x[i][j] && y[i][j]
  {
  }

  /** Element-wise disjunction of two masks (the operator |). */
  function Or(x: seq<seq<bool>>, y: seq<seq<bool>>, rows: nat, cols: nat): (m: seq<seq<bool>>)
    requires HasShape(x, rows, cols) && HasShape(y, rows, cols)
    ensures HasShape(m, rows, cols)
  {
    seq(rows, i requires 0 <= i < rows => seq(cols, j requires 0 <= j < cols => x[i][j] || y[i][j]))
  }

  lemma OrAt(x: seq<seq<bool>>, y: seq<seq<bool>>, rows: nat, cols: nat, i: nat, j: nat)
    requires HasShape(x, rows, cols) && HasShape(y, rows, cols)
    requires i < rows && j < cols
    ensures Or(x, y, rows, cols)[i][j] <==> x[i][j] || y[i][j]
  {
  }

  /** The grid after the masked assignment g[mask] = v. */
  function SetWhere(g: seq<seq<int>>, mask: seq<seq<bool>>, v: int, rows: nat, cols: nat): (r: seq<seq<int>>)
    requires HasShape(g, rows, cols) && HasShape(mask, rows, cols)
    ensures HasShape(r, rows, cols)
  {
    seq(rows, i requires 0 <= i < rows => seq(cols, j requires 0 <= j < cols => if mask[i][j] then v else g[i][j]))
  }

  /** A masked assignment writes `v` where the mask is set and keeps the old value everywhere else. */
  lemma SetWhereAt(g: seq<seq<int>>, mask: seq<seq<bool>>, v: int, rows: nat, cols: nat, i: nat, j: nat)
    requires HasShape(g, rows, cols) && HasShape(mask, rows, cols)
    requires i < rows && j < cols
    ensures SetWhere(g, mask, v, rows, cols)[i][j] == if mask[i][j] then v else g[i][j]
  {
  }

  /** The grid with the single cell (k, l) replaced by `v`. */
  function SetCell(g: seq<seq<int>>, k: nat, l: nat, v: int): (r: seq<seq<int>>)
    requires Rectangular(g) && k < |g| && l < Cols(g)
    ensures HasShape(r, |g|, Cols(g)) && Rectangular(r) && Cols(r) == Cols(g)
  {
    g[k := g[k][l := v]]
  }

  /** Only the cell (k, l) changes, everything else keeps its value; outside the grid both read 0. */
  lemma SetCellAt(g: seq<seq<int>>, k: nat, l: nat, v: int, x: int, y: int)
    requires Rectangular(g) && k < |g| && l < Cols(g)
    ensures At(SetCell(g, k, l, v), x, y) == At(g, x, y) + (if (x, y) == (k, l) then v - g[k][l] else 0)
  {
  }
}
