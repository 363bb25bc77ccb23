/**
 * Properties of the Game of Life transition: the range of the neighbour
 * count, its locality, boundary cells, and the classic small patterns (the
 * empty board, an isolated cell, the 2x2 block and the blinker).
 */
module LifeProperties {
  import opened Grid
  import opened Life

  /** Every cell of the board is 0 or 1. */
  predicate IsBinary(b: Board)
  {
    forall i, j :: 0 <= i < |b| && 0 <= j < |b[i]| ==> b[i][j] == 0 || b[i][j] == 1
  }

  /** On a board of zeros and ones, a sum over any list of offsets counts at most one per offset. */
  lemma {:induction false} SumAroundBinaryRange(b: Board, i: int, j: int, offs: seq<(int, int)>)
    requires IsBinary(b)
    ensures 0 <= SumAround(b, i, j, offs) <= |offs|
    decreases |offs|
  {
    if offs != [] {
      SumAroundBinaryRange(b, i, j, offs[1..]);
    }
  }

  /** On a board of zeros and ones every neighbour count lies in 0..8. */
  lemma NeighboursBinaryRange(b: Board, i: int, j: int)
    requires IsBinary(b)
    ensures 0 <= Neighbours(b, i, j) <= 8
  {
  }

  /** The next generation of any board, whatever integers it holds, is a board of zeros and ones. */
  lemma UpdateBoardIsBinary(b: Board)
    requires Rectangular(b)
    ensures IsBinary(UpdateBoard(b))
  {
  }

  /**
   * Changing the cell (k, l) to `v` changes the neighbour count of (i, j) by
   * the full difference v - b[k][l] when (k, l) is one of its eight
   * neighbours, and leaves it unchanged otherwise (in particular when
   * (k, l) is (i, j) itself). Values other than 0 and 1 count in full.
   */
  lemma NeighbourLocality(b: Board, i: int, j: int, k: nat, l: nat, v: int)
    requires Rectangular(b) && k < |b| && l < Cols(b)
    ensures Neighbours(SetCell(b, k, l, v), i, j) ==
      Neighbours(b, i, j) + (if IsNeighbour(i, j, k, l) then v - b[k][l] else 0)
  {
    var c := SetCell(b, k, l, v);
    NeighboursUnfold(b, i, j);
    NeighboursUnfold(c, i, j);
    SetCellAt(b, k, l, v, i - 1, j - 1);
    SetCellAt(b, k, l, v, i - 1, j);
    SetCellAt(b, k, l, v, i - 1, j + 1);
    SetCellAt(b, k, l, v, i, j - 1);
    SetCellAt(b, k, l, v, i, j + 1);
    SetCellAt(b, k, l, v, i + 1, j - 1);
    SetCellAt(b, k, l, v, i + 1, j);
    SetCellAt(b, k, l, v, i + 1, j + 1);
  }

  /**
   * Boundary cells have only their in-board neighbours: the corner (0, 0)
   * counts exactly the three cells to its right, below and diagonally below.
   */
  lemma CornerNeighbours(b: Board)
    requires Rectangular(b) && |b| >= 2 && Cols(b) >= 2
    ensures Neighbours(b, 0, 0) == b[0][1] + b[1][0] + b[1][1]
  {
  }

  /** Every sum around a cell of the board of zeros is 0. */
  lemma {:induction false} SumAroundZeros(rows: nat, cols: nat, i: int, j: int, offs: seq<(int, int)>)
    ensures SumAround(Zeros(rows, cols), i, j, offs) == 0
    decreases |offs|
  {
    if offs != [] {
      var x, y := i + offs[0].0, j + offs[0].1;
      if 0 <= x < rows && 0 <= y < cols {
        ZerosAt(rows, cols, x, y);
      }
      SumAroundZeros(rows, cols, i, j, offs[1..]);
    }
  }

  /** The empty board of any size is a still life. */
  lemma ZerosAreStill(rows: nat, cols: nat)
    ensures UpdateBoard(Zeros(rows, cols)) == Zeros(rows, cols)
  {
    var z := Zeros(rows, cols);
    ShapeIsRectangular(z, rows, cols);
    var next := UpdateBoard(z);
    forall i, j | 0 <= i < rows && 0 <= j < cols ensures next[i][j] == z[i][j] {
      NextCell(z, i, j);
      ZerosAt(rows, cols, i, j);
      SumAroundZeros(rows, cols, i, j, Moore);
    }
    ElementwiseEqual(next, z, rows, cols);
  }

  /** On a board whose only nonzero cell is (k, l), holding 1, a cell has one neighbour when it is next to (k, l) and none otherwise. */
  lemma SingleCellNeighbours(rows: nat, cols: nat, k: nat, l: nat, i: int, j: int)
    requires k < rows && l < cols
    ensures Neighbours(SetCell(Zeros(rows, cols), k, l, 1), i, j) == if IsNeighbour(i, j, k, l) then 1 else 0
  {
    var z := Zeros(rows, cols);
    ShapeIsRectangular(z, rows, cols);
    NeighbourLocality(z, i, j, k, l, 1);
    SumAroundZeros(rows, cols, i, j, Moore);
  }

  /** Every cell of a board whose only nonzero cell is (k, l), holding 1, is 0 in the next generation. */
  lemma SingleCellNext(rows: nat, cols: nat, k: nat, l: nat, i: nat, j: nat)
    requires k < rows && l < cols && i < rows && j < cols
    ensures UpdateBoard(SetCell(Zeros(rows, cols), k, l, 1))[i][j] == 0
  {
    var z := Zeros(rows, cols);
    var b := SetCell(z, k, l, 1);
    NextCell(b, i, j);
    SingleCellNeighbours(rows, cols, k, l, i, j);
    ZerosAt(rows, cols, i, j);
    ZerosAt(rows, cols, k, l);
    SetCellAt(z, k, l, 1, i, j);
  }

  /** A single live cell on an otherwise empty board dies, and the board is empty after one step. */
  lemma IsolatedCellDies(rows: nat, cols: nat, k: nat, l: nat)
    requires k < rows && l < cols
    ensures UpdateBoard(SetCell(Zeros(rows, cols), k, l, 1)) == Zeros(rows, cols)
  {
    var z := Zeros(rows, cols);
    var b := SetCell(z, k, l, 1);
    var next := UpdateBoard(b);
    assert HasShape(next, rows, cols);
    forall i, j | 0 <= i < rows && 0 <= j < cols ensures next[i][j] == z[i][j] {
      SingleCellNext(rows, cols, k, l, i, j);
      ZerosAt(rows, cols, i, j);
    }
    ElementwiseEqual(next, z, rows, cols);
  }

  /**
   * The `rows` by `cols` board that is 1 exactly on the rectangle of rows
   * r0..r1 and columns c0..c1 (bounds included) and 0 everywhere else.
   */
  function Rect(rows: nat, cols: nat, r0: int, r1: int, c0: int, c1: int): (b: Board)
    ensures HasShape(b, rows, cols) && Rectangular(b) && (rows > 0 ==> Cols(b) == cols)
  {
    seq(rows, i requires 0 <= i < rows => seq(cols, j requires 0 <= j < cols =>
      if r0 <= i <= r1 && c0 <= j <= c1 then 1 else 0))
  }

  /** Cell (x, y) of a rectangle board, reading 0 outside the board. */
  function InRect(rows: nat, cols: nat, r0: int, r1: int, c0: int, c1: int, x: int, y: int): int
  {
    if 0 <= x < rows && 0 <= y < cols && r0 <= x <= r1 && c0 <= y <= c1 then 1 else 0
  }

  /** The number of the eight cells around (i, j) that lie on the rectangle and on the board. */
  function RectCount(rows: nat, cols: nat, r0: int, r1: int, c0: int, c1: int, i: int, j: int): int
  {
    InRect(rows, cols, r0, r1, c0, c1, i - 1, j - 1) + InRect(rows, cols, r0, r1, c0, c1, i - 1, j)
    + InRect(rows, cols, r0, r1, c0, c1, i - 1, j + 1) + InRect(rows, cols, r0, r1, c0, c1, i, j - 1)
    + InRect(rows, cols, r0, r1, c0, c1, i, j + 1) + InRect(rows, cols, r0, r1, c0, c1, i + 1, j - 1)
    + InRect(rows, cols, r0, r1, c0, c1, i + 1, j) + InRect(rows, cols, r0, r1, c0, c1, i + 1, j + 1)
  }

  /** The neighbour count of (i, j) on a rectangle board. */
  lemma RectNeighbours(rows: nat, cols: nat, r0: int, r1: int, c0: int, c1: int, i: int, j: int)
    ensures Neighbours(Rect(rows, cols, r0, r1, c0, c1), i, j) == RectCount(rows, cols, r0, r1, c0, c1, i, j)
  {
    var b := Rect(rows, cols, r0, r1, c0, c1);
    NeighboursUnfold(b, i, j);
    RectAt(rows, cols, r0, r1, c0, c1, i - 1, j - 1);
    RectAt(rows, cols, r0, r1, c0, c1, i - 1, j);
    RectAt(rows, cols, r0, r1, c0, c1, i - 1, j + 1);
    RectAt(rows, cols, r0, r1, c0, c1, i, j - 1);
    RectAt(rows, cols, r0, r1, c0, c1, i, j + 1);
    RectAt(rows, cols, r0, r1, c0, c1, i + 1, j - 1);
    RectAt(rows, cols, r0, r1, c0, c1, i + 1, j);
    RectAt(rows, cols, r0, r1, c0, c1, i + 1, j + 1);
  }

  lemma RectAt(rows: nat, cols: nat, r0: int, r1: int, c0: int, c1: int, x: int, y: int)
    ensures At(Rect(rows, cols, r0, r1, c0, c1), x, y) == InRect(rows, cols, r0, r1, c0, c1, x, y)
  {
  }

  /** The value of a cell with value `v` and neighbour count `n` in the next generation. */
  function Rule(v: int, n: int): int
  {
    if (v == 1 && (n == 2 || n == 3)) || (v == 0 && n == 3) then 1 else 0
  }

  /** The value of a cell in the next generation of any board, by the survival and birth rules. */
  lemma NextCell(b: Board, i: nat, j: nat)
    requires Rectangular(b) && i < |b| && j < Cols(b)
    ensures UpdateBoard(b)[i][j] == Rule(b[i][j], Neighbours(b, i, j))
  {
    UpdateBoardCell(b, i, j);
  }

  /** The next generation of a rectangle board, cell by cell. */
  lemma RectStep(rows: nat, cols: nat, r0: int, r1: int, c0: int, c1: int, i: nat, j: nat)
    requires i < rows && j < cols
    ensures UpdateBoard(Rect(rows, cols, r0, r1, c0, c1))[i][j] ==
      Rule(InRect(rows, cols, r0, r1, c0, c1, i, j), RectCount(rows, cols, r0, r1, c0, c1, i, j))
  {
    NextCell(Rect(rows, cols, r0, r1, c0, c1), i, j);
    RectAt(rows, cols, r0, r1, c0, c1, i, j);
    RectNeighbours(rows, cols, r0, r1, c0, c1, i, j);
  }

  /**
   * A rectangle board whose every cell, by the rules applied to its value
   * and its neighbour count, takes the value of another rectangle board,
   * steps to that board.
   */
  lemma RectSteps(rows: nat, cols: nat, r0: int, r1: int, c0: int, c1: int, e0: int, e1: int, f0: int, f1: int)
    requires forall i, j :: 0 <= i < rows && 0 <= j < cols ==>
      Rule(InRect(rows, cols, r0, r1, c0, c1, i, j), RectCount(rows, cols, r0, r1, c0, c1, i, j))
        == InRect(rows, cols, e0, e1, f0, f1, i, j)
    ensures UpdateBoard(Rect(rows, cols, r0, r1, c0, c1)) == Rect(rows, cols, e0, e1, f0, f1)
  {
    var next, e := UpdateBoard(Rect(rows, cols, r0, r1, c0, c1)), Rect(rows, cols, e0, e1, f0, f1);
    forall i, j | 0 <= i < rows && 0 <= j < cols ensures next[i][j] == e[i][j] {
      RectStep(rows, cols, r0, r1, c0, c1, i, j);
      RectAt(rows, cols, e0, e1, f0, f1, i, j);
    }
    ElementwiseEqual(next, e, rows, cols);
  }

  /** The still life "block": a 4x4 board with a live 2x2 square at rows 1-2, columns 1-2. */
  function Block(): Board
  {
    Rect(4, 4, 1, 2, 1, 2)
  }

  /** The blinker in its horizontal phase: row 2, columns 1-3 of a 5x5 board. */
  function BlinkerH(): Board
  {
    Rect(5, 5, 2, 2, 1, 3)
  }

  /** The blinker in its vertical phase: column 2, rows 1-3 of a 5x5 board. */
  function BlinkerV(): Board
  {
    Rect(5, 5, 1, 3, 2, 2)
  }

  /** The block is a still life. */
  lemma BlockIsStill()
    ensures UpdateBoard(Block()) == Block()
  {
    forall i, j | 0 <= i < 4 && 0 <= j < 4
      ensures Rule(InRect(4, 4, 1, 2, 1, 2, i, j), RectCount(4, 4, 1, 2, 1, 2, i, j)) == InRect(4, 4, 1, 2, 1, 2, i, j)
    {
    }
    RectSteps(4, 4, 1, 2, 1, 2, 1, 2, 1, 2);
  }

  /** The horizontal blinker turns vertical. */
  lemma BlinkerTurnsVertical()
    ensures UpdateBoard(BlinkerH()) == BlinkerV()
  {
    forall i, j | 0 <= i < 5 && 0 <= j < 5
      ensures Rule(InRect(5, 5, 2, 2, 1, 3, i, j), RectCount(5, 5, 2, 2, 1, 3, i, j)) == InRect(5, 5, 1, 3, 2, 2, i, j)
    {
    }
    RectSteps(5, 5, 2, 2, 1, 3, 1, 3, 2, 2);
  }

  /** The vertical blinker turns horizontal again. */
  lemma BlinkerTurnsHorizontal()
    ensures UpdateBoard(BlinkerV()) == BlinkerH()
  {
    forall i, j | 0 <= i < 5 && 0 <= j < 5
      ensures Rule(InRect(5, 5, 1, 3, 2, 2, i, j), RectCount(5, 5, 1, 3, 2, 2, i, j)) == InRect(5, 5, 2, 2, 1, 3, i, j)
    {
    }
    RectSteps(5, 5, 1, 3, 2, 2, 2, 2, 1, 3);
  }

  /** Step k + 1 is the next generation of step k: the loop's last step comes after the others. */
  lemma {:induction false} GenerationsLast(b: Board, k: nat)
    requires Rectangular(b)
    ensures Generations(b, k + 1) == UpdateBoard(Generations(b, k))
    decreases k
  {
    if k > 0 {
      var c := UpdateBoard(b);
      GenerationsLast(c, k - 1);
      OneStep(b, c, k);
      OneStep(b, c, k - 1);
    }
  }

  /** A still life stays unchanged for any number of generations. */
  lemma {:induction false} StillLifeStays(b: Board, k: nat)
    requires Rectangular(b) && UpdateBoard(b) == b
    ensures Generations(b, k) == b
    decreases k
  {
    if k > 0 {
      StillLifeStays(b, k - 1);
    }
  }

  /** When `a` steps to `b`, the generations of `a` are those of `b`, one step later. */
  lemma OneStep(a: Board, b: Board, n: nat)
    requires Rectangular(a) && UpdateBoard(a) == b
    ensures Generations(a, n + 1) == Generations(b, n)
  {
  }

  /** Two generations carry `a` back to itself when it steps to `b` and `b` steps back to `a`. */
  lemma TwoSteps(a: Board, b: Board, n: nat)
    requires Rectangular(a) && UpdateBoard(a) == b && UpdateBoard(b) == a
    ensures Generations(a, n + 2) == Generations(a, n)
  {
  }

  /** A sequence of values that repeats after two steps alternates between its first two values. */
  lemma {:induction false} Alternates<T>(f: nat -> T, k: nat)
    requires forall n: nat :: f(n + 2) == f(n)
    ensures f(2 * k) == f(0) && f(2 * k + 1) == f(1)
    decreases k
  {
    if k > 0 {
      Alternates(f, k - 1);
      assert f(2 * (k - 1) + 2) == f(2 * (k - 1));
      assert f(2 * (k - 1) + 1 + 2) == f(2 * (k - 1) + 1);
    }
  }

  /**
   * Two boards that step to each other form an oscillator of period two:
   * after an even number of generations the board is back, after an odd
   * number it is the other one.
   */
  lemma PeriodTwo(a: Board, b: Board, k: nat)
    requires Rectangular(a) && UpdateBoard(a) == b && UpdateBoard(b) == a
    ensures Generations(a, 2 * k) == a
    ensures Generations(a, 2 * k + 1) == b
  {
    var orbit := (n: nat) => Generations(a, n);
    forall n: nat ensures orbit(n + 2) == orbit(n) {
      TwoSteps(a, b, n);
    }
    Alternates(orbit, k);
    OneStep(a, b, 0);
  }

  /** The blinker has period two: horizontal after an even number of generations, vertical after an odd one. */
  lemma BlinkerHasPeriodTwo(k: nat)
    ensures Generations(BlinkerH(), 2 * k) == BlinkerH()
    ensures Generations(BlinkerH(), 2 * k + 1) == BlinkerV()
  {
    BlinkerTurnsVertical();
    BlinkerTurnsHorizontal();
    PeriodTwo(BlinkerH(), BlinkerV(), k);
  }

  /** The 2x3 board [[2, 0, 1], [0, 0, 0]]. */
  function TwoAndOne(): (b: Board)
    ensures HasShape(b, 2, 3) && Rectangular(b) && Cols(b) == 3
  {
    SetCell(SetCell(Zeros(2, 3), 0, 0, 2), 0, 2, 1)
  }

  /**
   * On [[2, 0, 1], [0, 0, 0]] the 2 adds 2 to the count of the centre cell
   * below it: that cell, which holds 0, has three counted, from a 2 and a 1.
   */
  lemma TwoCountsTwice()
    ensures var b := TwoAndOne();
      b[0][0] == 2 && b[1][1] == 0 && Neighbours(b, 1, 1) == 3
  {
    var z := Zeros(2, 3);
    var b1 := SetCell(z, 0, 0, 2);
    ZerosAt(2, 3, 0, 0);
    ZerosAt(2, 3, 0, 2);
    ZerosAt(2, 3, 1, 1);
    SumAroundZeros(2, 3, 1, 1, Moore);
    NeighbourLocality(z, 1, 1, 0, 0, 2);
    SetCellAt(z, 0, 0, 2, 0, 2);
    NeighbourLocality(b1, 1, 1, 0, 2, 1);
    SetCellAt(z, 0, 0, 2, 1, 1);
    SetCellAt(b1, 0, 2, 1, 1, 1);
    SetCellAt(z, 0, 0, 2, 0, 0);
    SetCellAt(b1, 0, 2, 1, 0, 0);
  }

  /**
   * A cell value other than 0 and 1 counts in full toward its neighbours: on
   * [[2, 0, 1], [0, 0, 0]] the centre cell of the bottom row is born, with
   * the 2 counted twice.
   */
  lemma NonBinaryCountsInFull()
    ensures UpdateBoard(TwoAndOne())[1][1] == 1
  {
    TwoCountsTwice();
    UpdateBoardCell(TwoAndOne(), 1, 1);
  }

  /** A cell value other than 0 and 1 is not read as "alive": the cell holding 2 becomes 0. */
  lemma NonBinaryCellClears()
    ensures UpdateBoard(TwoAndOne())[0][0] == 0
  {
  }
}
