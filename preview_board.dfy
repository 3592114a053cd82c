/** The pattern previews: `getNewPattern`, which frames a pattern in one
    dead cell on every side, and the preview card, whose `useBoard` hook is
    seeded with the framed grid while a click hands back the pattern itself. */
module PreviewBoard {
  import opened Grid
  import opened LifeRule
  import opened UseBoard

  /** `Math.max(...pattern.map((row) => row.length))` for a non-empty pattern. */
  function MaxRowLength(p: Board): (m: nat)
    requires |p| > 0
    ensures forall i :: 0 <= i < |p| ==> |p[i]| <= m
    ensures exists i :: 0 <= i < |p| && |p[i]| == m
  {
    if |p| == 1 then |p[0]|
    else
      var rest := MaxRowLength(p[1..]);
      assert forall i :: 1 <= i < |p| ==> p[i] == p[1..][i - 1];
      if |p[0]| > rest then |p[0]| else rest
  }

  /** In a rectangular pattern the longest row is as long as every row. */
  lemma {:induction false} MaxRowLengthOfRectangular(p: Board)
    requires |p| > 0 && Rectangular(p)
    ensures MaxRowLength(p) == Width(p)
  {
    var i :| 0 <= i < |p| && |p[i]| == MaxRowLength(p);
  }

  /** The grid `getNewPattern` builds from a rectangular pattern: the
      pattern moved one cell down and right, inside a border of dead cells. */
  function Padded(p: Board): (q: Board)
    requires Rectangular(p)
    ensures |q| == |p| + 2
    ensures forall i :: 0 <= i < |q| ==>
      |q[i]| == Width(p) + 2 && q[i][0] == 0 && q[i][Width(p) + 1] == 0
    ensures forall j :: 0 <= j < Width(p) + 2 ==> q[0][j] == 0 && q[|p| + 1][j] == 0
    ensures forall i, j :: 0 <= i < |p| && 0 <= j < Width(p) ==> q[i + 1][j + 1] == p[i][j]
  {
    seq(|p| + 2, i => seq(Width(p) + 2, j =>
      if 1 <= i <= |p| && 1 <= j <= Width(p) then p[i - 1][j - 1] else 0))
  }

  /** The rows of a two-dimensional array. */
  function Rows(a: array2<int>): Board
    reads a
  {
    seq(a.Length0, i requires 0 <= i < a.Length0 reads a =>
      seq(a.Length1, j requires 0 <= j < a.Length1 reads a => a[i, j]))
  }

  /** `getNewPattern`: allocate a `(rows + 2) x (maxCols + 2)` grid of zeros,
      then copy the pattern into its interior row by row. */
  method GetNewPattern(pattern: Board) returns (grid: array2<int>)
    requires |pattern| > 0 && Rectangular(pattern)
    ensures grid.Length0 == |pattern| + 2 && grid.Length1 == MaxRowLength(pattern) + 2
    ensures Rows(grid) == Padded(pattern)
  {
    var numOfRows := |pattern|;
    var numOfColumns := MaxRowLength(pattern);
    MaxRowLengthOfRectangular(pattern);
    grid := new int[numOfRows + 2, numOfColumns + 2]((_, _) => 0);
    for i := 0 to numOfRows
      invariant forall a, b :: 0 <= a < numOfRows + 2 && 0 <= b < numOfColumns + 2 ==>
        grid[a, b] == if 1 <= a <= i && 1 <= b <= numOfColumns then pattern[a - 1][b - 1] else 0
    {
      for j := 0 to numOfColumns
        invariant forall a, b :: 0 <= a < numOfRows + 2 && 0 <= b < numOfColumns + 2 ==>
          grid[a, b] ==
            if (1 <= a <= i || (a == i + 1 && b <= j)) && 1 <= b <= numOfColumns
            then pattern[a - 1][b - 1] else 0
      {
        grid[i + 1, j + 1] := pattern[i][j];
      }
    }
    RowsArePadded(grid, pattern);
  }

  /** A grid holding the framed pattern cell by cell has `Padded` as its rows. */
  lemma {:induction false} RowsArePadded(grid: array2<int>, pattern: Board)
    requires Rectangular(pattern)
    requires grid.Length0 == |pattern| + 2 && grid.Length1 == Width(pattern) + 2
    requires forall a, b :: 0 <= a < grid.Length0 && 0 <= b < grid.Length1 ==>
      grid[a, b] == if 1 <= a <= |pattern| && 1 <= b <= Width(pattern) then pattern[a - 1][b - 1] else 0
    ensures Rows(grid) == Padded(pattern)
  {
    var rows, padded := Rows(grid), Padded(pattern);
    forall i | 0 <= i < |rows|
      ensures rows[i] == padded[i]
    {
      assert forall j :: 0 <= j < |rows[i]| ==> rows[i][j] == grid[i, j];
    }
  }

  /** Each row of the pattern with a dead cell added at both ends. */
  function Framed(p: Board): Board
  {
    seq(|p|, i requires 0 <= i < |p| => [0] + p[i] + [0])
  }

  lemma {:induction false} FramedRowSum(row: seq<int>)
    ensures RowSum([0] + row + [0]) == RowSum(row)
  {
    RowSumAppend([0] + row, [0]);
    RowSumAppend([0], row);
    assert [0][..0] == [];
  }

  lemma {:induction false} FramedCountAlive(p: Board)
    ensures CountAlive(Framed(p)) == CountAlive(p)
    decreases |p|
  {
    if p != [] {
      var n := |p|;
      assert Framed(p)[..n - 1] == Framed(p[..n - 1]);
      FramedCountAlive(p[..n - 1]);
      FramedRowSum(p[n - 1]);
    }
  }

  /** Framing keeps the number of live cells: the border adds none. */
  lemma {:induction false} PaddedCountAlive(p: Board)
    requires Rectangular(p)
    ensures CountAlive(Padded(p)) == CountAlive(p)
  {
    var zeros := ZeroRow(Width(p) + 2);
    PaddedIsFramed(p);
    CountAliveAppend([zeros] + Framed(p), [zeros]);
    CountAliveAppend([zeros], Framed(p));
    RowSumOfZeros(zeros);
    assert [zeros][..0] == [];
    FramedCountAlive(p);
  }

  /** A row of `n` dead cells. */
  function ZeroRow(n: nat): seq<int>
  {
    seq(n, _ => 0)
  }

  lemma {:induction false} PaddedIsFramed(p: Board)
    requires Rectangular(p)
    ensures Padded(p) == [ZeroRow(Width(p) + 2)] + Framed(p) + [ZeroRow(Width(p) + 2)]
  {
    var q, zeros := Padded(p), ZeroRow(Width(p) + 2);
    var framed := [zeros] + Framed(p) + [zeros];
    forall i | 0 <= i < |q|
      ensures q[i] == framed[i]
    {
      if i == 0 || i == |p| + 1 {
        PaddedBorderRow(p, i);
      } else {
        PaddedInnerRow(p, i);
      }
    }
  }

  lemma {:induction false} PaddedBorderRow(p: Board, i: nat)
    requires Rectangular(p) && (i == 0 || i == |p| + 1)
    ensures Padded(p)[i] == ZeroRow(Width(p) + 2)
  {
  }

  lemma {:induction false} PaddedInnerRow(p: Board, i: nat)
    requires Rectangular(p) && 1 <= i <= |p|
    ensures Padded(p)[i] == [0] + p[i - 1] + [0]
  {
    var row, w := Padded(p)[i], Width(p);
    assert |p[i - 1]| == w;
    forall j | 0 <= j < w + 2
      ensures row[j] == ([0] + p[i - 1] + [0])[j]
    {
    }
  }

  /** Framing a well-formed pattern gives a well-formed grid. */
  lemma {:induction false} PaddedIsWellFormed(p: Board)
    requires WellFormed(p)
    ensures WellFormed(Padded(p))
  {
    var q := Padded(p);
    forall i, j | 0 <= i < |q| && 0 <= j < |q[i]|
      ensures IsBit(q[i][j])
    {
      if 1 <= i <= |p| && 1 <= j <= Width(p) {
        assert q[i][j] == p[i - 1][j - 1];
        assert IsBit(p[i - 1][j - 1]);
      }
    }
  }

  /** The framed grid is square exactly when the pattern has as many rows
      as columns; otherwise the rule's row-count guards misbehave on it. */
  lemma {:induction false} PaddedSquareIff(p: Board)
    requires Rectangular(p)
    ensures IsSquare(Padded(p)) <==> |p| == Width(p)
  {
    assert |Padded(p)[0]| == Width(p) + 2;
  }

  /** A preview card: its own `useBoard` hook, seeded with the framed
      pattern, and the pattern it hands to `onSelect`. */
  class PreviewCard {
    const pattern: Board
    const hook: BoardHook

    constructor (pattern: Board)
      requires |pattern| > 0 && Rectangular(pattern)
      ensures this.pattern == pattern
      ensures hook.board == Padded(pattern) && hook.updating
    {
      var grid := GetNewPattern(pattern);
      this.pattern := pattern;
      hook := new BoardHook(Rows(grid));
    }

    /** A click selects the pattern itself, not the framed grid the card shows. */
    method Click() returns (selected: Board)
      ensures selected == pattern
    {
      selected := pattern;
    }
  }

  /** Adding up the three row sums, for a cell whose row sums are known. */
  lemma {:induction false} NeighbourSumOfRows(b: Board, r: nat, c: nat, above: int, same: int, below: int)
    requires r < |b|
    requires SumRowAbove(b, r, c) == Num(above) && SumRowSame(b, r, c) == Num(same)
    requires SumRowBelow(b, r, c) == Num(below)
    ensures NeighbourSum(b, r, c) == Num(above + same + below)
  {
  }

  // ---------------------------------------------------------------------------
  // The preview of a horizontal line of three live cells. Its padded grid is
  // 3 x 5, wider than it is tall, so the rule drops right neighbours from
  // column 2 on: where Conway's rule turns the line vertical, the preview
  // kills the centre and gives no birth.

  /** A pattern of one row of three live cells. */
  const Line: Board := [[1, 1, 1]]

  const PaddedLine: Board := [[0, 0, 0, 0, 0], [0, 1, 1, 1, 0], [0, 0, 0, 0, 0]]

  /** `getNewPattern` turns the line into that 3 x 5 grid. */
  lemma {:induction false} PaddedLineIsPreview()
    ensures Padded(Line) == PaddedLine
  {
    var q := Padded(Line);
    assert q[0] == PaddedLine[0] && q[1] == PaddedLine[1] && q[2] == PaddedLine[2];
  }

  /** The three terms of a neighbouring row, for a row whose cells are known. */
  lemma {:induction false} ThreeTerms(b: Board, row: nat, c: nat, left: int, mid: int, right: int)
    requires row < |b|
    requires LeftTerm(b, row, c) == Num(left) && Read(b, row, c) == Num(mid)
    requires RightTerm(b, row, c) == Num(right)
    ensures RowOfThree(b, row, c) == Num(left + mid + right)
  {
  }

  /** On that board Conway's rule keeps the centre cell alive: it has two
      live neighbours, its left and right cells. */
  lemma {:induction false} PaddedLineCentreSurvives()
    ensures Life(PaddedLine[1][2], LiveNeighbours(PaddedLine, 1, 2)) == 1
  {
    var b := PaddedLine;
    LiveNeighboursUnfold(b, 1, 2);
    assert Live(b, 0, 1) == 0 && Live(b, 0, 2) == 0 && Live(b, 0, 3) == 0;
    assert Live(b, 1, 1) == 1 && Live(b, 1, 3) == 1;
    assert Live(b, 2, 1) == 0 && Live(b, 2, 2) == 0 && Live(b, 2, 3) == 0;
  }

  /** `getNextCellState` kills it: column 2 is not below `rows - 1`, so the
      right neighbour is dropped and the sum is 1. */
  lemma {:induction false} PaddedLineCentreDies()
    ensures NextCellState(PaddedLine, 1, 2) == 0
  {
    PaddedLineCentreSum();
  }

  lemma {:induction false} PaddedLineCentreSum()
    ensures NeighbourSum(PaddedLine, 1, 2) == Num(1)
  {
    var b := PaddedLine;
    PaddedLineEmptyRow(0);
    PaddedLineEmptyRow(2);
    assert b[1] == [0, 1, 1, 1, 0];
    assert LeftTerm(b, 1, 2) == Num(1) && RightTerm(b, 1, 2) == Num(0);
    NeighbourSumOfRows(b, 1, 2, 0, 1, 0);
  }

  lemma {:induction false} PaddedLineEmptyRow(row: nat)
    requires row == 0 || row == 2
    ensures RowOfThree(PaddedLine, row, 2) == Num(0)
  {
    var b := PaddedLine;
    assert b[row] == [0, 0, 0, 0, 0];
    ThreeTerms(b, row, 2, 0, 0, 0);
  }

  /** Conway's rule gives birth above the centre: three live neighbours. */
  lemma {:induction false} PaddedLineBirthAbove()
    ensures Life(PaddedLine[0][2], LiveNeighbours(PaddedLine, 0, 2)) == 1
  {
    var b := PaddedLine;
    LiveNeighboursUnfold(b, 0, 2);
    assert Live(b, -1, 1) == 0 && Live(b, -1, 2) == 0 && Live(b, -1, 3) == 0;
    assert Live(b, 0, 1) == 0 && Live(b, 0, 3) == 0;
    assert Live(b, 1, 1) == 1 && Live(b, 1, 2) == 1 && Live(b, 1, 3) == 1;
  }

  /** `getNextCellState` leaves that cell dead: only two of the three are counted. */
  lemma {:induction false} PaddedLineNoBirth()
    ensures NextCellState(PaddedLine, 0, 2) == 0
  {
    PaddedLineAboveSum();
  }

  lemma {:induction false} PaddedLineAboveSum()
    ensures NeighbourSum(PaddedLine, 0, 2) == Num(2)
  {
    var b := PaddedLine;
    assert b[0] == [0, 0, 0, 0, 0] && b[1] == [0, 1, 1, 1, 0];
    assert LeftTerm(b, 0, 2) == Num(0) && RightTerm(b, 0, 2) == Num(0);
    ThreeTerms(b, 1, 2, 1, 1, 0);
    NeighbourSumOfRows(b, 0, 2, 0, 0, 2);
  }
}
