/** Boards as the components hold them (`BoardArray = number[][]`): a sequence
    of rows, each a sequence of cell values, 1 for a live cell and 0 for a dead one. */
module Grid {

  type Board = seq<seq<int>>

  /** The length of the first row; a rectangular board shares it with every row. */
  function Width(b: Board): nat
  {
    if b == [] then 0 else |b[0]|
  }

  /** Every row has the same length. */
  predicate Rectangular(b: Board)
  {
    forall i :: 0 <= i < |b| ==> |b[i]| == Width(b)
  }

  /** As many columns in every row as there are rows. */
  predicate IsSquare(b: Board)
  {
    forall i :: 0 <= i < |b| ==> |b[i]| == |b|
  }

  /** A cell value of a well-formed board: 0 or 1. */
  predicate IsBit(x: int)
  {
    x == 0 || x == 1
  }

  /** Every cell is 0 or 1. */
  predicate IsBinary(b: Board)
  {
    forall i, j {:trigger IsBit(b[i][j])} :: 0 <= i < |b| && 0 <= j < |b[i]| ==> IsBit(b[i][j])
  }

  /** Every cell is 0. */
  predicate AllDead(b: Board)
  {
    forall i, j :: 0 <= i < |b| && 0 <= j < |b[i]| ==> b[i][j] == 0
  }

  /** A well-formed board: rectangular with binary cells. */
  predicate WellFormed(b: Board)
  {
    Rectangular(b) && IsBinary(b)
  }

  /** `row.reduce(cellReducer, 0)`: a left fold of `+` over the row. */
  function RowSum(row: seq<int>): int
  {
    if row == [] then 0 else RowSum(row[..|row| - 1]) + row[|row| - 1]
  }

  /** `countAlive`: `board.reduce(rowReducer, 0)`, a left fold adding up each row's sum. */
  function CountAlive(b: Board): int
  {
    if b == [] then 0 else CountAlive(b[..|b| - 1]) + RowSum(b[|b| - 1])
  }

  /** All cells of the board, row after row. */
  function Cells(b: Board): seq<int>
  {
    if b == [] then [] else Cells(b[..|b| - 1]) + b[|b| - 1]
  }

  lemma {:induction false} RowSumAppend(a: seq<int>, b: seq<int>)
    ensures RowSum(a + b) == RowSum(a) + RowSum(b)
    decreases |b|
  {
    if b == [] {
      assert a + b == a;
    } else {
      assert (a + b)[..|a + b| - 1] == a + b[..|b| - 1];
      RowSumAppend(a, b[..|b| - 1]);
    }
  }

  lemma {:induction false} CountAliveAppend(a: Board, b: Board)
    ensures CountAlive(a + b) == CountAlive(a) + CountAlive(b)
    decreases |b|
  {
    if b == [] {
      assert a + b == a;
    } else {
      assert (a + b)[..|a + b| - 1] == a + b[..|b| - 1];
      CountAliveAppend(a, b[..|b| - 1]);
    }
  }

  /** On a binary row the sum is the number of live cells in it. */
  lemma {:induction false} RowSumCountsLive(row: seq<int>)
    requires forall j :: 0 <= j < |row| ==> IsBit(row[j])
    ensures RowSum(row) == multiset(row)[1]
    decreases |row|
  {
    if row != [] {
      var init := row[..|row| - 1];
      assert row == init + [row[|row| - 1]];
      RowSumCountsLive(init);
    }
  }

  /** `countAlive` of a binary board is the number of live cells on it. */
  lemma {:induction false} CountAliveCountsLive(b: Board)
    requires IsBinary(b)
    ensures CountAlive(b) == multiset(Cells(b))[1]
    decreases |b|
  {
    if b != [] {
      var last := b[|b| - 1];
      CountAliveCountsLive(b[..|b| - 1]);
      RowSumCountsLive(last);
    }
  }

  lemma {:induction false} RowSumOfZeros(row: seq<int>)
    requires forall j :: 0 <= j < |row| ==> row[j] == 0
    ensures RowSum(row) == 0
    decreases |row|
  {
    if row != [] {
      RowSumOfZeros(row[..|row| - 1]);
    }
  }

  /** A board with no live cell counts 0 alive. */
  lemma {:induction false} CountAliveOfDead(b: Board)
    requires AllDead(b)
    ensures CountAlive(b) == 0
    decreases |b|
  {
    if b != [] {
      CountAliveOfDead(b[..|b| - 1]);
      RowSumOfZeros(b[|b| - 1]);
    }
  }

  /** Writing `v` into one cell of a row moves the row's sum by `v` minus the old value. */
  lemma {:induction false} RowSumUpdate(row: seq<int>, j: nat, v: int)
    requires j < |row|
    ensures RowSum(row[j := v]) == RowSum(row) - row[j] + v
    decreases |row|
  {
    var n := |row|;
    if j == n - 1 {
      assert row[j := v][..n - 1] == row[..n - 1];
    } else {
      assert row[j := v][..n - 1] == row[..n - 1][j := v];
      RowSumUpdate(row[..n - 1], j, v);
    }
  }

  /** Writing `v` into cell (r, c) moves `countAlive` by `v` minus the old value. */
  lemma {:induction false} CountAliveUpdate(b: Board, r: nat, c: nat, v: int)
    requires r < |b| && c < |b[r]|
    ensures CountAlive(b[r := b[r][c := v]]) == CountAlive(b) - b[r][c] + v
    decreases |b|
  {
    var n := |b|;
    var nb := b[r := b[r][c := v]];
    if r == n - 1 {
      assert nb[..n - 1] == b[..n - 1];
      RowSumUpdate(b[r], c, v);
    } else {
      assert nb[..n - 1] == b[..n - 1][r := b[r][c := v]];
      CountAliveUpdate(b[..n - 1], r, c, v);
    }
  }
}
