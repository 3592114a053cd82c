/** The next-generation rule, `getNextCellState` and `updateBoard`. The board
    component and the `useBoard` hook each carry a copy of these two functions;
    the copies are identical, so one definition here stands for both.

    The rule is stated on any board, ragged or not, exactly as the code
    evaluates it: neighbours are summed row by row behind short-circuit guards,
    and every column guard compares `columnIdx + 1` with the number of ROWS.
    A read past the end of a row yields `undefined`, which turns the whole sum
    into NaN, and NaN equals neither 2 nor 3. */
module LifeRule {
  import opened Grid

  /** A neighbour sum as the code computes it: a whole number, or NaN once an
      out-of-range read (`undefined`) has been added in. JavaScript `+` lets
      NaN absorb everything, so each sum below is a number only when all of
      its terms are. */
  datatype JsSum = Num(n: int) | NaN

  /** `board[r][c]` for a row the guards keep in range; past the end of the
      row the read is `undefined`, which is NaN as soon as it is added. */
  function Read(b: Board, r: nat, c: nat): JsSum
    requires r < |b|
  {
    if c < |b[r]| then Num(b[r][c]) else NaN
  }

  /** `(columnIdx && board[r][columnIdx - 1])`: 0 in column 0. */
  function LeftTerm(b: Board, r: nat, c: nat): JsSum
    requires r < |b|
  {
    if c == 0 then Num(0) else Read(b, r, c - 1)
  }

  /** `((columnIdx + 1 < lenghtOfBoard || 0) && board[r][columnIdx + 1])`:
      the guard compares with the number of rows, not with the row's length. */
  function RightTerm(b: Board, r: nat, c: nat): JsSum
    requires r < |b|
  {
    if c + 1 < |b| then Read(b, r, c + 1) else Num(0)
  }

  /** Left, middle and right cell of a neighbouring row `r`. */
  function RowOfThree(b: Board, r: nat, c: nat): JsSum
    requires r < |b|
  {
    match (LeftTerm(b, r, c), Read(b, r, c), RightTerm(b, r, c))
    case (Num(left), Num(mid), Num(right)) => Num(left + mid + right)
    case _ => NaN
  }

  /** `sumRowAbove`: 0 in row 0. */
  function SumRowAbove(b: Board, r: nat, c: nat): JsSum
    requires r < |b|
  {
    if r == 0 then Num(0) else RowOfThree(b, r - 1, c)
  }

  /** `sumRowSame`: the left and right neighbours in the cell's own row. */
  function SumRowSame(b: Board, r: nat, c: nat): JsSum
    requires r < |b|
  {
    match (LeftTerm(b, r, c), RightTerm(b, r, c))
    case (Num(left), Num(right)) => Num(left + right)
    case _ => NaN
  }

  /** `sumRowBelow`: 0 in the last row. */
  function SumRowBelow(b: Board, r: nat, c: nat): JsSum
    requires r < |b|
  {
    if r + 1 < |b| then RowOfThree(b, r + 1, c) else Num(0)
  }

  /** `numberOfLiveNeighbors`. */
  function NeighbourSum(b: Board, r: nat, c: nat): JsSum
    requires r < |b|
  {
    match (SumRowAbove(b, r, c), SumRowSame(b, r, c), SumRowBelow(b, r, c))
    case (Num(above), Num(same), Num(below)) => Num(above + same + below)
    case _ => NaN
  }

  /** `getNextCellState(board, r, c)` for a cell that `updateBoard` visits. */
  function NextCellState(b: Board, r: nat, c: nat): (state: int)
    requires r < |b| && c < |b[r]|
    ensures state == 0 || state == 1
  {
    var n := NeighbourSum(b, r, c);
    if b[r][c] == 0 && n == Num(3) then 1
    else if b[r][c] == 1 && (n == Num(2) || n == Num(3)) then 1
    else 0
  }

  /** `updateBoard`: every cell of every row replaced by its next state. */
  function UpdateBoard(b: Board): (next: Board)
    ensures |next| == |b|
    ensures forall i :: 0 <= i < |b| ==> |next[i]| == |b[i]|
    ensures IsBinary(next)
  {
    seq(|b|, i requires 0 <= i < |b| =>
      seq(|b[i]|, j requires 0 <= j < |b[i]| => NextCellState(b, i, j)))
  }

  // ---------------------------------------------------------------------------
  // The intended rule, defined independently: Moore neighbours within the
  // board's real bounds, and Conway's birth/survival rule.

  /** Cell (r, c) exists on the board and is alive. */
  predicate LiveAt(b: Board, r: int, c: int)
  {
    0 <= r < |b| && 0 <= c < |b[r]| && b[r][c] == 1
  }

  function Live(b: Board, r: int, c: int): nat
  {
    if LiveAt(b, r, c) then 1 else 0
  }

  /** The eight (row, column) offsets of the Moore neighbourhood. */
  const MooreOffsets: seq<(int, int)> :=
    [(-1, -1), (-1, 0), (-1, 1), (0, -1), (0, 1), (1, -1), (1, 0), (1, 1)]

  /** How many of the cells at the given offsets from (r, c) are live. */
  function CountLive(b: Board, r: int, c: int, offsets: seq<(int, int)>): (n: nat)
    ensures n <= |offsets|
  {
    if offsets == [] then 0
    else Live(b, r + offsets[0].0, c + offsets[0].1) + CountLive(b, r, c, offsets[1..])
  }

  /** The number of live in-bounds Moore neighbours of (r, c). */
  function LiveNeighbours(b: Board, r: int, c: int): nat
  {
    CountLive(b, r, c, MooreOffsets)
  }

  /** Conway's rule in its B3/S23 form: three live neighbours give a live cell,
      two keep the cell as it is, any other number gives a dead cell. */
  function Life(state: int, n: nat): int
  {
    if n == 3 then 1 else if n == 2 then state else 0
  }

  lemma {:induction false} CountLiveAppend(b: Board, r: int, c: int, xs: seq<(int, int)>, ys: seq<(int, int)>)
    ensures CountLive(b, r, c, xs + ys) == CountLive(b, r, c, xs) + CountLive(b, r, c, ys)
    decreases |xs|
  {
    if xs == [] {
      assert xs + ys == ys;
    } else {
      assert (xs + ys)[1..] == xs[1..] + ys;
      CountLiveAppend(b, r, c, xs[1..], ys);
    }
  }

  /** The offsets of the three cells of the row `dr` away from the cell, left to right. */
  function RowOffsets(dr: int): seq<(int, int)>
  {
    [(dr, -1), (dr, 0), (dr, 1)]
  }

  lemma {:induction false} CountRowOffsets(b: Board, r: int, c: int, dr: int)
    ensures CountLive(b, r, c, RowOffsets(dr)) ==
      Live(b, r + dr, c - 1) + Live(b, r + dr, c) + Live(b, r + dr, c + 1)
  {
    var o := RowOffsets(dr);
    assert CountLive(b, r, c, o[2..]) == Live(b, r + dr, c + 1) + CountLive(b, r, c, o[3..]);
    assert CountLive(b, r, c, o[1..]) == Live(b, r + dr, c) + CountLive(b, r, c, o[2..]);
  }

  lemma {:induction false} LiveNeighboursUnfold(b: Board, r: int, c: int)
    ensures LiveNeighbours(b, r, c) ==
      Live(b, r - 1, c - 1) + Live(b, r - 1, c) + Live(b, r - 1, c + 1) +
      Live(b, r, c - 1) + Live(b, r, c + 1) +
      Live(b, r + 1, c - 1) + Live(b, r + 1, c) + Live(b, r + 1, c + 1)
  {
    var side: seq<(int, int)> := [(0, -1), (0, 1)];
    assert MooreOffsets == RowOffsets(-1) + side + RowOffsets(1);
    CountLiveAppend(b, r, c, RowOffsets(-1) + side, RowOffsets(1));
    CountLiveAppend(b, r, c, RowOffsets(-1), side);
    CountRowOffsets(b, r, c, -1);
    CountRowOffsets(b, r, c, 1);
    assert side[1..][1..] == [];
  }

  /** What the right-neighbour guard lets into the sum from row r on a
      board at least as wide as it is tall: the right neighbour only while
      `c + 1` is below the number of rows. */
  function RightCounted(b: Board, r: int, c: int): nat
  {
    if c + 1 < |b| then Live(b, r, c + 1) else 0
  }

  /** Live cells the guards admit from row `row`, one of the rows next to
      the cell in column c: left, middle and (guarded) right. A row off the
      board admits none. */
  function GuardedRow(b: Board, row: int, c: int): nat
  {
    Live(b, row, c - 1) + Live(b, row, c) + RightCounted(b, row, c)
  }

  /** Live cells the guards admit from the cell's own row: left and (guarded) right. */
  function GuardedSame(b: Board, r: int, c: int): nat
  {
    Live(b, r, c - 1) + RightCounted(b, r, c)
  }

  /** What the guards read from row `row` around column c exists and is 0
      or 1: the cell, its left neighbour, and its right neighbour whenever
      the guard lets it through. */
  predicate ReadableAround(b: Board, row: nat, c: nat)
  {
    row < |b| && c < |b[row]| && IsBit(b[row][c]) &&
    (c > 0 ==> IsBit(b[row][c - 1])) &&
    (c + 1 < |b| ==> c + 1 < |b[row]| && IsBit(b[row][c + 1]))
  }

  /** Every row of a rectangular, binary board at least as wide as it is tall is readable. */
  lemma {:induction false} Readable(b: Board, row: nat, c: nat)
    requires WellFormed(b) && |b| <= Width(b) && row < |b| && c < Width(b)
    ensures ReadableAround(b, row, c)
  {
    assert |b[row]| == Width(b);
  }

  lemma {:induction false} ReadLive(b: Board, r: nat, c: nat)
    requires r < |b| && c < |b[r]| && IsBit(b[r][c])
    ensures Read(b, r, c) == Num(Live(b, r, c))
  {
  }

  lemma {:induction false} LeftTermLive(b: Board, r: nat, c: nat)
    requires ReadableAround(b, r, c)
    ensures LeftTerm(b, r, c) == Num(Live(b, r, c - 1))
  {
    if c > 0 {
      ReadLive(b, r, c - 1);
    }
  }

  lemma {:induction false} RightTermLive(b: Board, r: nat, c: nat)
    requires ReadableAround(b, r, c)
    ensures RightTerm(b, r, c) == Num(RightCounted(b, r, c))
  {
    if c + 1 < |b| {
      ReadLive(b, r, c + 1);
    }
  }

  lemma {:induction false} RowOfThreeLive(b: Board, row: nat, c: nat)
    requires ReadableAround(b, row, c)
    ensures RowOfThree(b, row, c) == Num(GuardedRow(b, row, c))
  {
    LeftTermLive(b, row, c);
    ReadLive(b, row, c);
    RightTermLive(b, row, c);
  }

  /** A row off the board admits no live cell. */
  lemma {:induction false} RowOffBoard(b: Board, row: int, c: int)
    requires row < 0 || |b| <= row
    ensures GuardedRow(b, row, c) == 0
  {
    assert !LiveAt(b, row, c - 1) && !LiveAt(b, row, c) && !LiveAt(b, row, c + 1);
  }

  lemma {:induction false} SumRowAboveLive(b: Board, r: nat, c: nat)
    requires r < |b| && (r > 0 ==> ReadableAround(b, r - 1, c))
    ensures SumRowAbove(b, r, c) == Num(GuardedRow(b, r - 1, c))
  {
    if r > 0 {
      RowOfThreeLive(b, r - 1, c);
    } else {
      RowOffBoard(b, r - 1, c);
    }
  }

  lemma {:induction false} SumRowSameLive(b: Board, r: nat, c: nat)
    requires ReadableAround(b, r, c)
    ensures SumRowSame(b, r, c) == Num(GuardedSame(b, r, c))
  {
    LeftTermLive(b, r, c);
    RightTermLive(b, r, c);
  }

  lemma {:induction false} SumRowBelowLive(b: Board, r: nat, c: nat)
    requires r < |b| && (r + 1 < |b| ==> ReadableAround(b, r + 1, c))
    ensures SumRowBelow(b, r, c) == Num(GuardedRow(b, r + 1, c))
  {
    if r + 1 < |b| {
      RowOfThreeLive(b, r + 1, c);
    } else {
      RowOffBoard(b, r + 1, c);
    }
  }

  /** On a rectangular, binary board at least as wide as it is tall, no read
      goes out of range and the sum is the number of live neighbours the
      guards admit: none above row 0, none below the last row, none left of
      column 0, and right neighbours only below column `rows - 1`. */
  lemma {:induction false} NeighbourSumCountsGuarded(b: Board, r: nat, c: nat)
    requires WellFormed(b) && |b| <= Width(b) && r < |b| && c < Width(b)
    ensures NeighbourSum(b, r, c) ==
      Num(GuardedRow(b, r - 1, c) + GuardedSame(b, r, c) + GuardedRow(b, r + 1, c))
  {
    if r > 0 {
      Readable(b, r - 1, c);
    }
    Readable(b, r, c);
    if r + 1 < |b| {
      Readable(b, r + 1, c);
    }
    NeighbourSumOfReadable(b, r, c);
  }

  /** The same, from the readable rows around the cell. */
  lemma {:induction false} NeighbourSumOfReadable(b: Board, r: nat, c: nat)
    requires ReadableAround(b, r, c)
    requires r > 0 ==> ReadableAround(b, r - 1, c)
    requires r + 1 < |b| ==> ReadableAround(b, r + 1, c)
    ensures NeighbourSum(b, r, c) ==
      Num(GuardedRow(b, r - 1, c) + GuardedSame(b, r, c) + GuardedRow(b, r + 1, c))
  {
    SumRowAboveLive(b, r, c);
    SumRowSameLive(b, r, c);
    SumRowBelowLive(b, r, c);
  }

  /** On a square, binary board the neighbour sum is exactly the number of
      live in-bounds Moore neighbours. */
  lemma {:induction false} NeighbourSumIsMoore(b: Board, r: nat, c: nat)
    requires IsSquare(b) && IsBinary(b) && r < |b| && c < |b|
    ensures NeighbourSum(b, r, c) == Num(LiveNeighbours(b, r, c))
  {
    assert Width(b) == |b|;
    NeighbourSumCountsGuarded(b, r, c);
    LiveNeighboursUnfold(b, r, c);
  }

  /** On a square, binary board no cell has more than 8 live neighbours counted. */
  lemma {:induction false} NeighbourSumAtMostEight(b: Board, r: nat, c: nat)
    requires IsSquare(b) && IsBinary(b) && r < |b| && c < |b|
    ensures NeighbourSum(b, r, c).Num? && 0 <= NeighbourSum(b, r, c).n <= 8
  {
    NeighbourSumIsMoore(b, r, c);
  }

  /** The corner (0, 0) has at most 3 live neighbours counted. */
  lemma {:induction false} CornerAtMostThree(b: Board)
    requires IsSquare(b) && IsBinary(b) && |b| > 0
    ensures NeighbourSum(b, 0, 0).Num? && 0 <= NeighbourSum(b, 0, 0).n <= 3
  {
    NeighbourSumIsMoore(b, 0, 0);
    LiveNeighboursUnfold(b, 0, 0);
  }

  /** On a square, binary board `getNextCellState` is Conway's rule. */
  lemma {:induction false} NextCellStateIsLife(b: Board, r: nat, c: nat)
    requires IsSquare(b) && IsBinary(b) && r < |b| && c < |b|
    ensures NextCellState(b, r, c) == Life(b[r][c], LiveNeighbours(b, r, c))
  {
    assert IsBit(b[r][c]);
    NeighbourSumIsMoore(b, r, c);
  }

  /** On a square, binary board `updateBoard` computes one generation of Life. */
  lemma {:induction false} UpdateBoardIsLife(b: Board)
    requires IsSquare(b) && IsBinary(b)
    ensures forall i, j :: 0 <= i < |b| && 0 <= j < |b[i]| ==>
      UpdateBoard(b)[i][j] == Life(b[i][j], LiveNeighbours(b, i, j))
  {
    forall i, j | 0 <= i < |b| && 0 <= j < |b[i]|
      ensures UpdateBoard(b)[i][j] == Life(b[i][j], LiveNeighbours(b, i, j))
    {
      NextCellStateIsLife(b, i, j);
    }
  }

  /** A sum that can never reach 3: zero, or NaN. */
  predicate ZeroOrNaN(x: JsSum)
  {
    x == Num(0) || x == NaN
  }

  lemma {:induction false} RowOfThreeZeroOrNaN(b: Board, row: nat, c: nat)
    requires row < |b|
    requires forall col: nat :: ZeroOrNaN(Read(b, row, col))
    ensures ZeroOrNaN(RowOfThree(b, row, c))
  {
    var left, mid, right := LeftTerm(b, row, c), Read(b, row, c), RightTerm(b, row, c);
    assert ZeroOrNaN(left) && ZeroOrNaN(mid) && ZeroOrNaN(right);
  }

  /** When every read is 0 or NaN, so is the neighbour sum. */
  lemma {:induction false} ZeroReadsZeroSum(b: Board, r: nat, c: nat)
    requires r < |b|
    requires forall row: nat, col: nat :: row < |b| ==> ZeroOrNaN(Read(b, row, col))
    ensures ZeroOrNaN(NeighbourSum(b, r, c))
  {
    var above, same, below := SumRowAbove(b, r, c), SumRowSame(b, r, c), SumRowBelow(b, r, c);
    if r > 0 {
      RowOfThreeZeroOrNaN(b, r - 1, c);
    }
    if r + 1 < |b| {
      RowOfThreeZeroOrNaN(b, r + 1, c);
    }
    assert ZeroOrNaN(above) && ZeroOrNaN(below);
    var left, right := LeftTerm(b, r, c), RightTerm(b, r, c);
    assert ZeroOrNaN(left) && ZeroOrNaN(right);
  }

  /** On an all-dead board every neighbour sum is 0 or NaN. */
  lemma {:induction false} DeadNeighbourSum(b: Board, r: nat, c: nat)
    requires AllDead(b) && r < |b|
    ensures ZeroOrNaN(NeighbourSum(b, r, c))
  {
    forall row: nat, col: nat | row < |b|
      ensures ZeroOrNaN(Read(b, row, col))
    {
    }
    ZeroReadsZeroSum(b, r, c);
  }

  /** An all-dead board stays all dead: no neighbour sum reaches 3. */
  lemma {:induction false} DeadBoardStaysDead(b: Board)
    requires AllDead(b)
    ensures UpdateBoard(b) == b
  {
    var next := UpdateBoard(b);
    forall i | 0 <= i < |b|
      ensures next[i] == b[i]
    {
      forall j | 0 <= j < |b[i]|
        ensures next[i][j] == b[i][j]
      {
        DeadNeighbourSum(b, i, j);
      }
    }
  }

  /** On a rectangular board taller than it is wide, the right-neighbour
      guard lets a read past the end of the row through for the last column;
      the sum is NaN and every cell of that column comes out dead. */
  lemma {:induction false} TallBoardLastColumnDies(b: Board)
    requires Rectangular(b) && 0 < Width(b) < |b|
    ensures forall i :: 0 <= i < |b| ==> UpdateBoard(b)[i][Width(b) - 1] == 0
  {
    var w := Width(b);
    forall i | 0 <= i < |b|
      ensures UpdateBoard(b)[i][w - 1] == 0
    {
      assert SumRowSame(b, i, w - 1) == NaN;
    }
  }

  /** On a rectangular, binary board wider than it is tall, a cell in a column
      c >= rows - 1 does not count its right neighbours, though they exist. */
  lemma {:induction false} WideBoardDropsRight(b: Board, r: nat, c: nat)
    requires WellFormed(b) && r < |b| && |b| <= c + 1 && c < Width(b)
    ensures NeighbourSum(b, r, c) == Num(LiveNeighbours(b, r, c)
      - Live(b, r - 1, c + 1) - Live(b, r, c + 1) - Live(b, r + 1, c + 1))
  {
    NeighbourSumCountsGuarded(b, r, c);
    LiveNeighboursUnfold(b, r, c);
  }
}
