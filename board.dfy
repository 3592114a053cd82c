/** The `Board` component: its 100 x 100 `emptyBoard`, the cell update
    `setCellAlive` performs, and the `board` / `updating` / `enableDrawing`
    state that the interval timer and the mouse handlers change. */
module BoardComponent {
  import opened Grid
  import opened LifeRule

  /** `boardSize`: the main board has this many rows and columns. */
  const BoardSize: nat := 100

  /** `emptyBoard`: `BoardSize` rows of `BoardSize` zeros. */
  function EmptyBoard(): (b: Board)
    ensures |b| == BoardSize && IsSquare(b) && AllDead(b)
  {
    seq(BoardSize, _ => seq(BoardSize, _ => 0))
  }

  /** `countAlive(emptyBoard)` is 0. */
  lemma {:induction false} EmptyBoardCountsZero()
    ensures CountAlive(EmptyBoard()) == 0
  {
    CountAliveOfDead(EmptyBoard());
  }

  /** The empty board is still: a tick on it changes nothing. */
  lemma {:induction false} EmptyBoardIsStill()
    ensures UpdateBoard(EmptyBoard()) == EmptyBoard()
  {
    DeadBoardStaysDead(EmptyBoard());
  }

  /** `Math.abs`. */
  function Abs(x: int): (a: nat)
    ensures a == x || a == -x
  {
    if x < 0 then -x else x
  }

  /** The value `setCellAlive` writes into a cell holding `cell`: 1 while
      drawing, otherwise `Math.abs(cell - 1)`. */
  function ClickedValue(cell: int, drawing: bool): int
  {
    if drawing then 1 else Abs(cell - 1)
  }

  /** On a 0 or 1, the value written without drawing is the other bit. */
  lemma {:induction false} ClickFlipsBit(cell: int)
    requires IsBit(cell)
    ensures ClickedValue(cell, false) == 1 - cell
    ensures IsBit(ClickedValue(cell, false))
  {
  }

  /** The board `setCellAlive(r, c)` hands to `setBoard`: a copy of the rows
      with cell (r, c) replaced by its clicked value. */
  function SetCellAlive(b: Board, r: nat, c: nat, drawing: bool): (nb: Board)
    requires r < |b| && c < |b[r]|
    ensures |nb| == |b| && forall i :: 0 <= i < |b| ==> |nb[i]| == |b[i]|
    ensures nb[r][c] == ClickedValue(b[r][c], drawing)
    ensures forall i, j :: 0 <= i < |b| && 0 <= j < |b[i]| && (i, j) != (r, c) ==> nb[i][j] == b[i][j]
  {
    b[r := b[r][c := ClickedValue(b[r][c], drawing)]]
  }

  /** Painting a cell while drawing is idempotent. */
  lemma {:induction false} PaintIsIdempotent(b: Board, r: nat, c: nat)
    requires r < |b| && c < |b[r]|
    ensures SetCellAlive(SetCellAlive(b, r, c, true), r, c, true) == SetCellAlive(b, r, c, true)
  {
    var once := SetCellAlive(b, r, c, true);
    assert once[r][c := 1] == once[r];
  }

  /** Clicking a 0 or 1 cell twice without drawing restores the board. */
  lemma {:induction false} ToggleTwiceRestores(b: Board, r: nat, c: nat)
    requires r < |b| && c < |b[r]| && IsBit(b[r][c])
    ensures SetCellAlive(SetCellAlive(b, r, c, false), r, c, false) == b
  {
    var once := SetCellAlive(b, r, c, false);
    ClickFlipsBit(b[r][c]);
    ClickFlipsBit(once[r][c]);
    assert once[r][c := b[r][c]] == b[r];
  }

  /** A click keeps a binary board binary. */
  lemma {:induction false} SetCellAliveKeepsBinary(b: Board, r: nat, c: nat, drawing: bool)
    requires IsBinary(b) && r < |b| && c < |b[r]|
    ensures IsBinary(SetCellAlive(b, r, c, drawing))
  {
    var nb := SetCellAlive(b, r, c, drawing);
    if !drawing {
      ClickFlipsBit(b[r][c]);
    }
    forall i, j | 0 <= i < |nb| && 0 <= j < |nb[i]|
      ensures IsBit(nb[i][j])
    {
      if (i, j) != (r, c) {
        assert IsBit(b[i][j]);
      }
    }
  }

  /** On a binary board, painting adds one live cell unless the cell was
      live already, and a toggle adds or removes exactly one. */
  lemma {:induction false} SetCellAliveCount(b: Board, r: nat, c: nat, drawing: bool)
    requires IsBinary(b) && r < |b| && c < |b[r]|
    ensures CountAlive(SetCellAlive(b, r, c, drawing)) ==
      if drawing then CountAlive(b) + 1 - b[r][c]
      else if b[r][c] == 0 then CountAlive(b) + 1
      else CountAlive(b) - 1
  {
    assert IsBit(b[r][c]);
    CountAliveUpdate(b, r, c, ClickedValue(b[r][c], drawing));
  }

  /** The component's state. `board` always holds a `BoardSize` x `BoardSize`
      grid of 0s and 1s. */
  class GameBoard {
    var board: Board
    var updating: bool
    var enableDrawing: bool

    ghost predicate Valid()
      reads this
    {
      |board| == BoardSize && IsSquare(board) && IsBinary(board)
    }

    /** Mounting: `board` starts as `initRandomBoard(emptyBoard)`, whose
        random 0s and 1s are passed in as `initial`; the board updates and
        is not drawing. */
    constructor (initial: Board)
      requires |initial| == BoardSize && IsSquare(initial) && IsBinary(initial)
      ensures Valid()
      ensures board == initial && updating && !enableDrawing
    {
      board := initial;
      updating := true;
      enableDrawing := false;
    }

    /** One interval callback: the next generation while `updating`, nothing
        otherwise. Every cell of the next generation follows Conway's rule. */
    method Tick()
      requires Valid()
      modifies this
      ensures Valid()
      ensures board == if old(updating) then UpdateBoard(old(board)) else old(board)
      ensures old(updating) ==> forall i, j :: 0 <= i < BoardSize && 0 <= j < BoardSize ==>
        board[i][j] == Life(old(board)[i][j], LiveNeighbours(old(board), i, j))
      ensures updating == old(updating) && enableDrawing == old(enableDrawing)
    {
      if updating {
        UpdateBoardIsLife(board);
        board := UpdateBoard(board);
      }
    }

    /** The pointer enters the board: the generations pause. */
    method MouseEnter()
      modifies this
      ensures !updating
      ensures board == old(board) && enableDrawing == old(enableDrawing)
    {
      updating := false;
    }

    /** The pointer leaves the board: drawing stops and the generations resume. */
    method MouseLeave()
      modifies this
      ensures updating && !enableDrawing
      ensures board == old(board)
    {
      enableDrawing := false;
      updating := true;
    }

    /** A button goes down over the board: drawing starts. */
    method MouseDown()
      modifies this
      ensures enableDrawing
      ensures board == old(board) && updating == old(updating)
    {
      enableDrawing := true;
    }

    /** The button comes up: drawing stops. */
    method MouseUp()
      modifies this
      ensures !enableDrawing
      ensures board == old(board) && updating == old(updating)
    {
      enableDrawing := false;
    }

    /** A click on cell (r, c): paints it while drawing, toggles it otherwise. */
    method CellClick(r: nat, c: nat)
      requires Valid() && r < BoardSize && c < BoardSize
      modifies this
      ensures Valid()
      ensures board == SetCellAlive(old(board), r, c, old(enableDrawing))
      ensures updating == old(updating) && enableDrawing == old(enableDrawing)
    {
      SetCellAliveKeepsBinary(board, r, c, enableDrawing);
      board := SetCellAlive(board, r, c, enableDrawing);
    }

    /** The pointer enters cell (r, c): it is painted while drawing. */
    method CellMouseEnter(r: nat, c: nat)
      requires Valid() && r < BoardSize && c < BoardSize
      modifies this
      ensures Valid()
      ensures board == if old(enableDrawing) then SetCellAlive(old(board), r, c, true) else old(board)
      ensures updating == old(updating) && enableDrawing == old(enableDrawing)
    {
      if enableDrawing {
        SetCellAliveKeepsBinary(board, r, c, true);
        board := SetCellAlive(board, r, c, true);
      }
    }

    /** "Clear Board": the board becomes `emptyBoard`. */
    method Clear()
      modifies this
      ensures Valid() && AllDead(board) && CountAlive(board) == 0
      ensures updating == old(updating) && enableDrawing == old(enableDrawing)
    {
      board := EmptyBoard();
      EmptyBoardCountsZero();
    }

    /** "Randomize Board": `initRandomBoard(emptyBoard)`, with its random
        0s and 1s passed in as `random`. */
    method Randomize(random: Board)
      requires |random| == BoardSize && IsSquare(random) && IsBinary(random)
      modifies this
      ensures Valid() && board == random
      ensures updating == old(updating) && enableDrawing == old(enableDrawing)
    {
      board := random;
    }
  }
}
