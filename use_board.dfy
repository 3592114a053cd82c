/** The `useBoard` hook: a `board` seeded from the caller's `initBoard`,
    an `updating` flag, and the interval callback that steps the board. */
module UseBoard {
  import opened Grid
  import opened LifeRule

  class BoardHook {
    var board: Board
    var updating: bool

    /** First render: `useState(initBoard)` and `useState(true)`. */
    constructor (initBoard: Board)
      ensures board == initBoard && updating
    {
      board := initBoard;
      updating := true;
    }

    /** One interval callback: `updateBoard` while `updating`, nothing
        otherwise. The board keeps its shape, and on a square board of 0s
        and 1s every cell follows Conway's rule. */
    method Tick()
      modifies this
      ensures board == if old(updating) then UpdateBoard(old(board)) else old(board)
      ensures |board| == |old(board)| && forall i :: 0 <= i < |board| ==> |board[i]| == |old(board)[i]|
      ensures old(updating) && IsSquare(old(board)) && IsBinary(old(board)) ==>
        forall i, j :: 0 <= i < |board| && 0 <= j < |board| ==>
          board[i][j] == Life(old(board)[i][j], LiveNeighbours(old(board), i, j))
      ensures updating == old(updating)
    {
      if updating {
        ghost var b := board;
        board := UpdateBoard(board);
        assert IsSquare(b) && IsBinary(b) ==> forall i, j :: 0 <= i < |b| && 0 <= j < |b| ==>
          board[i][j] == Life(b[i][j], LiveNeighbours(b, i, j)) by {
          if IsSquare(b) && IsBinary(b) {
            UpdateBoardIsLife(b);
          }
        }
      }
    }

    /** The returned `setBoard`, called with a new board. */
    method SetBoard(b: Board)
      modifies this
      ensures board == b && updating == old(updating)
    {
      board := b;
    }

    /** The returned `setUpdating`. */
    method SetUpdating(u: bool)
      modifies this
      ensures updating == u && board == old(board)
    {
      updating := u;
    }
  }
}
