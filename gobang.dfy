/**
 * The basic Gobang game (games/gobang_game.py): the board and the player to move,
 * changed by a click on a cell. The pixel-to-cell rounding is drawing only: a
 * click arrives here as the row and column it rounds to.
 */
module Gobang {
  import opened GobangRules

  class Gobang {
    var board: seq<seq<int>>
    var current: int

    /** The board keeps its shape, its cells hold 0, 1 or 2, and the player to move is black or white. */
    predicate Valid()
      reads this
    {
      IsBoard(board) && Cells(board) && IsPlayer(current)
    }

    /** `__init__`: an empty board, black to move. */
    constructor ()
      ensures Valid() && board == EmptyBoard() && current == 1
    {
      board := EmptyBoard();
      current := 1;
    }

    /** `place_piece`: the player to move takes cell (row, col). */
    method PlacePiece(row: int, col: int)
      requires Valid() && InBounds(row, col)
      modifies this
      ensures Valid() && current == old(current)
      ensures board == Placed(old(board), row, col, current)
    {
      board := board[row := board[row][col := current]];
    }

    /** `switch_player`: the other player moves next. */
    method SwitchPlayer()
      requires Valid()
      modifies this
      ensures Valid() && board == old(board)
      ensures current == Other(old(current)) && current != old(current)
    {
      current := if current == 1 then 2 else 1;
    }

    /** `reset_game`: an empty board, black to move. */
    method ResetGame()
      modifies this
      ensures Valid() && board == EmptyBoard() && current == 1
    {
      board := EmptyBoard();
      current := 1;
    }

    /**
     * `click_handler` on cell (row, col): a click off the board or on a stone changes
     * nothing; otherwise the stone is placed, and a win clears the board for a new game
     * with black to move, while any other move passes the turn.
     */
    method ClickHandler(row: int, col: int)
      requires Valid()
      modifies this
      ensures Valid()
      ensures !(InBounds(row, col) && old(board)[row][col] == 0) ==> board == old(board) && current == old(current)
      ensures InBounds(row, col) && old(board)[row][col] == 0 ==>
        var placed := Placed(old(board), row, col, old(current));
        if Wins(placed, row, col, old(current)) then board == EmptyBoard() && current == 1
        else board == placed && current == Other(old(current))
    {
      if 0 <= row < Size && 0 <= col < Size {
        if board[row][col] == 0 {
          PlacePiece(row, col);
          var win := CheckWin(board, row, col, current);
          if win {
            ResetGame();
            return;
          }
          SwitchPlayer();
        }
      }
    }
  }
}
