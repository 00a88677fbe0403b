/**
 * The "pro" Gobang game (games/gobang_pro_game.py): the basic game plus an undo
 * history of snapshots and a clock per player. The one-second `after` schedule of
 * the timer is left to the caller: each call of `UpdateTimer` is one tick.
 */
module GobangPro {
  import opened GobangRules

  /** One entry of `history`: a copy of the board, the player to move and both clocks. */
  datatype Snapshot = Snapshot(board: seq<seq<int>>, player: int, timeBlack: int, timeWhite: int)

  predicate SnapshotOk(s: Snapshot)
  {
    IsBoard(s.board) && Cells(s.board) && IsPlayer(s.player) && s.timeBlack >= 0 && s.timeWhite >= 0
  }

  /** Row `row` with its first `c` stones redrawn in colour `p`. */
  function RecolourRow(row: seq<int>, p: int, c: int): (r: seq<int>)
    ensures |r| == |row|
  {
    seq(|row|, j requires 0 <= j < |row| => if j < c && row[j] != 0 then p else row[j])
  }

  /** Board `b` with the stones of its first `r` rows redrawn in colour `p`. */
  function RecolourRows(b: seq<seq<int>>, p: int, r: int): (nb: seq<seq<int>>)
    ensures |nb| == |b| && forall i :: 0 <= i < |b| ==> |nb[i]| == |b[i]|
  {
    seq(|b|, i requires 0 <= i < |b| => if i < r then RecolourRow(b[i], p, |b[i]|) else b[i])
  }

  /** Redrawing the stones of a row one cell further. */
  lemma RecolourRowStep(row: seq<int>, p: int, c: int)
    requires 0 <= c < |row|
    ensures RecolourRow(row, p, c)[c] == row[c]
    ensures RecolourRow(row, p, c + 1) == if row[c] != 0 then RecolourRow(row, p, c)[c := p] else RecolourRow(row, p, c)
  {
  }

  /** Starting row `r` changes nothing yet, and finishing it is redrawing one row further. */
  lemma RecolourRowsStep(b: seq<seq<int>>, p: int, r: int)
    requires 0 <= r < |b|
    ensures RecolourRows(b, p, r)[r := RecolourRow(b[r], p, 0)] == RecolourRows(b, p, r)
    ensures RecolourRows(b, p, r)[r := RecolourRow(b[r], p, |b[r]|)] == RecolourRows(b, p, r + 1)
  {
    assert RecolourRow(b[r], p, 0) == b[r];
  }

  /** The board `undo` leaves: every stone of `b` redrawn, through `place_piece`, in colour `p`. */
  function Recoloured(b: seq<seq<int>>, p: int): seq<seq<int>>
  {
    RecolourRows(b, p, |b|)
  }

  /**
   * After `undo` the occupied cells are those of the snapshot, but every stone has
   * the colour of the player the snapshot restores.
   */
  lemma RecolouredSpec(b: seq<seq<int>>, p: int)
    requires IsBoard(b) && Cells(b) && IsPlayer(p)
    ensures IsBoard(Recoloured(b, p)) && Cells(Recoloured(b, p))
    ensures forall r, c :: InBounds(r, c) ==> (Recoloured(b, p)[r][c] != 0 <==> b[r][c] != 0)
    ensures forall r, c :: InBounds(r, c) && b[r][c] != 0 ==> Recoloured(b, p)[r][c] == p
  {
  }

  class GobangPro {
    var board: seq<seq<int>>
    var current: int
    var history: seq<Snapshot>
    var timeBlack: int
    var timeWhite: int

    /** The board keeps its shape and colours, black or white moves, the clocks are not negative, and so for every snapshot. */
    predicate Valid()
      reads this
    {
      && IsBoard(board) && Cells(board) && IsPlayer(current) && timeBlack >= 0 && timeWhite >= 0
      && forall i :: 0 <= i < |history| ==> SnapshotOk(history[i])
    }

    /** `__init__`: an empty board, black to move, no history, both clocks at 0, then the first tick. */
    constructor ()
      ensures Valid() && board == EmptyBoard() && current == 1 && history == []
      ensures timeBlack == 1 && timeWhite == 0
    {
      board := EmptyBoard();
      current := 1;
      history := [];
      timeBlack, timeWhite := 0, 0;
      new;
      UpdateTimer();
    }

    /** `place_piece`: the player to move takes cell (row, col). */
    method PlacePiece(row: int, col: int)
      requires Valid() && InBounds(row, col)
      modifies this
      ensures Valid() && board == Placed(old(board), row, col, current)
      ensures current == old(current) && history == old(history)
      ensures timeBlack == old(timeBlack) && timeWhite == old(timeWhite)
    {
      board := board[row := board[row][col := current]];
    }

    /** `switch_player`: the other player moves next. */
    method SwitchPlayer()
      requires Valid()
      modifies this
      ensures Valid() && current == Other(old(current)) && current != old(current)
      ensures board == old(board) && history == old(history)
      ensures timeBlack == old(timeBlack) && timeWhite == old(timeWhite)
    {
      current := if current == 1 then 2 else 1;
    }

    /** `update_timer`: one tick adds a second to the clock of the player to move, and only to it. */
    method UpdateTimer()
      requires Valid()
      modifies this
      ensures Valid() && board == old(board) && current == old(current) && history == old(history)
      ensures current == 1 ==> timeBlack == old(timeBlack) + 1 && timeWhite == old(timeWhite)
      ensures current != 1 ==> timeWhite == old(timeWhite) + 1 && timeBlack == old(timeBlack)
    {
      if current == 1 {
        timeBlack := timeBlack + 1;
      } else {
        timeWhite := timeWhite + 1;
      }
    }

    /**
     * `reset_game`: an empty board, black to move, no history and both clocks at 0;
     * the timer then restarts with an immediate tick, so black's clock shows 1.
     */
    method ResetGame()
      modifies this
      ensures Valid() && board == EmptyBoard() && current == 1 && history == []
      ensures timeBlack == 1 && timeWhite == 0
    {
      board := EmptyBoard();
      current := 1;
      timeBlack := 0;
      timeWhite := 0;
      history := [];
      UpdateTimer();
    }

    /**
     * `click_handler` on cell (row, col): a click off the board or on a stone changes
     * nothing; otherwise a snapshot of the state before the move is pushed and the stone
     * placed, and then a win starts a new game (`game_over`) while any other move passes
     * the turn.
     */
    method ClickHandler(row: int, col: int)
      requires Valid()
      modifies this
      ensures Valid()
      ensures !(InBounds(row, col) && old(board)[row][col] == 0) ==>
        board == old(board) && current == old(current) && history == old(history)
        && timeBlack == old(timeBlack) && timeWhite == old(timeWhite)
      ensures InBounds(row, col) && old(board)[row][col] == 0 ==>
        var placed := Placed(old(board), row, col, old(current));
        if Wins(placed, row, col, old(current)) then
          board == EmptyBoard() && current == 1 && history == [] && timeBlack == 1 && timeWhite == 0
        else
          && board == placed && current == Other(old(current))
          && history == old(history) + [Snapshot(old(board), old(current), old(timeBlack), old(timeWhite))]
          && timeBlack == old(timeBlack) && timeWhite == old(timeWhite)
    {
      if 0 <= row < Size && 0 <= col < Size {
        if board[row][col] == 0 {
          history := history + [Snapshot(board, current, timeBlack, timeWhite)];
          PlacePiece(row, col);
          var win := CheckWin(board, row, col, current);
          if win {
            ResetGame();
          } else {
            SwitchPlayer();
          }
        }
      }
    }

    /**
     * `undo`: with no history nothing changes; otherwise the last snapshot is popped and
     * its board, player and clocks restored, and the redraw recolours every stone to the
     * restored player.
     */
    method Undo()
      requires Valid()
      modifies this
      ensures Valid()
      ensures old(history) == [] ==>
        board == old(board) && current == old(current) && history == old(history)
        && timeBlack == old(timeBlack) && timeWhite == old(timeWhite)
      ensures old(history) != [] ==>
        var s := old(history)[|old(history)| - 1];
        && history == old(history)[..|old(history)| - 1]
        && board == Recoloured(s.board, s.player) && current == s.player
        && timeBlack == s.timeBlack && timeWhite == s.timeWhite
    {
      if |history| > 0 {
        var s := history[|history| - 1];
        history := history[..|history| - 1];
        board := s.board;
        current := s.player;
        timeBlack := s.timeBlack;
        timeWhite := s.timeWhite;
        RedrawStones();
      }
    }

    /** The redraw loop of `undo`: every stone on the board is placed again by the player to move. */
    method RedrawStones()
      requires Valid()
      modifies this
      ensures Valid() && board == Recoloured(old(board), current)
      ensures current == old(current) && history == old(history)
      ensures timeBlack == old(timeBlack) && timeWhite == old(timeWhite)
    {
      ghost var b := board;
      for r := 0 to Size
        invariant Valid() && current == old(current) && history == old(history)
        invariant timeBlack == old(timeBlack) && timeWhite == old(timeWhite)
        invariant board == RecolourRows(b, current, r)
      {
        RecolourRowsStep(b, current, r);
        for c := 0 to Size
          invariant Valid() && current == old(current) && history == old(history)
          invariant timeBlack == old(timeBlack) && timeWhite == old(timeWhite)
          invariant board == RecolourRows(b, current, r)[r := RecolourRow(b[r], current, c)]
        {
          RecolourRowStep(b[r], current, c);
          if board[r][c] != 0 {
            PlacePiece(r, c);
          }
        }
      }
    }
  }
}
