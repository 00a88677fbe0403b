/**
 * The basic Tetris game (games/tetris_game.py): the board, the falling piece and
 * its position, the score, the guarded moves and one step of the game loop. The
 * shape `random.choice` picks is a parameter: an index into the seven shapes.
 */
module Tetris {
  import opened Wrappers
  import opened TetrisBoard

  class Tetris {
    var board: seq<seq<int>>
    var score: int
    var current: Option<seq<seq<int>>>
    var x: int
    var y: int

    /** The board keeps its shape, the score is whole hundreds, and a falling piece sits at or below the top without colliding. */
    predicate Valid()
      reads this
    {
      && IsBoard(board) && score >= 0 && score % 100 == 0
      && (current.Some? ==> IsPiece(current.value) && y >= 0 && !Collides(board, x, y, current.value))
    }

    /** `__init__`: an empty board, score 0, no piece, then the first step of the game loop. */
    constructor (first: int, second: int)
      requires 0 <= first < |Shapes| && 0 <= second < |Shapes|
      ensures Valid()
    {
      board := EmptyBoard();
      score := 0;
      current := None;
      x, y := 0, 0;
      new;
      var _ := GameLoop(first, second);
    }

    /** `game_over`: the falling piece is dropped (the message is drawing only). */
    method GameOver()
      requires IsBoard(board) && score >= 0 && score % 100 == 0
      modifies this
      ensures Valid() && current == None
      ensures board == old(board) && score == old(score) && x == old(x) && y == old(y)
    {
      current := None;
    }

    /**
     * `new_piece`: shape `choice` appears in the top row, centred; if it collides there
     * the game is over and the answer is false.
     */
    method NewPiece(choice: int) returns (ok: bool)
      requires IsBoard(board) && score >= 0 && score % 100 == 0 && 0 <= choice < |Shapes|
      modifies this
      ensures Valid() && board == old(board) && score == old(score)
      ensures x == SpawnX(Shapes[choice]) && y == 0
      ensures ok <==> !Collides(board, SpawnX(Shapes[choice]), 0, Shapes[choice])
      ensures current == if ok then Some(Shapes[choice]) else None
    {
      var shape := Shapes[choice];
      ShapesArePieces(choice);
      current := Some(shape);
      x := Width / 2 - |shape[0]| / 2;
      y := 0;
      var hit := CheckCollision(board, x, y, current.value);
      if hit {
        GameOver();
        return false;
      }
      return true;
    }

    /** `move(dx)`: the piece shifts sideways only where it does not collide. */
    method Move(dx: int)
      requires Valid()
      modifies this
      ensures Valid()
      ensures board == old(board) && score == old(score) && current == old(current) && y == old(y)
      ensures x == if current.Some? && !Collides(board, old(x) + dx, y, current.value) then old(x) + dx else old(x)
    {
      if current.Some? {
        var hit := CheckCollision(board, x + dx, y, current.value);
        if !hit {
          x := x + dx;
        }
      }
    }

    /** `drop`: the piece falls one row only where it does not collide. */
    method Drop()
      requires Valid()
      modifies this
      ensures Valid()
      ensures board == old(board) && score == old(score) && current == old(current) && x == old(x)
      ensures y == if current.Some? && !Collides(board, x, old(y) + 1, current.value) then old(y) + 1 else old(y)
    {
      if current.Some? {
        var hit := CheckCollision(board, x, y + 1, current.value);
        if !hit {
          y := y + 1;
        }
      }
    }

    /** `rotate`: the piece turns a quarter clockwise only where the turned piece does not collide. */
    method RotatePiece()
      requires Valid()
      modifies this
      ensures Valid()
      ensures board == old(board) && score == old(score) && x == old(x) && y == old(y)
      ensures current == if old(current).Some? && !Collides(board, x, y, Rotate(old(current).value))
        then Some(Rotate(old(current).value)) else old(current)
    {
      if current.Some? {
        var rotated := Rotate(current.value);
        var hit := CheckCollision(board, x, y, rotated);
        if !hit {
          RotateKeepsPiece(current.value);
          current := Some(rotated);
        }
      }
    }

    /** `merge_piece`: the falling piece is written onto the board where it stands. */
    method MergePiece()
      requires Valid() && current.Some?
      modifies this
      ensures current == old(current) && score == old(score) && x == old(x) && y == old(y)
      ensures IsBoard(board) && board == Stamped(old(board), x, y, current.value)
    {
      board := StampPiece(board, x, y, current.value);
    }

    /** `clear_lines`: full rows are removed, empty rows come in on top, and each removed row scores 100. */
    method ClearLines()
      requires IsBoard(board) && score >= 0 && score % 100 == 0
      modifies this
      ensures IsBoard(board) && board == Cleared(old(board))
      ensures score == old(score) + 100 * FullCount(old(board)) && score % 100 == 0
      ensures current == old(current) && x == old(x) && y == old(y)
    {
      var nb, lines := TetrisBoard.ClearLines(board);
      board := nb;
      if lines > 0 {
        AddHundreds(score, lines);
        score := score + 100 * lines;
      }
    }

    /**
     * One run of `game_loop`, with `first` and `second` the shapes a new piece would take:
     * a missing piece is replaced (and the loop ends if it cannot enter), the piece falls
     * a row, and a piece that cannot fall further is merged, full rows are cleared and a
     * new piece enters. The answer says whether the loop schedules itself again.
     */
    method GameLoop(first: int, second: int) returns (continues: bool)
      requires Valid() && 0 <= first < |Shapes| && 0 <= second < |Shapes|
      modifies this
      ensures Valid() && score >= old(score)
      ensures !continues <==> old(current) == None && Collides(old(board), SpawnX(Shapes[first]), 0, Shapes[first])
      ensures !continues ==> board == old(board) && score == old(score) && current == None
    {
      if current == None {
        var ok := NewPiece(first);
        if !ok {
          return false;
        }
      }
      Drop();
      var landed := CheckCollision(board, x, y + 1, current.value);
      if landed {
        MergePiece();
        ClearLines();
        var _ := NewPiece(second);
      }
      return true;
    }
  }

  lemma AddHundreds(a: int, k: nat)
    requires a % 100 == 0
    ensures (a + 100 * k) % 100 == 0
  {
    assert a + 100 * k == 100 * (a / 100 + k);
  }

  /** On an empty board every shape can enter, so the first run of the game loop never ends the game. */
  lemma EntersEmptyBoard(choice: int)
    requires 0 <= choice < |Shapes|
    ensures !Collides(EmptyBoard(), SpawnX(Shapes[choice]), 0, Shapes[choice])
  {
    var p := Shapes[choice];
    assert |p| <= 2 && 1 <= |p[0]| <= 4 && forall r :: 0 <= r < |p| ==> |p[r]| == |p[0]|;
    forall py, px | 0 <= py < |p| && 0 <= px < |p[py]| && p[py][px] != 0
      ensures !Blocked(EmptyBoard(), SpawnX(p) + px, py)
    {
    }
  }
}
