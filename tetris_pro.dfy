/**
 * The "pro" Tetris game (games/tetris_pro_game.py): the basic rules plus levels, a
 * level-dependent fall speed, a score multiplied by the level, a hard drop and the
 * 7-bag piece order. Each `random.sample(SHAPES, 7)` is a parameter: an order of
 * the seven shape indices.
 */
module TetrisPro {
  import opened Wrappers
  import opened TetrisBoard

  /** A result of `random.sample(SHAPES, 7)`: each of the seven shapes exactly once. */
  predicate IsBagOrder(order: seq<int>)
  {
    |order| == |Shapes| && (forall i :: 0 <= i < |order| ==> 0 <= order[i] < |Shapes|)
    && (forall i, j :: 0 <= i < j < |order| ==> order[i] != order[j])
  }

  /** `update_speed`: the delay of the game loop, in milliseconds, at level `level`. */
  function Speed(level: int): int
  {
    if 500 - (level - 1) * 50 > 50 then 500 - (level - 1) * 50 else 50
  }

  /** From level 1 on the delay lies between 50 and 500 ms and never grows with the level. */
  lemma SpeedSpec(level: int, higher: int)
    requires 1 <= level <= higher
    ensures 50 <= Speed(level) <= 500
    ensures Speed(higher) <= Speed(level)
    ensures level >= 10 ==> Speed(level) == 50
  {
  }

  /** The level reached after clearing `lines` rows: one more for every ten. */
  function LevelFor(lines: int): int
  {
    lines / 10 + 1
  }

  /** More cleared rows never give a lower level. */
  lemma LevelForGrows(lines: int, more: int)
    requires lines <= more
    ensures LevelFor(lines) <= LevelFor(more)
  {
  }

  /** The row of a piece at row `y` after `drop`: one lower unless the row below collides. */
  function DropRow(b: seq<seq<int>>, x: int, y: int, p: seq<seq<int>>): int
    requires IsBoard(b)
  {
    if Collides(b, x, y + 1, p) then y else y + 1
  }

  /** The row a hard drop stops at: the piece falls from row `y` while the row below does not collide. */
  function LandingY(b: seq<seq<int>>, x: int, y: int, p: seq<seq<int>>): int
    requires IsBoard(b) && IsPiece(p) && !Collides(b, x, y, p)
    decreases Height - y
  {
    BelowBottomCollides(b, x, y, p);
    if Collides(b, x, y + 1, p) then y else LandingY(b, x, y + 1, p)
  }

  /** A piece that does not collide has its top row above the bottom. */
  lemma BelowBottomCollides(b: seq<seq<int>>, x: int, y: int, p: seq<seq<int>>)
    requires IsBoard(b) && IsPiece(p) && !Collides(b, x, y, p)
    ensures y < Height
  {
    var r, c :| 0 <= r < |p| && 0 <= c < |p[r]| && p[r][c] != 0;
    FitsOnBoard(b, x, y, p, r, c);
  }

  /**
   * The hard drop stops at the deepest row reached without a collision: the piece fits
   * at every row from `y` down to the landing row, and the row below collides.
   */
  lemma {:induction false} LandingYSpec(b: seq<seq<int>>, x: int, y: int, p: seq<seq<int>>)
    requires IsBoard(b) && IsPiece(p) && !Collides(b, x, y, p)
    ensures var l := LandingY(b, x, y, p);
      && y <= l < Height
      && !Collides(b, x, l, p) && Collides(b, x, l + 1, p)
      && forall k :: y <= k <= l ==> !Collides(b, x, k, p)
    decreases Height - y
  {
    BelowBottomCollides(b, x, y, p);
    if !Collides(b, x, y + 1, p) {
      LandingYSpec(b, x, y + 1, p);
    }
  }

  /** Dealing the first shape of the bag keeps the dealt shapes and the bag one bag order, and the shape dealt is one of the seven. */
  lemma DealKeepsOrder(dealt: seq<int>, bag: seq<int>)
    requires IsBagOrder(dealt + bag) && bag != []
    ensures IsBagOrder((dealt + [bag[0]]) + bag[1..]) && 0 <= bag[0] < |Shapes|
  {
    assert (dealt + [bag[0]]) + bag[1..] == dealt + bag;
    assert bag[0] == (dealt + bag)[|dealt|];
  }

  class TetrisPro {
    var board: seq<seq<int>>
    var score: int
    var level: int
    var linesCleared: int
    var bag: seq<int>
    var next: int
    var current: Option<seq<seq<int>>>
    var x: int
    var y: int
    /** The shapes dealt from the bag since it was last filled, `next` last. */
    ghost var dealt: seq<int>

    /**
     * The board keeps its shape; the level is the one the cleared rows give; the pieces
     * dealt since the last refill and those left in the bag are the seven shapes once
     * each; a falling piece sits at or below the top without colliding.
     */
    ghost predicate BagOk()
      reads this
    {
      IsBagOrder(dealt + bag) && |dealt| > 0 && next == dealt[|dealt| - 1] && 0 <= next < |Shapes|
    }

    ghost predicate Valid()
      reads this
    {
      && IsBoard(board) && score >= 0 && linesCleared >= 0 && level == LevelFor(linesCleared)
      && BagOk()
      && (current.Some? ==> IsPiece(current.value) && y >= 0 && !Collides(board, x, y, current.value))
    }

    /**
     * `__init__`: an empty board at level 1 with nothing cleared, the bag filled from
     * `order` and its first shape made the next piece, then the first run of the game loop.
     */
    constructor (order: seq<int>, refill: seq<int>, refill2: seq<int>)
      requires IsBagOrder(order) && IsBagOrder(refill) && IsBagOrder(refill2)
      ensures Valid()
    {
      board := EmptyBoard();
      score := 0;
      level := 1;
      linesCleared := 0;
      bag := [];
      current := None;
      next := 0;
      x, y := 0, 0;
      dealt := [];
      new;
      InitBag(order);
      var _, _ := GameLoop(refill, refill2);
    }

    /** `init_bag`: the bag is filled from `order` and its first shape taken as the next piece (the refill after it never happens: six shapes remain). */
    method InitBag(order: seq<int>)
      requires IsBagOrder(order)
      modifies this
      ensures next == order[0] && bag == order[1..] && dealt == [order[0]] && BagOk()
      ensures board == old(board) && score == old(score) && level == old(level) && linesCleared == old(linesCleared)
      ensures current == old(current) && x == old(x) && y == old(y)
    {
      bag := order;
      next := bag[0];
      bag := bag[1..];
      dealt := [next];
      assert dealt + bag == order;
    }

    /** `game_over`: the falling piece is dropped (the message is drawing only). */
    method GameOver()
      requires IsBoard(board) && score >= 0 && linesCleared >= 0 && level == LevelFor(linesCleared)
      requires BagOk()
      modifies this
      ensures Valid() && current == None
      ensures board == old(board) && score == old(score) && level == old(level) && linesCleared == old(linesCleared)
      ensures bag == old(bag) && next == old(next) && dealt == old(dealt) && x == old(x) && y == old(y)
    {
      current := None;
    }

    /**
     * `new_piece`: the next piece appears in the top row, centred; the bag is refilled from
     * `refill` if it is empty and its first shape becomes the next piece; if the new piece
     * collides the game is over and the answer is false.
     */
    method NewPiece(refill: seq<int>) returns (ok: bool)
      requires IsBoard(board) && score >= 0 && linesCleared >= 0 && level == LevelFor(linesCleared)
      requires BagOk()
      requires IsBagOrder(refill)
      modifies this
      ensures Valid()
      ensures board == old(board) && score == old(score) && level == old(level) && linesCleared == old(linesCleared)
      ensures var shape := Shapes[old(next)];
        && x == SpawnX(shape) && y == 0
        && (ok <==> !Collides(board, SpawnX(shape), 0, shape))
        && current == if ok then Some(shape) else None
      ensures var filled := if old(bag) == [] then refill else old(bag);
        next == filled[0] && bag == filled[1..]
    {
      var shape := Shapes[next];
      ShapesArePieces(next);
      current := Some(shape);
      x := Width / 2 - |shape[0]| / 2;
      y := 0;
      if bag == [] {
        bag := refill;
        dealt := [];
      }
      DealKeepsOrder(dealt, bag);
      next := bag[0];
      bag := bag[1..];
      dealt := dealt + [next];
      var hit := CheckCollision(board, x, y, current.value);
      if hit {
        GameOver();
        return false;
      }
      return true;
    }

    /** `update_level`: the level rises to the one the cleared rows give, and never falls. */
    method UpdateLevel()
      modifies this
      ensures level == if LevelFor(linesCleared) > old(level) then LevelFor(linesCleared) else old(level)
      ensures board == old(board) && score == old(score) && linesCleared == old(linesCleared)
      ensures bag == old(bag) && next == old(next) && dealt == old(dealt)
      ensures current == old(current) && x == old(x) && y == old(y)
    {
      var newLevel := linesCleared / 10 + 1;
      if newLevel > level {
        level := newLevel;
      }
    }

    /** `move(dx)`: the piece shifts sideways only where it does not collide. */
    method Move(dx: int)
      requires Valid()
      modifies this
      ensures Valid()
      ensures board == old(board) && score == old(score) && current == old(current) && y == old(y)
      ensures level == old(level) && linesCleared == old(linesCleared) && bag == old(bag) && next == old(next)
      ensures x == if current.Some? && !Collides(board, old(x) + dx, y, current.value) then old(x) + dx else old(x)
    {
      if current.Some? {
        var hit := CheckCollision(board, x + dx, y, current.value);
        if !hit {
          x := x + dx;
        }
      }
    }

    /** `drop`: the piece falls one row only where it does not collide. */
    method Drop()
      requires Valid()
      modifies this
      ensures Valid()
      ensures board == old(board) && score == old(score) && current == old(current) && x == old(x)
      ensures level == old(level) && linesCleared == old(linesCleared) && bag == old(bag) && next == old(next)
      ensures y == if current.Some? then DropRow(board, x, old(y), current.value) else old(y)
    {
      if current.Some? {
        var hit := CheckCollision(board, x, y + 1, current.value);
        if !hit {
          y := y + 1;
        }
      }
    }

    /** `rotate`: the piece turns a quarter clockwise only where the turned piece does not collide. */
    method RotatePiece()
      requires Valid()
      modifies this
      ensures Valid()
      ensures board == old(board) && score == old(score) && x == old(x) && y == old(y)
      ensures level == old(level) && linesCleared == old(linesCleared) && bag == old(bag) && next == old(next)
      ensures current == if old(current).Some? && !Collides(board, x, y, Rotate(old(current).value))
        then Some(Rotate(old(current).value)) else old(current)
    {
      if current.Some? {
        var rotated := Rotate(current.value);
        var hit := CheckCollision(board, x, y, rotated);
        if !hit {
          RotateKeepsPiece(current.value);
          current := Some(rotated);
        }
      }
    }

    /** `merge_piece`: the falling piece is written onto the board where it stands. */
    method MergePiece()
      requires Valid() && current.Some?
      modifies this
      ensures current == old(current) && score == old(score) && x == old(x) && y == old(y)
      ensures level == old(level) && linesCleared == old(linesCleared)
      ensures bag == old(bag) && next == old(next) && dealt == old(dealt)
      ensures IsBoard(board) && board == Stamped(old(board), x, y, current.value)
    {
      board := StampPiece(board, x, y, current.value);
    }

    /**
     * `clear_lines`: full rows are removed and empty rows come in on top; each removed row
     * scores 100 times the level before the rows count, the rows are added to the cleared
     * total, and then the level is updated.
     */
    method ClearLines()
      requires IsBoard(board) && score >= 0 && linesCleared >= 0 && level == LevelFor(linesCleared)
      modifies this
      ensures IsBoard(board) && board == Cleared(old(board))
      ensures score == old(score) + FullCount(old(board)) * 100 * old(level)
      ensures linesCleared == old(linesCleared) + FullCount(old(board))
      ensures level == LevelFor(linesCleared) && level >= old(level)
      ensures current == old(current) && x == old(x) && y == old(y)
      ensures bag == old(bag) && next == old(next) && dealt == old(dealt)
    {
      var nb, lines := TetrisBoard.ClearLines(board);
      board := nb;
      if lines > 0 {
        linesCleared := linesCleared + lines;
        score := score + lines * 100 * level;
        LevelForGrows(linesCleared - lines, linesCleared);
        UpdateLevel();
      }
    }

    /**
     * `hard_drop`: the piece falls to its landing row, is merged, full rows are cleared and
     * the next piece enters (refilling the bag from `refill` if needed). Without a falling
     * piece the source's scan fails before changing anything, so nothing changes.
     */
    method HardDrop(refill: seq<int>)
      requires Valid() && IsBagOrder(refill)
      modifies this
      ensures Valid()
      ensures old(current) == None ==> unchanged(this)
      ensures old(current).Some? ==>
        var p := old(current).value;
        var stamped := Stamped(old(board), old(x), LandingY(old(board), old(x), old(y), p), p);
        && board == Cleared(stamped)
        && score == old(score) + FullCount(stamped) * 100 * old(level)
        && linesCleared == old(linesCleared) + FullCount(stamped) && level == LevelFor(linesCleared)
        && current == (if Collides(board, SpawnX(Shapes[old(next)]), 0, Shapes[old(next)]) then None else Some(Shapes[old(next)]))
        && x == SpawnX(Shapes[old(next)]) && y == 0
        && var filled := if old(bag) == [] then refill else old(bag);
          next == filled[0] && bag == filled[1..]
    {
      if current == None {
        return;
      }
      FallToLanding();
      Settle(refill);
    }

    /** The scan of `hard_drop`: the piece moves down, one row at a time, to its landing row. */
    method FallToLanding()
      requires Valid() && current.Some?
      modifies this
      ensures Valid() && y == LandingY(old(board), old(x), old(y), old(current).value)
      ensures board == old(board) && score == old(score) && current == old(current) && x == old(x)
      ensures level == old(level) && linesCleared == old(linesCleared)
      ensures bag == old(bag) && next == old(next) && dealt == old(dealt)
    {
      var b, col, p, top := board, x, current.value, y;
      var row := top;
      var hit := CheckCollision(b, col, row + 1, p);
      while !hit
        invariant top <= row && !Collides(b, col, row, p)
        invariant LandingY(b, col, row, p) == LandingY(b, col, top, p)
        invariant hit == Collides(b, col, row + 1, p)
        modifies {}
        decreases Height - row
      {
        BelowBottomCollides(b, col, row, p);
        row := row + 1;
        hit := CheckCollision(b, col, row + 1, p);
      }
      y := row;
    }

    /**
     * What `hard_drop` and `game_loop` do with a piece that cannot fall further: it is
     * merged, full rows are cleared and the next piece enters.
     */
    method Settle(refill: seq<int>)
      requires Valid() && current.Some? && IsBagOrder(refill)
      modifies this
      ensures Valid() && level >= old(level)
      ensures var p := old(current).value;
        var stamped := Stamped(old(board), old(x), old(y), p);
        && board == Cleared(stamped)
        && score == old(score) + FullCount(stamped) * 100 * old(level)
        && linesCleared == old(linesCleared) + FullCount(stamped)
        && current == (if Collides(board, SpawnX(Shapes[old(next)]), 0, Shapes[old(next)]) then None else Some(Shapes[old(next)]))
      ensures x == SpawnX(Shapes[old(next)]) && y == 0
      ensures var filled := if old(bag) == [] then refill else old(bag);
        next == filled[0] && bag == filled[1..]
    {
      MergePiece();
      ClearLines();
      var _ := NewPiece(refill);
    }

    /**
     * One run of `game_loop`: a missing piece is replaced (and the loop ends if it cannot
     * enter), the piece falls a row, and a piece that cannot fall further is merged, full
     * rows are cleared and the next piece enters. The answers say whether the loop
     * schedules itself again and after how many milliseconds.
     */
    method GameLoop(refill: seq<int>, refill2: seq<int>) returns (continues: bool, delay: int)
      requires Valid() && IsBagOrder(refill) && IsBagOrder(refill2)
      modifies this
      ensures Valid() && score >= old(score) && level >= old(level)
      ensures !continues <==> old(current) == None && Collides(old(board), SpawnX(Shapes[old(next)]), 0, Shapes[old(next)])
      ensures !continues ==> board == old(board) && score == old(score) && current == None
      ensures continues ==> delay == Speed(level) && 50 <= delay <= 500
    {
      delay := 0;
      if current == None {
        var ok := NewPiece(refill);
        if !ok {
          return false, delay;
        }
      }
      Advance(refill2);
      SpeedSpec(level, level);
      return true, Speed(level);
    }

    /**
     * The falling part of `game_loop`: the piece falls a row, and a piece that cannot fall
     * further settles.
     */
    method Advance(refill: seq<int>)
      requires Valid() && current.Some? && IsBagOrder(refill)
      modifies this
      ensures Valid() && score >= old(score) && level >= old(level)
      ensures var p := old(current).value;
        var y1 := DropRow(old(board), old(x), old(y), p);
        if Collides(old(board), old(x), y1 + 1, p) then
          var stamped := Stamped(old(board), old(x), y1, p);
          var shape := Shapes[old(next)];
          var filled := if old(bag) == [] then refill else old(bag);
          && board == Cleared(stamped) && score == old(score) + FullCount(stamped) * 100 * old(level)
          && linesCleared == old(linesCleared) + FullCount(stamped) && level == LevelFor(linesCleared)
          && current == (if Collides(board, SpawnX(shape), 0, shape) then None else Some(shape))
          && x == SpawnX(shape) && y == 0
          && next == filled[0] && bag == filled[1..]
        else
          && board == old(board) && score == old(score) && current == old(current) && y == y1 && x == old(x)
          && level == old(level) && linesCleared == old(linesCleared) && next == old(next) && bag == old(bag)
    {
      Drop();
      SettleIfLanded(refill);
    }

    /** The check `game_loop` makes after the drop: a piece that cannot fall further settles. */
    method SettleIfLanded(refill: seq<int>)
      requires Valid() && current.Some? && IsBagOrder(refill)
      modifies this
      ensures Valid() && score >= old(score) && level >= old(level)
      ensures var p := old(current).value;
        if Collides(old(board), old(x), old(y) + 1, p) then
          var stamped := Stamped(old(board), old(x), old(y), p);
          var shape := Shapes[old(next)];
          var filled := if old(bag) == [] then refill else old(bag);
          && board == Cleared(stamped) && score == old(score) + FullCount(stamped) * 100 * old(level)
          && linesCleared == old(linesCleared) + FullCount(stamped) && level == LevelFor(linesCleared)
          && current == (if Collides(board, SpawnX(shape), 0, shape) then None else Some(shape))
          && x == SpawnX(shape) && y == 0
          && next == filled[0] && bag == filled[1..]
        else
          && board == old(board) && score == old(score) && current == old(current) && y == old(y) && x == old(x)
          && level == old(level) && linesCleared == old(linesCleared) && next == old(next) && bag == old(bag)
    {
      var landed := CheckCollision(board, x, y + 1, current.value);
      if landed {
        ghost var gained := FullCount(Stamped(board, x, y, current.value));
        assert gained * 100 * level >= 0 by {
          assert gained >= 0 && level >= 1;
          assert gained * 100 >= 0;
        }
        Settle(refill);
      }
    }
  }
}
