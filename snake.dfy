/**
 * The Snake game (games/snake_game.py): a snake of grid cells, head first, moving on
 * a 25x25 grid (a 500-pixel canvas in 20-pixel cells), the food, the direction, the
 * score, the delay between steps and the game-over flag. Each cell `create_food`
 * settles on after its `random.randint` retries is a parameter: a free cell of the
 * grid.
 */
module Snake {
  import opened Wrappers

  /** `width // cell_size` and `height // cell_size`: the grid is 25 cells across and down. */
  const GridSize := 25
  const StartSpeed := 200
  const MinSpeed := 80

  datatype Direction = Up | Down | Left | Right

  /** A cell (x, y): column x, row y, with y growing downwards. */
  type Cell = (int, int)

  predicate InGrid(p: Cell)
  {
    0 <= p.0 < GridSize && 0 <= p.1 < GridSize
  }

  /** No cell appears twice. */
  predicate Distinct(s: seq<Cell>)
  {
    forall i, j :: 0 <= i < j < |s| ==> s[i] != s[j]
  }

  /** The snake of a new game: `[(10, 10), (9, 10), (8, 10)]`, heading right. */
  const StartSnake: seq<Cell> := [(10, 10), (9, 10), (8, 10)]

  function Opposite(d: Direction): Direction
  {
    match d
    case Up => Down
    case Down => Up
    case Left => Right
    case Right => Left
  }

  /** The direction an arrow key's `keysym` names; any other key names none. */
  function KeyDirection(key: string): Option<Direction>
  {
    if key == "Up" then Some(Up)
    else if key == "Down" then Some(Down)
    else if key == "Left" then Some(Left)
    else if key == "Right" then Some(Right)
    else None
  }

  /** The cell the head moves to in direction `d`. */
  function NextHead(h: Cell, d: Direction): Cell
  {
    match d
    case Up => (h.0, h.1 - 1)
    case Down => (h.0, h.1 + 1)
    case Left => (h.0 - 1, h.1)
    case Right => (h.0 + 1, h.1)
  }

  /** The head moves to a neighbouring cell, and moving back the opposite way returns to where it was. */
  lemma NextHeadSpec(h: Cell, d: Direction)
    ensures var n := NextHead(h, d);
      (if n.0 > h.0 then n.0 - h.0 else h.0 - n.0) + (if n.1 > h.1 then n.1 - h.1 else h.1 - n.1) == 1
    ensures NextHead(NextHead(h, d), Opposite(d)) == h
  {
  }

  /** The delay after `score` points: 20 ms less for every 3 points, but never below 80 ms. */
  function SpeedFor(score: int): int
  {
    if StartSpeed - 20 * (score / 3) > MinSpeed then StartSpeed - 20 * (score / 3) else MinSpeed
  }

  /** The delay stays within 80 to 200 ms and never grows as the score grows. */
  lemma SpeedForSpec(score: int, higher: int)
    requires 0 <= score <= higher
    ensures MinSpeed <= SpeedFor(score) <= StartSpeed
    ensures SpeedFor(higher) <= SpeedFor(score)
  {
    assert score / 3 <= higher / 3;
  }

  /**
   * The step of `update` that eats: the new score is one more, and the delay drops by
   * 20 ms, not below 80 ms, exactly when that score is a multiple of 3 and the delay is
   * above the floor; so the delay is always the one the score gives.
   */
  lemma SpeedForStep(score: int)
    requires score >= 0
    ensures SpeedFor(score + 1) ==
      if (score + 1) % 3 == 0 && SpeedFor(score) > MinSpeed then
        (if SpeedFor(score) - 20 > MinSpeed then SpeedFor(score) - 20 else MinSpeed)
      else SpeedFor(score)
  {
    if (score + 1) % 3 == 0 {
      assert (score + 1) / 3 == score / 3 + 1;
    } else {
      assert (score + 1) / 3 == score / 3;
    }
  }

  class SnakeGame {
    var snake: seq<Cell>
    var food: Cell
    var direction: Direction
    var score: int
    var speed: int
    var gameOver: bool

    /**
     * The snake has grown by one cell per point from its three cells, its cells are on
     * the grid and distinct, the food is on the grid and off the snake, and the delay is
     * the one the score gives.
     */
    predicate Valid()
      reads this
    {
      && score >= 0 && |snake| == 3 + score
      && (forall i :: 0 <= i < |snake| ==> InGrid(snake[i])) && Distinct(snake)
      && InGrid(food) && food !in snake
      && speed == SpeedFor(score)
    }

    /**
     * `__init__`: the starting snake heading right, score 0, delay 200 ms, food at
     * `pick`, and then the first step of `update` (`next` is where food goes if that
     * step eats).
     */
    constructor (pick: Cell, next: Cell)
      requires InGrid(pick) && pick !in StartSnake
      requires pick == (11, 10) ==> InGrid(next) && next !in [pick] + StartSnake
      ensures Valid() && !gameOver && direction == Right && speed == StartSpeed
      ensures pick == (11, 10) ==> snake == [(11, 10)] + StartSnake && score == 1 && food == next
      ensures pick != (11, 10) ==> snake == [(11, 10)] + StartSnake[..2] && score == 0 && food == pick
    {
      snake := StartSnake;
      direction := Right;
      score := 0;
      speed := StartSpeed;
      gameOver := false;
      food := pick;
      new;
      Update(next);
    }

    /** `create_food`: the food goes to `pick`, a grid cell off the snake. */
    method CreateFood(pick: Cell)
      requires InGrid(pick) && pick !in snake
      modifies this
      ensures food == pick && InGrid(food) && food !in snake
      ensures snake == old(snake) && direction == old(direction) && score == old(score)
      ensures speed == old(speed) && gameOver == old(gameOver)
    {
      food := pick;
    }

    /**
     * `change_direction`: an arrow key turns the snake that way unless that is straight
     * back; any other key, and the key for straight back, change nothing.
     */
    method ChangeDirection(key: string)
      modifies this
      ensures direction != Opposite(old(direction))
      ensures KeyDirection(key).Some? && KeyDirection(key).value != Opposite(old(direction)) ==>
        direction == KeyDirection(key).value
      ensures !(KeyDirection(key).Some? && KeyDirection(key).value != Opposite(old(direction))) ==>
        direction == old(direction)
      ensures snake == old(snake) && food == old(food) && score == old(score)
      ensures speed == old(speed) && gameOver == old(gameOver)
    {
      if key == "Up" && direction != Down {
        direction := Up;
      } else if key == "Down" && direction != Up {
        direction := Down;
      } else if key == "Left" && direction != Right {
        direction := Left;
      } else if key == "Right" && direction != Left {
        direction := Right;
      }
    }

    /**
     * One step of `update`. After game over nothing happens. A new head off the grid or
     * on any cell of the snake, its tail included, ends the game and leaves everything
     * else as it was. Otherwise the head moves on; eating the food keeps the tail, adds
     * a point, puts new food at `pick` and may shorten the delay; not eating drops the
     * tail.
     */
    method Update(pick: Cell)
      requires Valid()
      requires !gameOver && NextHead(snake[0], direction) == food ==> InGrid(pick) && pick !in [food] + snake
      modifies this
      ensures Valid() && direction == old(direction)
      ensures old(gameOver) ==>
        gameOver && snake == old(snake) && food == old(food) && score == old(score) && speed == old(speed)
      ensures !old(gameOver) ==>
        var h := NextHead(old(snake)[0], old(direction));
        if h in old(snake) || !InGrid(h) then
          gameOver && snake == old(snake) && food == old(food) && score == old(score) && speed == old(speed)
        else if h == old(food) then
          && !gameOver && snake == [h] + old(snake) && food == pick && score == old(score) + 1
          && speed == (if score % 3 == 0 && old(speed) > MinSpeed then
                         (if old(speed) - 20 > MinSpeed then old(speed) - 20 else MinSpeed)
                       else old(speed))
        else
          && !gameOver && snake == [h] + old(snake)[..|old(snake)| - 1]
          && food == old(food) && score == old(score) && speed == old(speed)
    {
      if !gameOver {
        var head := snake[0];
        var newHead: Cell;
        if direction == Up {
          newHead := (head.0, head.1 - 1);
        } else if direction == Down {
          newHead := (head.0, head.1 + 1);
        } else if direction == Left {
          newHead := (head.0 - 1, head.1);
        } else {
          newHead := (head.0 + 1, head.1);
        }

        if newHead in snake || newHead.0 < 0 || newHead.0 >= GridSize || newHead.1 < 0 || newHead.1 >= GridSize {
          gameOver := true;
          return;
        }

        MoveHead(newHead, pick);
      }
    }

    /**
     * The rest of a step of `update` once the new head is known to be free: the head
     * moves on, and eating the food keeps the tail, adds a point, puts new food at
     * `pick` and may shorten the delay, while not eating drops the tail.
     */
    method MoveHead(newHead: Cell, pick: Cell)
      requires Valid() && !gameOver && InGrid(newHead) && newHead !in snake
      requires newHead == food ==> InGrid(pick) && pick !in [food] + snake
      modifies this
      ensures Valid() && !gameOver && direction == old(direction)
      ensures newHead == old(food) ==>
        && snake == [newHead] + old(snake) && food == pick && score == old(score) + 1
        && speed == (if score % 3 == 0 && old(speed) > MinSpeed then
                       (if old(speed) - 20 > MinSpeed then old(speed) - 20 else MinSpeed)
                     else old(speed))
      ensures newHead != old(food) ==>
        snake == [newHead] + old(snake)[..|old(snake)| - 1] && food == old(food) && score == old(score) && speed == old(speed)
    {
      snake := [newHead] + snake;
      if newHead == food {
        SpeedForStep(score);
        score := score + 1;
        CreateFood(pick);
        if score % 3 == 0 && speed > MinSpeed {
          speed := if speed - 20 > MinSpeed then speed - 20 else MinSpeed;
        }
      } else {
        snake := snake[..|snake| - 1];
      }
    }

    /**
     * `restart_game`: the starting snake heading right, score 0, delay 200 ms, no game
     * over and food at `pick`, and then the first step of `update`, which moves the head
     * to (11, 10) and eats if the food is there.
     */
    method RestartGame(pick: Cell, next: Cell)
      requires InGrid(pick) && pick !in StartSnake
      requires pick == (11, 10) ==> InGrid(next) && next !in [pick] + StartSnake
      modifies this
      ensures Valid() && !gameOver && direction == Right && speed == StartSpeed
      ensures pick == (11, 10) ==> snake == [(11, 10)] + StartSnake && score == 1 && food == next
      ensures pick != (11, 10) ==> snake == [(11, 10)] + StartSnake[..2] && score == 0 && food == pick
    {
      snake := StartSnake;
      CreateFood(pick);
      direction := Right;
      score := 0;
      speed := StartSpeed;
      gameOver := false;
      Update(next);
    }
  }
}
