/**
 * The rules both Gobang games share (games/gobang_game.py and
 * games/gobang_pro_game.py define them identically): a 15x15 board whose cells
 * hold 0 (empty), 1 (black) or 2 (white), placing a stone, the alternation of
 * the players and the five-in-a-row test of `check_win`.
 */
module GobangRules {

  const Size := 15

  /** `[[0]*board_size for _ in range(board_size)]`-shaped: 15 rows of 15 cells. */
  predicate IsBoard(b: seq<seq<int>>)
  {
    |b| == Size && forall r :: 0 <= r < |b| ==> |b[r]| == Size
  }

  predicate InBounds(r: int, c: int)
  {
    0 <= r < Size && 0 <= c < Size
  }

  /** Every cell is empty, black or white. */
  predicate Cells(b: seq<seq<int>>)
    requires IsBoard(b)
  {
    forall r, c :: 0 <= r < Size && 0 <= c < Size ==> 0 <= b[r][c] <= 2
  }

  predicate IsPlayer(p: int)
  {
    p == 1 || p == 2
  }

  function EmptyBoard(): (b: seq<seq<int>>)
    ensures IsBoard(b) && Cells(b)
    ensures forall r, c :: InBounds(r, c) ==> b[r][c] == 0
  {
    seq(Size, r => seq(Size, c => 0))
  }

  /** `switch_player`: black and white take turns. */
  function Other(p: int): (q: int)
    ensures IsPlayer(p) ==> IsPlayer(q) && q != p
  {
    if p == 1 then 2 else 1
  }

  /** `place_piece`: the board after `board[row][col] = p`. */
  function Placed(b: seq<seq<int>>, row: int, col: int, p: int): (nb: seq<seq<int>>)
    requires IsBoard(b) && InBounds(row, col)
    ensures IsBoard(nb)
    ensures forall r, c :: InBounds(r, c) ==> nb[r][c] == if r == row && c == col then p else b[r][c]
    ensures Cells(b) && 0 <= p <= 2 ==> Cells(nb)
  {
    b[row := b[row][col := p]]
  }

  /** A stone of colour `p` at (i, j), which lies on the board. */
  predicate Stone(b: seq<seq<int>>, i: int, j: int, p: int)
    requires IsBoard(b)
  {
    InBounds(i, j) && b[i][j] == p
  }

  /** A step (dr, dc) of one cell in one of the eight directions. */
  predicate IsDirection(dr: int, dc: int)
  {
    -1 <= dr <= 1 && -1 <= dc <= 1 && (dr != 0 || dc != 0)
  }

  /** The four directions `check_win` looks in: across, down and the two diagonals. */
  function Dir(d: int): (v: (int, int))
    requires 0 <= d < 4
    ensures IsDirection(v.0, v.1) && v.0 >= 0
  {
    if d == 0 then (0, 1) else if d == 1 then (1, 0) else if d == 2 then (1, 1) else (1, -1)
  }

  /** The coordinate `t` steps of `d` away from `i`. */
  function Off(i: int, t: int, d: int): int
  {
    if d > 0 then i + t else if d < 0 then i - t else i
  }

  /** How many steps of (dr, dc) from (i, j) stay on the board, counted along the axis that bounds them. */
  function Reach(i: int, j: int, dr: int, dc: int): int
  {
    if dr > 0 then Size - i else if dr < 0 then i + 1 else if dc > 0 then Size - j else j + 1
  }

  /** The number of consecutive stones of colour `p` from (i, j) on, in direction (dr, dc). */
  function Run(b: seq<seq<int>>, i: int, j: int, dr: int, dc: int, p: int): nat
    requires IsBoard(b) && IsDirection(dr, dc)
    decreases Reach(i, j, dr, dc)
  {
    if Stone(b, i, j, p) then 1 + Run(b, i + dr, j + dc, dr, dc, p) else 0
  }

  /**
   * What `check_win` counts in direction (dr, dc): the stone at (row, col) and the
   * runs of `p` stones next to it on both sides.
   */
  function LineLength(b: seq<seq<int>>, row: int, col: int, p: int, dr: int, dc: int): nat
    requires IsBoard(b) && IsDirection(dr, dc)
  {
    1 + Run(b, row + dr, col + dc, dr, dc, p) + Run(b, row - dr, col - dc, -dr, -dc, p)
  }

  /** `check_win` answers true: in one of the four directions the line counts five or more. */
  predicate Wins(b: seq<seq<int>>, row: int, col: int, p: int)
    requires IsBoard(b)
  {
    exists d :: 0 <= d < 4 && LineLength(b, row, col, p, Dir(d).0, Dir(d).1) >= 5
  }

  /**
   * `check_win`: in each of the four directions, count 1 and walk forwards and then
   * backwards while the cell is on the board and holds `p`; five or more wins. The
   * bounds are tested before the cell is read, so the walks never leave the board.
   */
  method CheckWin(b: seq<seq<int>>, row: int, col: int, p: int) returns (win: bool)
    requires IsBoard(b)
    ensures win <==> Wins(b, row, col, p)
  {
    for d := 0 to 4
      invariant forall e :: 0 <= e < d ==> LineLength(b, row, col, p, Dir(e).0, Dir(e).1) < 5
    {
      var (dr, dc) := Dir(d);
      var count := 1;
      var i, j := row + dr, col + dc;
      while 0 <= i < Size && 0 <= j < Size && b[i][j] == p
        invariant count + Run(b, i, j, dr, dc, p) == 1 + Run(b, row + dr, col + dc, dr, dc, p)
        decreases Reach(i, j, dr, dc)
      {
        count := count + 1;
        i := i + dr;
        j := j + dc;
      }
      i, j := row - dr, col - dc;
      while 0 <= i < Size && 0 <= j < Size && b[i][j] == p
        invariant count + Run(b, i, j, -dr, -dc, p) == LineLength(b, row, col, p, dr, dc)
        decreases Reach(i, j, -dr, -dc)
      {
        count := count + 1;
        i := i - dr;
        j := j - dc;
      }
      if count >= 5 {
        return true;
      }
    }
    return false;
  }

  /** A stone of colour `p` `u` steps of (dr, dc) away from (i, j). */
  predicate At(b: seq<seq<int>>, i: int, j: int, dr: int, dc: int, p: int, u: int)
    requires IsBoard(b)
  {
    Stone(b, Off(i, u, dr), Off(j, u, dc), p)
  }

  /** One step along (dr, dc) and then `t` more is `t + 1` steps; one step against it and then `t` more is `t + 1` steps back. */
  lemma AtStep(b: seq<seq<int>>, i: int, j: int, dr: int, dc: int, p: int, t: int)
    requires IsBoard(b) && IsDirection(dr, dc)
    ensures At(b, i + dr, j + dc, dr, dc, p, t) == At(b, i, j, dr, dc, p, t + 1)
    ensures At(b, i - dr, j - dc, -dr, -dc, p, t) == At(b, i, j, dr, dc, p, -(t + 1))
  {
  }

  /** A run is at least `k` long exactly when the first `k` cells along it hold stones of colour `p`. */
  lemma {:induction false} RunAtLeast(b: seq<seq<int>>, i: int, j: int, dr: int, dc: int, p: int, k: nat)
    requires IsBoard(b) && IsDirection(dr, dc)
    ensures Run(b, i, j, dr, dc, p) >= k <==> forall t :: 0 <= t < k ==> At(b, i, j, dr, dc, p, t)
    decreases k
  {
    if k > 0 {
      RunAtLeast(b, i + dr, j + dc, dr, dc, p, k - 1);
      assert At(b, i, j, dr, dc, p, 0) == Stone(b, i, j, p);
      if Run(b, i, j, dr, dc, p) >= k {
        forall t | 0 <= t < k
          ensures At(b, i, j, dr, dc, p, t)
        {
          if t > 0 {
            AtStep(b, i, j, dr, dc, p, t - 1);
          }
        }
      }
      if forall t :: 0 <= t < k ==> At(b, i, j, dr, dc, p, t) {
        var i1, j1 := i + dr, j + dc;
        forall t | 0 <= t < k - 1
          ensures At(b, i1, j1, dr, dc, p, t)
        {
          AtStep(b, i, j, dr, dc, p, t);
        }
      }
    }
  }

  /** Five stones of colour `p` in a row along (dr, dc), the `s`-th of them at (row, col). */
  predicate FiveThrough(b: seq<seq<int>>, row: int, col: int, p: int, dr: int, dc: int, s: int)
    requires IsBoard(b)
  {
    forall u :: -s <= u < 5 - s ==> At(b, row, col, dr, dc, p, u)
  }

  /** Five stones of colour `p` in a row, across, down or diagonally, one of them at (row, col). */
  predicate FiveInARow(b: seq<seq<int>>, row: int, col: int, p: int)
    requires IsBoard(b)
  {
    exists d, s :: 0 <= d < 4 && 0 <= s < 5 && FiveThrough(b, row, col, p, Dir(d).0, Dir(d).1, s)
  }

  /** A run of at least `k` stones ahead of (row, col) puts a stone 1 to `k` steps ahead. */
  lemma RunAhead(b: seq<seq<int>>, row: int, col: int, p: int, dr: int, dc: int, k: nat)
    requires IsBoard(b) && IsDirection(dr, dc) && Run(b, row + dr, col + dc, dr, dc, p) >= k
    ensures forall u :: 0 < u <= k ==> At(b, row, col, dr, dc, p, u)
  {
    RunAtLeast(b, row + dr, col + dc, dr, dc, p, k);
    forall u | 0 < u <= k
      ensures At(b, row, col, dr, dc, p, u)
    {
      AtStep(b, row, col, dr, dc, p, u - 1);
    }
  }

  /** A run of at least `k` stones behind (row, col) puts a stone 1 to `k` steps back. */
  lemma RunBehind(b: seq<seq<int>>, row: int, col: int, p: int, dr: int, dc: int, k: nat)
    requires IsBoard(b) && IsDirection(dr, dc) && Run(b, row - dr, col - dc, -dr, -dc, p) >= k
    ensures forall u :: 0 - k <= u < 0 ==> At(b, row, col, dr, dc, p, u)
  {
    RunAtLeast(b, row - dr, col - dc, -dr, -dc, p, k);
    forall u | 0 - k <= u < 0
      ensures At(b, row, col, dr, dc, p, u)
    {
      AtStep(b, row, col, dr, dc, p, -u - 1);
    }
  }

  /** A line counting five or more holds five stones in a row through (row, col). */
  lemma LineGivesFive(b: seq<seq<int>>, row: int, col: int, p: int, dr: int, dc: int)
    requires IsBoard(b) && IsDirection(dr, dc) && Stone(b, row, col, p)
    requires LineLength(b, row, col, p, dr, dc) >= 5
    ensures exists s :: 0 <= s < 5 && FiveThrough(b, row, col, p, dr, dc, s)
  {
    var g := Run(b, row - dr, col - dc, -dr, -dc, p);
    var s: nat := if g < 4 then g else 4;
    RunAhead(b, row, col, p, dr, dc, 4 - s);
    RunBehind(b, row, col, p, dr, dc, s);
    assert At(b, row, col, dr, dc, p, 0);
    assert FiveThrough(b, row, col, p, dr, dc, s);
  }

  /** Five stones in a row, the `s`-th of them at (row, col), leave at least `4 - s` of them ahead of it. */
  lemma FiveAhead(b: seq<seq<int>>, row: int, col: int, p: int, dr: int, dc: int, s: int)
    requires IsBoard(b) && IsDirection(dr, dc) && 0 <= s < 5 && FiveThrough(b, row, col, p, dr, dc, s)
    ensures Run(b, row + dr, col + dc, dr, dc, p) >= 4 - s
  {
    var r1, c1 := row + dr, col + dc;
    forall t | 0 <= t < 4 - s
      ensures At(b, r1, c1, dr, dc, p, t)
    {
      AtStep(b, row, col, dr, dc, p, t);
    }
    RunAtLeast(b, r1, c1, dr, dc, p, 4 - s);
  }

  /** Five stones in a row, the `s`-th of them at (row, col), leave at least `s` of them behind it. */
  lemma FiveBehind(b: seq<seq<int>>, row: int, col: int, p: int, dr: int, dc: int, s: int)
    requires IsBoard(b) && IsDirection(dr, dc) && 0 <= s < 5 && FiveThrough(b, row, col, p, dr, dc, s)
    ensures Run(b, row - dr, col - dc, -dr, -dc, p) >= s
  {
    var r2, c2, dr2, dc2 := row - dr, col - dc, -dr, -dc;
    forall t | 0 <= t < s
      ensures At(b, r2, c2, dr2, dc2, p, t)
    {
      AtStep(b, row, col, dr, dc, p, t);
    }
    RunAtLeast(b, r2, c2, dr2, dc2, p, s);
  }

  /** Along one direction, the count `check_win` makes reaches five exactly when five stones in a row pass through (row, col). */
  lemma LineIffFive(b: seq<seq<int>>, row: int, col: int, p: int, dr: int, dc: int)
    requires IsBoard(b) && IsDirection(dr, dc) && Stone(b, row, col, p)
    ensures LineLength(b, row, col, p, dr, dc) >= 5 <==> exists s :: 0 <= s < 5 && FiveThrough(b, row, col, p, dr, dc, s)
  {
    if LineLength(b, row, col, p, dr, dc) >= 5 {
      LineGivesFive(b, row, col, p, dr, dc);
    }
    if s :| 0 <= s < 5 && FiveThrough(b, row, col, p, dr, dc, s) {
      FiveAhead(b, row, col, p, dr, dc, s);
      FiveBehind(b, row, col, p, dr, dc, s);
    }
  }

  /**
   * Once the stone is placed, `check_win` answers true exactly when five stones of its
   * colour stand in a row through it.
   */
  lemma WinsIffFiveInARow(b: seq<seq<int>>, row: int, col: int, p: int)
    requires IsBoard(b) && Stone(b, row, col, p)
    ensures Wins(b, row, col, p) <==> FiveInARow(b, row, col, p)
  {
    forall d | 0 <= d < 4
      ensures LineLength(b, row, col, p, Dir(d).0, Dir(d).1) >= 5
        <==> exists s :: 0 <= s < 5 && FiveThrough(b, row, col, p, Dir(d).0, Dir(d).1, s)
    {
      LineIffFive(b, row, col, p, Dir(d).0, Dir(d).1);
    }
  }

  /** The empty board holds no stone, so no colour wins on it. */
  lemma NoWinOnEmptyBoard(row: int, col: int, p: int)
    ensures p != 0 ==> !Wins(EmptyBoard(), row, col, p)
  {
    if p != 0 {
      forall d | 0 <= d < 4
        ensures LineLength(EmptyBoard(), row, col, p, Dir(d).0, Dir(d).1) == 1
      {
      }
    }
  }
}
