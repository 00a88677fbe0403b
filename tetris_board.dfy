/**
 * The board rules both Tetris games share (games/tetris_game.py and
 * games/tetris_pro_game.py define them identically): a 20x10 board of colours
 * (0 is empty), the seven shapes, the clockwise rotation, the collision test,
 * stamping a piece onto the board and clearing full rows.
 */
module TetrisBoard {

  const Width := 10
  const Height := 20

  /** `[[0]*BOARD_WIDTH for _ in range(BOARD_HEIGHT)]`-shaped: 20 rows of 10 cells. */
  predicate IsBoard(b: seq<seq<int>>)
  {
    |b| == Height && forall r :: 0 <= r < |b| ==> |b[r]| == Width
  }

  function EmptyRow(): (row: seq<int>)
    ensures |row| == Width && forall c :: 0 <= c < |row| ==> row[c] == 0
  {
    seq(Width, c => 0)
  }

  function EmptyBoard(): (b: seq<seq<int>>)
    ensures IsBoard(b) && forall r, c :: 0 <= r < Height && 0 <= c < Width ==> b[r][c] == 0
  {
    seq(Height, r => EmptyRow())
  }

  /** A rectangle of colours with at least one row and one column. */
  predicate IsRect(p: seq<seq<int>>)
  {
    |p| > 0 && |p[0]| > 0 && forall r :: 0 <= r < |p| ==> |p[r]| == |p[0]|
  }

  /** Some cell of the piece is not empty. */
  predicate HasBlock(p: seq<seq<int>>)
  {
    exists r, c :: 0 <= r < |p| && 0 <= c < |p[r]| && p[r][c] != 0
  }

  /** A piece the game can hold: a rectangle with a block in it. */
  predicate IsPiece(p: seq<seq<int>>)
  {
    IsRect(p) && HasBlock(p)
  }

  /** `SHAPES`: I, O, T, Z, S, L and J, each drawn in its own colour 1 to 7. */
  const Shapes: seq<seq<seq<int>>> := [
    [[1, 1, 1, 1]],
    [[2, 2], [2, 2]],
    [[0, 3, 0], [3, 3, 3]],
    [[4, 4, 0], [0, 4, 4]],
    [[0, 5, 5], [5, 5, 0]],
    [[6, 6, 6], [6, 0, 0]],
    [[7, 7, 7], [0, 0, 7]]
  ]

  /** Every one of the seven shapes is a piece. */
  lemma ShapesArePieces(i: int)
    requires 0 <= i < |Shapes|
    ensures IsPiece(Shapes[i])
  {
    assert Shapes[i][0][1] != 0;
  }

  /** `list(zip(*piece[::-1]))`: the piece turned a quarter clockwise. */
  function Rotate(p: seq<seq<int>>): (r: seq<seq<int>>)
    requires IsRect(p)
    ensures IsRect(r) && |r| == |p[0]| && |r[0]| == |p|
  {
    seq(|p[0]|, i requires 0 <= i < |p[0]| => seq(|p|, j requires 0 <= j < |p| => p[|p| - 1 - j][i]))
  }

  /** Turning twice stands the piece on its head. */
  lemma RotateTwice(p: seq<seq<int>>)
    requires IsRect(p)
    ensures var q := Rotate(Rotate(p));
      && |q| == |p| && |q[0]| == |p[0]|
      && forall i, j :: 0 <= i < |p| && 0 <= j < |p[0]| ==> q[i][j] == p[|p| - 1 - i][|p[0]| - 1 - j]
  {
  }

  /** Four quarter turns give back the piece. */
  lemma RotateFour(p: seq<seq<int>>)
    requires IsRect(p)
    ensures Rotate(Rotate(Rotate(Rotate(p)))) == p
  {
    var q := Rotate(Rotate(p));
    RotateTwice(p);
    RotateTwice(q);
    var s := Rotate(Rotate(q));
    forall i | 0 <= i < |p| ensures s[i] == p[i] {
      assert forall j :: 0 <= j < |p[0]| ==> s[i][j] == p[i][j];
    }
  }

  /** A turned piece is still a piece: each block lands on the turned cell. */
  lemma RotateKeepsPiece(p: seq<seq<int>>)
    requires IsPiece(p)
    ensures IsPiece(Rotate(p))
  {
    var r, c :| 0 <= r < |p| && 0 <= c < |p[r]| && p[r][c] != 0;
    assert Rotate(p)[c][|p| - 1 - r] == p[r][c];
  }

  /** A block landing on board cell (nx, ny) collides: off the sides, below the bottom, or on a filled cell; rows above the top are free. */
  predicate Blocked(b: seq<seq<int>>, nx: int, ny: int)
    requires IsBoard(b)
  {
    nx < 0 || nx >= Width || ny >= Height || (ny >= 0 && b[ny][nx] != 0)
  }

  /** `check_collision(x, y, piece)`: some block of the piece, placed with its corner at (x, y), is blocked. */
  predicate Collides(b: seq<seq<int>>, x: int, y: int, p: seq<seq<int>>)
    requires IsBoard(b)
  {
    exists py, px :: 0 <= py < |p| && 0 <= px < |p[py]| && p[py][px] != 0 && Blocked(b, x + px, y + py)
  }

  /** `check_collision`: the scan of the piece's rows and columns, stopping at the first blocked block. */
  method CheckCollision(b: seq<seq<int>>, x: int, y: int, p: seq<seq<int>>) returns (hit: bool)
    requires IsBoard(b)
    ensures hit == Collides(b, x, y, p)
  {
    for py := 0 to |p|
      invariant forall r, c :: 0 <= r < py && 0 <= c < |p[r]| && p[r][c] != 0 ==> !Blocked(b, x + c, y + r)
    {
      for px := 0 to |p[py]|
        invariant forall c :: 0 <= c < px && p[py][c] != 0 ==> !Blocked(b, x + c, y + py)
      {
        if p[py][px] != 0 {
          var nx, ny := x + px, y + py;
          if nx < 0 || nx >= Width || ny >= Height {
            assert Blocked(b, x + px, y + py);
            return true;
          }
          if ny >= 0 && b[ny][nx] != 0 {
            assert Blocked(b, x + px, y + py);
            return true;
          }
        }
      }
    }
    return false;
  }

  /** A piece that does not collide at (x, y) has every block on the board or above it, over an empty cell. */
  lemma FitsOnBoard(b: seq<seq<int>>, x: int, y: int, p: seq<seq<int>>, py: int, px: int)
    requires IsBoard(b) && !Collides(b, x, y, p)
    requires 0 <= py < |p| && 0 <= px < |p[py]| && p[py][px] != 0
    ensures 0 <= x + px < Width && y + py < Height
    ensures y + py >= 0 ==> b[y + py][x + px] == 0
  {
    assert !Blocked(b, x + px, y + py);
  }

  /** The colour the piece at (x, y) puts on board cell (r, c), or 0 where it has no block. */
  function PieceColour(p: seq<seq<int>>, x: int, y: int, r: int, c: int): int
  {
    if 0 <= r - y < |p| && 0 <= c - x < |p[r - y]| then p[r - y][c - x] else 0
  }

  /** The board after `merge_piece`: each block of the piece written at its cell, every other cell as it was. */
  function Stamped(b: seq<seq<int>>, x: int, y: int, p: seq<seq<int>>): (s: seq<seq<int>>)
    requires IsBoard(b)
    ensures IsBoard(s)
  {
    seq(Height, r requires 0 <= r < Height =>
      seq(Width, c requires 0 <= c < Width =>
        if PieceColour(p, x, y, r, c) != 0 then PieceColour(p, x, y, r, c) else b[r][c]))
  }

  /** The cells `merge_piece` has written after `py` full rows of the piece and `px` cells of the next. */
  predicate Written(p: seq<seq<int>>, x: int, y: int, r: int, c: int, py: int, px: int)
  {
    PieceColour(p, x, y, r, c) != 0 && (r - y < py || (r - y == py && c - x < px))
  }

  /** `merge_piece`'s loops: each block of the piece is written at its board cell, row by row. */
  method StampPiece(b: seq<seq<int>>, x: int, y: int, p: seq<seq<int>>) returns (nb: seq<seq<int>>)
    requires IsBoard(b) && !Collides(b, x, y, p) && y >= 0
    ensures nb == Stamped(b, x, y, p)
  {
    nb := b;
    for py := 0 to |p|
      invariant IsBoard(nb)
      invariant forall r, c :: 0 <= r < Height && 0 <= c < Width ==>
        nb[r][c] == if Written(p, x, y, r, c, py, 0) then PieceColour(p, x, y, r, c) else b[r][c]
    {
      for px := 0 to |p[py]|
        invariant IsBoard(nb)
        invariant forall r, c :: 0 <= r < Height && 0 <= c < Width ==>
          nb[r][c] == if Written(p, x, y, r, c, py, px) then PieceColour(p, x, y, r, c) else b[r][c]
      {
        var colour := p[py][px];
        if colour != 0 {
          FitsOnBoard(b, x, y, p, py, px);
          nb := nb[y + py := nb[y + py][x + px := colour]];
        }
      }
    }
    BoardsEqual(nb, Stamped(b, x, y, p));
  }

  lemma BoardsEqual(a: seq<seq<int>>, b: seq<seq<int>>)
    requires IsBoard(a) && IsBoard(b)
    requires forall r, c :: 0 <= r < Height && 0 <= c < Width ==> a[r][c] == b[r][c]
    ensures a == b
  {
    assert forall r :: 0 <= r < Height ==> a[r] == b[r];
  }

  /**
   * A piece that fits (no collision, at or below the top row) is stamped onto empty cells
   * only: every filled cell stays, every block of the piece shows its colour, and only
   * the piece's cells change.
   */
  lemma StampedSpec(b: seq<seq<int>>, x: int, y: int, p: seq<seq<int>>)
    requires IsBoard(b) && !Collides(b, x, y, p) && y >= 0
    ensures var s := Stamped(b, x, y, p);
      && (forall r, c :: 0 <= r < Height && 0 <= c < Width && b[r][c] != 0 ==> s[r][c] == b[r][c])
      && (forall py, px :: 0 <= py < |p| && 0 <= px < |p[py]| && p[py][px] != 0 ==> s[y + py][x + px] == p[py][px])
      && (forall r, c :: 0 <= r < Height && 0 <= c < Width && s[r][c] != b[r][c] ==> PieceColour(p, x, y, r, c) != 0)
  {
    var s := Stamped(b, x, y, p);
    forall r, c | 0 <= r < Height && 0 <= c < Width && b[r][c] != 0 ensures s[r][c] == b[r][c] {
      if PieceColour(p, x, y, r, c) != 0 {
        FitsOnBoard(b, x, y, p, r - y, c - x);
      }
    }
    forall py, px | 0 <= py < |p| && 0 <= px < |p[py]| && p[py][px] != 0 ensures s[y + py][x + px] == p[py][px] {
      FitsOnBoard(b, x, y, p, py, px);
      assert PieceColour(p, x, y, y + py, x + px) == p[py][px];
    }
  }

  /** `all(row)`: no empty cell in the row. */
  predicate Full(row: seq<int>)
  {
    forall c :: 0 <= c < |row| ==> row[c] != 0
  }

  /** The rows that are not full, in their order. */
  function KeepNonFull(rows: seq<seq<int>>): (k: seq<seq<int>>)
    ensures |k| <= |rows|
  {
    if rows == [] then []
    else (if Full(rows[0]) then [] else [rows[0]]) + KeepNonFull(rows[1..])
  }

  lemma {:induction false} KeepNonFullAppend(a: seq<seq<int>>, c: seq<seq<int>>)
    ensures KeepNonFull(a + c) == KeepNonFull(a) + KeepNonFull(c)
    decreases |a|
  {
    if a == [] {
      assert a + c == c;
    } else {
      assert (a + c)[1..] == a[1..] + c;
      KeepNonFullAppend(a[1..], c);
    }
  }

  lemma {:induction false} KeepNonFullOfNonFull(rows: seq<seq<int>>)
    requires forall i :: 0 <= i < |rows| ==> !Full(rows[i])
    ensures KeepNonFull(rows) == rows
    decreases |rows|
  {
    if rows != [] {
      KeepNonFullOfNonFull(rows[1..]);
    }
  }

  /** The kept rows are exactly the board's rows that are not full. */
  lemma {:induction false} KeepNonFullMembers(rows: seq<seq<int>>)
    ensures forall row :: row in KeepNonFull(rows) <==> row in rows && !Full(row)
    decreases |rows|
  {
    if rows != [] {
      KeepNonFullMembers(rows[1..]);
      assert rows == [rows[0]] + rows[1..];
    }
  }

  function EmptyRows(n: nat): (e: seq<seq<int>>)
    ensures |e| == n && forall i :: 0 <= i < n ==> e[i] == EmptyRow()
  {
    seq(n, i => EmptyRow())
  }

  /** The number of full rows `clear_lines` removes. */
  function FullCount(b: seq<seq<int>>): nat
  {
    |b| - |KeepNonFull(b)|
  }

  /** The board after `clear_lines`: as many empty rows on top as full rows were removed, then the other rows in order. */
  function Cleared(b: seq<seq<int>>): (c: seq<seq<int>>)
    ensures |c| == |b|
  {
    EmptyRows(FullCount(b)) + KeepNonFull(b)
  }

  /**
   * `clear_lines` keeps the 20x10 shape, leaves no full row, keeps the rows that were
   * not full in their order at the bottom, and changes nothing when no row is full.
   */
  lemma ClearedSpec(b: seq<seq<int>>)
    requires IsBoard(b)
    ensures var c := Cleared(b);
      && IsBoard(c)
      && (forall r :: 0 <= r < Height ==> !Full(c[r]))
      && c[FullCount(b)..] == KeepNonFull(b)
      && (forall row :: row in c[FullCount(b)..] <==> row in b && !Full(row))
      && (FullCount(b) == 0 <==> forall r :: 0 <= r < Height ==> !Full(b[r]))
      && (FullCount(b) == 0 ==> c == b)
  {
    var c := Cleared(b);
    var k := KeepNonFull(b);
    KeepNonFullMembers(b);
    assert c[FullCount(b)..] == k;
    forall r | 0 <= r < Height ensures !Full(c[r]) {
      if r < FullCount(b) {
        assert c[r][0] == 0;
      } else {
        assert c[r] in k;
      }
    }
    forall r | 0 <= r < Height ensures |c[r]| == Width {
      if r >= FullCount(b) {
        assert c[r] in k;
      }
    }
    if forall r :: 0 <= r < Height ==> !Full(b[r]) {
      KeepNonFullOfNonFull(b);
    } else {
      var r :| 0 <= r < Height && Full(b[r]);
      if FullCount(b) == 0 {
        assert |k| == |b|;
        KeepNonFullLength(b);
      }
    }
  }

  /** Nothing is dropped from rows that are all kept. */
  lemma {:induction false} KeepNonFullLength(rows: seq<seq<int>>)
    requires |KeepNonFull(rows)| == |rows|
    ensures forall i :: 0 <= i < |rows| ==> !Full(rows[i])
    decreases |rows|
  {
    if rows != [] {
      KeepNonFullLength(rows[1..]);
      assert forall i :: 1 <= i < |rows| ==> rows[i] == rows[1..][i - 1];
    }
  }

  /** Clearing a cleared board changes nothing. */
  lemma ClearedIdempotent(b: seq<seq<int>>)
    requires IsBoard(b)
    ensures Cleared(Cleared(b)) == Cleared(b)
  {
    ClearedSpec(b);
    ClearedSpec(Cleared(b));
  }

  /** `full` lists the indices of the full rows of `b`, top to bottom. */
  predicate FullLinesOf(b: seq<seq<int>>, full: seq<int>)
    requires IsBoard(b)
  {
    && (forall i, j :: 0 <= i < j < |full| ==> full[i] < full[j])
    && (forall i :: 0 <= i < |full| ==> 0 <= full[i] < Height)
    && (forall y :: 0 <= y < Height ==> (Full(b[y]) <==> y in full))
  }

  /** The first loop of `clear_lines`: the indices of the full rows, top to bottom. */
  method FindFullLines(b: seq<seq<int>>) returns (full: seq<int>)
    requires IsBoard(b)
    ensures FullLinesOf(b, full)
  {
    full := [];
    for y := 0 to Height
      invariant forall i, j :: 0 <= i < j < |full| ==> full[i] < full[j]
      invariant forall i :: 0 <= i < |full| ==> 0 <= full[i] < y
      invariant forall z :: 0 <= z < y ==> (Full(b[z]) <==> z in full)
    {
      if Full(b[y]) {
        full := full + [y];
      }
    }
  }

  /** What the second loop of `clear_lines` has built after removing the first `t` full rows, the last of them just above row `p`. */
  predicate RemovedSoFar(b: seq<seq<int>>, nb: seq<seq<int>>, t: nat, p: nat)
    requires p <= |b|
  {
    && nb == EmptyRows(t) + KeepNonFull(b[..p]) + b[p..]
    && |KeepNonFull(b[..p])| + t == p
  }

  /** The invariant of the second loop of `clear_lines`, with `full` the rows the first loop found. */
  predicate ClearInv(b: seq<seq<int>>, full: seq<int>, nb: seq<seq<int>>, t: nat, p: nat)
  {
    && IsBoard(b) && FullLinesOf(b, full) && t <= |full| && p <= Height
    && RemovedSoFar(b, nb, t, p)
    && (forall i :: 0 <= i < t ==> full[i] < p)
    && (t < |full| ==> p <= full[t])
  }

  /** No full row lies between the `t`-th full row found and the ones before it. */
  lemma NoFullBetween(b: seq<seq<int>>, full: seq<int>, t: nat, p: int)
    requires IsBoard(b) && FullLinesOf(b, full) && t <= |full| && 0 <= p
    requires forall i :: 0 <= i < t ==> full[i] < p
    ensures forall z :: p <= z < (if t < |full| then full[t] else Height) ==> !Full(b[z])
  {
  }

  /** Up to and including the next full row `y`, the kept rows are those kept before `p` and every row from `p` to `y`. */
  lemma KeptThrough(b: seq<seq<int>>, p: nat, y: int)
    requires p <= y < |b| && Full(b[y])
    requires forall z :: p <= z < y ==> !Full(b[z])
    ensures KeepNonFull(b[..y + 1]) == KeepNonFull(b[..p]) + b[p..y]
  {
    var mid := b[p..y];
    assert b[..y + 1] == b[..p] + mid + [b[y]];
    KeepNonFullOfNonFull(mid);
    KeepNonFullAppend(b[..p] + mid, [b[y]]);
    KeepNonFullAppend(b[..p], mid);
    assert KeepNonFull([b[y]]) == [];
  }

  /** Cutting `head + tail` at a position `y` inside `tail`. */
  lemma CutInTail<T>(head: seq<T>, tail: seq<T>, y: int)
    requires |head| <= y < |head| + |tail|
    ensures (head + tail)[..y] == head + tail[..y - |head|]
    ensures (head + tail)[y] == tail[y - |head|]
    ensures (head + tail)[y + 1..] == tail[y - |head| + 1..]
  {
  }

  /** Inserting `e` on top after deleting the element between `mid` and `rest`. */
  lemma Regroup<T>(e: T, empties: seq<T>, kept: seq<T>, mid: seq<T>, rest: seq<T>)
    ensures [e] + ((empties + kept + mid) + rest) == ([e] + empties) + (kept + mid) + rest
  {
  }

  /** Removing the next full row `y`: the rows between it and the last one removed are all kept. */
  lemma RemoveStep(b: seq<seq<int>>, nb: seq<seq<int>>, t: nat, p: nat, y: int)
    requires p <= y < |b| && RemovedSoFar(b, nb, t, p)
    requires Full(b[y]) && forall z :: p <= z < y ==> !Full(b[z])
    ensures y < |nb| && nb[y] == b[y]
    ensures RemovedSoFar(b, [EmptyRow()] + (nb[..y] + nb[y + 1..]), t + 1, y + 1)
  {
    KeptThrough(b, p, y);
    var head := EmptyRows(t) + KeepNonFull(b[..p]);
    var tail := b[p..];
    CutInTail(head, tail, y);
    assert tail[..y - p] == b[p..y] && tail[y - p] == b[y] && tail[y - p + 1..] == b[y + 1..];
    Regroup(EmptyRow(), EmptyRows(t), KeepNonFull(b[..p]), b[p..y], b[y + 1..]);
  }

  /** One pass of the second loop of `clear_lines`: delete the next full row and insert an empty row on top. */
  lemma ClearStep(b: seq<seq<int>>, full: seq<int>, nb: seq<seq<int>>, t: nat, p: nat)
    requires ClearInv(b, full, nb, t, p) && t < |full|
    ensures full[t] < |nb|
    ensures ClearInv(b, full, [EmptyRow()] + (nb[..full[t]] + nb[full[t] + 1..]), t + 1, full[t] + 1)
  {
    NoFullBetween(b, full, t, p);
    assert full[t] in full;
    RemoveStep(b, nb, t, p, full[t]);
  }

  /** The rows below the last full row are all kept. */
  lemma ClearDone(b: seq<seq<int>>, full: seq<int>, nb: seq<seq<int>>, p: nat)
    requires ClearInv(b, full, nb, |full|, p)
    ensures nb == Cleared(b) && FullCount(b) == |full|
  {
    NoFullBetween(b, full, |full|, p);
    var kept, rest := KeepNonFull(b[..p]), b[p..];
    KeepNonFullOfNonFull(rest);
    assert b == b[..p] + rest;
    KeepNonFullAppend(b[..p], rest);
    assert KeepNonFull(b) == kept + rest;
    assert nb == EmptyRows(|full|) + (kept + rest);
    assert |KeepNonFull(b)| == |b| - |full|;
  }

  /**
   * `clear_lines` on the board: the full rows are found top to bottom, then each is
   * deleted and an empty row inserted on top; `lines` is how many were removed.
   */
  method ClearLines(b: seq<seq<int>>) returns (nb: seq<seq<int>>, lines: nat)
    requires IsBoard(b)
    ensures nb == Cleared(b) && lines == FullCount(b) && IsBoard(nb)
  {
    var full := FindFullLines(b);
    nb := b;
    ghost var p: nat := 0;
    for t := 0 to |full|
      invariant ClearInv(b, full, nb, t, p)
    {
      var y := full[t];
      ClearStep(b, full, nb, t, p);
      nb := nb[..y] + nb[y + 1..];
      nb := [EmptyRow()] + nb;
      p := y + 1;
    }
    ClearDone(b, full, nb, p);
    ClearedSpec(b);
    lines := |full|;
  }

  /** The column `new_piece` places a piece of width `w` at: `BOARD_WIDTH // 2 - w // 2`. */
  function SpawnX(p: seq<seq<int>>): (x: int)
    requires IsRect(p)
  {
    Width / 2 - |p[0]| / 2
  }
}
