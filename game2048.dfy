/**
 * The 2048 engine (games/2048_game.py): a 4x4 grid of tiles, a row `merge` that
 * slides and combines equal neighbours once, moves in four directions, a random
 * tile spawn and the game-over test. The random choices are parameters.
 */
module Game2048 {

  /** A tile value the game can show: 0 (empty) or a power of two from 2 on. */
  predicate IsTile(v: int)
    decreases if v > 0 then v else 0
  {
    v == 0 || v == 2 || (v > 2 && v % 2 == 0 && IsTile(v / 2))
  }

  lemma DoubleTile(v: int)
    requires IsTile(v) && v != 0
    ensures IsTile(2 * v) && 2 * v != 0
  {
    assert (2 * v) / 2 == v;
  }

  function Sum(s: seq<int>): int
  {
    if s == [] then 0 else s[0] + Sum(s[1..])
  }

  lemma {:induction false} SumAppend(a: seq<int>, b: seq<int>)
    ensures Sum(a + b) == Sum(a) + Sum(b)
  {
    if a == [] {
      assert a + b == b;
    } else {
      assert (a + b)[1..] == a[1..] + b;
      SumAppend(a[1..], b);
    }
  }

  function Zeros(n: int): (z: seq<int>)
    ensures |z| == (if n > 0 then n else 0)
    ensures forall i :: 0 <= i < |z| ==> z[i] == 0
  {
    if n <= 0 then [] else [0] + Zeros(n - 1)
  }

  lemma {:induction false} SumZeros(n: int)
    ensures Sum(Zeros(n)) == 0
    decreases n
  {
    if n > 0 {
      assert Zeros(n)[1..] == Zeros(n - 1);
      SumZeros(n - 1);
    }
  }

  /** `[i for i in row if i != 0]`. */
  function NonZeros(row: seq<int>): (r: seq<int>)
    ensures |r| <= |row|
    ensures forall k :: 0 <= k < |r| ==> r[k] != 0
  {
    if row == [] then []
    else (if row[0] != 0 then [row[0]] else []) + NonZeros(row[1..])
  }

  lemma {:induction false} NonZerosSum(row: seq<int>)
    ensures Sum(NonZeros(row)) == Sum(row)
  {
    if row != [] {
      NonZerosSum(row[1..]);
      SumAppend(if row[0] != 0 then [row[0]] else [], NonZeros(row[1..]));
    }
  }

  lemma {:induction false} NonZerosOfNonZero(row: seq<int>)
    requires forall k :: 0 <= k < |row| ==> row[k] != 0
    ensures NonZeros(row) == row
  {
    if row != [] {
      NonZerosOfNonZero(row[1..]);
    }
  }

  lemma {:induction false} NonZerosAppend(a: seq<int>, b: seq<int>)
    ensures NonZeros(a + b) == NonZeros(a) + NonZeros(b)
  {
    if a == [] {
      assert a + b == b;
    } else {
      assert (a + b)[1..] == a[1..] + b;
      NonZerosAppend(a[1..], b);
    }
  }

  lemma {:induction false} NonZerosOfZeros(n: int)
    ensures NonZeros(Zeros(n)) == []
    decreases n
  {
    if n > 0 {
      assert Zeros(n)[1..] == Zeros(n - 1);
      NonZerosOfZeros(n - 1);
    }
  }

  lemma NonZerosTiles(row: seq<int>)
    requires forall k :: 0 <= k < |row| ==> IsTile(row[k])
    ensures forall k :: 0 <= k < |NonZeros(row)| ==> IsTile(NonZeros(row)[k])
  {
    if row != [] {
      assert forall k :: 0 <= k < |row[1..]| ==> IsTile(row[1..][k]);
      NonZerosTiles(row[1..]);
    }
  }

  /**
   * The combination `merge` performs on the non-zero tiles, read left to right: two
   * equal neighbours become one tile of twice the value, which takes no further part.
   */
  function Combine(xs: seq<int>): (r: seq<int>)
    ensures |r| <= |xs|
  {
    if |xs| >= 2 && xs[0] == xs[1] then [2 * xs[0]] + Combine(xs[2..])
    else if xs == [] then []
    else [xs[0]] + Combine(xs[1..])
  }

  /** The points the combination scores: the value of every tile it creates. */
  function CombineScore(xs: seq<int>): int
  {
    if |xs| >= 2 && xs[0] == xs[1] then 2 * xs[0] + CombineScore(xs[2..])
    else if xs == [] then 0
    else CombineScore(xs[1..])
  }

  /**
   * The combination keeps the sum of the tiles, makes no zero out of non-zero tiles,
   * keeps them tiles, and scores only if it combined something (then leaving fewer tiles).
   */
  lemma {:induction false} CombineSpec(xs: seq<int>)
    requires forall k :: 0 <= k < |xs| ==> xs[k] != 0 && IsTile(xs[k])
    ensures Sum(Combine(xs)) == Sum(xs)
    ensures forall k :: 0 <= k < |Combine(xs)| ==> Combine(xs)[k] != 0 && IsTile(Combine(xs)[k])
    ensures CombineScore(xs) != 0 ==> |Combine(xs)| < |xs|
    ensures CombineScore(xs) >= 0
  {
    CombineSum(xs);
    if |xs| >= 2 && xs[0] == xs[1] {
      assert forall k :: 0 <= k < |xs[2..]| ==> xs[2..][k] == xs[k + 2];
      CombineSpec(xs[2..]);
      DoubleTile(xs[0]);
    } else if xs != [] {
      assert forall k :: 0 <= k < |xs[1..]| ==> xs[1..][k] == xs[k + 1];
      CombineSpec(xs[1..]);
    }
  }

  /** The pairing keeps the sum of the tiles, whatever the tiles are. */
  lemma {:induction false} CombineSum(xs: seq<int>)
    ensures Sum(Combine(xs)) == Sum(xs)
  {
    if |xs| >= 2 && xs[0] == xs[1] {
      CombineSum(xs[2..]);
      SumAppend([2 * xs[0]], Combine(xs[2..]));
      assert Sum(xs) == xs[0] + (xs[1] + Sum(xs[2..]));
    } else if xs != [] {
      CombineSum(xs[1..]);
      SumAppend([xs[0]], Combine(xs[1..]));
    }
  }

  /** The pairing of non-zero values makes no zero. */
  lemma {:induction false} CombineNonZero(xs: seq<int>)
    requires forall k :: 0 <= k < |xs| ==> xs[k] != 0
    ensures forall k :: 0 <= k < |Combine(xs)| ==> Combine(xs)[k] != 0
  {
    if |xs| >= 2 && xs[0] == xs[1] {
      assert forall k :: 0 <= k < |xs[2..]| ==> xs[2..][k] == xs[k + 2];
      CombineNonZero(xs[2..]);
    } else if xs != [] {
      assert forall k :: 0 <= k < |xs[1..]| ==> xs[1..][k] == xs[k + 1];
      CombineNonZero(xs[1..]);
    }
  }

  /** Without two equal neighbours nothing combines. */
  lemma {:induction false} CombineNoPairs(xs: seq<int>)
    requires forall k :: 0 <= k < |xs| - 1 ==> xs[k] != xs[k + 1]
    ensures Combine(xs) == xs && CombineScore(xs) == 0
  {
    if xs != [] {
      assert forall k :: 0 <= k < |xs[1..]| - 1 ==> xs[1..][k] == xs[k + 1];
      CombineNoPairs(xs[1..]);
    }
  }

  /** The row `merge(row)` returns: the combined non-zero tiles, padded with zeros to the row's length. */
  function Merged(row: seq<int>): (r: seq<int>)
    ensures |r| == |row|
  {
    var c := Combine(NonZeros(row));
    c + Zeros(|row| - |c|)
  }

  /** The score `merge(row)` returns. */
  function MergeScore(row: seq<int>): int
  {
    CombineScore(NonZeros(row))
  }

  /**
   * `merge` keeps the row's length and tile sum, puts every non-zero tile before every
   * zero, never adds a tile, keeps tiles tiles, scores nothing negative, and scores only
   * when the row changes.
   */
  lemma MergedSpec(row: seq<int>)
    requires forall k :: 0 <= k < |row| ==> IsTile(row[k])
    ensures var r := Merged(row);
      && |r| == |row|
      && Sum(r) == Sum(row)
      && (forall i, j :: 0 <= i < j < |r| && r[i] == 0 ==> r[j] == 0)
      && |NonZeros(r)| <= |NonZeros(row)|
      && (forall k :: 0 <= k < |r| ==> IsTile(r[k]))
      && MergeScore(row) >= 0
      && (MergeScore(row) != 0 ==> |NonZeros(r)| < |NonZeros(row)| && r != row)
  {
    var nz := NonZeros(row);
    var c := Combine(nz);
    var r := Merged(row);
    NonZerosTiles(row);
    CombineSpec(nz);
    MergedSum(row);
    MergedNonZeros(row);
    assert r == c + Zeros(|row| - |c|);
    PaddedLayout(c, |row| - |c|);
    if MergeScore(row) != 0 {
      assert |NonZeros(r)| < |NonZeros(row)|;
    }
  }

  /** The merged row keeps the sum of the row. */
  lemma MergedSum(row: seq<int>)
    ensures Sum(Merged(row)) == Sum(row)
  {
    var nz := NonZeros(row);
    var c := Combine(nz);
    var z := Zeros(|row| - |c|);
    calc {
      Sum(Merged(row));
      Sum(c + z);
      { SumAppend(c, z); SumZeros(|row| - |c|); }
      Sum(c);
      { CombineSum(nz); }
      Sum(nz);
      { NonZerosSum(row); }
      Sum(row);
    }
  }

  /** The non-zero tiles of the merged row are the combined ones. */
  lemma MergedNonZeros(row: seq<int>)
    ensures NonZeros(Merged(row)) == Combine(NonZeros(row))
  {
    var nz := NonZeros(row);
    var c := Combine(nz);
    var z := Zeros(|row| - |c|);
    calc {
      NonZeros(Merged(row));
      NonZeros(c + z);
      { NonZerosAppend(c, z); }
      NonZeros(c) + NonZeros(z);
      { NonZerosOfZeros(|row| - |c|); }
      NonZeros(c) + [];
      { CombineNonZero(nz); NonZerosOfNonZero(c); }
      c;
    }
  }

  /** Non-zero tiles followed by zeros: every zero is followed only by zeros, and every cell is a tile. */
  lemma PaddedLayout(c: seq<int>, n: int)
    requires forall k :: 0 <= k < |c| ==> c[k] != 0 && IsTile(c[k])
    ensures var r := c + Zeros(n);
      && (forall i, j :: 0 <= i < j < |r| && r[i] == 0 ==> r[j] == 0)
      && (forall k :: 0 <= k < |r| ==> IsTile(r[k]))
  {
    var r := c + Zeros(n);
    forall i, j | 0 <= i < j < |r| && r[i] == 0 ensures r[j] == 0 {
      assert i >= |c|;
    }
    forall k | 0 <= k < |r| ensures IsTile(r[k]) {
      if k >= |c| {
        assert r[k] == 0;
      }
    }
  }

  /** A row without zeros and without two equal neighbours does not change. */
  lemma MergedStuck(row: seq<int>)
    requires forall k :: 0 <= k < |row| ==> row[k] != 0
    requires forall k :: 0 <= k < |row| - 1 ==> row[k] != row[k + 1]
    ensures Merged(row) == row && MergeScore(row) == 0
  {
    NonZerosOfNonZero(row);
    CombineNoPairs(row);
  }

  /** A combined tile is not combined again: [2, 2, 2, 2] becomes [4, 4, 0, 0], scoring 8. */
  lemma MergeExample()
    ensures Merged([2, 2, 2, 2]) == [4, 4, 0, 0]
    ensures MergeScore([2, 2, 2, 2]) == 8
  {
    NonZerosOfNonZero([2, 2, 2, 2]);
    assert [2, 2, 2, 2][2..] == [2, 2];
    assert Combine([2, 2]) == [4] + Combine([]);
    assert Combine([2, 2, 2, 2]) == [4, 4];
    assert CombineScore([2, 2]) == 4;
    assert Zeros(2) == [0] + Zeros(1) == [0, 0];
  }

  /** One pass step on a pair of equal tiles: the first doubles, the second is popped and a zero appended. */
  lemma MergePairStep(row: seq<int>, out: seq<int>, rest: seq<int>, z: int, i: int)
    requires row == out + rest + Zeros(z) && |out| == i && |rest| >= 2 && z >= 0
    ensures var doubled := row[i := row[i] * 2];
      doubled[..i + 1] + doubled[i + 2..] + [0] == (out + [2 * rest[0]]) + rest[2..] + Zeros(z + 1)
  {
    var doubled := row[i := row[i] * 2];
    var next := doubled[..i + 1] + doubled[i + 2..] + [0];
    var want := (out + [2 * rest[0]]) + rest[2..] + Zeros(z + 1);
    assert |next| == |want|;
    forall k | 0 <= k < |next| ensures next[k] == want[k] {
      if k < i {
        assert next[k] == row[k] == out[k];
      } else if k == i {
        assert next[k] == 2 * rest[0];
      } else if k < |out| + |rest| - 1 {
        assert next[k] == row[k + 1] == rest[k + 1 - i];
      } else {
        assert next[k] == 0;
      }
    }
  }

  /** One pass step past the last tile: two zeros "combine" and the row stays as it is. */
  lemma MergeZerosStep(row: seq<int>, out: seq<int>, z: int, i: int)
    requires row == out + Zeros(z) && |out| <= i && i + 1 < |row|
    ensures row[i] == 0 && row[i + 1] == 0
    ensures var doubled := row[i := row[i] * 2];
      doubled[..i + 1] + doubled[i + 2..] + [0] == row
  {
    var doubled := row[i := row[i] * 2];
    var next := doubled[..i + 1] + doubled[i + 2..] + [0];
    assert |next| == |row|;
    forall k | 0 <= k < |next| ensures next[k] == row[k] {
      if k < i {
        assert next[k] == row[k];
      } else if k == i {
        assert next[k] == 0;
      } else if k < |row| - 1 {
        assert next[k] == row[k + 1] == 0;
      } else {
        assert next[k] == 0;
      }
    }
  }

  /**
   * The state of `merge`'s pass before place `i` of the `n` places: `out` are the tiles
   * settled so far, `rest` the non-zero tiles still to combine, the row holds both
   * followed by zeros, and `score` holds the points of the settled tiles.
   */
  predicate PassInv(row: seq<int>, nz: seq<int>, out: seq<int>, rest: seq<int>, score: int, i: int, n: int)
  {
    && 0 <= i && (i <= n - 1 || n == 0)
    && |row| == n && |nz| == n
    && |out| <= i && |out| + |rest| <= n
    && (rest != [] ==> |out| == i)
    && row == out + rest + Zeros(n - |out| - |rest|)
    && Combine(nz) == out + Combine(rest)
    && score + CombineScore(rest) == CombineScore(nz)
    && (forall k :: 0 <= k < |rest| ==> rest[k] != 0)
    && (forall k :: 0 <= k < |out| ==> out[k] != 0)
  }

  /** The pass step on two equal places. */
  lemma PassPairStep(row: seq<int>, nz: seq<int>, out: seq<int>, rest: seq<int>, score: int, i: int, n: int)
    requires PassInv(row, nz, out, rest, score, i, n) && i < n - 1 && row[i] == row[i + 1]
    ensures var doubled := row[i := row[i] * 2];
      PassInv(doubled[..i + 1] + doubled[i + 2..] + [0], nz,
        if rest != [] then out + [2 * rest[0]] else out,
        if rest != [] then rest[2..] else rest,
        score + doubled[i], i + 1, n)
  {
    var z := n - |out| - |rest|;
    if rest == [] {
      MergeZerosStep(row, out, z, i);
    } else {
      assert row[i] == rest[0];
      assert row[i + 1] == if |rest| >= 2 then rest[1] else 0;
      MergePairStep(row, out, rest, z, i);
    }
  }

  /** The pass step on two different places. */
  lemma PassKeepStep(row: seq<int>, nz: seq<int>, out: seq<int>, rest: seq<int>, score: int, i: int, n: int)
    requires PassInv(row, nz, out, rest, score, i, n) && i < n - 1 && row[i] != row[i + 1]
    ensures rest != [] && PassInv(row, nz, out + [rest[0]], rest[1..], score, i + 1, n)
  {
    var z := n - |out| - |rest|;
    if rest == [] {
      MergeZerosStep(row, out, z, i);
    } else {
      assert row[i] == rest[0];
      assert row[i + 1] == if |rest| >= 2 then rest[1] else 0;
      assert out + rest == (out + [rest[0]]) + rest[1..];
    }
  }

  /** After the pass the row holds the combined tiles followed by zeros. */
  lemma PassFinish(row: seq<int>, nz: seq<int>, out: seq<int>, rest: seq<int>, score: int, i: int, n: int)
    requires PassInv(row, nz, out, rest, score, i, n) && i >= n - 1
    ensures NonZeros(row) == Combine(nz) && score == CombineScore(nz)
  {
    var z := n - |out| - |rest|;
    assert |rest| <= 1;
    if rest != [] {
      assert rest[1..] == [];
      assert Combine(rest) == [rest[0]] + Combine([]);
    }
    assert Combine(rest) == rest && CombineScore(rest) == 0;
    var settled := out + rest;
    assert forall k :: 0 <= k < |settled| ==> settled[k] != 0;
    NonZerosOfNonZero(settled);
    NonZerosOfZeros(z);
    NonZerosAppend(settled, Zeros(z));
  }

  /**
   * `merge(row)`: the non-zero tiles are collected, then one pass compares each place
   * with the next, doubling the first of an equal pair, popping the second and
   * appending a zero; finally the zeros are moved to the end again.
   */
  method Merge(row: seq<int>) returns (newRow: seq<int>, score: int)
    ensures newRow == Merged(row) && score == MergeScore(row)
  {
    newRow := NonZeros(row);
    score := 0;
    ghost var nz := newRow;
    ghost var out: seq<int> := [];
    ghost var rest := nz;
    var n := |newRow|;
    assert newRow == out + rest + Zeros(0);
    var i := 0;
    while i < n - 1
      invariant PassInv(newRow, nz, out, rest, score, i, n)
    {
      if newRow[i] == newRow[i + 1] {
        PassPairStep(newRow, nz, out, rest, score, i, n);
        newRow := newRow[i := newRow[i] * 2];
        score := score + newRow[i];
        newRow := newRow[..i + 1] + newRow[i + 2..];
        newRow := newRow + [0];
        if rest != [] {
          out := out + [2 * rest[0]];
          rest := rest[2..];
        }
      } else {
        PassKeepStep(newRow, nz, out, rest, score, i, n);
        out := out + [rest[0]];
        rest := rest[1..];
      }
      i := i + 1;
    }
    PassFinish(newRow, nz, out, rest, score, i, n);
    newRow := NonZeros(newRow);
    newRow := newRow + Zeros(|row| - |newRow|);
  }

  /** `row[::-1]`. */
  function Reverse(s: seq<int>): (r: seq<int>)
    ensures |r| == |s| && forall k :: 0 <= k < |s| ==> r[k] == s[|s| - 1 - k]
  {
    seq(|s|, k requires 0 <= k < |s| => s[|s| - 1 - k])
  }

  /** The board is always `game_size` = 4 by 4. */
  predicate IsGrid(g: seq<seq<int>>)
  {
    |g| == 4 && forall i :: 0 <= i < 4 ==> |g[i]| == 4
  }

  predicate AllTiles(g: seq<seq<int>>)
    requires IsGrid(g)
  {
    forall i, j :: 0 <= i < 4 && 0 <= j < 4 ==> IsTile(g[i][j])
  }

  function EmptyGrid(): (g: seq<seq<int>>)
    ensures IsGrid(g) && forall i, j :: 0 <= i < 4 && 0 <= j < 4 ==> g[i][j] == 0
  {
    seq(4, i => [0, 0, 0, 0])
  }

  /** `[grid[i][j] for i in range(4)]`. */
  function Column(g: seq<seq<int>>, j: int): (c: seq<int>)
    requires IsGrid(g) && 0 <= j < 4
    ensures |c| == 4 && forall i :: 0 <= i < 4 ==> c[i] == g[i][j]
  {
    [g[0][j], g[1][j], g[2][j], g[3][j]]
  }

  datatype Direction = Left | Right | Up | Down

  /** The `k`-th line `move(direction)` hands to `merge`, read in the direction of the move. */
  function Line(g: seq<seq<int>>, d: Direction, k: int): (l: seq<int>)
    requires IsGrid(g) && 0 <= k < 4
    ensures |l| == 4
  {
    match d
    case Left => g[k]
    case Right => Reverse(g[k])
    case Up => Column(g, k)
    case Down => Reverse(Column(g, k))
  }

  /** The four lines of `move(direction)`, each merged. */
  function MergedLines(g: seq<seq<int>>, d: Direction): (ms: seq<seq<int>>)
    requires IsGrid(g)
    ensures IsGrid(ms)
  {
    MergedLinesFrom(g, d, 0)
  }

  function MergedLinesFrom(g: seq<seq<int>>, d: Direction, k: int): (ms: seq<seq<int>>)
    requires IsGrid(g) && 0 <= k <= 4
    ensures |ms| == 4 - k && forall n :: 0 <= n < |ms| ==> ms[n] == Merged(Line(g, d, k + n)) && |ms[n]| == 4
    decreases 4 - k
  {
    if k == 4 then [] else [Merged(Line(g, d, k))] + MergedLinesFrom(g, d, k + 1)
  }

  /** Line `k` of the merged lines is line `k` of the grid, merged. */
  lemma MergedLinesAt(g: seq<seq<int>>, d: Direction, k: int)
    requires IsGrid(g) && 0 <= k < 4
    ensures MergedLines(g, d)[k] == Merged(Line(g, d, k))
  {
  }

  /** The value cell (i, j) takes from the merged lines `ms` of a move in direction `d`. */
  function Placed(ms: seq<seq<int>>, d: Direction, i: int, j: int): int
    requires IsGrid(ms) && 0 <= i < 4 && 0 <= j < 4
  {
    match d
    case Left => ms[i][j]
    case Right => ms[i][3 - j]
    case Up => ms[j][i]
    case Down => ms[j][3 - i]
  }

  function PlacedRow(ms: seq<seq<int>>, d: Direction, i: int): (r: seq<int>)
    requires IsGrid(ms) && 0 <= i < 4
    ensures |r| == 4 && forall j :: 0 <= j < 4 ==> r[j] == Placed(ms, d, i, j)
  {
    [Placed(ms, d, i, 0), Placed(ms, d, i, 1), Placed(ms, d, i, 2), Placed(ms, d, i, 3)]
  }

  /** The grid the merged lines `ms` make when written back in direction `d`. */
  function Arrange(ms: seq<seq<int>>, d: Direction): (r: seq<seq<int>>)
    requires IsGrid(ms)
    ensures IsGrid(r) && forall i :: 0 <= i < 4 ==> r[i] == PlacedRow(ms, d, i)
  {
    [PlacedRow(ms, d, 0), PlacedRow(ms, d, 1), PlacedRow(ms, d, 2), PlacedRow(ms, d, 3)]
  }

  /** The grid after the merges of `move(direction)`, before a tile is added. */
  function Slid(g: seq<seq<int>>, d: Direction): (r: seq<seq<int>>)
    requires IsGrid(g)
    ensures IsGrid(r)
  {
    SlidFrom(g, d, 0)
  }

  function SlidFrom(g: seq<seq<int>>, d: Direction, i: int): (r: seq<seq<int>>)
    requires IsGrid(g) && 0 <= i <= 4
    ensures |r| == 4 - i && forall n :: 0 <= n < |r| ==> r[n] == PlacedRow(MergedLines(g, d), d, i + n)
    decreases 4 - i
  {
    if i == 4 then [] else [PlacedRow(MergedLines(g, d), d, i)] + SlidFrom(g, d, i + 1)
  }

  /** The moved grid is the merged lines written back in the direction of the move. */
  lemma SlidIsArrange(g: seq<seq<int>>, d: Direction)
    requires IsGrid(g)
    ensures Slid(g, d) == Arrange(MergedLines(g, d), d)
  {
    forall i | 0 <= i < 4 ensures Slid(g, d)[i] == Arrange(MergedLines(g, d), d)[i] {
    }
  }

  /** The points the merges of the first `n` lines score. */
  function ScoreUpTo(g: seq<seq<int>>, d: Direction, n: int): int
    requires IsGrid(g) && 0 <= n <= 4
  {
    if n == 0 then 0 else ScoreUpTo(g, d, n - 1) + MergeScore(Line(g, d, n - 1))
  }

  /** The points `move(direction)` adds to the score. */
  function SlideScore(g: seq<seq<int>>, d: Direction): int
    requires IsGrid(g)
  {
    ScoreUpTo(g, d, 4)
  }

  lemma Sum4(s: seq<int>)
    requires |s| == 4
    ensures Sum(s) == s[0] + s[1] + s[2] + s[3]
  {
    var a, b, c := s[1..], s[2..], s[3..];
    assert a[1..] == b && b[1..] == c && c[1..] == [];
    assert a[0] == s[1] && b[0] == s[2] && c[0] == s[3];
    assert Sum(c) == s[3];
    assert Sum(b) == s[2] + Sum(c);
    assert Sum(a) == s[1] + Sum(b);
  }

  function GridSum(g: seq<seq<int>>): int
    requires IsGrid(g)
  {
    Sum(g[0]) + Sum(g[1]) + Sum(g[2]) + Sum(g[3])
  }

  lemma LineTiles(g: seq<seq<int>>, d: Direction, k: int)
    requires IsGrid(g) && AllTiles(g) && 0 <= k < 4
    ensures forall m :: 0 <= m < 4 ==> IsTile(Line(g, d, k)[m])
  {
  }

  /** The lines of a grid of tiles merge like rows. */
  lemma LineMerges(g: seq<seq<int>>, d: Direction, k: int)
    requires IsGrid(g) && AllTiles(g) && 0 <= k < 4
    ensures var l := Line(g, d, k);
      var r := Merged(l);
      Sum(r) == Sum(l) && (forall m :: 0 <= m < 4 ==> IsTile(r[m]))
      && MergeScore(l) >= 0 && (MergeScore(l) != 0 ==> r != l)
  {
    LineTiles(g, d, k);
    MergedSpec(Line(g, d, k));
  }

  lemma SlidCellTile(g: seq<seq<int>>, d: Direction, i: int, j: int)
    requires IsGrid(g) && AllTiles(g) && 0 <= i < 4 && 0 <= j < 4
    ensures IsTile(Slid(g, d)[i][j])
  {
    SlidIsArrange(g, d);
    assert Slid(g, d)[i][j] == Placed(MergedLines(g, d), d, i, j);
    if d == Left || d == Right {
      LineMerges(g, d, i);
      MergedLinesAt(g, d, i);
    } else {
      LineMerges(g, d, j);
      MergedLinesAt(g, d, j);
    }
  }

  lemma SlidTiles(g: seq<seq<int>>, d: Direction)
    requires IsGrid(g) && AllTiles(g)
    ensures AllTiles(Slid(g, d))
  {
    forall i, j | 0 <= i < 4 && 0 <= j < 4 ensures IsTile(Slid(g, d)[i][j]) {
      SlidCellTile(g, d, i, j);
    }
  }

  /** The grid sum is the sum of the four lines of any direction. */
  lemma GridSumByLines(g: seq<seq<int>>, d: Direction)
    requires IsGrid(g)
    ensures GridSum(g) == Sum(Line(g, d, 0)) + Sum(Line(g, d, 1)) + Sum(Line(g, d, 2)) + Sum(Line(g, d, 3))
  {
    Sum4(Line(g, d, 0)); Sum4(Line(g, d, 1)); Sum4(Line(g, d, 2)); Sum4(Line(g, d, 3));
    Sum4(g[0]); Sum4(g[1]); Sum4(g[2]); Sum4(g[3]);
  }

  /** The sum of the grid after a move is the sum of the four merged lines. */
  lemma SlidSumByLines(g: seq<seq<int>>, d: Direction)
    requires IsGrid(g)
    ensures GridSum(Slid(g, d)) ==
      Sum(Merged(Line(g, d, 0))) + Sum(Merged(Line(g, d, 1))) + Sum(Merged(Line(g, d, 2))) + Sum(Merged(Line(g, d, 3)))
  {
    SlidIsArrange(g, d);
    var r := Slid(g, d);
    var m0, m1, m2, m3 := Merged(Line(g, d, 0)), Merged(Line(g, d, 1)), Merged(Line(g, d, 2)), Merged(Line(g, d, 3));
    Sum4(m0); Sum4(m1); Sum4(m2); Sum4(m3);
    MergedLinesAt(g, d, 0); MergedLinesAt(g, d, 1); MergedLinesAt(g, d, 2); MergedLinesAt(g, d, 3);
    Sum4(r[0]); Sum4(r[1]); Sum4(r[2]); Sum4(r[3]);
  }

  /** The first `n` lines score nothing negative, and nothing at all when none of them changes. */
  lemma {:induction false} ScoreUpToSpec(g: seq<seq<int>>, d: Direction, n: int)
    requires IsGrid(g) && AllTiles(g) && 0 <= n <= 4
    ensures ScoreUpTo(g, d, n) >= 0
    ensures (forall k :: 0 <= k < n ==> Merged(Line(g, d, k)) == Line(g, d, k)) ==> ScoreUpTo(g, d, n) == 0
  {
    if n > 0 {
      ScoreUpToSpec(g, d, n - 1);
      LineMerges(g, d, n - 1);
    }
  }

  /**
   * A move keeps the board 4x4, keeps every cell a tile, keeps the sum of the tiles,
   * never lowers the score, and scores nothing when the grid does not change.
   */
  lemma SlideSpec(g: seq<seq<int>>, d: Direction)
    requires IsGrid(g) && AllTiles(g)
    ensures AllTiles(Slid(g, d))
    ensures GridSum(Slid(g, d)) == GridSum(g)
    ensures SlideScore(g, d) >= 0
    ensures Slid(g, d) == g ==> SlideScore(g, d) == 0
  {
    SlidTiles(g, d);
    SlideKeepsSum(g, d);
    ScoreUpToSpec(g, d, 4);
    if Slid(g, d) == g {
      SlideStillScore(g, d);
    }
  }

  /** A move keeps the sum of the tiles. */
  lemma SlideKeepsSum(g: seq<seq<int>>, d: Direction)
    requires IsGrid(g) && AllTiles(g)
    ensures GridSum(Slid(g, d)) == GridSum(g)
  {
    GridSumByLines(g, d);
    SlidSumByLines(g, d);
    LineMerges(g, d, 0); LineMerges(g, d, 1); LineMerges(g, d, 2); LineMerges(g, d, 3);
  }

  /** A move that leaves the grid as it was scores nothing. */
  lemma SlideStillScore(g: seq<seq<int>>, d: Direction)
    requires IsGrid(g) && AllTiles(g) && Slid(g, d) == g
    ensures SlideScore(g, d) == 0
  {
    forall k | 0 <= k < 4 ensures Merged(Line(g, d, k)) == Line(g, d, k) {
      LineUnchanged(g, d, k);
    }
    ScoreUpToSpec(g, d, 4);
  }

  /** When a move leaves the grid as it was, every line merged into itself. */
  lemma LineUnchanged(g: seq<seq<int>>, d: Direction, k: int)
    requires IsGrid(g) && 0 <= k < 4 && Slid(g, d) == g
    ensures Merged(Line(g, d, k)) == Line(g, d, k)
  {
    MergedLinesAt(g, d, k);
    SlidIsArrange(g, d);
    LineOfArranged(g, MergedLines(g, d), d, k);
  }

  /** Reading back line `k` of the grid that merged lines `ms` make gives `ms[k]`. */
  lemma LineOfArranged(s: seq<seq<int>>, ms: seq<seq<int>>, d: Direction, k: int)
    requires IsGrid(s) && IsGrid(ms) && 0 <= k < 4 && s == Arrange(ms, d)
    ensures Line(s, d, k) == ms[k]
  {
    forall n | 0 <= n < 4 ensures Line(s, d, k)[n] == ms[k][n] {
      match d
      case Left => assert s[k][n] == Placed(ms, d, k, n);
      case Right => assert s[k][3 - n] == Placed(ms, d, k, 3 - n);
      case Up => assert s[n][k] == Placed(ms, d, n, k);
      case Down => assert s[3 - n][k] == Placed(ms, d, 3 - n, k);
    }
  }

  /**
   * The game is over when no cell is empty and no two neighbours, across or down,
   * are equal.
   */
  predicate GameOver(g: seq<seq<int>>)
    requires IsGrid(g)
  {
    && (forall i, j :: 0 <= i < 4 && 0 <= j < 4 ==> g[i][j] != 0)
    && (forall i, j :: 0 <= i < 4 && 0 <= j < 3 ==> DiffersRight(g, i, j))
    && (forall i, j :: 0 <= i < 3 && 0 <= j < 4 ==> DiffersBelow(g, i, j))
  }

  predicate DiffersRight(g: seq<seq<int>>, i: int, j: int)
    requires IsGrid(g) && 0 <= i < 4 && 0 <= j < 3
  {
    g[i][j] != g[i][j + 1]
  }

  predicate DiffersBelow(g: seq<seq<int>>, i: int, j: int)
    requires IsGrid(g) && 0 <= i < 3 && 0 <= j < 4
  {
    g[i][j] != g[i + 1][j]
  }

  /** When the game is over every line is full and has no two equal neighbours. */
  lemma GameOverLine(g: seq<seq<int>>, d: Direction, k: int)
    requires IsGrid(g) && GameOver(g) && 0 <= k < 4
    ensures forall m :: 0 <= m < 4 ==> Line(g, d, k)[m] != 0
    ensures forall m :: 0 <= m < 3 ==> Line(g, d, k)[m] != Line(g, d, k)[m + 1]
  {
    var l := Line(g, d, k);
    forall m | 0 <= m < 3 ensures l[m] != l[m + 1] {
      match d
      case Left => assert DiffersRight(g, k, m);
      case Right => assert DiffersRight(g, k, 2 - m);
      case Up => assert DiffersBelow(g, m, k);
      case Down => assert DiffersBelow(g, 2 - m, k);
    }
  }

  /** When the game is over no direction moves anything or scores. */
  lemma GameOverStuck(g: seq<seq<int>>, d: Direction)
    requires IsGrid(g) && GameOver(g)
    ensures Slid(g, d) == g && SlideScore(g, d) == 0
  {
    forall k | 0 <= k < 4 ensures Merged(Line(g, d, k)) == Line(g, d, k) && MergeScore(Line(g, d, k)) == 0 {
      GameOverLine(g, d, k);
      MergedStuck(Line(g, d, k));
    }
    SlidIsArrange(g, d);
    var r := Slid(g, d);
    forall i | 0 <= i < 4 ensures r[i] == g[i] {
      forall j | 0 <= j < 4 ensures r[i][j] == g[i][j] {
        MergedLinesAt(g, d, i);
        MergedLinesAt(g, d, j);
        assert r[i][j] == Placed(MergedLines(g, d), d, i, j);
      }
    }
    assert ScoreUpTo(g, d, 1) == 0;
    assert ScoreUpTo(g, d, 2) == 0;
    assert ScoreUpTo(g, d, 3) == 0;
  }

  /** The empty cells from row-major position `k` on, in row-major order. */
  function EmptyFrom(g: seq<seq<int>>, k: int): seq<(int, int)>
    requires IsGrid(g) && 0 <= k <= 16
    decreases 16 - k
  {
    if k == 16 then []
    else (if g[k / 4][k % 4] == 0 then [(k / 4, k % 4)] else []) + EmptyFrom(g, k + 1)
  }

  /** The empty cells from position `k` on are exactly the cells at or after `k` that hold 0. */
  lemma {:induction false} EmptyFromSpec(g: seq<seq<int>>, k: int)
    requires IsGrid(g) && 0 <= k <= 16
    ensures forall p :: p in EmptyFrom(g, k) ==> 0 <= p.0 < 4 && 0 <= p.1 < 4 && p.0 * 4 + p.1 >= k && g[p.0][p.1] == 0
    ensures forall i, j :: 0 <= i < 4 && 0 <= j < 4 && i * 4 + j >= k && g[i][j] == 0 ==> (i, j) in EmptyFrom(g, k)
    decreases 16 - k
  {
    if k < 16 {
      EmptyFromSpec(g, k + 1);
      var head := if g[k / 4][k % 4] == 0 then [(k / 4, k % 4)] else [];
      assert EmptyFrom(g, k) == head + EmptyFrom(g, k + 1);
      forall i, j | 0 <= i < 4 && 0 <= j < 4 && i * 4 + j >= k && g[i][j] == 0
        ensures (i, j) in EmptyFrom(g, k)
      {
        if i * 4 + j == k {
          assert i == k / 4 && j == k % 4;
          assert (i, j) in head;
        }
      }
    }
  }

  /** The row-major position of a cell. */
  function CellIndex(p: (int, int)): int
  {
    p.0 * 4 + p.1
  }

  /** Cells in strictly increasing row-major order. */
  predicate SortedCells(r: seq<(int, int)>)
  {
    forall a, b :: 0 <= a < b < |r| ==> CellIndex(r[a]) < CellIndex(r[b])
  }

  /** A cell at position `k`, or nothing, put before sorted cells all past `k` keeps them sorted. */
  lemma ConsSorted(head: seq<(int, int)>, rest: seq<(int, int)>, k: int)
    requires SortedCells(rest) && forall p :: p in rest ==> CellIndex(p) > k
    requires head == [] || (|head| == 1 && CellIndex(head[0]) == k)
    ensures SortedCells(head + rest)
  {
    var r := head + rest;
    forall a, b | 0 <= a < b < |r| ensures CellIndex(r[a]) < CellIndex(r[b]) {
      if head != [] {
        assert r[b] == rest[b - 1] && rest[b - 1] in rest;
        if a > 0 {
          assert r[a] == rest[a - 1];
        }
      } else {
        assert r[a] == rest[a] && r[b] == rest[b];
      }
    }
  }

  /** The cells listed from position `k` on come in strictly increasing row-major order. */
  lemma {:induction false} EmptyFromOrdered(g: seq<seq<int>>, k: int)
    requires IsGrid(g) && 0 <= k <= 16
    ensures SortedCells(EmptyFrom(g, k))
    decreases 16 - k
  {
    if k < 16 {
      EmptyFromOrdered(g, k + 1);
      EmptyFromSpec(g, k + 1);
      var head := if g[k / 4][k % 4] == 0 then [(k / 4, k % 4)] else [];
      assert head == [] || CellIndex(head[0]) == k;
      ConsSorted(head, EmptyFrom(g, k + 1), k);
      assert EmptyFrom(g, k) == head + EmptyFrom(g, k + 1);
    }
  }

  /** `empty_cells` of `add_new_tile`: every cell holding 0, and nothing else, in row-major order. */
  function EmptyCells(g: seq<seq<int>>): (r: seq<(int, int)>)
    requires IsGrid(g)
    ensures forall p :: p in r ==> 0 <= p.0 < 4 && 0 <= p.1 < 4 && g[p.0][p.1] == 0
    ensures forall i, j :: 0 <= i < 4 && 0 <= j < 4 && g[i][j] == 0 ==> (i, j) in r
    ensures SortedCells(r)
  {
    EmptyFromSpec(g, 0);
    EmptyFromOrdered(g, 0);
    EmptyFrom(g, 0)
  }

  /** Setting the empty cell (i, j) to a tile removes exactly that cell from the empty cells. */
  lemma {:induction false} EmptyFromAfterSet(g: seq<seq<int>>, i: int, j: int, v: int, k: int)
    requires IsGrid(g) && 0 <= i < 4 && 0 <= j < 4 && g[i][j] == 0 && v != 0 && 0 <= k <= 16
    ensures |EmptyFrom(g[i := g[i][j := v]], k)| == |EmptyFrom(g, k)| - (if i * 4 + j >= k then 1 else 0)
    decreases 16 - k
  {
    if k < 16 {
      EmptyFromAfterSet(g, i, j, v, k + 1);
      SetCellAt(g, i, j, v, k);
    }
  }

  /** After setting cell (i, j), the cell at row-major position `k` holds `v` when it is (i, j), and what it held otherwise. */
  lemma SetCellAt(g: seq<seq<int>>, i: int, j: int, v: int, k: int)
    requires IsGrid(g) && 0 <= i < 4 && 0 <= j < 4 && 0 <= k < 16
    ensures IsGrid(g[i := g[i][j := v]])
    ensures g[i := g[i][j := v]][k / 4][k % 4] == if i * 4 + j == k then v else g[k / 4][k % 4]
  {
    if i * 4 + j == k {
      assert k / 4 == i && k % 4 == j;
    } else {
      assert k / 4 != i || k % 4 != j;
    }
  }

  lemma {:induction false} EmptyFromEmpty(k: int)
    requires 0 <= k <= 16
    ensures |EmptyFrom(EmptyGrid(), k)| == 16 - k
    decreases 16 - k
  {
    if k < 16 {
      EmptyFromEmpty(k + 1);
    }
  }

  /**
   * The effect of `add_new_tile` with `pick` the index `random.choice` takes among the
   * empty cells and `roll` the value of `random.random()`.
   */
  function Spawn(g: seq<seq<int>>, pick: int, roll: real): (r: seq<seq<int>>)
    requires IsGrid(g) && (EmptyCells(g) != [] ==> 0 <= pick < |EmptyCells(g)|)
    ensures IsGrid(r)
  {
    var empty := EmptyCells(g);
    if empty == [] then g
    else
      var (i, j) := empty[pick];
      g[i := g[i][j := if roll < 0.9 then 2 else 4]]
  }

  /** `r` is `g` with the empty cell (i, j) set to `v`, and nothing else changed. */
  predicate SetsOnly(g: seq<seq<int>>, r: seq<seq<int>>, i: int, j: int, v: int)
    requires IsGrid(g) && IsGrid(r)
  {
    && 0 <= i < 4 && 0 <= j < 4 && g[i][j] == 0 && r[i][j] == v
    && forall a, b :: 0 <= a < 4 && 0 <= b < 4 && (a != i || b != j) ==> r[a][b] == g[a][b]
  }

  /** Setting the empty cell (i, j) to a tile `v` changes that cell only and keeps the grid one of tiles. */
  lemma SetCell(g: seq<seq<int>>, i: int, j: int, v: int)
    requires IsGrid(g) && 0 <= i < 4 && 0 <= j < 4 && g[i][j] == 0 && (v == 2 || v == 4)
    ensures var r := g[i := g[i][j := v]];
      && IsGrid(r) && SetsOnly(g, r, i, j, v)
      && (AllTiles(g) ==> AllTiles(r))
  {
    assert IsTile(v);
  }

  /** Setting the empty cell (i, j) to `v` adds `v` to the tile sum. */
  lemma SetCellSum(g: seq<seq<int>>, i: int, j: int, v: int)
    requires IsGrid(g) && 0 <= i < 4 && 0 <= j < 4 && g[i][j] == 0
    ensures GridSum(g[i := g[i][j := v]]) == GridSum(g) + v
  {
    var r := g[i := g[i][j := v]];
    SumSet(g[i], j, v);
    assert Sum(r[i]) == Sum(g[i]) + v;
    assert forall k :: 0 <= k < 4 && k != i ==> r[k] == g[k];
  }

  lemma SumSet(row: seq<int>, j: int, v: int)
    requires |row| == 4 && 0 <= j < 4
    ensures Sum(row[j := v]) == Sum(row) - row[j] + v
  {
    Sum4(row);
    Sum4(row[j := v]);
  }

  /** On a non-full grid the spawn leaves one empty cell fewer and adds the new tile to the tile sum. */
  lemma SpawnCounts(g: seq<seq<int>>, pick: int, roll: real)
    requires IsGrid(g) && EmptyCells(g) != [] && 0 <= pick < |EmptyCells(g)|
    ensures var r := Spawn(g, pick, roll);
      && |EmptyCells(r)| == |EmptyCells(g)| - 1
      && GridSum(r) == GridSum(g) + (if roll < 0.9 then 2 else 4)
      && (AllTiles(g) ==> AllTiles(r))
  {
    var p := EmptyCells(g)[pick];
    assert p in EmptyCells(g);
    var v := if roll < 0.9 then 2 else 4;
    SetCell(g, p.0, p.1, v);
    SetCellSum(g, p.0, p.1, v);
    EmptyFromAfterSet(g, p.0, p.1, v, 0);
  }

  /**
   * On a full grid the spawn changes nothing; otherwise one empty cell gets a 2 (when
   * the roll is below 0.9) or a 4, every other cell keeps its value, one empty cell
   * fewer remains, and the tile sum grows by the new tile.
   */
  lemma SpawnSpec(g: seq<seq<int>>, pick: int, roll: real)
    requires IsGrid(g) && (EmptyCells(g) != [] ==> 0 <= pick < |EmptyCells(g)|)
    ensures var r := Spawn(g, pick, roll);
      && (EmptyCells(g) == [] ==> r == g && forall i, j :: 0 <= i < 4 && 0 <= j < 4 ==> g[i][j] != 0)
      && (EmptyCells(g) != [] ==>
        && |EmptyCells(r)| == |EmptyCells(g)| - 1
        && GridSum(r) == GridSum(g) + (if roll < 0.9 then 2 else 4)
        && var v := if roll < 0.9 then 2 else 4;
          exists i, j :: SetsOnly(g, r, i, j, v))
    ensures AllTiles(g) ==> AllTiles(Spawn(g, pick, roll))
  {
    var empty := EmptyCells(g);
    if empty != [] {
      var p := empty[pick];
      assert p in empty;
      var v := if roll < 0.9 then 2 else 4;
      SetCell(g, p.0, p.1, v);
      SpawnCounts(g, pick, roll);
    }
  }

  /** The empty grid: sixteen empty cells, tile sum 0. */
  lemma EmptyGridSpec()
    ensures IsGrid(EmptyGrid()) && AllTiles(EmptyGrid())
    ensures |EmptyCells(EmptyGrid())| == 16 && GridSum(EmptyGrid()) == 0
  {
    EmptyFromEmpty(0);
    EmptyGridSum();
  }

  lemma EmptyGridSum()
    ensures GridSum(EmptyGrid()) == 0
  {
    var e := EmptyGrid();
    assert e[0] == e[1] == e[2] == e[3] == [0, 0, 0, 0];
    Sum4(e[0]);
  }

  /** `start_game`: an empty grid with two tiles added. */
  function Start(pick1: int, roll1: real, pick2: int, roll2: real): seq<seq<int>>
    requires 0 <= pick1 < 16 && 0 <= pick2 < 15
  {
    EmptyFromEmpty(0);
    SpawnCounts(EmptyGrid(), pick1, roll1);
    Spawn(Spawn(EmptyGrid(), pick1, roll1), pick2, roll2)
  }

  /** The two spawns of `start_game` each find the empty cell they pick. */
  lemma StartSteps(pick1: int, roll1: real, pick2: int, roll2: real)
    requires 0 <= pick1 < 16 && 0 <= pick2 < 15
    ensures AllTiles(EmptyGrid()) && |EmptyCells(EmptyGrid())| == 16
    ensures var g1 := Spawn(EmptyGrid(), pick1, roll1);
      AllTiles(g1) && |EmptyCells(g1)| == 15 && Start(pick1, roll1, pick2, roll2) == Spawn(g1, pick2, roll2)
  {
    EmptyGridSpec();
    SpawnCounts(EmptyGrid(), pick1, roll1);
  }

  /** A new game shows exactly two tiles, each a 2 or a 4, and nothing else. */
  lemma StartSpec(pick1: int, roll1: real, pick2: int, roll2: real)
    requires 0 <= pick1 < 16 && 0 <= pick2 < 15
    ensures var g := Start(pick1, roll1, pick2, roll2);
      && IsGrid(g) && AllTiles(g)
      && |EmptyCells(g)| == 14
      && 4 <= GridSum(g) <= 8
  {
    EmptyGridSpec();
    var e := EmptyGrid();
    SpawnCounts(e, pick1, roll1);
    SpawnCounts(Spawn(e, pick1, roll1), pick2, roll2);
  }

  class Game {
    var grid: seq<seq<int>>
    var score: int

    predicate Valid()
      reads this
    {
      IsGrid(grid) && AllTiles(grid)
    }

    /** `__init__`: the score starts at 0 and `start_game` runs, with its two random picks. */
    constructor (pick1: int, roll1: real, pick2: int, roll2: real)
      requires 0 <= pick1 < 16 && 0 <= pick2 < 15
      ensures Valid() && grid == Start(pick1, roll1, pick2, roll2) && score == 0
    {
      score := 0;
      grid := EmptyGrid();
      new;
      StartGame(pick1, roll1, pick2, roll2);
    }

    /** `start_game`. */
    method StartGame(pick1: int, roll1: real, pick2: int, roll2: real)
      requires 0 <= pick1 < 16 && 0 <= pick2 < 15
      modifies this
      ensures Valid() && grid == Start(pick1, roll1, pick2, roll2) && score == 0
    {
      StartSteps(pick1, roll1, pick2, roll2);
      score := 0;
      grid := EmptyGrid();
      AddNewTile(pick1, roll1);
      AddNewTile(pick2, roll2);
    }

    /** `add_new_tile`, with `pick` and `roll` the two random draws. */
    method AddNewTile(pick: int, roll: real)
      requires Valid() && (EmptyCells(grid) != [] ==> 0 <= pick < |EmptyCells(grid)|)
      modifies this
      ensures Valid() && grid == Spawn(old(grid), pick, roll) && score == old(score)
    {
      SpawnSpec(grid, pick, roll);
      var emptyCells := EmptyCells(grid);
      if emptyCells != [] {
        var (i, j) := emptyCells[pick];
        grid := grid[i := grid[i][j := if roll < 0.9 then 2 else 4]];
      }
    }

    /** The "left" and "right" branches of `move`: each row is merged, read in the direction of the move. */
    method SlideRows(d: Direction) returns (moved: bool)
      requires IsGrid(grid) && (d == Left || d == Right)
      modifies this
      ensures grid == Slid(old(grid), d)
      ensures score == old(score) + SlideScore(old(grid), d)
      ensures moved <==> Slid(old(grid), d) != old(grid)
    {
      ghost var g0 := grid;
      moved := false;
      for i := 0 to 4
        invariant RowPass(grid, g0, d, i, old(score), score, moved)
      {
        moved := MergeRowAt(d, i, moved, g0, old(score));
      }
      SlideDone(grid, g0, d);
    }

    /** One pass of the row loop of `move`: row `i` is merged in the direction of the move, written back if it changed, and scored. */
    method MergeRowAt(d: Direction, i: int, moved: bool, ghost g0: seq<seq<int>>, ghost score0: int) returns (movedNow: bool)
      requires (d == Left || d == Right) && 0 <= i < 4
      requires RowPass(grid, g0, d, i, score0, score, moved)
      modifies this
      ensures RowPass(grid, g0, d, i + 1, score0, score, movedNow)
    {
      var line := grid[i];
      if d == Right {
        line := Reverse(line);
      }
      RowRead(grid, g0, d, i);
      var newRow, s := Merge(line);
      ghost var before := grid;
      if newRow != line {
        movedNow := true;
        var written := newRow;
        if d == Right {
          written := Reverse(newRow);
        }
        grid := grid[i := written];
      } else {
        movedNow := moved;
      }
      score := score + s;
      RowPassStep(before, grid, g0, d, i, score0, score - s, line, newRow, s, moved, movedNow);
    }

    /** The "up" and "down" branches of `move`: each column is merged, read in the direction of the move. */
    method SlideColumns(d: Direction) returns (moved: bool)
      requires IsGrid(grid) && (d == Up || d == Down)
      modifies this
      ensures grid == Slid(old(grid), d)
      ensures score == old(score) + SlideScore(old(grid), d)
      ensures moved <==> Slid(old(grid), d) != old(grid)
    {
      ghost var g0 := grid;
      moved := false;
      for j := 0 to 4
        invariant ColumnPass(grid, g0, d, j, old(score), score, moved)
      {
        ghost var before, scoreBefore, movedBefore := grid, score, moved;
        moved := MergeColumnAt(d, j, moved);
        ColumnPassStep(before, grid, g0, d, j, old(score), scoreBefore, score, movedBefore, moved);
      }
      SlideDone(grid, g0, d);
    }

    /** One pass of the column loop of `move`: column `j` is merged in the direction of the move, written back if it changed, and scored. */
    method MergeColumnAt(d: Direction, j: int, moved: bool) returns (movedNow: bool)
      requires IsGrid(grid) && (d == Up || d == Down) && 0 <= j < 4
      modifies this
      ensures var line := Line(old(grid), d, j);
        var m := Merged(line);
        && grid == (if m != line then WithColumn(old(grid), j, if d == Up then m else Reverse(m)) else old(grid))
        && score == old(score) + MergeScore(line)
        && (movedNow <==> moved || m != line)
    {
      var column := Column(grid, j);
      if d == Down {
        column := Reverse(column);
      }
      var newCol, s := Merge(column);
      if newCol != column {
        movedNow := true;
        var written := newCol;
        if d == Down {
          written := Reverse(newCol);
        }
        WriteColumn(j, written);
      } else {
        movedNow := moved;
      }
      score := score + s;
    }

    /** `for i in range(4): grid[i][j] = new_col[i]`. */
    method WriteColumn(j: int, col: seq<int>)
      requires IsGrid(grid) && 0 <= j < 4 && |col| == 4
      modifies this
      ensures grid == WithColumn(old(grid), j, col) && score == old(score)
    {
      for i := 0 to 4
        invariant IsGrid(grid) && score == old(score)
        invariant forall r, c :: 0 <= r < 4 && 0 <= c < 4 ==> grid[r][c] == if c == j && r < i then col[r] else old(grid)[r][c]
      {
        grid := grid[i := grid[i][j := col[i]]];
      }
      GridsEqual(grid, WithColumn(old(grid), j, col));
    }

    /** `check_game_over`. */
    method CheckGameOver() returns (over: bool)
      requires IsGrid(grid)
      ensures over == GameOver(grid)
    {
      for i := 0 to 4
        invariant forall r, c :: 0 <= r < i && 0 <= c < 4 ==> grid[r][c] != 0
      {
        if 0 in grid[i] {
          return false;
        }
      }
      for i := 0 to 4
        invariant forall r, c :: 0 <= r < i && 0 <= c < 3 ==> DiffersRight(grid, r, c)
      {
        for j := 0 to 3
          invariant forall c :: 0 <= c < j ==> DiffersRight(grid, i, c)
        {
          if grid[i][j] == grid[i][j + 1] {
            assert !DiffersRight(grid, i, j);
            return false;
          }
        }
      }
      for j := 0 to 4
        invariant forall r, c :: 0 <= r < 3 && 0 <= c < j ==> DiffersBelow(grid, r, c)
      {
        for i := 0 to 3
          invariant forall r :: 0 <= r < i ==> DiffersBelow(grid, r, j)
        {
          if grid[i][j] == grid[i + 1][j] {
            assert !DiffersBelow(grid, i, j);
            return false;
          }
        }
      }
      return true;
    }

    /**
     * `move(direction)` with `pick`, `roll` the draws of the tile added after a move and
     * `restart*` the draws of a new game: the lines are merged and scored; if the grid
     * changed a tile is added; if the game is then over a new game starts.
     */
    method Move(d: Direction, pick: int, roll: real,
                restartPick1: int, restartRoll1: real, restartPick2: int, restartRoll2: real)
      returns (moved: bool)
      requires Valid()
      requires EmptyCells(Slid(grid, d)) != [] ==> 0 <= pick < |EmptyCells(Slid(grid, d))|
      requires 0 <= restartPick1 < 16 && 0 <= restartPick2 < 15
      modifies this
      ensures Valid()
      ensures moved <==> Slid(old(grid), d) != old(grid)
      ensures
        var slid := Slid(old(grid), d);
        var spawned := if moved then Spawn(slid, pick, roll) else slid;
        if GameOver(spawned) then
          grid == Start(restartPick1, restartRoll1, restartPick2, restartRoll2) && score == 0
        else
          grid == spawned && score == old(score) + SlideScore(old(grid), d)
    {
      SlideSpec(grid, d);
      if d == Left || d == Right {
        moved := SlideRows(d);
      } else {
        moved := SlideColumns(d);
      }
      if moved {
        AddNewTile(pick, roll);
      }
      var over := CheckGameOver();
      if over {
        StartGame(restartPick1, restartRoll1, restartPick2, restartRoll2);
      }
    }
  }

  /** The rows before `i` already hold their merged values; the rest are as they were. */
  predicate RowsDone(g: seq<seq<int>>, target: seq<seq<int>>, g0: seq<seq<int>>, i: int)
    requires IsGrid(g) && IsGrid(target) && IsGrid(g0)
  {
    forall r, c :: 0 <= r < 4 && 0 <= c < 4 ==> g[r][c] == if r < i then target[r][c] else g0[r][c]
  }

  /** The columns before `j` already hold their merged values; the rest are as they were. */
  predicate ColumnsDone(g: seq<seq<int>>, target: seq<seq<int>>, g0: seq<seq<int>>, j: int)
    requires IsGrid(g) && IsGrid(target) && IsGrid(g0)
  {
    forall r, c :: 0 <= r < 4 && 0 <= c < 4 ==> g[r][c] == if c < j then target[r][c] else g0[r][c]
  }

  /** Some cell of a row before `i` is changed by the move. */
  predicate RowsMoved(target: seq<seq<int>>, g0: seq<seq<int>>, i: int)
    requires IsGrid(target) && IsGrid(g0) && 0 <= i <= 4
  {
    exists r, c :: 0 <= r < i && 0 <= c < 4 && target[r][c] != g0[r][c]
  }

  /** Some cell of a column before `j` is changed by the move. */
  predicate ColumnsMoved(target: seq<seq<int>>, g0: seq<seq<int>>, j: int)
    requires IsGrid(target) && IsGrid(g0) && 0 <= j <= 4
  {
    exists r, c :: 0 <= r < 4 && 0 <= c < j && target[r][c] != g0[r][c]
  }

  /** The invariant of the row loop of `move` started on `g0` with score `score0`, after `i` rows. */
  predicate RowPass(g: seq<seq<int>>, g0: seq<seq<int>>, d: Direction, i: int, score0: int, score: int, moved: bool)
  {
    && IsGrid(g) && IsGrid(g0) && 0 <= i <= 4
    && RowsDone(g, Slid(g0, d), g0, i)
    && score == score0 + ScoreUpTo(g0, d, i)
    && (moved <==> RowsMoved(Slid(g0, d), g0, i))
  }

  /** The grid `g` with column `j` replaced by `col`, top to bottom. */
  function WithColumn(g: seq<seq<int>>, j: int, col: seq<int>): (r: seq<seq<int>>)
    requires IsGrid(g) && 0 <= j < 4 && |col| == 4
    ensures IsGrid(r) && forall i, c :: 0 <= i < 4 && 0 <= c < 4 ==> r[i][c] == if c == j then col[i] else g[i][c]
  {
    seq(4, i requires 0 <= i < 4 => g[i][j := col[i]])
  }

  /** The invariant of the column loop of `move` started on `g0` with score `score0`, after `j` columns. */
  predicate ColumnPass(g: seq<seq<int>>, g0: seq<seq<int>>, d: Direction, j: int, score0: int, score: int, moved: bool)
  {
    && IsGrid(g) && IsGrid(g0) && 0 <= j <= 4
    && ColumnsDone(g, Slid(g0, d), g0, j)
    && score == score0 + ScoreUpTo(g0, d, j)
    && (moved <==> ColumnsMoved(Slid(g0, d), g0, j))
  }

  lemma GridsEqual(a: seq<seq<int>>, b: seq<seq<int>>)
    requires IsGrid(a) && IsGrid(b)
    requires forall i, j :: 0 <= i < 4 && 0 <= j < 4 ==> a[i][j] == b[i][j]
    ensures a == b
  {
    assert forall i :: 0 <= i < 4 ==> a[i] == b[i];
  }

  /** Row `i` of the moved grid is line `i` merged, turned back for "right"; it differs from the old row exactly when the merge changed the line. */
  lemma SlidRow(g: seq<seq<int>>, d: Direction, i: int)
    requires IsGrid(g) && (d == Left || d == Right) && 0 <= i < 4
    ensures var m := Merged(Line(g, d, i));
      && Slid(g, d)[i] == (if d == Left then m else Reverse(m))
      && (m != Line(g, d, i) <==> Slid(g, d)[i] != g[i])
  {
    MergedLinesAt(g, d, i);
    RowOfArrange(MergedLines(g, d), g, d, i);
    SlidIsArrange(g, d);
  }

  /** Column `j` of the moved grid is line `j` merged, turned back for "down"; it differs from the old column exactly when the merge changed the line. */
  lemma SlidColumn(g: seq<seq<int>>, d: Direction, j: int)
    requires IsGrid(g) && (d == Up || d == Down) && 0 <= j < 4
    ensures var m := Merged(Line(g, d, j));
      var c := if d == Up then m else Reverse(m);
      && (forall r :: 0 <= r < 4 ==> Slid(g, d)[r][j] == c[r])
      && (m != Line(g, d, j) <==> exists r :: 0 <= r < 4 && Slid(g, d)[r][j] != g[r][j])
  {
    MergedLinesAt(g, d, j);
    ColumnOfArrange(MergedLines(g, d), g, d, j);
    SlidIsArrange(g, d);
  }

  /** Writing row `i` of `target` (or leaving it when it already agrees) extends the finished rows by one. */
  lemma RowsDoneStep(g: seq<seq<int>>, next: seq<seq<int>>, target: seq<seq<int>>, g0: seq<seq<int>>, i: int, moved: bool, movedNow: bool)
    requires IsGrid(g) && IsGrid(next) && IsGrid(target) && IsGrid(g0) && 0 <= i < 4
    requires RowsDone(g, target, g0, i)
    requires next == (if target[i] != g0[i] then g[i := target[i]] else g)
    requires moved <==> RowsMoved(target, g0, i)
    requires movedNow <==> moved || target[i] != g0[i]
    ensures RowsDone(next, target, g0, i + 1)
    ensures movedNow <==> RowsMoved(target, g0, i + 1)
  {
    assert forall c :: 0 <= c < 4 ==> g[i][c] == g0[i][c];
    if target[i] != g0[i] {
      var c :| 0 <= c < 4 && target[i][c] != g0[i][c];
      assert RowsMoved(target, g0, i + 1);
    } else if RowsMoved(target, g0, i + 1) {
      var r, c :| 0 <= r < i + 1 && 0 <= c < 4 && target[r][c] != g0[r][c];
      assert RowsMoved(target, g0, i);
    }
  }

  /** Writing column `j` of `target` (or leaving it when it already agrees) extends the finished columns by one. */
  lemma ColumnsDoneStep(g: seq<seq<int>>, next: seq<seq<int>>, target: seq<seq<int>>, g0: seq<seq<int>>, j: int, changed: bool, moved: bool, movedNow: bool)
    requires IsGrid(g) && IsGrid(next) && IsGrid(target) && IsGrid(g0) && 0 <= j < 4
    requires ColumnsDone(g, target, g0, j)
    requires changed <==> exists r :: 0 <= r < 4 && target[r][j] != g0[r][j]
    requires changed ==> forall r, c :: 0 <= r < 4 && 0 <= c < 4 ==> next[r][c] == if c == j then target[r][c] else g[r][c]
    requires !changed ==> next == g
    requires moved <==> ColumnsMoved(target, g0, j)
    requires movedNow <==> moved || changed
    ensures ColumnsDone(next, target, g0, j + 1)
    ensures movedNow <==> ColumnsMoved(target, g0, j + 1)
  {
    if changed {
      var r :| 0 <= r < 4 && target[r][j] != g0[r][j];
      assert ColumnsMoved(target, g0, j + 1);
    } else if ColumnsMoved(target, g0, j + 1) {
      var r, c :| 0 <= r < 4 && 0 <= c < j + 1 && target[r][c] != g0[r][c];
      assert ColumnsMoved(target, g0, j);
    }
  }

  /** One pass of the row loop keeps its invariant: line `i` merged is row `i` of the moved grid, and the score grows by its points. */
  lemma RowPassStep(g: seq<seq<int>>, next: seq<seq<int>>, g0: seq<seq<int>>, d: Direction, i: int,
                    score0: int, score: int, line: seq<int>, m: seq<int>, s: int, moved: bool, movedNow: bool)
    requires (d == Left || d == Right) && 0 <= i < 4
    requires RowPass(g, g0, d, i, score0, score, moved)
    requires line == Line(g0, d, i) && m == Merged(line) && s == MergeScore(line)
    requires next == (if m != line then g[i := if d == Left then m else Reverse(m)] else g)
    requires movedNow <==> moved || m != line
    ensures RowPass(next, g0, d, i + 1, score0, score + s, movedNow)
  {
    SlidRow(g0, d, i);
    RowRead(g, g0, d, i);
    var target := Slid(g0, d);
    assert (m != line) == (target[i] != g0[i]);
    assert next == (if target[i] != g0[i] then g[i := target[i]] else g);
    RowsDoneStep(g, next, target, g0, i, moved, movedNow);
  }

  /** One pass of the column loop keeps its invariant: line `j` merged is column `j` of the moved grid, and the score grows by its points. */
  lemma ColumnPassStep(g: seq<seq<int>>, next: seq<seq<int>>, g0: seq<seq<int>>, d: Direction, j: int,
                       score0: int, score: int, scoreNext: int, moved: bool, movedNow: bool)
    requires (d == Up || d == Down) && 0 <= j < 4
    requires ColumnPass(g, g0, d, j, score0, score, moved)
    requires var line := Line(g, d, j);
      var m := Merged(line);
      && next == (if m != line then WithColumn(g, j, if d == Up then m else Reverse(m)) else g)
      && scoreNext == score + MergeScore(line)
      && (movedNow <==> moved || m != line)
    ensures ColumnPass(next, g0, d, j + 1, score0, scoreNext, movedNow)
  {
    ColumnRead(g, g0, d, j);
    SlidColumn(g0, d, j);
    ColumnsDoneStep(g, next, Slid(g0, d), g0, j, Merged(Line(g0, d, j)) != Line(g0, d, j), moved, movedNow);
  }

  /** The row loop of `move` reads row `i` in the direction of the move. */
  lemma RowRead(g: seq<seq<int>>, g0: seq<seq<int>>, d: Direction, i: int)
    requires IsGrid(g) && IsGrid(g0) && (d == Left || d == Right) && 0 <= i < 4
    requires RowsDone(g, Slid(g0, d), g0, i)
    ensures g[i] == g0[i]
    ensures (if d == Left then g[i] else Reverse(g[i])) == Line(g0, d, i)
  {
    assert forall c :: 0 <= c < 4 ==> g[i][c] == g0[i][c];
  }

  /** The column loop of `move` reads column `j` in the direction of the move. */
  lemma ColumnRead(g: seq<seq<int>>, g0: seq<seq<int>>, d: Direction, j: int)
    requires IsGrid(g) && IsGrid(g0) && (d == Up || d == Down) && 0 <= j < 4
    requires ColumnsDone(g, Slid(g0, d), g0, j)
    ensures (if d == Up then Column(g, j) else Reverse(Column(g, j))) == Line(g0, d, j)
  {
    assert Column(g, j) == Column(g0, j);
  }

  /** After all four lines the grid is the moved grid, and a line changed exactly when the moved grid differs from the old one. */
  lemma SlideDone(g: seq<seq<int>>, g0: seq<seq<int>>, d: Direction)
    requires IsGrid(g) && IsGrid(g0)
    requires RowsDone(g, Slid(g0, d), g0, 4) || ColumnsDone(g, Slid(g0, d), g0, 4)
    ensures g == Slid(g0, d)
    ensures RowsMoved(Slid(g0, d), g0, 4) <==> Slid(g0, d) != g0
    ensures ColumnsMoved(Slid(g0, d), g0, 4) <==> Slid(g0, d) != g0
  {
    DoneGrid(g, Slid(g0, d), g0);
  }

  /** Once every line has been written, the grid is the target grid, and some line differs exactly when the two grids differ. */
  lemma DoneGrid(g: seq<seq<int>>, target: seq<seq<int>>, g0: seq<seq<int>>)
    requires IsGrid(g) && IsGrid(target) && IsGrid(g0)
    requires RowsDone(g, target, g0, 4) || ColumnsDone(g, target, g0, 4)
    ensures g == target
    ensures RowsMoved(target, g0, 4) <==> target != g0
    ensures ColumnsMoved(target, g0, 4) <==> target != g0
  {
    GridsEqual(g, target);
    if target != g0 {
      var a :| 0 <= a < 4 && target[a] != g0[a];
      var b :| 0 <= b < 4 && target[a][b] != g0[a][b];
      assert RowsMoved(target, g0, 4) && ColumnsMoved(target, g0, 4);
    }
  }

  /** Row `i` after a move left or right is the merged row, turned back for "right". */
  lemma RowOfArrange(ms: seq<seq<int>>, g: seq<seq<int>>, d: Direction, i: int)
    requires IsGrid(ms) && IsGrid(g) && (d == Left || d == Right) && 0 <= i < 4
    ensures Arrange(ms, d)[i] == (if d == Left then ms[i] else Reverse(ms[i]))
    ensures ms[i] != Line(g, d, i) <==> Arrange(ms, d)[i] != g[i]
  {
    var m := ms[i];
    var l := Line(g, d, i);
    var want := if d == Left then m else Reverse(m);
    assert forall j :: 0 <= j < 4 ==> Arrange(ms, d)[i][j] == want[j];
    if d == Right && m != l {
      var k :| 0 <= k < 4 && m[k] != l[k];
      assert l[k] == g[i][3 - k];
      assert want[3 - k] == m[k];
    }
  }

  /** Column `j` after a move up or down is the merged column, turned back for "down". */
  lemma ColumnOfArrange(ms: seq<seq<int>>, g: seq<seq<int>>, d: Direction, j: int)
    requires IsGrid(ms) && IsGrid(g) && (d == Up || d == Down) && 0 <= j < 4
    ensures var c := if d == Up then ms[j] else Reverse(ms[j]);
      forall r :: 0 <= r < 4 ==> Arrange(ms, d)[r][j] == c[r]
    ensures ms[j] != Line(g, d, j) <==> exists r :: 0 <= r < 4 && Arrange(ms, d)[r][j] != g[r][j]
  {
    var m := ms[j];
    var l := Line(g, d, j);
    if m != l {
      var k :| 0 <= k < 4 && m[k] != l[k];
      if d == Up {
        assert Arrange(ms, d)[k][j] != g[k][j];
      } else {
        assert Arrange(ms, d)[3 - k][j] != g[3 - k][j];
      }
    } else {
      assert forall r :: 0 <= r < 4 ==> Arrange(ms, d)[r][j] == g[r][j];
    }
  }
}
