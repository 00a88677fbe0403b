/**
 * The stopping criterion of the streaming chat window (LLM_2.py:11-53): after
 * every generated token it extracts the n-grams of the whole token sequence,
 * counts how many of the last five are already in a bounded n-gram history,
 * and asks generation to stop once the "repetitive" verdict has been reached
 * `repeat_threshold` times in a row.
 */
module Repetition {
  import opened Wrappers
  import PyStr

  type NGram = seq<int>

  function Max0(x: int): nat { if x > 0 then x else 0 }

  /** `_extract_ngrams(token_ids, n)`: every window of `n` consecutive ids, left to right. */
  function ExtractNgrams(ids: seq<int>, n: nat): (r: seq<NGram>)
    ensures |r| == Max0(|ids| - n + 1)
    ensures forall i :: 0 <= i < |r| ==> |r[i]| == n && r[i] == ids[i..i + n]
  {
    seq(Max0(|ids| - n + 1), i requires 0 <= i < Max0(|ids| - n + 1) => ids[i..i + n])
  }

  /**
   * The n-grams of a sequence grown by one token are the old n-grams followed by
   * the window that ends at the new token: a later call sees every n-gram of an
   * earlier call again.
   */
  lemma NgramsGrow(ids: seq<int>, t: int, n: nat)
    requires 1 <= n <= |ids| + 1
    ensures ExtractNgrams(ids + [t], n) == ExtractNgrams(ids, n) + [(ids + [t])[|ids| + 1 - n..]]
  {
    var a, b := ExtractNgrams(ids + [t], n), ExtractNgrams(ids, n);
    assert |a| == |b| + 1;
    forall i | 0 <= i < |b| ensures a[i] == b[i] {
      assert (ids + [t])[i..i + n] == ids[i..i + n];
    }
    assert a[|b|] == (ids + [t])[|ids| + 1 - n..];
    assert a == b + [a[|b|]];
  }

  /** How many of `grams` occur in `history` (the counting loop of `_has_repetition`). */
  function MatchCount(grams: seq<NGram>, history: seq<NGram>): (m: nat)
    ensures m <= |grams|
  {
    if grams == [] then 0
    else (if grams[0] in history then 1 else 0) + MatchCount(grams[1..], history)
  }

  /** `match_count / len(current_ngrams) > 0.3`. */
  predicate RatioExceeds(matches: nat, total: nat)
    requires total > 0
  {
    (matches as real) / (total as real) > 0.3
  }

  /**
   * `_has_repetition(current)`: no verdict of repetition on an empty history; otherwise
   * the matches among the last (at most) five current n-grams, divided by the number
   * of ALL current n-grams, must exceed 0.3. With a non-empty history and no current
   * n-gram Python divides by zero: `None`.
   */
  function HasRepetition(history: seq<NGram>, current: seq<NGram>): (r: Option<bool>)
    ensures history == [] ==> r == Some(false)
    ensures r == None <==> history != [] && current == []
  {
    if history == [] then Some(false)
    else if current == [] then None
    else Some(RatioExceeds(MatchCount(PyStr.TailSlice(current, 5), history), |current|))
  }

  /**
   * The float test `m / L > 0.3` (binary64) agrees with the exact rational one for every
   * `m <= 5`: 3/10 is the only such ratio equal to 0.3, and in binary64 `3 / 10 == 0.3`.
   * The exact test is the integer comparison `10 * m > 3 * L`.
   */
  lemma RatioAsIntegers(matches: nat, total: nat)
    requires total > 0
    ensures RatioExceeds(matches, total) <==> 10 * matches > 3 * total
  {
    var m, l := matches as real, total as real;
    var q := m / l;
    assert q * l == m;
    assert (q - 0.3) * l == m - 0.3 * l;
    SignOfProduct(q - 0.3, l);
    assert 10 * matches > 3 * total <==> m - 0.3 * l > 0.0;
  }

  lemma SignOfProduct(d: real, l: real)
    requires l > 0.0
    ensures d * l > 0.0 <==> d > 0.0
  {
    if d > 0.0 {
      assert d * l > 0.0;
    } else {
      assert d * l <= 0.0;
    }
  }

  /** A verdict of repetition needs a non-empty history and at most 16 current n-grams (5 / 17 < 0.3). */
  lemma RepetitionNeedsFewNgrams(history: seq<NGram>, current: seq<NGram>)
    requires HasRepetition(history, current) == Some(true)
    ensures history != [] && 0 < |current| <= 16
  {
    var m := MatchCount(PyStr.TailSlice(current, 5), history);
    RatioAsIntegers(m, |current|);
  }

  /** The history after `extend` and the `[-max_history:]` cut. */
  function Bounded(history: seq<NGram>, maxHistory: int): (r: seq<NGram>)
  {
    if |history| > maxHistory then PyStr.TailSlice(history, maxHistory) else history
  }

  /**
   * The cut keeps a suffix of at most `max_history` n-grams when `max_history >= 1`,
   * the newest ones; with `max_history == 0` the slice `[-0:]` keeps everything.
   */
  lemma BoundedSpec(history: seq<NGram>, maxHistory: int)
    ensures exists i :: 0 <= i <= |history| && Bounded(history, maxHistory) == history[i..]
    ensures maxHistory >= 1 ==> |Bounded(history, maxHistory)| <= maxHistory
    ensures maxHistory >= 1 && |history| > maxHistory ==> |Bounded(history, maxHistory)| == maxHistory
    ensures maxHistory == 0 ==> Bounded(history, maxHistory) == history
  {
    PyStr.TailSliceIsSuffix(history, maxHistory);
    assert history[0..] == history;
  }

  /**
   * No 3-gram repeats in [1, 2, 3, 4], yet the second call of the detector on the
   * growing sequence already counts it as repetitive: the history holds the n-grams
   * of the previous call, which the current call extracts again.
   */
  lemma FreshNgramsCountAsRepeats()
    ensures var history := ExtractNgrams([1, 2, 3], 3);
            var current := ExtractNgrams([1, 2, 3, 4], 3);
            && (forall i, j :: 0 <= i < j < |current| ==> current[i] != current[j])
            && HasRepetition(history, current) == Some(true)
  {
    var history := ExtractNgrams([1, 2, 3], 3);
    var current := ExtractNgrams([1, 2, 3, 4], 3);
    assert |history| == 1 && history[0] == [1, 2, 3][0..3] == [1, 2, 3];
    assert |current| == 2 && current[0] == [1, 2, 3, 4][0..3] == [1, 2, 3];
    assert current[1] == [1, 2, 3, 4][1..4] == [2, 3, 4];
    assert history == [[1, 2, 3]];
    assert current == [[1, 2, 3], [2, 3, 4]];
    assert PyStr.TailSlice(current, 5) == current;
    assert MatchCount(current, history) == 1;
    RatioAsIntegers(1, 2);
  }

  class RepetitionDetector {
    var ngramHistory: seq<NGram>
    const maxNgram: nat
    const repeatThreshold: int
    const maxHistory: int
    var repeatCount: nat

    /** The history never holds more than `max_history` n-grams (for a positive bound). */
    predicate Valid()
      reads this
    {
      maxHistory >= 1 ==> |ngramHistory| <= maxHistory
    }

    constructor (maxNgram: nat, repeatThreshold: int, maxHistory: int)
      ensures Valid()
      ensures this.maxNgram == maxNgram && this.repeatThreshold == repeatThreshold
      ensures this.maxHistory == maxHistory
      ensures ngramHistory == [] && repeatCount == 0
    {
      this.maxNgram := maxNgram;
      this.repeatThreshold := repeatThreshold;
      this.maxHistory := maxHistory;
      ngramHistory := [];
      repeatCount := 0;
    }

    /**
     * `__call__(input_ids, scores)`: `Some(stop)`, or `None` where `_has_repetition`
     * raises ZeroDivisionError (nothing has changed then). On a repetitive verdict the
     * count grows by one and, once it reaches the threshold, the call returns True
     * BEFORE the history is extended; otherwise the count is reset to 0. Every False
     * return extends the history by the current n-grams and cuts it to `max_history`.
     */
    method Call(inputIds: seq<seq<int>>) returns (r: Option<bool>)
      requires Valid()
      requires inputIds != []
      modifies this
      ensures Valid()
      ensures var current := ExtractNgrams(inputIds[0], maxNgram);
        match HasRepetition(old(ngramHistory), current)
        case None =>
          r == None && ngramHistory == old(ngramHistory) && repeatCount == old(repeatCount)
        case Some(true) =>
          && repeatCount == old(repeatCount) + 1
          && r == Some(repeatCount >= repeatThreshold)
          && ngramHistory == (if repeatCount >= repeatThreshold then old(ngramHistory)
                              else Bounded(old(ngramHistory) + current, maxHistory))
        case Some(false) =>
          && repeatCount == 0 && r == Some(false)
          && ngramHistory == Bounded(old(ngramHistory) + current, maxHistory)
    {
      var current := ExtractNgrams(inputIds[0], maxNgram);
      var verdict := HasRepetition(ngramHistory, current);
      if verdict == None {
        return None;
      }
      if verdict.value {
        repeatCount := repeatCount + 1;
        if repeatCount >= repeatThreshold {
          return Some(true);
        }
      } else {
        repeatCount := 0;
      }
      ngramHistory := ngramHistory + current;
      if |ngramHistory| > maxHistory {
        ngramHistory := PyStr.TailSlice(ngramHistory, maxHistory);
      }
      BoundedSpec(old(ngramHistory) + current, maxHistory);
      r := Some(false);
    }
  }
}
