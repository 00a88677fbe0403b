/**
 * The Python `str` and `list` operations the chat front-ends are built from:
 * `sep.join`, the slice `xs[-k:]`, `strip()`, `find`, `split(sep)[0]`,
 * `split(sep, 1)[1]`, `replace(old, "")`, `startswith` and `lower()`.
 * Strings are sequences of Unicode scalar values, as Python's `str` is when it
 * holds decoded text.
 */
module PyStr {

  /** `sep.join(parts)`. */
  function Join(parts: seq<string>, sep: string): (r: string)
    ensures parts == [] ==> r == []
    ensures |parts| == 1 ==> r == parts[0]
  {
    if parts == [] then []
    else if |parts| == 1 then parts[0]
    else parts[0] + sep + Join(parts[1..], sep)
  }

  /** `"".join(parts)`. */
  function Concat(parts: seq<string>): (r: string)
  {
    if parts == [] then [] else parts[0] + Concat(parts[1..])
  }

  /** Total length of `sep.join(parts)`: the parts and one separator between each two. */
  lemma {:induction false} JoinLength(parts: seq<string>, sep: string)
    ensures |Join(parts, sep)| == SumLengths(parts) + (if parts == [] then 0 else (|parts| - 1) * |sep|)
  {
    if |parts| > 1 {
      JoinLength(parts[1..], sep);
    }
  }

  function SumLengths(parts: seq<string>): nat
  {
    if parts == [] then 0 else |parts[0]| + SumLengths(parts[1..])
  }

  /** Joining one more part at the end. */
  lemma {:induction false} JoinSnoc(parts: seq<string>, last: string, sep: string)
    requires parts != []
    ensures Join(parts + [last], sep) == Join(parts, sep) + sep + last
  {
    if |parts| == 1 {
      assert parts + [last] == [parts[0], last];
    } else {
      assert (parts + [last])[1..] == parts[1..] + [last];
      JoinSnoc(parts[1..], last, sep);
    }
  }

  /** Concatenation of a list with one more element. */
  lemma {:induction false} ConcatSnoc(parts: seq<string>, last: string)
    ensures Concat(parts + [last]) == Concat(parts) + last
  {
    if parts == [] {
      assert [] + [last] == [last];
    } else {
      assert (parts + [last])[1..] == parts[1..] + [last];
      ConcatSnoc(parts[1..], last);
    }
  }

  /**
   * Python's `xs[-k:]`: the last `k` elements when `0 < k`, all of them when
   * `k == 0` (because `-0 == 0`), and everything from index `-k` on when `k < 0`.
   */
  function TailSlice<T>(xs: seq<T>, k: int): (r: seq<T>)
    ensures |r| <= |xs|
    ensures k > 0 ==> |r| == if k < |xs| then k else |xs|
  {
    var start := if k > 0 then (if k < |xs| then |xs| - k else 0)
                 else if k == 0 then 0
                 else (if -k < |xs| then -k else |xs|);
    xs[start..]
  }

  /** `xs[-k:]` is always a suffix of `xs`. */
  lemma TailSliceIsSuffix<T>(xs: seq<T>, k: int)
    ensures exists i :: 0 <= i <= |xs| && TailSlice(xs, k) == xs[i..]
  {
    var r := TailSlice(xs, k);
    assert r == xs[|xs| - |r|..];
  }

  /** The characters for which Python's `str.isspace()` holds (they are what `strip()` removes). */
  predicate IsSpace(c: char)
  {
    c == '\t' || c == '\n' || c == '\U{B}' || c == '\U{C}' || c == '\r'
    || ('\U{1C}' <= c <= '\U{1F}') || c == ' ' || c == '\U{85}' || c == '\U{A0}'
    || c == '\U{1680}' || ('\U{2000}' <= c <= '\U{200A}') || c == '\U{2028}' || c == '\U{2029}'
    || c == '\U{202F}' || c == '\U{205F}' || c == '\U{3000}'
  }

  /** Number of leading whitespace characters. */
  function LeadingSpace(s: string): (n: nat)
    ensures n <= |s|
    ensures forall i :: 0 <= i < n ==> IsSpace(s[i])
    ensures n < |s| ==> !IsSpace(s[n])
  {
    if s == [] || !IsSpace(s[0]) then 0 else 1 + LeadingSpace(s[1..])
  }

  /** Number of trailing whitespace characters. */
  function TrailingSpace(s: string): (n: nat)
    ensures n <= |s|
    ensures forall i :: |s| - n <= i < |s| ==> IsSpace(s[i])
    ensures n < |s| ==> !IsSpace(s[|s| - n - 1])
  {
    if s == [] || !IsSpace(s[|s| - 1]) then 0 else 1 + TrailingSpace(s[..|s| - 1])
  }

  /** `s.strip()`. */
  function Strip(s: string): (r: string)
  {
    var a := LeadingSpace(s);
    s[a..][..|s[a..]| - TrailingSpace(s[a..])]
  }

  /**
   * What `strip()` promises: the result is a contiguous piece of `s`, everything cut
   * off is whitespace, and the result neither starts nor ends with whitespace.
   */
  lemma StripSpec(s: string)
    ensures exists i, j :: (0 <= i <= j <= |s| && Strip(s) == s[i..j]
                            && (forall k :: 0 <= k < i ==> IsSpace(s[k]))
                            && (forall k :: j <= k < |s| ==> IsSpace(s[k])))
    ensures Strip(s) != [] ==> !IsSpace(Strip(s)[0]) && !IsSpace(Strip(s)[|Strip(s)| - 1])
  {
    var a := LeadingSpace(s);
    var t := s[a..];
    var b := TrailingSpace(t);
    assert Strip(s) == s[a..a + |t| - b];
    forall k | a + |t| - b <= k < |s| ensures IsSpace(s[k]) {
      assert s[k] == t[k - a];
    }
    if Strip(s) != [] {
      assert Strip(s)[0] == t[0];
    }
  }

  /** `strip()` is idempotent. */
  lemma StripIdempotent(s: string)
    ensures Strip(Strip(s)) == Strip(s)
  {
    StripSpec(s);
    var r := Strip(s);
    assert LeadingSpace(r) == 0;
    assert TrailingSpace(r) == 0;
    assert r[0..] == r;
  }

  /** `pat` occurs in `s` at index `i`. */
  predicate OccursAt(s: string, pat: string, i: int)
  {
    0 <= i && i + |pat| <= |s| && s[i..i + |pat|] == pat
  }

  /** `pat in s`. */
  predicate Contains(s: string, pat: string)
  {
    exists i :: 0 <= i <= |s| - |pat| && OccursAt(s, pat, i)
  }

  /** `s.startswith(p)`. */
  predicate StartsWith(s: string, p: string)
  {
    |p| <= |s| && s[..|p|] == p
  }

  /** `s.find(pat, start)`: the first index at or after `start` where `pat` occurs, or -1. */
  function FindFrom(s: string, pat: string, start: nat): (r: int)
    ensures r == -1 || (start <= r && OccursAt(s, pat, r))
    ensures r == -1 ==> forall i :: start <= i ==> !OccursAt(s, pat, i)
    ensures r != -1 ==> forall i :: start <= i < r ==> !OccursAt(s, pat, i)
    decreases |s| - start
  {
    if start + |pat| > |s| then -1
    else if s[start..start + |pat|] == pat then start
    else FindFrom(s, pat, start + 1)
  }

  /** `s.find(pat)`. */
  function Find(s: string, pat: string): (r: int)
    ensures r == -1 <==> !Contains(s, pat)
    ensures r != -1 ==> OccursAt(s, pat, r) && forall i :: 0 <= i < r ==> !OccursAt(s, pat, i)
  {
    var r := FindFrom(s, pat, 0);
    assert r != -1 ==> OccursAt(s, pat, r);
    r
  }

  /** `s.split(sep)[0]`: everything before the first `sep`, or all of `s`. */
  function SplitHead(s: string, sep: string): (r: string)
    requires sep != []
  {
    var i := Find(s, sep);
    if i == -1 then s else s[..i]
  }

  /** `split(sep)[0]` is a prefix of `s` that does not contain `sep`; it is all of `s` exactly when `sep` is absent. */
  lemma SplitHeadSpec(s: string, sep: string)
    requires sep != []
    ensures StartsWith(s, SplitHead(s, sep))
    ensures !Contains(SplitHead(s, sep), sep)
    ensures SplitHead(s, sep) == s <==> !Contains(s, sep)
  {
    var r := SplitHead(s, sep);
    var i := Find(s, sep);
    if i != -1 {
      forall k | 0 <= k <= |r| - |sep|
        ensures !OccursAt(r, sep, k)
      {
        assert r == s[..i] && k < i && !OccursAt(s, sep, k);
        assert r[k..k + |sep|] == s[k..k + |sep|];
      }
      assert |r| < |s|;
    }
  }

  /** `s.split(sep, 1)[1]`: everything after the first `sep`; Python raises IndexError when there is none. */
  function AfterFirst(s: string, sep: string): (r: string)
    requires Contains(s, sep)
    ensures exists i :: OccursAt(s, sep, i) && r == s[i + |sep|..]
  {
    var i := Find(s, sep);
    s[i + |sep|..]
  }

  /** For `p + rest` where `sep` occurs in `p` only at its end, the text after the first `sep` is `rest`. */
  lemma AfterFirstOfPrefix(p: string, sep: string, rest: string)
    requires sep != [] && |sep| <= |p| && p[|p| - |sep|..] == sep
    requires forall i :: 0 <= i < |p| - |sep| ==> !OccursAt(p + rest, sep, i)
    ensures Contains(p + rest, sep)
    ensures AfterFirst(p + rest, sep) == rest
  {
    var s := p + rest;
    var k := |p| - |sep|;
    assert s[k..k + |sep|] == p[k..];
    assert OccursAt(s, sep, k);
    assert Find(s, sep) == k;
    assert s[k + |sep|..] == rest;
  }

  /** `s.replace(pat, "")`: occurrences found left to right, without overlap, are removed. */
  function RemoveAll(s: string, pat: string): (r: string)
    requires pat != []
    ensures |r| <= |s|
    decreases |s|
  {
    if |s| < |pat| then s
    else if s[..|pat|] == pat then RemoveAll(s[|pat|..], pat)
    else [s[0]] + RemoveAll(s[1..], pat)
  }

  /** `replace` leaves a string without an occurrence unchanged, and shortens one with an occurrence. */
  lemma {:induction false} RemoveAllSpec(s: string, pat: string)
    requires pat != []
    ensures RemoveAll(s, pat) == s <==> !Contains(s, pat)
    ensures Contains(s, pat) ==> |RemoveAll(s, pat)| < |s|
    decreases |s|
  {
    if |s| < |pat| {
      assert forall i :: !OccursAt(s, pat, i);
    } else if s[..|pat|] == pat {
      assert OccursAt(s, pat, 0);
    } else {
      ContainsPastFirst(s, pat);
      RemoveAllSpec(s[1..], pat);
      if RemoveAll(s, pat) == s {
        assert RemoveAll(s[1..], pat) == s[1..];
      }
    }
  }

  /** When `s` does not start with `pat`, `pat` occurs in `s` exactly when it occurs in `s[1..]`. */
  lemma ContainsPastFirst(s: string, pat: string)
    requires pat != [] && |s| >= |pat| && s[..|pat|] != pat
    ensures Contains(s, pat) <==> Contains(s[1..], pat)
  {
    if Contains(s, pat) {
      var i :| 0 <= i <= |s| - |pat| && OccursAt(s, pat, i);
      assert i != 0;
      assert s[1..][i - 1..i - 1 + |pat|] == s[i..i + |pat|];
      assert OccursAt(s[1..], pat, i - 1);
    }
    if Contains(s[1..], pat) {
      var i :| 0 <= i <= |s[1..]| - |pat| && OccursAt(s[1..], pat, i);
      assert s[i + 1..i + 1 + |pat|] == s[1..][i..i + |pat|];
      assert OccursAt(s, pat, i + 1);
    }
  }

  /** `s.rfind(c, start)` for one character: the last index at or after `start` holding `c`, or -1. */
  function RFindFrom(s: string, c: char, start: nat): (r: int)
    ensures r == -1 || (start <= r < |s| && s[r] == c)
    ensures forall i :: start <= i < |s| && s[i] == c ==> i <= r
    decreases |s|
  {
    if |s| <= start then -1
    else if s[|s| - 1] == c then |s| - 1
    else RFindFrom(s[..|s| - 1], c, start)
  }

  /** Python's `lower()` on the ASCII letters (the only characters whose lower-case form matters below). */
  function LowerAscii(s: string): (r: string)
    ensures |r| == |s|
    ensures forall i :: 0 <= i < |s| ==> r[i] == LowerChar(s[i])
  {
    seq(|s|, i requires 0 <= i < |s| => LowerChar(s[i]))
  }

  function LowerChar(c: char): char
  {
    if 'A' <= c <= 'Z' then (c as int + 32) as char else c
  }
}
