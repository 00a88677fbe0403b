/**
 * `format_fraction` of the hypergeometric calculator (math_solver/hypgeom_dist.py):
 * a `Fraction` printed as its numerator alone when the denominator is 1, and as
 * `numerator/denominator` otherwise, each written the way Python's `str` writes an
 * `int`. `ParseFraction` reads such text back, so that the printed form is shown to
 * lose nothing.
 */
module FractionText {
  import opened Wrappers

  predicate IsDigit(c: char)
  {
    '0' <= c <= '9'
  }

  predicate AllDigits(s: string)
  {
    forall i :: 0 <= i < |s| ==> IsDigit(s[i])
  }

  function DigitChar(d: int): (c: char)
    requires 0 <= d < 10
    ensures IsDigit(c)
  {
    ('0' as int + d) as char
  }

  function DigitValue(c: char): (d: nat)
    requires IsDigit(c)
    ensures d < 10
  {
    c as int - '0' as int
  }

  /** The decimal digits of `n`, most significant first, with no leading zero: `str(n)` for n >= 0. */
  function Digits(n: nat): string
    decreases n
  {
    if n < 10 then [DigitChar(n)] else Digits(n / 10) + [DigitChar(n % 10)]
  }

  /** The number a non-empty string of decimal digits denotes. */
  function ParseDigits(s: string): nat
    requires s != [] && AllDigits(s)
    decreases |s|
  {
    if |s| == 1 then DigitValue(s[0])
    else ParseDigits(s[..|s| - 1]) * 10 + DigitValue(s[|s| - 1])
  }

  /** `Digits` writes a non-empty run of digits, without a leading zero, that `ParseDigits` reads back as `n`. */
  lemma {:induction false} DigitsRoundTrip(n: nat)
    ensures Digits(n) != [] && AllDigits(Digits(n))
    ensures ParseDigits(Digits(n)) == n
    ensures n > 0 ==> Digits(n)[0] != '0'
    decreases n
  {
    if n >= 10 {
      DigitsRoundTrip(n / 10);
      var s := Digits(n / 10);
      var t := s + [DigitChar(n % 10)];
      assert t[..|t| - 1] == s && t[0] == s[0];
      assert DigitValue(t[|t| - 1]) == n % 10;
    }
  }

  /** `str(i)` for an `int`: a minus sign before the digits of a negative number. */
  function IntText(i: int): string
  {
    if i < 0 then "-" + Digits(-i) else Digits(i)
  }

  /** `int(s)` for the text `IntText` writes; None for anything else that is not an optional minus and digits. */
  function ParseInt(s: string): Option<int>
  {
    if |s| > 1 && s[0] == '-' && AllDigits(s[1..]) then Some(-(ParseDigits(s[1..]) as int))
    else if s != [] && AllDigits(s) then Some(ParseDigits(s))
    else None
  }

  /** Reading back the text of an `int` gives the `int`, and that text holds no '/'. */
  lemma IntTextRoundTrip(i: int)
    ensures ParseInt(IntText(i)) == Some(i)
    ensures '/' !in IntText(i)
  {
    var t := IntText(i);
    if i < 0 {
      DigitsRoundTrip(-i);
      assert t[0] == '-' && t[1..] == Digits(-i);
      assert forall k :: 1 <= k < |t| ==> t[k] == Digits(-i)[k - 1];
    } else {
      DigitsRoundTrip(i);
      assert IsDigit(t[0]);
    }
  }

  /** `format_fraction`: the numerator alone over a denominator of 1, else `num/den`. */
  function FormatFraction(num: int, den: int): string
    requires den >= 1
  {
    if den == 1 then IntText(num) else IntText(num) + "/" + IntText(den)
  }

  /** The index of the first `c` in `s`, or -1 when there is none. */
  function IndexOf(s: string, c: char): (i: int)
    ensures i == -1 <==> c !in s
    ensures i != -1 ==> 0 <= i < |s| && s[i] == c && c !in s[..i]
  {
    if s == [] then -1
    else if s[0] == c then 0
    else
      var j := IndexOf(s[1..], c);
      if j == -1 then -1
      else
        assert s[..j + 1] == [s[0]] + s[1..][..j];
        j + 1
  }

  /** Reads `num` or `num/den` text back as the numerator and denominator it shows. */
  function ParseFraction(s: string): Option<(int, int)>
  {
    var i := IndexOf(s, '/');
    if i == -1 then
      match ParseInt(s)
      case Some(n) => Some((n, 1))
      case None => None
    else
      match (ParseInt(s[..i]), ParseInt(s[i + 1..]))
      case (Some(n), Some(d)) => Some((n, d))
      case _ => None
  }

  /**
   * The printed fraction reads back as the numerator and denominator it was printed
   * from, and it shows a '/' exactly when the denominator is not 1.
   */
  lemma FormatFractionRoundTrip(num: int, den: int)
    requires den >= 1
    ensures ParseFraction(FormatFraction(num, den)) == Some((num, den))
    ensures '/' in FormatFraction(num, den) <==> den != 1
  {
    IntTextRoundTrip(num);
    IntTextRoundTrip(den);
    var s := FormatFraction(num, den);
    if den != 1 {
      var a := IntText(num);
      assert s[|a|] == '/' && s[..|a|] == a && s[|a| + 1..] == IntText(den);
      assert IndexOf(s, '/') == |a|;
    }
  }

  /** Different fractions print differently. */
  lemma FormatFractionInjective(num1: int, den1: int, num2: int, den2: int)
    requires den1 >= 1 && den2 >= 1
    requires FormatFraction(num1, den1) == FormatFraction(num2, den2)
    ensures num1 == num2 && den1 == den2
  {
    FormatFractionRoundTrip(num1, den1);
    FormatFractionRoundTrip(num2, den2);
  }
}
