/**
 * UTF-8 as the streamers use it: `str.encode('utf-8')` and the strict
 * `bytes.decode('utf-8')`, which accepts exactly the well-formed byte
 * sequences of section 4 of RFC 3629 ("Syntax of UTF-8 Byte Sequences").
 */
module Utf8 {

  newtype byte = x: int | 0 <= x < 256

  predicate IsTail(b: byte) { 0x80 <= b <= 0xBF }

  /** Number of bytes announced by a lead byte (the first byte of each row of section 4), 0 for a byte that cannot start a character. */
  function LeadLength(b0: byte): (n: nat)
    ensures n <= 4
  {
    if b0 <= 0x7F then 1
    else if 0xC2 <= b0 <= 0xDF then 2
    else if 0xE0 <= b0 <= 0xEF then 3
    else if 0xF0 <= b0 <= 0xF4 then 4
    else 0
  }

  /** The range section 4 allows for the second byte after lead byte `b0`. */
  predicate SecondOk(b0: byte, b1: byte)
  {
    if b0 == 0xE0 then 0xA0 <= b1 <= 0xBF
    else if b0 == 0xED then 0x80 <= b1 <= 0x9F
    else if b0 == 0xF0 then 0x90 <= b1 <= 0xBF
    else if b0 == 0xF4 then 0x80 <= b1 <= 0x8F
    else IsTail(b1)
  }

  /** Length of the well-formed UTF-8 character at the start of `s`, or 0 if `s` does not start with one. */
  function FirstLength(s: seq<byte>): (n: nat)
    ensures n <= |s| && n <= 4
    ensures n > 0 ==> |s| > 0 && n == LeadLength(s[0])
  {
    if |s| == 0 then 0
    else
      var n := LeadLength(s[0]);
      if n == 0 || |s| < n then 0
      else if n == 1 then 1
      else if !SecondOk(s[0], s[1]) then 0
      else if n >= 3 && !IsTail(s[2]) then 0
      else if n == 4 && !IsTail(s[3]) then 0
      else n
  }

  /** The code point of the well-formed character at the start of `s`. */
  function FirstChar(s: seq<byte>): (c: char)
    requires FirstLength(s) > 0
  {
    var n := FirstLength(s);
    var cp :=
      if n == 1 then s[0] as int
      else if n == 2 then (s[0] as int - 0xC0) * 64 + (s[1] as int - 0x80)
      else if n == 3 then (s[0] as int - 0xE0) * 4096 + (s[1] as int - 0x80) * 64 + (s[2] as int - 0x80)
      else (s[0] as int - 0xF0) * 262144 + (s[1] as int - 0x80) * 4096 + (s[2] as int - 0x80) * 64 + (s[3] as int - 0x80);
    cp as char
  }

  /** `s` is a concatenation of well-formed UTF-8 characters: `s.decode('utf-8')` succeeds. */
  predicate Valid(s: seq<byte>)
    decreases |s|
  {
    s == [] || (FirstLength(s) > 0 && Valid(s[FirstLength(s)..]))
  }

  function Decode(s: seq<byte>): (t: seq<char>)
    requires Valid(s)
    ensures |t| <= |s|
    decreases |s|
  {
    if s == [] then [] else [FirstChar(s)] + Decode(s[FirstLength(s)..])
  }

  /** The UTF-8 encoding of one scalar value, as in the table of section 3 of RFC 3629. */
  function EncodeChar(c: char): (b: seq<byte>)
  {
    var cp := c as int;
    if cp < 0x80 then [cp as byte]
    else if cp < 0x800 then [(0xC0 + cp / 64) as byte, (0x80 + cp % 64) as byte]
    else if cp < 0x10000 then
      [(0xE0 + cp / 4096) as byte, (0x80 + (cp / 64) % 64) as byte, (0x80 + cp % 64) as byte]
    else
      [(0xF0 + cp / 262144) as byte, (0x80 + (cp / 4096) % 64) as byte,
       (0x80 + (cp / 64) % 64) as byte, (0x80 + cp % 64) as byte]
  }

  /** `t.encode('utf-8')`. */
  function Encode(t: seq<char>): (b: seq<byte>)
    ensures |b| >= |t|
  {
    if t == [] then [] else EncodeChar(t[0]) + Encode(t[1..])
  }

  /** The first character of a well-formed sequence is read from its first `FirstLength` bytes only. */
  lemma FirstOfPrefix(s: seq<byte>, rest: seq<byte>)
    requires FirstLength(s) > 0
    ensures FirstLength(s[..FirstLength(s)] + rest) == FirstLength(s)
    ensures FirstChar(s[..FirstLength(s)] + rest) == FirstChar(s)
  {
    var n := FirstLength(s);
    var u := s[..n] + rest;
    assert forall i :: 0 <= i < n ==> u[i] == s[i];
  }

  /** Facts about the digits of a code point in base 64 that the encodings below use. */
  lemma Base64Digits(cp: nat)
    ensures cp == (cp / 64) * 64 + cp % 64
    ensures cp / 4096 == (cp / 64) / 64 && cp / 262144 == (cp / 4096) / 64
    ensures (cp / 64) == (cp / 4096) * 64 + (cp / 64) % 64
    ensures (cp / 4096) == (cp / 262144) * 64 + (cp / 4096) % 64
  {
  }

  lemma EncodeCharFirst2(c: char, rest: seq<byte>)
    requires 0x80 <= c as int < 0x800
    ensures FirstLength(EncodeChar(c) + rest) == 2
    ensures FirstChar(EncodeChar(c) + rest) == c
  {
    var cp := c as int;
    Base64Digits(cp);
    var u := EncodeChar(c) + rest;
    var hi, lo := cp / 64, cp % 64;
    assert 2 <= hi < 32 && 0 <= lo < 64;
    assert u[0] as int == 0xC0 + hi && u[1] as int == 0x80 + lo;
  }

  lemma EncodeCharFirst3(c: char, rest: seq<byte>)
    requires 0x800 <= c as int < 0x10000
    ensures FirstLength(EncodeChar(c) + rest) == 3
    ensures FirstChar(EncodeChar(c) + rest) == c
  {
    var cp := c as int;
    Base64Digits(cp);
    var u := EncodeChar(c) + rest;
    var a, b, d := cp / 4096, (cp / 64) % 64, cp % 64;
    assert cp == a * 4096 + b * 64 + d;
    assert 0 <= a < 16 && 0 <= b < 64 && 0 <= d < 64;
    assert a == 0 ==> b >= 32;
    assert a == 13 ==> b < 32;
    assert u[0] as int == 0xE0 + a && u[1] as int == 0x80 + b && u[2] as int == 0x80 + d;
  }

  lemma EncodeCharFirst4(c: char, rest: seq<byte>)
    requires 0x10000 <= c as int
    ensures FirstLength(EncodeChar(c) + rest) == 4
    ensures FirstChar(EncodeChar(c) + rest) == c
  {
    var cp := c as int;
    Base64Digits(cp);
    var u := EncodeChar(c) + rest;
    var a, b, d, e := cp / 262144, (cp / 4096) % 64, (cp / 64) % 64, cp % 64;
    assert cp == a * 262144 + b * 4096 + d * 64 + e;
    assert 0 <= a < 5 && 0 <= b < 64 && 0 <= d < 64 && 0 <= e < 64;
    assert a == 0 ==> b >= 16;
    assert a == 4 ==> b < 16;
    assert u[0] as int == 0xF0 + a && u[1] as int == 0x80 + b;
    assert u[2] as int == 0x80 + d && u[3] as int == 0x80 + e;
  }

  /** Every scalar value is encoded as one well-formed character, which decodes back to it. */
  lemma EncodeCharFirst(c: char, rest: seq<byte>)
    ensures FirstLength(EncodeChar(c) + rest) == |EncodeChar(c)|
    ensures FirstChar(EncodeChar(c) + rest) == c
  {
    var cp := c as int;
    if cp < 0x80 {
    } else if cp < 0x800 {
      EncodeCharFirst2(c, rest);
    } else if cp < 0x10000 {
      EncodeCharFirst3(c, rest);
    } else {
      EncodeCharFirst4(c, rest);
    }
  }

  /** `t.encode('utf-8').decode('utf-8') == t`: encoding never fails to decode, and decodes to its input. */
  lemma {:induction false} EncodeDecode(t: seq<char>)
    ensures Valid(Encode(t))
    ensures Decode(Encode(t)) == t
  {
    if t != [] {
      var e := EncodeChar(t[0]);
      EncodeCharFirst(t[0], Encode(t[1..]));
      assert (e + Encode(t[1..]))[|e|..] == Encode(t[1..]);
      EncodeDecode(t[1..]);
    }
  }

  /** The concatenation of well-formed sequences is well-formed, its first character that of the left part. */
  lemma {:induction false} ValidAppend(a: seq<byte>, b: seq<byte>)
    requires Valid(a) && Valid(b)
    ensures Valid(a + b)
    ensures a != [] ==> FirstLength(a + b) == FirstLength(a) && FirstChar(a + b) == FirstChar(a)
    ensures a != [] ==> (a + b)[FirstLength(a)..] == a[FirstLength(a)..] + b
    decreases |a|
  {
    if a == [] {
      assert a + b == b;
    } else {
      var n := FirstLength(a);
      var u := a + b;
      FirstOfPrefix(a, a[n..] + b);
      assert a[..n] + (a[n..] + b) == u;
      assert u[n..] == a[n..] + b;
      ValidAppend(a[n..], b);
    }
  }

  /** Decoding distributes over concatenation. */
  lemma {:induction false} DecodeAppend(a: seq<byte>, b: seq<byte>)
    requires Valid(a) && Valid(b)
    ensures Valid(a + b)
    ensures Decode(a + b) == Decode(a) + Decode(b)
    decreases |a|
  {
    ValidAppend(a, b);
    if a == [] {
      assert a + b == b;
    } else {
      DecodeAppend(a[FirstLength(a)..], b);
      DecodeAppendStep(a, b);
    }
  }

  /** One step of DecodeAppend: from the rest of `a` to `a` itself. */
  lemma DecodeAppendStep(a: seq<byte>, b: seq<byte>)
    requires a != [] && Valid(a) && Valid(b)
    requires Valid(a[FirstLength(a)..] + b)
    requires Decode(a[FirstLength(a)..] + b) == Decode(a[FirstLength(a)..]) + Decode(b)
    ensures Valid(a + b)
    ensures Decode(a + b) == Decode(a) + Decode(b)
  {
    ValidAppend(a, b);
  }

  /** A well-formed sequence is the encoding of what it decodes to. */
  lemma {:induction false} DecodeEncode(s: seq<byte>)
    requires Valid(s)
    ensures Encode(Decode(s)) == s
    decreases |s|
  {
    if s != [] {
      var n := FirstLength(s);
      var c := FirstChar(s);
      EncodeCharFirst(c, []);
      assert EncodeChar(c) + [] == EncodeChar(c);
      FirstCharDetermines(s);
      DecodeEncode(s[n..]);
      assert s == s[..n] + s[n..];
    }
  }

  lemma FirstCharDetermines2(s: seq<byte>)
    requires FirstLength(s) == 2
    ensures EncodeChar(FirstChar(s)) == s[..2]
  {
    var cp := FirstChar(s) as int;
    var hi, lo := s[0] as int - 0xC0, s[1] as int - 0x80;
    assert cp == hi * 64 + lo && 0 <= lo < 64;
    assert cp / 64 == hi && cp % 64 == lo;
  }

  lemma FirstCharDetermines3(s: seq<byte>)
    requires FirstLength(s) == 3
    ensures EncodeChar(FirstChar(s)) == s[..3]
  {
    var cp := FirstChar(s) as int;
    Base64Digits(cp);
    var a, b, d := s[0] as int - 0xE0, s[1] as int - 0x80, s[2] as int - 0x80;
    assert cp == a * 4096 + b * 64 + d && 0 <= b < 64 && 0 <= d < 64;
    assert cp % 64 == d && cp / 64 == a * 64 + b;
    assert cp / 4096 == a && (cp / 64) % 64 == b;
  }

  lemma FirstCharDetermines4(s: seq<byte>)
    requires FirstLength(s) == 4
    ensures EncodeChar(FirstChar(s)) == s[..4]
  {
    var cp := FirstChar(s) as int;
    Base64Digits(cp);
    var a, b, d, e := s[0] as int - 0xF0, s[1] as int - 0x80, s[2] as int - 0x80, s[3] as int - 0x80;
    assert cp == a * 262144 + b * 4096 + d * 64 + e && 0 <= b < 64 && 0 <= d < 64 && 0 <= e < 64;
    assert cp % 64 == e && cp / 64 == a * 4096 + b * 64 + d;
    assert (cp / 64) % 64 == d && cp / 4096 == a * 64 + b;
    assert (cp / 4096) % 64 == b && cp / 262144 == a;
  }

  /** The first `FirstLength(s)` bytes of `s` are exactly the encoding of its first character. */
  lemma FirstCharDetermines(s: seq<byte>)
    requires FirstLength(s) > 0
    ensures EncodeChar(FirstChar(s)) == s[..FirstLength(s)]
  {
    var n := FirstLength(s);
    if n == 2 {
      FirstCharDetermines2(s);
    } else if n == 3 {
      FirstCharDetermines3(s);
    } else if n == 4 {
      FirstCharDetermines4(s);
    }
  }
}
