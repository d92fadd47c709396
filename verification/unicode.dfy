/** How the engine's libraries measure a string. The model's strings are sequences
    of Unicode code points; JavaScript's `length` counts UTF-16 code units, and
    bcrypt reads the UTF-8 bytes. */
module Unicode {

  /** The UTF-16 code units of one code point: a code point above U+FFFF is
      written as a surrogate pair. */
  function Utf16Units(c: char): nat {
    if c as int > 0xFFFF then 2 else 1
  }

  /** `s.length` in JavaScript: the number of UTF-16 code units. */
  function Utf16Length(s: string): (n: nat)
    ensures |s| <= n <= 2 * |s|
  {
    if |s| == 0 then 0 else Utf16Units(s[0]) + Utf16Length(s[1..])
  }

  /** The length of a concatenation is the sum of the lengths. */
  lemma {:induction false} Utf16LengthAppend(a: string, b: string)
    ensures Utf16Length(a + b) == Utf16Length(a) + Utf16Length(b)
    decreases |a|
  {
    if |a| > 0 {
      assert (a + b)[0] == a[0] && (a + b)[1..] == a[1..] + b;
      Utf16LengthAppend(a[1..], b);
    } else {
      assert a + b == b;
    }
  }

  /** Below U+10000 every code point is one code unit, so the JavaScript length is
      the number of code points. */
  lemma {:induction false} BmpLength(s: string)
    requires forall i :: 0 <= i < |s| ==> s[i] as int <= 0xFFFF
    ensures Utf16Length(s) == |s|
    decreases |s|
  {
    if |s| > 0 {
      BmpLength(s[1..]);
    }
  }

  /** Three emoji are six code units: `length` sees six characters. */
  lemma ThreeEmojiAreSixUnits()
    ensures Utf16Length("\U{1F600}\U{1F600}\U{1F600}") == 6
  {
    var e := "\U{1F600}\U{1F600}\U{1F600}";
    assert e[1..][1..][1..] == [];
  }

  /** The UTF-8 encoding of one code point: one byte below U+0080, then two,
      three or four, the lead byte saying how many follow. */
  function EncodePoint(c: char): (b: seq<nat>)
    ensures 1 <= |b| <= 4
    ensures forall i :: 0 <= i < |b| ==> b[i] < 256
    ensures |b| == 1 <==> c as int < 0x80
  {
    var n := c as int;
    if n < 0x80 then [n]
    else if n < 0x800 then [0xC0 + n / 64, 0x80 + n % 64]
    else if n < 0x10000 then [0xE0 + n / 4096, 0x80 + n / 64 % 64, 0x80 + n % 64]
    else [0xF0 + n / 262144, 0x80 + n / 4096 % 64, 0x80 + n / 64 % 64, 0x80 + n % 64]
  }

  /** The number of bytes a sequence starting with lead byte `b0` encodes. */
  function LeadLength(b0: nat): nat {
    if b0 < 0x80 then 1 else if b0 < 0xE0 then 2 else if b0 < 0xF0 then 3 else 4
  }

  /** The lead byte of an encoded code point says how long its encoding is. */
  lemma LeadSaysLength(c: char)
    ensures LeadLength(EncodePoint(c)[0]) == |EncodePoint(c)|
  {
  }

  /** Distinct code points have distinct encodings. */
  lemma EncodePointInjective(a: char, b: char)
    requires EncodePoint(a) == EncodePoint(b)
    ensures a == b
  {
    var x, y := a as int, b as int;
    var e := EncodePoint(a);
    if |e| == 2 {
      Digits64(x, 1);
      Digits64(y, 1);
    } else if |e| == 3 {
      Digits64(x, 2);
      Digits64(y, 2);
    } else if |e| == 4 {
      Digits64(x, 3);
      Digits64(y, 3);
    }
  }

  /** Splitting a number into base-64 digits: the quotient by 64^k and the k
      digits below it determine the number. */
  lemma Digits64(x: int, k: nat)
    requires 0 <= x && 1 <= k <= 3
    ensures k == 1 ==> x == 64 * (x / 64) + x % 64
    ensures k == 2 ==> x == 4096 * (x / 4096) + 64 * (x / 64 % 64) + x % 64
    ensures k == 3 ==> x == 262144 * (x / 262144) + 4096 * (x / 4096 % 64) + 64 * (x / 64 % 64) + x % 64
  {
    var q1 := x / 64;
    assert x == 64 * q1 + x % 64;
    if k >= 2 {
      assert q1 / 64 == x / 4096;
      assert q1 == 64 * (q1 / 64) + q1 % 64;
    }
    if k == 3 {
      var q2 := x / 4096;
      assert q2 / 64 == x / 262144;
      assert q2 % 64 == x / 4096 % 64;
      assert q2 == 64 * (q2 / 64) + q2 % 64;
    }
  }

  /** `Buffer.from(s, 'utf8')`: the bytes of the code points, in order. */
  function Utf8(s: string): (b: seq<nat>)
    ensures |s| <= |b| <= 4 * |s|
    ensures |s| > 0 ==> |b| > 0
  {
    if |s| == 0 then [] else EncodePoint(s[0]) + Utf8(s[1..])
  }

  /** The encoding of a concatenation is the concatenation of the encodings. */
  lemma {:induction false} Utf8Append(a: string, b: string)
    ensures Utf8(a + b) == Utf8(a) + Utf8(b)
    decreases |a|
  {
    if |a| > 0 {
      assert (a + b)[0] == a[0] && (a + b)[1..] == a[1..] + b;
      Utf8Append(a[1..], b);
    } else {
      assert a + b == b;
    }
  }

  /** The encoding loses nothing: two strings with the same bytes are the same string. */
  lemma {:induction false} Utf8Injective(a: string, b: string)
    requires Utf8(a) == Utf8(b)
    ensures a == b
    decreases |a|
  {
    if |a| > 0 && |b| > 0 {
      var ea, eb := EncodePoint(a[0]), EncodePoint(b[0]);
      assert Utf8(a) == ea + Utf8(a[1..]) && Utf8(b) == eb + Utf8(b[1..]);
      LeadSaysLength(a[0]);
      LeadSaysLength(b[0]);
      assert ea[0] == Utf8(a)[0] == eb[0];
      assert ea == Utf8(a)[..|ea|] == Utf8(b)[..|eb|] == eb;
      EncodePointInjective(a[0], b[0]);
      assert Utf8(a[1..]) == Utf8(a)[|ea|..] == Utf8(b)[|eb|..] == Utf8(b[1..]);
      Utf8Injective(a[1..], b[1..]);
      assert a == [a[0]] + a[1..] && b == [b[0]] + b[1..];
    }
  }

  /** An ASCII string is one byte per character. */
  lemma {:induction false} AsciiUtf8(s: string)
    requires forall i :: 0 <= i < |s| ==> s[i] as int < 0x80
    ensures |Utf8(s)| == |s|
    decreases |s|
  {
    if |s| > 0 {
      AsciiUtf8(s[1..]);
    }
  }
}
