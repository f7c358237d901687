/** `Encoding.UTF8.GetBytes` and the UTF-16 `string.Length`, over strings of
    Unicode scalar values, with the proof that the encoding is injective. */
module Utf8 {

  type byte = b: int | 0 <= b < 256

  /** The UTF-8 bytes of one scalar value (section 3 of RFC 3629). */
  function EncodeChar(c: char): (bs: seq<byte>)
    ensures 1 <= |bs| <= 4
    ensures |bs| == SequenceLength(bs[0])
  {
    var n := c as int;
    if n < 0x80 then [n]
    else if n < 0x800 then [0xC0 + n / 0x40, 0x80 + n % 0x40]
    else if n < 0x1_0000 then [0xE0 + n / 0x1000, 0x80 + (n / 0x40) % 0x40, 0x80 + n % 0x40]
    else [0xF0 + n / 0x4_0000, 0x80 + (n / 0x1000) % 0x40, 0x80 + (n / 0x40) % 0x40, 0x80 + n % 0x40]
  }

  /** How many bytes a sequence that starts with `b0` occupies. */
  function SequenceLength(b0: byte): nat {
    if b0 < 0x80 then 1 else if b0 < 0xE0 then 2 else if b0 < 0xF0 then 3 else 4
  }

  /** `Encoding.UTF8.GetBytes(s)`. */
  function Encode(s: string): seq<byte>
    decreases |s|
  {
    if |s| == 0 then [] else EncodeChar(s[0]) + Encode(s[1..])
  }

  /** `string.Length`: UTF-16 code units, two for a scalar value above U+FFFF. */
  function Utf16Length(s: string): nat
    decreases |s|
  {
    if |s| == 0 then 0 else (if s[0] as int >= 0x1_0000 then 2 else 1) + Utf16Length(s[1..])
  }

  lemma Div64(n: int)
    requires n >= 0
    ensures n == (n / 0x40) * 0x40 + n % 0x40
  {
  }

  /** Two scalar values with the same encoding are equal. */
  lemma EncodeCharInjective(c: char, d: char)
    requires EncodeChar(c) == EncodeChar(d)
    ensures c == d
  {
    var n, m := c as int, d as int;
    Div64(n); Div64(m);
    Div64(n / 0x40); Div64(m / 0x40);
    Div64(n / 0x1000); Div64(m / 0x1000);
    assert (n / 0x40) / 0x40 == n / 0x1000;
    assert (m / 0x40) / 0x40 == m / 0x1000;
    assert (n / 0x1000) / 0x40 == n / 0x4_0000;
    assert (m / 0x1000) / 0x40 == m / 0x4_0000;
  }

  /** Two strings with the same UTF-8 bytes are equal. */
  lemma {:induction false} EncodeInjective(a: string, b: string)
    requires Encode(a) == Encode(b)
    ensures a == b
    decreases |a|
  {
    if |a| > 0 && |b| > 0 {
      var ea, eb := EncodeChar(a[0]), EncodeChar(b[0]);
      assert Encode(a)[0] == ea[0] && Encode(b)[0] == eb[0];
      assert |ea| == |eb|;
      assert ea == Encode(a)[..|ea|] && eb == Encode(b)[..|eb|];
      EncodeCharInjective(a[0], b[0]);
      assert Encode(a[1..]) == Encode(a)[|ea|..] && Encode(b[1..]) == Encode(b)[|eb|..];
      EncodeInjective(a[1..], b[1..]);
      assert a == [a[0]] + a[1..] && b == [b[0]] + b[1..];
    }
  }
}
