/** The .NET string, character and number primitives that the core relies on:
    `char.IsWhiteSpace`, `string.Trim`, `string.Split`/`string.Join`, ordinal
    ignore-case comparison, `long.TryParse`/`int.TryParse` with
    `NumberStyles.Integer`, and invariant decimal formatting of integers. */
module Text {
  import opened Wrappers

  // ---------------------------------------------------------------------------
  // Characters

  /** `char.IsWhiteSpace`: the Unicode separators (Zs, Zl, Zp) plus U+0009..U+000D,
      U+0085 and U+00A0. */
  predicate IsWhiteSpace(c: char) {
    c == ' ' || ('\t' <= c <= '\r') || c == '\U{0085}' || c == '\U{00A0}' || c == '\U{1680}'
    || ('\U{2000}' <= c <= '\U{200A}') || c == '\U{2028}' || c == '\U{2029}'
    || c == '\U{202F}' || c == '\U{205F}' || c == '\U{3000}'
  }

  /** The white space that `NumberStyles.AllowLeadingWhite`/`AllowTrailingWhite` skip. */
  predicate IsNumberSpace(c: char) {
    c == ' ' || ('\t' <= c <= '\r')
  }

  predicate IsDigit(c: char) {
    '0' <= c <= '9'
  }

  /** `char.IsLower`, on the ASCII letters. */
  predicate IsLower(c: char) {
    'a' <= c <= 'z'
  }

  /** `char.ToLowerInvariant`, on the ASCII letters. */
  function ToLower(c: char): (r: char)
    ensures IsLower(r) || r == c
    ensures IsLower(c) ==> r == c
  {
    if 'A' <= c <= 'Z' then (c as int + 32) as char else c
  }

  /** The upper-case mapping that `StringComparison.OrdinalIgnoreCase` applies, on the ASCII letters. */
  function ToUpper(c: char): char {
    if 'a' <= c <= 'z' then (c as int - 32) as char else c
  }

  /** `string.Equals(a, b, StringComparison.OrdinalIgnoreCase)`. */
  predicate EqualsIgnoreCase(a: string, b: string) {
    |a| == |b| && forall i :: 0 <= i < |a| ==> ToUpper(a[i]) == ToUpper(b[i])
  }

  // ---------------------------------------------------------------------------
  // Trimming

  /** Drops the leading characters that satisfy `p`. */
  function TrimStartBy(s: string, p: char -> bool): (r: string)
    ensures |r| <= |s| && r == s[|s| - |r|..]
    ensures r == [] || !p(r[0])
    ensures forall i :: 0 <= i < |s| - |r| ==> p(s[i])
    decreases |s|
  {
    if |s| > 0 && p(s[0]) then TrimStartBy(s[1..], p) else s
  }

  /** Drops the trailing characters that satisfy `p`. */
  function TrimEndBy(s: string, p: char -> bool): (r: string)
    ensures |r| <= |s| && r == s[..|r|]
    ensures r == [] || !p(r[|r| - 1])
    ensures forall i :: |r| <= i < |s| ==> p(s[i])
    decreases |s|
  {
    if |s| > 0 && p(s[|s| - 1]) then TrimEndBy(s[..|s| - 1], p) else s
  }

  /** Drops the characters satisfying `p` at both ends; the result is a slice of `s`. */
  function TrimBy(s: string, p: char -> bool): (r: string)
    ensures exists a, b :: 0 <= a <= b <= |s| && r == s[a..b]
    ensures r == [] || (!p(r[0]) && !p(r[|r| - 1]))
  {
    var t := TrimStartBy(s, p);
    var r := TrimEndBy(t, p);
    assert r == s[|s| - |t|..|s| - |t| + |r|];
    r
  }

  /** `string.Trim()`. */
  function Trim(s: string): string {
    TrimBy(s, IsWhiteSpace)
  }

  /** One padding character at each end of a string whose own ends are not padding
      is all that trimming removes. */
  lemma TrimOnePad(t: string, p: char -> bool, pad: char)
    requires p(pad) && t != [] && !p(t[0]) && !p(t[|t| - 1])
    ensures TrimBy([pad] + t + [pad], p) == t
  {
    var s := [pad] + t + [pad];
    assert s[1..] == t + [pad];
    assert TrimStartBy(s, p) == t + [pad];
    assert (t + [pad])[..|t|] == t;
  }

  /** Trimming leaves alone a string with no white space at its ends. */
  lemma TrimUntouched(s: string)
    requires s == [] || (!IsWhiteSpace(s[0]) && !IsWhiteSpace(s[|s| - 1]))
    ensures Trim(s) == s
  {
    assert TrimStartBy(s, IsWhiteSpace) == s;
  }

  /** A character of a trimmed string occurs in the untrimmed one. */
  lemma TrimSubset(s: string, c: char)
    requires c in Trim(s)
    ensures c in s
  {
    TrimBySubset(s, IsWhiteSpace, c);
  }

  /** Trimming by any predicate keeps only characters of the untrimmed string. */
  lemma TrimBySubset(s: string, p: char -> bool, c: char)
    requires c in TrimBy(s, p)
    ensures c in s
  {
    TrimEndSubset(TrimStartBy(s, p), p, c);
    TrimStartSubset(s, p, c);
  }

  /** Trimming the start keeps only characters of the untrimmed string. */
  lemma TrimStartSubset(s: string, p: char -> bool, c: char)
    requires c in TrimStartBy(s, p)
    ensures c in s
  {
    var r := TrimStartBy(s, p);
    var k := |s| - |r|;
    assert r == s[k..];
    var i :| 0 <= i < |r| && r[i] == c;
    assert s[k + i] == c;
  }

  /** Trimming the end keeps only characters of the untrimmed string. */
  lemma TrimEndSubset(s: string, p: char -> bool, c: char)
    requires c in TrimEndBy(s, p)
    ensures c in s
  {
    var r := TrimEndBy(s, p);
    var i :| 0 <= i < |r| && r[i] == c;
    assert s[i] == c;
  }

  // ---------------------------------------------------------------------------
  // Splitting and joining

  /** `s.Split(sep)` without options: every segment between separators, empty ones included. */
  function Split(s: string, sep: char): (parts: seq<string>)
    ensures |parts| >= 1
    ensures forall i :: 0 <= i < |parts| ==> sep !in parts[i]
    decreases |s|
  {
    if |s| == 0 then [""]
    else
      var rest := Split(s[1..], sep);
      if s[0] == sep then [""] + rest
      else [[s[0]] + rest[0]] + rest[1..]
  }

  /** `string.Join(sep, parts)`. */
  function Join(parts: seq<string>, sep: char): string
    decreases |parts|
  {
    if |parts| == 0 then ""
    else if |parts| == 1 then parts[0]
    else parts[0] + [sep] + Join(parts[1..], sep)
  }

  /** Joining the segments of a split restores the string. */
  lemma {:induction false} JoinSplit(s: string, sep: char)
    ensures Join(Split(s, sep), sep) == s
    decreases |s|
  {
    if |s| > 0 {
      var rest := Split(s[1..], sep);
      JoinSplit(s[1..], sep);
      if s[0] == sep {
        assert s == [sep] + s[1..];
      } else {
        if |rest| == 1 {
          assert s == [s[0]] + s[1..];
        } else {
          assert Split(s, sep)[1..] == rest[1..];
          assert s == [s[0]] + s[1..];
        }
      }
    }
  }

  /** Splitting `p + [sep] + t` where `p` holds no separator yields `p` first. */
  lemma {:induction false} SplitFirst(p: string, sep: char, t: string)
    requires sep !in p
    ensures Split(p + [sep] + t, sep) == [p] + Split(t, sep)
    decreases |p|
  {
    if |p| == 0 {
      assert ([] + [sep] + t)[1..] == t;
    } else {
      SplitFirst(p[1..], sep, t);
      assert (p + [sep] + t)[1..] == p[1..] + [sep] + t;
      assert [p[0]] + p[1..] == p;
    }
  }

  /** Splitting a string without separators yields the string itself. */
  lemma {:induction false} SplitNoSep(p: string, sep: char)
    requires sep !in p
    ensures Split(p, sep) == [p]
    decreases |p|
  {
    if |p| > 0 {
      SplitNoSep(p[1..], sep);
      assert [p[0]] + p[1..] == p;
    }
  }

  /** Splitting a join of separator-free parts gives the parts back. */
  lemma {:induction false} SplitJoin(parts: seq<string>, sep: char)
    requires |parts| >= 1
    requires forall i :: 0 <= i < |parts| ==> sep !in parts[i]
    ensures Split(Join(parts, sep), sep) == parts
    decreases |parts|
  {
    if |parts| == 1 {
      SplitNoSep(parts[0], sep);
    } else {
      SplitJoin(parts[1..], sep);
      SplitFirst(parts[0], sep, Join(parts[1..], sep));
      assert [parts[0]] + parts[1..] == parts;
    }
  }

  /** `StringSplitOptions.RemoveEmptyEntries`: the non-empty segments, in order. */
  function NonEmpty(parts: seq<string>): (r: seq<string>)
    ensures forall i :: 0 <= i < |r| ==> r[i] != "" && r[i] in parts
    ensures forall p :: p in parts && p != "" ==> p in r
  {
    if |parts| == 0 then []
    else (if parts[0] == "" then [] else [parts[0]]) + NonEmpty(parts[1..])
  }

  // ---------------------------------------------------------------------------
  // Decimal integers

  function DigitValue(c: char): nat
    requires IsDigit(c)
  {
    c as int - '0' as int
  }

  function DigitChar(d: nat): (c: char)
    requires d < 10
    ensures IsDigit(c) && DigitValue(c) == d
  {
    ('0' as int + d) as char
  }

  predicate AllDigits(s: string) {
    forall i :: 0 <= i < |s| ==> IsDigit(s[i])
  }

  /** The value of a string of decimal digits, most significant first. */
  function DigitsValue(s: string): nat
    requires AllDigits(s)
    decreases |s|
  {
    if |s| == 0 then 0 else DigitsValue(s[..|s| - 1]) * 10 + DigitValue(s[|s| - 1])
  }

  /** The shortest decimal digits of `n`. */
  function NatDigits(n: nat): (s: string)
    ensures |s| >= 1 && AllDigits(s)
    ensures DigitsValue(s) == n
  {
    if n < 10 then [DigitChar(n)]
    else
      var s := NatDigits(n / 10) + [DigitChar(n % 10)];
      assert s[..|s| - 1] == NatDigits(n / 10);
      s
  }

  /** `n.ToString()` under the invariant culture: a minus sign and the digits. */
  function DecimalString(n: int): (s: string)
    ensures |s| >= 1 && !IsNumberSpace(s[0]) && !IsNumberSpace(s[|s| - 1])
    ensures (IsDigit(s[0]) || s[0] == '-') && IsDigit(s[|s| - 1])
  {
    if n < 0 then "-" + NatDigits(-n) else NatDigits(n)
  }

  /** An optional sign and at least one digit, with no white space, in [lo, hi]. */
  function ParseSigned(t: string, lo: int, hi: int): (r: Option<int>)
    ensures r.Some? ==> lo <= r.value <= hi
  {
    if |t| == 0 then None
    else
      var digits := if t[0] == '-' || t[0] == '+' then t[1..] else t;
      if |digits| == 0 || !AllDigits(digits) then None
      else
        var v: int := if t[0] == '-' then -(DigitsValue(digits) as int) else DigitsValue(digits);
        if lo <= v <= hi then Some(v) else None
  }

  predicate IsNul(c: char) {
    c == '\0'
  }

  /** `TryParse` with `NumberStyles.Integer` into the range [lo, hi]:
      `[ws][sign]digits[ws]` followed by any number of NUL characters, which the
      .NET parser accepts at the very end; failing on anything else or on overflow. */
  function ParseInteger(s: string, lo: int, hi: int): (r: Option<int>)
    ensures r.Some? ==> lo <= r.value <= hi
  {
    ParseSigned(TrimBy(TrimEndBy(s, IsNul), IsNumberSpace), lo, hi)
  }

  /** A NUL at the end of the text does not change what it parses to. */
  lemma TrailingNulIgnored(s: string, lo: int, hi: int)
    ensures ParseInteger(s + ['\0'], lo, hi) == ParseInteger(s, lo, hi)
  {
    TrailingNulTrimmed(s);
  }

  /** Trimming the NULs off the end removes an appended NUL. */
  lemma TrailingNulTrimmed(s: string)
    ensures TrimEndBy(s + ['\0'], IsNul) == TrimEndBy(s, IsNul)
  {
    var t := s + ['\0'];
    assert IsNul(t[|t| - 1]);
    assert t[..|t| - 1] == s;
  }

  /** Text whose last character `p` does not hold for keeps its end. */
  lemma EndKept(s: string, p: char -> bool)
    requires s != [] && !p(s[|s| - 1])
    ensures TrimEndBy(s, p) == s
  {
  }

  /** One trimmable character after text with no trimmable ends is all that is trimmed. */
  lemma TrimOneEnd(t: string, p: char -> bool, pad: char)
    requires p(pad) && t != [] && !p(t[0]) && !p(t[|t| - 1])
    ensures TrimBy(t + [pad], p) == t
  {
    var s := t + [pad];
    assert TrimStartBy(s, p) == s by { assert s[0] == t[0]; }
    assert s[..|s| - 1] == t;
  }

  /** Text with no trimmable ends is left as it is. */
  lemma TrimNothing(t: string, p: char -> bool)
    requires t != [] && !p(t[0]) && !p(t[|t| - 1])
    ensures TrimBy(t, p) == t
  {
    assert TrimStartBy(t, p) == t;
  }

  /** `"1 "` trims to `"1"`. */
  lemma OneSpaceTrimmed()
    ensures TrimBy(TrimEndBy("1 ", IsNul), IsNumberSpace) == "1"
  {
    var t := "1";
    assert t + [' '] == "1 ";
    EndKept(t + [' '], IsNul);
    TrimOneEnd(t, IsNumberSpace, ' ');
  }

  /** `"1"` is the number 1. */
  lemma OneParses()
    ensures ParseSigned("1", Int32Min, Int32Max) == Some(1)
  {
    assert DigitsValue("1") == 1 by { assert "1"[..0] == ""; }
  }

  /** A NUL after the trailing white space is accepted: `"1 \0"` parses as 1. */
  lemma NulAfterSpace()
    ensures ParseInteger("1 \0", Int32Min, Int32Max) == Some(1)
  {
    TrailingNulIgnored("1 ", Int32Min, Int32Max);
    assert "1 " + ['\0'] == "1 \0";
    OneSpaceTrimmed();
    OneParses();
  }

  /** `"1\0 "` trims to `"1\0"`: a NUL is no white space. */
  lemma NulSpaceTrimmed()
    ensures TrimBy(TrimEndBy("1\0 ", IsNul), IsNumberSpace) == "1\0"
  {
    var t := "1\0";
    assert t + [' '] == "1\0 ";
    EndKept(t + [' '], IsNul);
    TrimOneEnd(t, IsNumberSpace, ' ');
  }

  /** White space after a NUL is not: `"1\0 \0"` does not parse. */
  lemma NulBeforeSpace()
    ensures ParseInteger("1\0 \0", Int32Min, Int32Max).None?
  {
    TrailingNulIgnored("1\0 ", Int32Min, Int32Max);
    assert "1\0 " + ['\0'] == "1\0 \0";
    NulSpaceTrimmed();
    NulIsNoDigit();
  }

  /** `"1\0"` is no number. */
  lemma NulIsNoDigit()
    ensures ParseSigned("1\0", Int32Min, Int32Max).None?
  {
    assert !IsDigit("1\0"[1]);
  }

  /** Nor is a leading NUL: `"\01"` does not parse. */
  lemma LeadingNul()
    ensures ParseInteger("\01", Int32Min, Int32Max).None?
  {
    LeadingNulKept();
    NoSignNoDigit("\01", Int32Min, Int32Max);
  }

  /** `"\01"` is left as it is by both trims. */
  lemma LeadingNulKept()
    ensures TrimBy(TrimEndBy("\01", IsNul), IsNumberSpace) == "\01"
  {
    var t := "\01";
    EndKept(t, IsNul);
    TrimNothing(t, IsNumberSpace);
  }

  /** Text starting with neither a sign nor a digit is no number. */
  lemma NoSignNoDigit(t: string, lo: int, hi: int)
    requires t != [] && !IsDigit(t[0]) && t[0] != '-' && t[0] != '+'
    ensures ParseSigned(t, lo, hi).None?
  {
    assert !AllDigits(t);
  }


  const Int32Min: int := -0x8000_0000
  const Int32Max: int := 0x7FFF_FFFF
  const Int64Min: int := -0x8000_0000_0000_0000
  const Int64Max: int := 0x7FFF_FFFF_FFFF_FFFF

  /** Formatting then parsing an in-range integer gives it back. */
  lemma ParseDecimalString(n: int, lo: int, hi: int)
    requires lo <= n <= hi
    ensures ParseInteger(DecimalString(n), lo, hi) == Some(n)
    ensures ParseSigned(DecimalString(n), lo, hi) == Some(n)
  {
    var s := DecimalString(n);
    EndKept(s, IsNul);
    TrimNothing(s, IsNumberSpace);
    SignedDecimalString(n, lo, hi);
  }

  /** The decimal text of an in-range integer, sign included, is read back as it. */
  lemma SignedDecimalString(n: int, lo: int, hi: int)
    requires lo <= n <= hi
    ensures ParseSigned(DecimalString(n), lo, hi) == Some(n)
  {
    if n < 0 {
      assert DecimalString(n)[1..] == NatDigits(-n);
    }
  }
}
