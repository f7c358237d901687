/** `Uri.EscapeDataString`: percent-encoding of every character outside the
    unreserved set of section 2.3 of RFC 3986, over its UTF-8 bytes, with
    upper-case hexadecimal digits (section 2.1 of RFC 3986). */
module Uri {
  import Utf8

  /** ALPHA / DIGIT / "-" / "." / "_" / "~". */
  predicate IsUnreserved(c: char) {
    ('A' <= c <= 'Z') || ('a' <= c <= 'z') || ('0' <= c <= '9') || c == '-' || c == '.' || c == '_' || c == '~'
  }

  function HexDigit(d: nat): (c: char)
    requires d < 16
    ensures IsUnreserved(c)
  {
    if d < 10 then ('0' as int + d) as char else ('A' as int + d - 10) as char
  }

  /** `%XX` for each byte. */
  function PercentEncode(bs: seq<Utf8.byte>): (r: string)
    ensures forall i :: 0 <= i < |r| ==> IsUnreserved(r[i]) || r[i] == '%'
    decreases |bs|
  {
    if |bs| == 0 then "" else ['%', HexDigit(bs[0] / 16), HexDigit(bs[0] % 16)] + PercentEncode(bs[1..])
  }

  /** The escaped form of `s`: only unreserved characters and percent signs remain,
      so none of the query delimiters `?`, `&`, `=` and `#` can appear in it. */
  function EscapeDataString(s: string): (r: string)
    ensures forall i :: 0 <= i < |r| ==> IsUnreserved(r[i]) || r[i] == '%'
    ensures '&' !in r && '=' !in r && '?' !in r && '#' !in r
    decreases |s|
  {
    if |s| == 0 then ""
    else
      var head := if IsUnreserved(s[0]) then [s[0]] else PercentEncode(Utf8.EncodeChar(s[0]));
      var r := head + EscapeDataString(s[1..]);
      assert forall i :: 0 <= i < |r| ==> IsUnreserved(r[i]) || r[i] == '%' by {
        forall i | 0 <= i < |r| ensures IsUnreserved(r[i]) || r[i] == '%' {
          if i >= |head| { assert r[i] == EscapeDataString(s[1..])[i - |head|]; }
        }
      }
      r
  }

  /** A string made of unreserved characters is its own escaped form. */
  lemma {:induction false} EscapeUnreserved(s: string)
    requires forall i :: 0 <= i < |s| ==> IsUnreserved(s[i])
    ensures EscapeDataString(s) == s
    decreases |s|
  {
    if |s| > 0 {
      EscapeUnreserved(s[1..]);
      assert [s[0]] + s[1..] == s;
    }
  }
}
