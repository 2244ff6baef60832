/**
 * Text as Rust sees it: `char` is a Unicode scalar value, `str` is UTF-8, and
 * `char::is_whitespace` is the Unicode White_Space property. Code that works
 * with byte offsets uses `Bytes`; code that does not uses `string`.
 */
module Text {
  import opened Wrappers
  import opened Seqs

  newtype byte = x: int | 0 <= x < 256
  type Bytes = seq<byte>

  /** `char::is_whitespace`: the characters with the Unicode White_Space property. */
  predicate IsWhitespace(c: char)
  {
    ('\t' <= c <= '\r') || c == ' ' || c == '\U{0085}' || c == '\U{00A0}' || c == '\U{1680}'
    || ('\U{2000}' <= c <= '\U{200A}') || c == '\U{2028}' || c == '\U{2029}' || c == '\U{202F}'
    || c == '\U{205F}' || c == '\U{3000}'
  }

  predicate AllWhitespace(s: string)
  {
    forall i :: 0 <= i < |s| ==> IsWhitespace(s[i])
  }

  /** `str::trim_end`. */
  function TrimEnd(s: string): (r: string)
    ensures StartsWith(s, r) && AllWhitespace(s[|r|..])
    ensures r == [] || !IsWhitespace(r[|r| - 1])
  {
    if s != [] && IsWhitespace(s[|s| - 1]) then TrimEnd(s[..|s| - 1]) else s
  }

  /** `str::trim_start`. */
  function TrimStart(s: string): (r: string)
    ensures EndsWith(s, r) && AllWhitespace(s[..|s| - |r|])
    ensures r == [] || !IsWhitespace(r[0])
  {
    if s != [] && IsWhitespace(s[0]) then
      var r := TrimStart(s[1..]);
      TrimStartStep(s, r);
      r
    else s
  }

  /** A whitespace character in front of what `trim_start` skips is skipped too. */
  lemma TrimStartStep(s: string, r: string)
    requires s != [] && IsWhitespace(s[0])
    requires EndsWith(s[1..], r) && AllWhitespace(s[1..][..|s| - 1 - |r|])
    ensures EndsWith(s, r) && AllWhitespace(s[..|s| - |r|])
  {
    var skipped := s[..|s| - |r|];
    assert s[|s| - |r|..] == s[1..][|s| - 1 - |r|..];
    forall i | 0 <= i < |skipped|
      ensures IsWhitespace(skipped[i])
    {
      if i > 0 {
        assert skipped[i] == s[1..][..|s| - 1 - |r|][i - 1];
      }
    }
  }

  /** `str::strip_prefix`. */
  function StripPrefix<T(==)>(s: seq<T>, prefix: seq<T>): (r: Option<seq<T>>)
    ensures r.Some? <==> StartsWith(s, prefix)
    ensures r.Some? ==> s == prefix + r.value
  {
    if StartsWith(s, prefix) then Some(s[|prefix|..]) else None
  }

  /** `str::strip_suffix`. */
  function StripSuffix<T(==)>(s: seq<T>, suffix: seq<T>): (r: Option<seq<T>>)
    ensures r.Some? <==> EndsWith(s, suffix)
    ensures r.Some? ==> s == r.value + suffix
  {
    if EndsWith(s, suffix) then Some(s[..|s| - |suffix|]) else None
  }

  lemma StripPrefixConcat<T>(prefix: seq<T>, t: seq<T>)
    ensures StripPrefix(prefix + t, prefix) == Some(t)
  {
    assert (prefix + t)[..|prefix|] == prefix;
  }

  lemma StripSuffixConcat<T>(t: seq<T>, suffix: seq<T>)
    ensures StripSuffix(t + suffix, suffix) == Some(t)
  {
    assert (t + suffix)[|t|..] == suffix;
  }

  /** `char::len_utf8`. */
  function CharWidth(c: char): (w: nat)
    ensures 1 <= w <= 4
  {
    var n := c as int;
    if n < 0x80 then 1 else if n < 0x800 then 2 else if n < 0x10000 then 3 else 4
  }

  /** `str::len`: the length of the UTF-8 encoding. */
  function Utf8Len(s: string): (n: nat)
    ensures n >= |s|
  {
    if s == [] then 0 else CharWidth(s[0]) + Utf8Len(s[1..])
  }

  /** The UTF-8 encoding of one character. */
  function EncodeChar(c: char): (r: Bytes)
    ensures |r| == CharWidth(c)
  {
    var n := c as int;
    if n < 0x80 then [n as byte]
    else if n < 0x800 then [(0xC0 + n / 64) as byte, (0x80 + n % 64) as byte]
    else if n < 0x10000 then [(0xE0 + n / 4096) as byte, (0x80 + (n / 64) % 64) as byte, (0x80 + n % 64) as byte]
    else [(0xF0 + n / 262144) as byte, (0x80 + (n / 4096) % 64) as byte, (0x80 + (n / 64) % 64) as byte, (0x80 + n % 64) as byte]
  }

  /** The UTF-8 encoding of a string: the bytes of a `str`. */
  function Str(s: string): (r: Bytes)
    ensures |r| == Utf8Len(s)
  {
    if s == [] then [] else EncodeChar(s[0]) + Str(s[1..])
  }

  /** The bytes of an ASCII literal. */
  function Ascii(s: string): (r: Bytes)
    requires forall i :: 0 <= i < |s| ==> s[i] as int < 0x80
    ensures |r| == |s| && forall i :: 0 <= i < |s| ==> r[i] as int == s[i] as int
  {
    seq(|s|, i requires 0 <= i < |s| => s[i] as int as byte)
  }

  /** For ASCII text the literal's bytes are its UTF-8 encoding. */
  lemma {:induction false} AsciiIsStr(s: string)
    requires forall i :: 0 <= i < |s| ==> s[i] as int < 0x80
    ensures Ascii(s) == Str(s)
  {
    if s != [] {
      AsciiIsStr(s[1..]);
      assert Ascii(s) == [s[0] as int as byte] + Ascii(s[1..]);
    }
  }

  /** `str::is_char_boundary`: the offset does not fall on a continuation byte. */
  predicate IsCharBoundary(s: Bytes, i: nat)
  {
    i == 0 || i == |s| || (i < |s| && !(0x80 <= s[i] < 0xC0))
  }

  /** The length of the encoding of a whitespace character at the start of `s`, or 0. */
  function WhitespaceAt(s: Bytes): (n: nat)
    ensures n <= 3 && n <= |s|
  {
    if |s| >= 1 && ((9 <= s[0] <= 13) || s[0] == 32) then 1
    else if |s| >= 2 && s[0] == 0xC2 && (s[1] == 0x85 || s[1] == 0xA0) then 2
    else if |s| >= 3 && s[0] == 0xE1 && s[1] == 0x9A && s[2] == 0x80 then 3
    else if |s| >= 3 && s[0] == 0xE2 && s[1] == 0x80
         && ((0x80 <= s[2] <= 0x8A) || s[2] == 0xA8 || s[2] == 0xA9 || s[2] == 0xAF) then 3
    else if |s| >= 3 && s[0] == 0xE2 && s[1] == 0x81 && s[2] == 0x9F then 3
    else if |s| >= 3 && s[0] == 0xE3 && s[1] == 0x80 && s[2] == 0x80 then 3
    else 0
  }

  /** The byte-level whitespace test agrees with `IsWhitespace` on every encoded character. */
  lemma WhitespaceAtEncoding(c: char, rest: Bytes)
    ensures WhitespaceAt(EncodeChar(c) + rest) == if IsWhitespace(c) then CharWidth(c) else 0
  {
    var n := c as int;
    var e := EncodeChar(c) + rest;
    if 0x800 <= n < 0x10000 {
      var q := n / 4096;
      var m := (n / 64) % 64;
      var l := n % 64;
      assert n == q * 4096 + m * 64 + l;
      assert e[0] as int == 0xE0 + q && e[1] as int == 0x80 + m && e[2] as int == 0x80 + l;
    } else if 0x80 <= n < 0x800 {
      assert n == (n / 64) * 64 + n % 64;
    } else if n >= 0x10000 {
      assert e[0] as int >= 0xF0;
    }
  }

  /** How many bytes `str::trim_start` removes. */
  function TrimStartLen(s: Bytes): (n: nat)
    ensures n <= |s|
    decreases |s|
  {
    var w := WhitespaceAt(s);
    if w == 0 then 0 else w + TrimStartLen(s[w..])
  }

  /** `s.chars().all(char::is_whitespace)` on the bytes of `s`. */
  predicate AllWhitespaceBytes(s: Bytes)
  {
    TrimStartLen(s) == |s|
  }

  lemma {:induction false} AllWhitespaceStr(s: string)
    ensures AllWhitespaceBytes(Str(s)) <==> AllWhitespace(s)
  {
    if s != [] {
      WhitespaceAtEncoding(s[0], Str(s[1..]));
      AllWhitespaceStr(s[1..]);
      var w := WhitespaceAt(Str(s));
      if IsWhitespace(s[0]) {
        assert Str(s)[w..] == Str(s[1..]);
        assert AllWhitespace(s) <==> AllWhitespace(s[1..]) by {
          assert forall i :: 0 < i < |s| ==> s[i] == s[1..][i - 1];
        }
      } else {
        assert !AllWhitespace(s);
        assert TrimStartLen(Str(s)) == 0;
      }
    }
  }

  // ----- decimal numbers -----

  predicate IsAsciiDigit(c: char)
  {
    '0' <= c <= '9'
  }

  predicate AllDigits(s: string)
  {
    forall k :: 0 <= k < |s| ==> IsAsciiDigit(s[k])
  }

  /** The value of a string of decimal digits. */
  function DigitsValue(s: string): nat
    requires AllDigits(s)
  {
    if s == [] then 0 else DigitsValue(s[..|s| - 1]) * 10 + (s[|s| - 1] as int - '0' as int)
  }

  function Pow10(n: nat): (r: nat)
    ensures r >= 1
  {
    if n == 0 then 1 else 10 * Pow10(n - 1)
  }

  lemma {:induction false} Pow10Monotone(a: nat, b: nat)
    requires a <= b
    ensures Pow10(a) <= Pow10(b)
    decreases b - a
  {
    if a < b {
      Pow10Monotone(a + 1, b);
    }
  }

  lemma {:induction false} DigitsValueBound(s: string)
    requires AllDigits(s)
    ensures DigitsValue(s) < Pow10(|s|)
  {
    if s != [] {
      DigitsValueBound(s[..|s| - 1]);
    }
  }

  function DigitChar(d: nat): (c: char)
    requires d < 10
    ensures IsAsciiDigit(c) && c as int - '0' as int == d
  {
    ('0' as int + d) as char
  }

  /** `Display` for an unsigned integer: its decimal digits, without leading zeros. */
  function Decimal(n: nat): (r: string)
  {
    if n < 10 then [DigitChar(n)] else Decimal(n / 10) + [DigitChar(n % 10)]
  }

  /** `Decimal` is read back by `DigitsValue`, and only zero starts with `0`. */
  lemma {:induction false} DecimalValue(n: nat)
    ensures Decimal(n) != [] && AllDigits(Decimal(n)) && DigitsValue(Decimal(n)) == n
    ensures Decimal(n)[0] == '0' <==> n == 0
  {
    if n >= 10 {
      DecimalValue(n / 10);
      var r := Decimal(n);
      assert r[..|r| - 1] == Decimal(n / 10);
      assert r[0] == Decimal(n / 10)[0];
    }
  }
}
