/**
 * The pieces of JavaScript string and number behaviour that the sales API
 * relies on: ASCII lower-casing (`toLowerCase` and the `/i` regex flag),
 * `String.prototype.trim`, substring search, decimal rendering of an integer
 * (template-string interpolation of `Date.now()`) and global `parseInt`.
 */
module Text {
  import opened Wrappers

  // ---------------------------------------------------------------------
  // Case
  // ---------------------------------------------------------------------

  predicate IsUpper(c: char) { 'A' <= c <= 'Z' }

  /** Lower-cases an ASCII letter; every other character is left as it is. */
  function LowerChar(c: char): (d: char)
    ensures !IsUpper(d)
    ensures IsUpper(c) ==> d as int == c as int + 32
    ensures !IsUpper(c) ==> d == c
  {
    if IsUpper(c) then (c as int + 32) as char else c
  }

  /** `toLowerCase` restricted to ASCII letters. */
  function LowerAscii(s: string): (r: string)
    ensures |r| == |s|
    ensures forall i :: 0 <= i < |s| ==> r[i] == LowerChar(s[i])
  {
    seq(|s|, i requires 0 <= i < |s| => LowerChar(s[i]))
  }

  /** A string without upper-case ASCII letters is its own lower-case form. */
  lemma LowerAsciiFixes(s: string)
    requires forall i :: 0 <= i < |s| ==> !IsUpper(s[i])
    ensures LowerAscii(s) == s
  {
  }

  // ---------------------------------------------------------------------
  // Whitespace and trim
  // ---------------------------------------------------------------------

  /**
   * The characters `trim` and `parseInt` skip: ECMAScript WhiteSpace
   * (tab, vertical tab, form feed, space, no-break space, the byte order
   * mark and the space separators of Unicode category Zs) and
   * LineTerminator (line feed, carriage return, line and paragraph
   * separators).
   */
  predicate IsJsWhitespace(c: char) {
    || c == '\t' || c == '\n' || c == '\U{000B}' || c == '\U{000C}' || c == '\r'
    || c == ' ' || c == '\U{00A0}' || c == '\U{1680}'
    || ('\U{2000}' <= c <= '\U{200A}')
    || c == '\U{2028}' || c == '\U{2029}' || c == '\U{202F}' || c == '\U{205F}'
    || c == '\U{3000}' || c == '\U{FEFF}'
  }

  /** The length of the run of whitespace `s` starts with. */
  function LeadingWhitespace(s: string): (n: nat)
    ensures n <= |s|
    ensures forall i :: 0 <= i < n ==> IsJsWhitespace(s[i])
    ensures n == |s| || !IsJsWhitespace(s[n])
  {
    if s == [] || !IsJsWhitespace(s[0]) then 0
    else
      var n := 1 + LeadingWhitespace(s[1..]);
      assert forall i :: 1 <= i < n ==> s[i] == s[1..][i - 1];
      n
  }

  /** The length of the run of whitespace `s` ends with. */
  function TrailingWhitespace(s: string): (n: nat)
    ensures n <= |s|
    ensures forall i :: |s| - n <= i < |s| ==> IsJsWhitespace(s[i])
    ensures n == |s| || !IsJsWhitespace(s[|s| - n - 1])
  {
    if s == [] || !IsJsWhitespace(s[|s| - 1]) then 0
    else
      var n := 1 + TrailingWhitespace(s[..|s| - 1]);
      assert forall i :: |s| - n <= i < |s| - 1 ==> s[i] == s[..|s| - 1][i];
      n
  }

  /** `String.prototype.trimStart`: drops the leading whitespace. */
  function TrimStart(s: string): (r: string)
    ensures |r| <= |s| && r == s[|s| - |r|..]
    ensures forall i :: 0 <= i < |s| - |r| ==> IsJsWhitespace(s[i])
    ensures r == [] || !IsJsWhitespace(r[0])
  {
    s[LeadingWhitespace(s)..]
  }

  /** `String.prototype.trimEnd`: drops the trailing whitespace. */
  function TrimEnd(s: string): (r: string)
    ensures |r| <= |s| && r == s[..|r|]
    ensures forall i :: |r| <= i < |s| ==> IsJsWhitespace(s[i])
    ensures r == [] || !IsJsWhitespace(r[|r| - 1])
  {
    s[..|s| - TrailingWhitespace(s)]
  }

  /** `String.prototype.trim`. */
  function Trim(s: string): (r: string)
  {
    TrimEnd(TrimStart(s))
  }

  /**
   * What `trim` returns is a slice `s[lo..hi]` of its argument, with only
   * whitespace cut off on either side.
   */
  lemma TrimIsWhitespaceFreeSlice(s: string)
    ensures var r := Trim(s);
            var lo := |s| - |TrimStart(s)|;
            && lo + |r| <= |s|
            && r == s[lo..lo + |r|]
            && (forall i :: 0 <= i < lo ==> IsJsWhitespace(s[i]))
            && (forall i :: lo + |r| <= i < |s| ==> IsJsWhitespace(s[i]))
  {
    PrefixOfSuffix(s, TrimStart(s), Trim(s));
  }

  /** What `trim` returns neither begins nor ends with whitespace. */
  lemma TrimEdgesAreNotWhitespace(s: string)
    ensures var r := Trim(s);
            r == [] || (!IsJsWhitespace(r[0]) && !IsJsWhitespace(r[|r| - 1]))
  {
    var t := TrimStart(s);
    var r := TrimEnd(t);
    if r != [] {
      assert r[0] == t[0];
    }
  }

  /** A prefix `r` of a suffix `t` of `s` is a slice of `s`, and what follows it in `s` follows it in `t`. */
  lemma PrefixOfSuffix(s: string, t: string, r: string)
    requires |t| <= |s| && t == s[|s| - |t|..]
    requires |r| <= |t| && r == t[..|r|]
    ensures var lo := |s| - |t|;
            && r == s[lo..lo + |r|]
            && forall i :: lo + |r| <= i < |s| ==> s[i] == t[i - lo]
  {
  }

  /** Trimming twice trims nothing more. */
  lemma TrimIdempotent(s: string)
    ensures Trim(Trim(s)) == Trim(s)
  {
    var r := Trim(s);
    TrimEdgesAreNotWhitespace(s);
    if r != [] {
      assert TrimStart(r) == r;
    }
  }

  /** `trim` yields the empty string exactly when `s` is all whitespace. */
  lemma TrimEmptyIffBlank(s: string)
    ensures Trim(s) == [] <==> forall i :: 0 <= i < |s| ==> IsJsWhitespace(s[i])
  {
    TrimIsWhitespaceFreeSlice(s);
  }

  // ---------------------------------------------------------------------
  // Substring search (`String.prototype.includes`, a regex alternative)
  // ---------------------------------------------------------------------

  /** `needle` occurs in `hay` starting at index `i`. */
  predicate OccursAt(hay: string, needle: string, i: int) {
    0 <= i && i + |needle| <= |hay| && hay[i..i + |needle|] == needle
  }

  /** `needle` occurs in `hay`, searched from the left. */
  predicate Contains(hay: string, needle: string)
    decreases |hay|
  {
    || (|needle| <= |hay| && hay[..|needle|] == needle)
    || (hay != [] && Contains(hay[1..], needle))
  }

  /** The search agrees with the definition "there is an index where `needle` starts". */
  lemma {:induction false} ContainsIffOccursAt(hay: string, needle: string)
    ensures Contains(hay, needle) <==> exists i :: OccursAt(hay, needle, i)
    decreases |hay|
  {
    if |needle| <= |hay| && hay[..|needle|] == needle {
      assert OccursAt(hay, needle, 0);
    }
    if hay != [] {
      ContainsIffOccursAt(hay[1..], needle);
      if Contains(hay[1..], needle) {
        var i :| OccursAt(hay[1..], needle, i);
        assert hay[i + 1..i + 1 + |needle|] == hay[1..][i..i + |needle|];
        assert OccursAt(hay, needle, i + 1);
      }
      if exists i :: OccursAt(hay, needle, i) {
        var i :| OccursAt(hay, needle, i);
        if i > 0 {
          assert hay[1..][i - 1..i - 1 + |needle|] == hay[i..i + |needle|];
          assert OccursAt(hay[1..], needle, i - 1);
        } else {
          assert hay[..|needle|] == needle;
        }
      }
    } else {
      if exists i :: OccursAt(hay, needle, i) {
        var i :| OccursAt(hay, needle, i);
        assert hay[..|needle|] == needle;
      }
    }
  }

  /** Case-insensitive containment of a lower-case ASCII `needle`, as a `/…/i` regex alternative matches. */
  predicate ContainsIgnoringCase(hay: string, needle: string) {
    Contains(LowerAscii(hay), needle)
  }

  // ---------------------------------------------------------------------
  // Decimal digits
  // ---------------------------------------------------------------------

  predicate IsDecimalDigit(c: char) { '0' <= c <= '9' }

  /**
   * The value of `c` as a digit in radix 36 (`0`–`9`, then `a`/`A` = 10 up
   * to `z`/`Z` = 35), or 36 when `c` is no digit in any radix.
   */
  function DigitValue(c: char): (v: nat)
    ensures v <= 36
    ensures v < 10 <==> IsDecimalDigit(c)
  {
    if IsDecimalDigit(c) then c as int - '0' as int
    else if 'a' <= c <= 'z' then c as int - 'a' as int + 10
    else if 'A' <= c <= 'Z' then c as int - 'A' as int + 10
    else 36
  }

  function DecimalDigit(d: nat): (c: char)
    requires d < 10
    ensures IsDecimalDigit(c) && DigitValue(c) == d
  {
    ('0' as int + d) as char
  }

  /** The decimal rendering of `n` that `${n}` produces for a safe integer. */
  function DecimalString(n: nat): (r: string)
    ensures 1 <= |r|
    ensures forall i :: 0 <= i < |r| ==> IsDecimalDigit(r[i])
    ensures r[0] == '0' ==> n == 0 && |r| == 1
  {
    if n < 10 then [DecimalDigit(n)] else DecimalString(n / 10) + [DecimalDigit(n % 10)]
  }

  /** The value of a digit string in `radix`, most significant digit first. */
  function DigitsValue(z: string, radix: nat): nat
    requires forall i :: 0 <= i < |z| ==> DigitValue(z[i]) < radix
  {
    if z == [] then 0
    else
      var init := z[..|z| - 1];
      assert forall i :: 0 <= i < |init| ==> init[i] == z[i];
      var high := DigitsValue(init, radix);
      NatProduct(high, radix);
      high * radix + DigitValue(z[|z| - 1])
  }

  lemma NatProduct(a: nat, b: nat)
    ensures a * b >= 0
  {
  }

  /** The longest prefix of `s` made of digits of `radix`. */
  function DigitPrefix(s: string, radix: nat): (z: string)
    ensures |z| <= |s| && z == s[..|z|]
    ensures forall i :: 0 <= i < |z| ==> DigitValue(z[i]) < radix
    ensures |z| < |s| ==> DigitValue(s[|z|]) >= radix
  {
    if s != [] && DigitValue(s[0]) < radix then [s[0]] + DigitPrefix(s[1..], radix) else []
  }

  /** The digits of `radix` at the head of `v`, read as a number; none at all is `NaN`. */
  function ReadDigits(v: string, radix: nat): (r: Option<nat>)
  {
    var z := DigitPrefix(v, radix);
    if z == [] then None else Some(DigitsValue(z, radix))
  }

  /** A `0x`/`0X` prefix switches to radix 16; otherwise radix 10. */
  function ReadMagnitude(u: string): (r: Option<nat>)
  {
    if |u| >= 2 && u[0] == '0' && (u[1] == 'x' || u[1] == 'X') then ReadDigits(u[2..], 16)
    else ReadDigits(u, 10)
  }

  /** One optional sign, then the magnitude. */
  function ReadSigned(t: string): (r: Option<int>)
  {
    if t != [] && t[0] == '-' then
      match ReadMagnitude(t[1..])
      case None => None
      case Some(m) => Some(-(m as int))
    else if t != [] && t[0] == '+' then
      match ReadMagnitude(t[1..])
      case None => None
      case Some(m) => Some(m as int)
    else
      match ReadMagnitude(t)
      case None => None
      case Some(m) => Some(m as int)
  }

  /**
   * Global `parseInt(s)` with no radix argument: leading whitespace is
   * skipped, one sign is taken, a `0x`/`0X` prefix switches to radix 16,
   * then the longest run of digits is read and the rest ignored; no
   * digits at all gives `NaN`, here `None`.
   */
  function ParseInt(s: string): (r: Option<int>)
  {
    ReadSigned(TrimStart(s))
  }

  lemma {:induction false} DecimalStringValue(n: nat)
    ensures DigitsValue(DecimalString(n), 10) == n
  {
    var r := DecimalString(n);
    if n >= 10 {
      DecimalStringValue(n / 10);
      assert r[..|r| - 1] == DecimalString(n / 10);
    }
  }

  /** The digit prefix of `d + rest` is `d` when `d` is all digits and `rest` does not start with one. */
  lemma {:induction false} DigitPrefixStopsAfter(d: string, rest: string, radix: nat)
    requires forall i :: 0 <= i < |d| ==> DigitValue(d[i]) < radix
    requires rest == [] || DigitValue(rest[0]) >= radix
    ensures DigitPrefix(d + rest, radix) == d
    decreases |d|
  {
    if d == [] {
      assert d + rest == rest;
    } else {
      assert (d + rest)[0] == d[0];
      assert (d + rest)[1..] == d[1..] + rest;
      DigitPrefixStopsAfter(d[1..], rest, radix);
    }
  }

  /**
   * `parseInt` reads a decimal rendering back, whatever follows it, as
   * long as what follows neither continues the digits nor turns a lone
   * `0` into a `0x` prefix.
   */
  lemma ParseIntReadsDecimalPrefix(n: nat, rest: string)
    requires rest == [] || (!IsDecimalDigit(rest[0]) && rest[0] != 'x' && rest[0] != 'X')
    ensures ParseInt(DecimalString(n) + rest) == Some(n)
  {
    ParseIntReadsDigits(DecimalString(n), rest);
    DecimalStringValue(n);
  }

  /**
   * `parseInt` of decimal digits without a `0x` start, followed by a
   * non-digit, reads exactly those digits.
   */
  lemma ParseIntReadsDigits(d: string, rest: string)
    requires d != [] && forall i :: 0 <= i < |d| ==> IsDecimalDigit(d[i])
    requires rest == [] || (!IsDecimalDigit(rest[0]) && rest[0] != 'x' && rest[0] != 'X')
    ensures ParseInt(d + rest) == Some(DigitsValue(d, 10))
  {
    var s := d + rest;
    assert ReadMagnitude(s) == ReadDigits(s, 10) by {
      NoHexPrefix(d, rest);
    }
    assert ReadDigits(s, 10) == Some(DigitsValue(d, 10)) by {
      DigitPrefixStopsAfter(d, rest, 10);
    }
    ParseIntUnsigned(s, DigitsValue(d, 10));
  }

  /** Text starting with a digit is read without sign or whitespace. */
  lemma ParseIntUnsigned(s: string, m: nat)
    requires s != [] && IsDecimalDigit(s[0]) && ReadMagnitude(s) == Some(m)
    ensures ParseInt(s) == Some(m)
  {
    assert !IsJsWhitespace(s[0]);
    assert TrimStart(s) == s;
    assert s[0] != '-' && s[0] != '+';
    assert ReadSigned(s) == Some(m as int);
  }

  /** Decimal digits followed by a non-`x` never start with `0x` or `0X`. */
  lemma NoHexPrefix(d: string, rest: string)
    requires d != [] && forall i :: 0 <= i < |d| ==> IsDecimalDigit(d[i])
    requires rest == [] || (rest[0] != 'x' && rest[0] != 'X')
    ensures var s := d + rest; !(|s| >= 2 && s[0] == '0' && (s[1] == 'x' || s[1] == 'X'))
  {
    var s := d + rest;
    if |s| >= 2 {
      if |d| >= 2 {
        assert s[1] == d[1] && IsDecimalDigit(d[1]);
      } else {
        assert s[1] == rest[0];
      }
    }
  }

  /** Reading a decimal rendering as a magnitude yields the number rendered. */
  lemma ReadMagnitudeDecimalString(n: nat)
    ensures ReadMagnitude(DecimalString(n)) == Some(n)
  {
    var d := DecimalString(n);
    assert !(|d| >= 2 && d[0] == '0');
    DigitPrefixStopsAfter(d, [], 10);
    assert d + [] == d;
    DecimalStringValue(n);
  }

  /** `parseInt("-" + n)` is `-n` for every rendering of a natural number. */
  lemma ParseIntNegatedDecimalString(n: nat)
    ensures ParseInt("-" + DecimalString(n)) == Some(-(n as int))
  {
    ReadMagnitudeDecimalString(n);
    ParseIntNegated(DecimalString(n), n);
  }

  /** A leading minus sign negates whatever magnitude `parseInt` reads after it. */
  lemma ParseIntNegated(u: string, m: nat)
    requires ReadMagnitude(u) == Some(m)
    ensures ParseInt("-" + u) == Some(-(m as int))
  {
    var s := ['-'] + u;
    assert s[0] == '-' && s[1..] == u;
    assert LeadingWhitespace(s) == 0;
    assert TrimStart(s) == s;
  }

  /** Rendering is injective: two instants never render to the same digits. */
  lemma DecimalStringInjective(m: nat, n: nat)
    requires DecimalString(m) == DecimalString(n)
    ensures m == n
  {
    ParseIntReadsDecimalPrefix(m, []);
    ParseIntReadsDecimalPrefix(n, []);
    assert DecimalString(m) + [] == DecimalString(m);
  }
}
