/** How `mmap_command` reads its FILE-OFFSET and LENGTH literals: the base is
    chosen from the literal's first two characters, then `strtoll` reads the
    leading digits in that base. */
module Literals {
  import opened Machine

  /** The source's test for base 16: a `0` followed by a lower-case `x`. */
  predicate HexPrefixed(s: string)
  {
    |s| >= 2 && s[0] == '0' && s[1] == 'x'
  }

  function BaseOf(s: string): (b: nat)
    ensures b == 16 <==> HexPrefixed(s)
    ensures b == 10 || b == 16
  {
    if HexPrefixed(s) then 16 else 10
  }

  predicate IsBase(base: nat) { base == 10 || base == 16 }

  /** Value of `c` as a digit of `base`, or -1 when it is not one; strtoll
      accepts both cases of the letters a-f in base 16. */
  function DigitValue(c: char, base: nat): (d: int)
    requires IsBase(base)
    ensures -1 <= d < base
    ensures d >= 0 <==> ('0' <= c <= '9' || (base == 16 && ('a' <= c <= 'f' || 'A' <= c <= 'F')))
    ensures d < 0 ==> d == -1
  {
    if '0' <= c <= '9' then c as int - '0' as int
    else if base == 16 && 'a' <= c <= 'f' then c as int - 'a' as int + 10
    else if base == 16 && 'A' <= c <= 'F' then c as int - 'A' as int + 10
    else -1
  }

  /** strtoll ignores the case of a hexadecimal letter: `A`-`F` are worth what
      `a`-`f` are. */
  lemma HexLetterCaseIgnored(c: char)
    requires 'a' <= c <= 'f'
    ensures DigitValue((c as int - 32) as char, 16) == DigitValue(c, 16) == c as int - 'a' as int + 10
  {
  }

  predicate AllDigits(ds: string, base: nat)
    requires IsBase(base)
  {
    forall k :: 0 <= k < |ds| ==> DigitValue(ds[k], base) >= 0
  }

  /** Length of the leading run of `base` digits: the part strtoll consumes. */
  function DigitRun(s: string, base: nat): (n: nat)
    requires IsBase(base)
    ensures n <= |s|
    ensures AllDigits(s[..n], base)
    ensures n < |s| ==> DigitValue(s[n], base) < 0
  {
    if s == [] || DigitValue(s[0], base) < 0 then 0
    else
      var n := 1 + DigitRun(s[1..], base);
      assert forall k :: 1 <= k < n ==> s[..n][k] == s[1..][..n - 1][k - 1];
      n
  }

  function Scale(x: nat, base: nat): nat
    requires IsBase(base)
  {
    if base == 10 then 10 * x else 16 * x
  }

  /** Positional value of a digit string, most significant digit first. */
  function DigitsValue(ds: string, base: nat): nat
    requires IsBase(base)
    requires AllDigits(ds, base)
  {
    if ds == [] then 0
    else
      assert AllDigits(ds[..|ds| - 1], base) by {
        assert forall k :: 0 <= k < |ds| - 1 ==> ds[..|ds| - 1][k] == ds[k];
      }
      Scale(DigitsValue(ds[..|ds| - 1], base), base) + DigitValue(ds[|ds| - 1], base)
  }

  /** A magnitude read after a '+' or no sign: LLONG_MAX on overflow. */
  function Saturate(m: nat): (v: int)
    ensures 0 <= v <= LLONG_MAX
    ensures m <= LLONG_MAX ==> v == m
    ensures m > LLONG_MAX ==> v == LLONG_MAX
  {
    if m <= LLONG_MAX then m else LLONG_MAX
  }

  /** A magnitude read after a '-': LLONG_MIN on overflow. */
  function SaturateNegated(m: nat): (v: int)
    ensures LLONG_MIN <= v <= 0
    ensures m <= -LLONG_MIN ==> v == -(m as int)
    ensures m > -LLONG_MIN ==> v == LLONG_MIN
  {
    if m <= -LLONG_MIN then -(m as int) else LLONG_MIN
  }

  /** The characters isspace accepts in the C locale. */
  predicate IsSpace(c: char)
  {
    c == ' ' || c == '\t' || c == '\n' || c == '\r' || c as int == 11 || c as int == 12
  }

  /** The text after the leading white space. */
  function SkipSpaces(s: string): (t: string)
    ensures |t| <= |s| && t == s[|s| - |t|..]
    ensures t == [] || !IsSpace(t[0])
  {
    if |s| > 0 && IsSpace(s[0]) then SkipSpaces(s[1..]) else s
  }

  /** What SkipSpaces drops is white space only. */
  lemma {:induction false} SkipSpacesRemovesSpaces(s: string)
    ensures forall k :: 0 <= k < |s| - |SkipSpaces(s)| ==> IsSpace(s[k])
    decreases |s|
  {
    if |s| > 0 && IsSpace(s[0]) {
      SkipSpacesRemovesSpaces(s[1..]);
      assert forall k :: 1 <= k < |s| ==> s[k] == s[1..][k - 1];
    }
  }

  predicate HasSign(s: string) { |s| > 0 && (s[0] == '-' || s[0] == '+') }

  /** The optional `0x`/`0X` strtoll itself skips in base 16. */
  function StripHexMarker(w: string, base: nat): string
  {
    if base == 16 && |w| >= 2 && w[0] == '0' && (w[1] == 'x' || w[1] == 'X') then w[2..] else w
  }

  /** The unsigned value of the digits strtoll reads after the sign. */
  function Magnitude(w: string, base: nat): nat
    requires IsBase(base)
  {
    var t := StripHexMarker(w, base);
    DigitsValue(t[..DigitRun(t, base)], base)
  }

  /** `strtoll (s, NULL, base)`: leading white space, an optional sign, in base
      16 an optional `0x`/`0X`, then as many digits as there are; no digits
      read as 0, and a value out of range saturates. */
  function Strtoll(s: string, base: nat): (v: int)
    requires IsBase(base)
    ensures LLONG_MIN <= v <= LLONG_MAX
  {
    var u := SkipSpaces(s);
    if HasSign(u) && u[0] == '-' then SaturateNegated(Magnitude(u[1..], base))
    else if HasSign(u) then Saturate(Magnitude(u[1..], base))
    else Saturate(Magnitude(u, base))
  }

  /** A string of digits only is read whole. */
  lemma MagnitudeOfDigits(r: string, base: nat)
    requires IsBase(base) && AllDigits(r, base)
    ensures StripHexMarker(r, base) == r && DigitRun(r, base) == |r|
    ensures Magnitude(r, base) == DigitsValue(r, base)
  {
    if |r| >= 2 {
      assert DigitValue(r[1], base) >= 0;
    }
    assert StripHexMarker(r, base) == r;
    assert DigitRun(r, base) == |r|;
    assert r[..|r|] == r;
  }

  /** The value `mmap_command` gives an offset or length literal. */
  function ParseLiteral(s: string): (v: int)
    ensures LLONG_MIN <= v <= LLONG_MAX
    ensures BaseOf(s) == 16 ==> 0 <= v
  {
    Strtoll(s, BaseOf(s))
  }

  /** The character of digit `d`, lower-case for the letters. */
  function DigitChar(d: nat): char
    requires d < 16
  {
    if d < 10 then ('0' as int + d) as char else ('a' as int + d - 10) as char
  }

  /** `n` written in `base`, without leading zeros. */
  function Render(n: nat, base: nat): (s: string)
    requires IsBase(base)
    decreases n
  {
    var q := if base == 10 then n / 10 else n / 16;
    var r := if base == 10 then n % 10 else n % 16;
    if n < base then [DigitChar(n)] else Render(q, base) + [DigitChar(r)]
  }

  lemma DigitCharValue(d: nat, base: nat)
    requires IsBase(base) && d < base
    ensures DigitValue(DigitChar(d), base) == d
  {
  }

  /** Reading back a rendered number gives the number. */
  lemma {:induction false} RenderValue(n: nat, base: nat)
    requires IsBase(base)
    ensures |Render(n, base)| >= 1
    ensures AllDigits(Render(n, base), base)
    ensures DigitsValue(Render(n, base), base) == n
    decreases n
  {
    var s := Render(n, base);
    if n < base {
      DigitCharValue(n, base);
      assert s[..|s| - 1] == [];
    } else {
      var q := if base == 10 then n / 10 else n / 16;
      var r := if base == 10 then n % 10 else n % 16;
      RenderValue(q, base);
      DigitCharValue(r, base);
      assert s == Render(q, base) + [DigitChar(r)];
      assert s[..|s| - 1] == Render(q, base);
      assert AllDigits(s, base) by {
        forall k | 0 <= k < |s| ensures DigitValue(s[k], base) >= 0 {
          if k < |s| - 1 {
            assert s[k] == Render(q, base)[k];
          }
        }
      }
      assert Scale(q, base) + r == n;
    }
  }

  /** A decimal digit string has no white space, sign or `0x` in front. */
  lemma DecimalDigitsPlain(s: string)
    requires |s| >= 1 && AllDigits(s, 10)
    ensures SkipSpaces(s) == s && !HasSign(s) && BaseOf(s) == 10
  {
    assert DigitValue(s[0], 10) >= 0;
    assert '0' <= s[0] <= '9';
    assert !IsSpace(s[0]);
    if |s| >= 2 {
      assert DigitValue(s[1], 10) >= 0;
      assert s[1] != 'x';
    }
  }

  /** A decimal literal reads as its value. */
  lemma DecimalRoundTrip(n: nat)
    requires n <= LLONG_MAX
    ensures ParseLiteral(Render(n, 10)) == n
  {
    var s := Render(n, 10);
    RenderValue(n, 10);
    DecimalDigitsPlain(s);
    assert ParseLiteral(s) == Saturate(Magnitude(s, 10));
    MagnitudeOfDigits(s, 10);
  }

  /** A `0x`-prefixed literal reads as its hexadecimal value. */
  lemma HexRoundTrip(n: nat)
    requires n <= LLONG_MAX
    ensures ParseLiteral("0x" + Render(n, 16)) == n
  {
    var r := Render(n, 16);
    var s := "0x" + r;
    assert s[0] == '0' && s[1] == 'x' && s[2..] == r;
    assert BaseOf(s) == 16;
    assert SkipSpaces(s) == s && !HasSign(s);
    assert StripHexMarker(s, 16) == r;
    assert Strtoll(s, 16) == Saturate(Magnitude(s, 16));
    RenderValue(n, 16);
    MagnitudeOfDigits(r, 16);
    assert Magnitude(s, 16) == Magnitude(r, 16);
  }

  /** A '-' in front of a decimal literal negates it; LLONG_MIN is still in range. */
  lemma NegativeDecimalRoundTrip(n: nat)
    requires n <= -LLONG_MIN
    ensures ParseLiteral("-" + Render(n, 10)) == -(n as int)
  {
    var r := Render(n, 10);
    var s := "-" + r;
    assert s[0] == '-' && s[1..] == r;
    assert BaseOf(s) == 10;
    assert SkipSpaces(s) == s;
    assert Strtoll(s, 10) == SaturateNegated(Magnitude(r, 10));
    RenderValue(n, 10);
    MagnitudeOfDigits(r, 10);
  }

  /** A LENGTH of "-1" is not zero: converted to `size_t` it is 2^64 - 1. */
  lemma MinusOneLength()
    ensures ToU64(ParseLiteral("-1")) == TWO_64 - 1
  {
    NegativeDecimalRoundTrip(1);
    assert Render(1, 10) == "1";
    assert "-" + "1" == "-1";
  }

  /** An upper-case `0X` does not select base 16: base 10 stops at the `X`. */
  lemma UpperCaseXReadsZero(t: string)
    ensures ParseLiteral("0X" + t) == 0
  {
    var s := "0X" + t;
    assert !HexPrefixed(s);
    assert SkipSpaces(s) == s && !HasSign(s);
    assert DigitRun(s, 10) == 1;
    assert s[..1] == "0";
    assert DigitsValue("0", 10) == Scale(DigitsValue([], 10), 10) + 0;
  }

  /** "0x10" reads as 16 ... */
  /** Upper-case hexadecimal digits: `"0xFF"` reads as 255. */
  lemma HexUpperFF()
    ensures ParseLiteral("0xFF") == 255
  {
    var s, r := "0xFF", "FF";
    assert s[0] == '0' && s[1] == 'x' && s[2..] == r;
    assert BaseOf(s) == 16;
    assert SkipSpaces(s) == s && !HasSign(s);
    assert StripHexMarker(s, 16) == r;
    assert Strtoll(s, 16) == Saturate(Magnitude(s, 16));
    assert AllDigits(r, 16);
    MagnitudeOfDigits(r, 16);
    assert Magnitude(s, 16) == Magnitude(r, 16);
    UpperFFValue();
  }

  /** The digits `FF` are worth 255 in base 16. */
  lemma UpperFFValue()
    ensures AllDigits("FF", 16) && DigitsValue("FF", 16) == 255
  {
    var r := "FF";
    assert DigitValue('F', 16) == 15;
    assert r[..1] == "F" && "F"[..0] == "";
    assert DigitsValue("F", 16) == 15;
  }

  lemma HexSixteen()
    ensures ParseLiteral("0x10") == 16
  {
    assert Render(1, 16) == "1";
    assert Render(16, 16) == "10";
    assert "0x" + Render(16, 16) == "0x10";
    HexRoundTrip(16);
  }

  /** ... and so does "16": the two literals name the same offset. */
  lemma DecimalSixteen()
    ensures ParseLiteral("16") == 16
  {
    var d := Render(16, 10);
    assert d == "16";
    DecimalRoundTrip(16);
  }
}
