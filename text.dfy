/**
 * String primitives that the order form borrows from JavaScript: decimal
 * digits, `String(n)` for a non-negative integer, `padStart`, the
 * whitespace that `trim` and `parseInt` skip, `trim` and `parseInt`.
 */
module Text {
  import opened Wrappers

  // ---------------------------------------------------------------------
  // Decimal digits
  // ---------------------------------------------------------------------

  predicate IsDigit(c: char) { '0' <= c <= '9' }

  predicate AllDigits(s: string) { forall i :: 0 <= i < |s| ==> IsDigit(s[i]) }

  function DigitValue(c: char): (d: nat)
    requires IsDigit(c)
    ensures d < 10
  {
    c as int - '0' as int
  }

  function DigitChar(d: nat): (c: char)
    requires d < 10
    ensures IsDigit(c) && DigitValue(c) == d
  {
    ('0' as int + d) as char
  }

  /** The number a string of decimal digits denotes, most significant digit first. */
  function ValueOf(s: string): nat
    requires AllDigits(s)
  {
    if s == [] then 0 else 10 * ValueOf(s[..|s| - 1]) + DigitValue(s[|s| - 1])
  }

  /** A digit string without superfluous leading zeros: how `String(n)` writes n. */
  predicate Canonical(s: string)
  {
    AllDigits(s) && |s| >= 1 && (|s| == 1 || s[0] != '0')
  }

  /** `String(n)` for a non-negative integer n. */
  function Decimal(n: nat): (r: string)
    ensures Canonical(r)
    ensures ValueOf(r) == n
  {
    if n < 10 then [DigitChar(n)]
    else
      var r := Decimal(n / 10) + [DigitChar(n % 10)];
      assert r[..|r| - 1] == Decimal(n / 10);
      r
  }

  /** A digit string that starts with a non-zero digit is worth at least 10^(length-1), so at least 10 when it has two digits or more. */
  lemma {:induction false} LeadingDigitBound(s: string)
    requires AllDigits(s) && |s| >= 1 && s[0] != '0'
    ensures ValueOf(s) >= 1
    ensures |s| >= 2 ==> ValueOf(s) >= 10
  {
    if |s| >= 2 {
      var t := s[..|s| - 1];
      assert t[0] == s[0];
      LeadingDigitBound(t);
    }
  }

  /** `Decimal` is the inverse of `ValueOf` on canonical digit strings. */
  lemma {:induction false} DecimalOfValue(s: string)
    requires Canonical(s)
    ensures Decimal(ValueOf(s)) == s
  {
    var n := ValueOf(s);
    if |s| == 1 {
      assert s == [s[0]];
      ValueOfDigit(s[0]);
      DigitCharOfValue(s[0]);
    } else {
      var t, d := s[..|s| - 1], DigitValue(s[|s| - 1]);
      assert t[0] == s[0];
      LeadingDigitBound(t);
      DecimalOfValue(t);
      assert n == 10 * ValueOf(t) + d;
      LastDigitSplit(ValueOf(t), d);
      DecimalStep(n);
      DigitCharOfValue(s[|s| - 1]);
      LastSplit(s);
    }
  }

  lemma LastSplit<T>(s: seq<T>)
    requires |s| >= 1
    ensures s == s[..|s| - 1] + [s[|s| - 1]]
  {
  }

  lemma DecimalStep(n: nat)
    requires n >= 10
    ensures Decimal(n) == Decimal(n / 10) + [DigitChar(n % 10)]
  {
  }

  lemma ValueOfDigit(c: char)
    requires IsDigit(c)
    ensures ValueOf([c]) == DigitValue(c)
  {
    assert [c][..0] == [];
  }

  lemma DigitCharOfValue(c: char)
    requires IsDigit(c)
    ensures DigitChar(DigitValue(c)) == c
  {
  }

  lemma LastDigitSplit(q: nat, d: nat)
    requires d < 10
    ensures (10 * q + d) / 10 == q && (10 * q + d) % 10 == d
  {
  }

  // ---------------------------------------------------------------------
  // padStart
  // ---------------------------------------------------------------------

  function Repeat(c: char, n: nat): (r: string)
    ensures |r| == n
    ensures forall i :: 0 <= i < n ==> r[i] == c
  {
    if n == 0 then [] else [c] + Repeat(c, n - 1)
  }

  function Max(a: int, b: int): int { if a >= b then a else b }

  /** `s.padStart(width, fill)` for a one-character fill string. */
  function PadStart(s: string, width: nat, fill: char): (r: string)
    ensures |r| == Max(|s|, width)
    ensures r[|r| - |s|..] == s
    ensures forall i :: 0 <= i < |r| - |s| ==> r[i] == fill
  {
    if |s| >= width then s else Repeat(fill, width - |s|) + s
  }

  /** Zeros written in front of a digit string do not change its value. */
  lemma {:induction false} ZeroPaddingKeepsValue(n: nat, s: string)
    requires AllDigits(s)
    ensures AllDigits(Repeat('0', n) + s)
    ensures ValueOf(Repeat('0', n) + s) == ValueOf(s)
  {
    var z := Repeat('0', n);
    if s == [] {
      assert z + s == z;
      ZerosAreWorthZero(n);
    } else {
      var t := s[..|s| - 1];
      ZeroPaddingKeepsValue(n, t);
      assert (z + s)[..|z + s| - 1] == z + t;
    }
  }

  lemma {:induction false} ZerosAreWorthZero(n: nat)
    ensures AllDigits(Repeat('0', n))
    ensures ValueOf(Repeat('0', n)) == 0
  {
    if n > 0 {
      var z := Repeat('0', n);
      ZerosAreWorthZero(n - 1);
      assert z[..n - 1] == Repeat('0', n - 1);
    }
  }

  // ---------------------------------------------------------------------
  // Whitespace, as ECMAScript's WhiteSpace and LineTerminator productions
  // define it; `trim` and `parseInt` skip exactly these.
  // ---------------------------------------------------------------------

  predicate IsSpace(c: char)
  {
    c == '\t' || c == '\n' || c == '\U{000B}' || c == '\U{000C}' || c == '\r' || c == ' '
    || c == '\U{00A0}' || c == '\U{1680}' || ('\U{2000}' <= c <= '\U{200A}')
    || c == '\U{2028}' || c == '\U{2029}' || c == '\U{202F}' || c == '\U{205F}'
    || c == '\U{3000}' || c == '\U{FEFF}'
  }

  predicate AllSpace(s: string) { forall i :: 0 <= i < |s| ==> IsSpace(s[i]) }

  /** `s.trimStart()`: the suffix of s left after its leading whitespace. */
  function TrimStart(s: string): (r: string)
    ensures |r| <= |s| && r == s[|s| - |r|..]
    ensures AllSpace(s[..|s| - |r|])
    ensures r == [] || !IsSpace(r[0])
  {
    if s != [] && IsSpace(s[0]) then TrimStart(s[1..]) else s
  }

  /** `s.trimEnd()`: the prefix of s left after its trailing whitespace. */
  function TrimEnd(s: string): (r: string)
    ensures |r| <= |s| && r == s[..|r|]
    ensures AllSpace(s[|r|..])
    ensures r == [] || !IsSpace(r[|r| - 1])
  {
    if s != [] && IsSpace(s[|s| - 1]) then TrimEnd(s[..|s| - 1]) else s
  }

  /** `s.trim()`. */
  function Trim(s: string): (r: string)
    ensures |r| <= |s|
    ensures r == [] || (!IsSpace(r[0]) && !IsSpace(r[|r| - 1]))
  {
    TrimEnd(TrimStart(s))
  }

  lemma {:induction false} TrimStartOfPadded(a: string, s: string)
    requires AllSpace(a)
    requires s == [] || !IsSpace(s[0])
    ensures TrimStart(a + s) == s
  {
    if a != [] {
      assert (a + s)[1..] == a[1..] + s;
      TrimStartOfPadded(a[1..], s);
    } else {
      assert a + s == s;
    }
  }

  lemma {:induction false} TrimEndOfPadded(s: string, b: string)
    requires AllSpace(b)
    requires s == [] || !IsSpace(s[|s| - 1])
    ensures TrimEnd(s + b) == s
  {
    if b != [] {
      assert (s + b)[..|s + b| - 1] == s + b[..|b| - 1];
      TrimEndOfPadded(s, b[..|b| - 1]);
    } else {
      assert s + b == s;
    }
  }

  /**
   * `trim` removes exactly the surrounding whitespace: a string whose own
   * ends are not whitespace comes back from any whitespace padding unchanged.
   */
  lemma {:induction false} TrimOfPadded(a: string, s: string, b: string)
    requires AllSpace(a) && AllSpace(b)
    requires s == [] || (!IsSpace(s[0]) && !IsSpace(s[|s| - 1]))
    ensures Trim(a + s + b) == s
  {
    assert a + s + b == a + (s + b);
    if s == [] {
      assert s + b == b;
      AllSpaceTrimStart(a + b);
      assert a + b == a + s + b;
    } else {
      assert (s + b)[0] == s[0];
      TrimStartOfPadded(a, s + b);
      TrimEndOfPadded(s, b);
    }
  }

  lemma {:induction false} AllSpaceTrimStart(s: string)
    requires AllSpace(s)
    ensures TrimStart(s) == []
  {
    if s != [] {
      AllSpaceTrimStart(s[1..]);
    }
  }

  /** Trimming twice is trimming once. */
  lemma {:induction false} TrimIdempotent(s: string)
    ensures Trim(Trim(s)) == Trim(s)
  {
    var r := Trim(s);
    var e: string := [];
    assert AllSpace(e);
    assert e + r + e == r;
    TrimOfPadded(e, r, e);
    assert Trim(e + r + e) == r;
  }

  /** Leading whitespace does not change what `trimStart` leaves. */
  lemma {:induction false} TrimStartAfterSpace(a: string, s: string)
    requires AllSpace(a)
    ensures TrimStart(a + s) == TrimStart(s)
  {
    if a != [] {
      assert (a + s)[1..] == a[1..] + s;
      TrimStartAfterSpace(a[1..], s);
    } else {
      assert a + s == s;
    }
  }

  // ---------------------------------------------------------------------
  // parseInt(s) with no radix, as ECMAScript defines it: skip leading
  // whitespace, take an optional sign, switch to radix 16 after "0x" or
  // "0X", then read the longest run of digits of the radix; no digit at
  // all gives NaN, modelled as None.
  // ---------------------------------------------------------------------

  predicate IsHexDigit(c: char)
  {
    IsDigit(c) || ('a' <= c <= 'f') || ('A' <= c <= 'F')
  }

  predicate AllHexDigits(s: string) { forall i :: 0 <= i < |s| ==> IsHexDigit(s[i]) }

  function HexDigitValue(c: char): (d: nat)
    requires IsHexDigit(c)
    ensures d < 16
    ensures IsDigit(c) ==> d == DigitValue(c)
  {
    if IsDigit(c) then DigitValue(c)
    else if 'a' <= c <= 'f' then c as int - 'a' as int + 10
    else c as int - 'A' as int + 10
  }

  /** The number a string of hexadecimal digits denotes. */
  function HexValueOf(s: string): nat
    requires AllHexDigits(s)
  {
    if s == [] then 0 else 16 * HexValueOf(s[..|s| - 1]) + HexDigitValue(s[|s| - 1])
  }

  /** The longest prefix of s made of decimal digits. */
  function DigitRun(s: string): (r: string)
    ensures AllDigits(r) && |r| <= |s| && r == s[..|r|]
    ensures |r| < |s| ==> !IsDigit(s[|r|])
  {
    if s != [] && IsDigit(s[0]) then [s[0]] + DigitRun(s[1..]) else []
  }

  /** The longest prefix of s made of hexadecimal digits. */
  function HexRun(s: string): (r: string)
    ensures AllHexDigits(r) && |r| <= |s| && r == s[..|r|]
    ensures |r| < |s| ==> !IsHexDigit(s[|r|])
  {
    if s != [] && IsHexDigit(s[0]) then [s[0]] + HexRun(s[1..]) else []
  }

  /** Whether a string, after its sign, starts with the "0x" or "0X" prefix of radix 16. */
  predicate HasHexPrefix(u: string)
  {
    |u| >= 2 && u[0] == '0' && (u[1] == 'x' || u[1] == 'X')
  }

  /** The text after the leading whitespace and the sign. */
  function Unsigned(s: string): string
  {
    var t := TrimStart(s);
    if t != [] && (t[0] == '-' || t[0] == '+') then t[1..] else t
  }

  predicate IsNegative(s: string)
  {
    var t := TrimStart(s);
    t != [] && t[0] == '-'
  }

  /** The magnitude `parseInt` reads, or None when there is no digit to read. */
  function Magnitude(u: string): (r: Option<nat>)
    ensures r.None? <==> (if HasHexPrefix(u) then HexRun(u[2..]) == [] else DigitRun(u) == [])
  {
    if HasHexPrefix(u) then
      var z := HexRun(u[2..]);
      if z == [] then None else Some(HexValueOf(z))
    else
      var z := DigitRun(u);
      if z == [] then None else Some(ValueOf(z))
  }

  /** A magnitude with its sign; NaN stays NaN. */
  function Signed(negative: bool, m: Option<nat>): Option<int>
  {
    match m
    case None => None
    case Some(v) => Some(if negative then -(v as int) else v as int)
  }

  /** `parseInt(s)`; None stands for NaN. */
  function ParseInt(s: string): (r: Option<int>)
    ensures r.None? <==> Magnitude(Unsigned(s)).None?
    ensures r.Some? && r.value < 0 ==> IsNegative(s)
    ensures r.Some? && r.value > 0 ==> !IsNegative(s)
  {
    Signed(IsNegative(s), Magnitude(Unsigned(s)))
  }

  /** `parseInt` reads back what `String` writes for a non-negative integer. */
  lemma ParseIntOfDecimal(n: nat)
    ensures ParseInt(Decimal(n)) == Some(n)
  {
    ParseIntOfDecimalThen(n, []);
    assert Decimal(n) + [] == Decimal(n);
  }

  /**
   * `parseInt` stops at the first character that is not a digit: "1.5"
   * and "1e3" read as 1. The one exception is "0" followed by 'x' or 'X',
   * which switches to radix 16.
   */
  lemma ParseIntOfDecimalThen(n: nat, rest: string)
    requires rest == [] || !IsDigit(rest[0])
    requires n == 0 && rest != [] ==> rest[0] != 'x' && rest[0] != 'X'
    ensures ParseInt(Decimal(n) + rest) == Some(n)
  {
    var d := Decimal(n);
    var s := d + rest;
    assert TrimStart(s) == s by {
      assert s[0] == d[0] && IsDigit(d[0]);
      assert !IsSpace(s[0]);
      var e: string := [];
      assert e + s == s;
      TrimStartOfPadded(e, s);
    }
    assert Unsigned(s) == s && !IsNegative(s);
    assert !HasHexPrefix(s) by {
      if |d| >= 2 {
        assert s[1] == d[1];
      }
    }
    DigitRunOfDigits(d, rest);
  }

  lemma {:induction false} DigitRunOfDigits(d: string, rest: string)
    requires AllDigits(d)
    requires rest == [] || !IsDigit(rest[0])
    ensures DigitRun(d + rest) == d
  {
    if d != [] {
      assert (d + rest)[1..] == d[1..] + rest;
      DigitRunOfDigits(d[1..], rest);
    } else {
      assert d + rest == rest;
    }
  }

  /** A minus sign in front of a number makes `parseInt` negate it. */
  lemma ParseIntOfNegative(n: nat)
    ensures ParseInt("-" + Decimal(n)) == Some(-(n as int))
  {
    var d := Decimal(n);
    var s := "-" + d;
    MinusSign(d);
    MagnitudeOfDecimal(n);
    assert ParseInt(s) == Signed(true, Some(n));
  }

  lemma MinusSign(d: string)
    ensures IsNegative("-" + d) && Unsigned("-" + d) == d
  {
    var s := "-" + d;
    assert s[0] == '-' && !IsSpace(s[0]);
    assert TrimStart(s) == s;
    assert s[1..] == d;
  }

  lemma MagnitudeOfDecimal(n: nat)
    ensures Magnitude(Decimal(n)) == Some(n)
  {
    var d := Decimal(n);
    NoHexPrefixInDecimal(n);
    DigitRunOfDigits(d, []);
    assert d + [] == d;
  }

  lemma NoHexPrefixInDecimal(n: nat)
    ensures !HasHexPrefix(Decimal(n))
  {
    var d := Decimal(n);
    if |d| >= 2 {
      assert d[0] != '0';
    }
  }

  /** Whitespace in front of the number does not change what `parseInt` reads. */
  lemma ParseIntSkipsSpace(a: string, s: string)
    requires AllSpace(a)
    ensures ParseInt(a + s) == ParseInt(s)
  {
    TrimStartAfterSpace(a, s);
    assert Unsigned(a + s) == Unsigned(s);
    assert IsNegative(a + s) == IsNegative(s);
  }

  /** With no digit after the whitespace and the sign, `parseInt` gives NaN. */
  lemma ParseIntWithoutDigits(s: string)
    requires Unsigned(s) == [] || !IsDigit(Unsigned(s)[0])
    ensures ParseInt(s) == None
  {
  }
}
