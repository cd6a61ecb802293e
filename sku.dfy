/**
 * The SKU encoder of the order form: `padSize` turns a size token into a
 * size code and `generateSKU` glues style, width, colour and size code
 * together, with no separators.
 */
module Sku {
  import opened Text

  /** The one-size token of the catalogue, and the code it is written as. */
  const OneSize: string := "OS"
  const OneSizeCode: string := "ONE"

  /** The two size types `generateSKU` hands to `padSize`. */
  const ShoeKind: string := "shoe"
  const OtherKind: string := "other"

  /**
   * A shoe size token as the catalogue writes them: decimal digits with at
   * most one fractional digit ("7", "13.5").
   */
  predicate IsShoeSize(s: string)
  {
    (|s| >= 1 && AllDigits(s))
    || (|s| >= 3 && AllDigits(s[..|s| - 2]) && s[|s| - 2] == '.' && IsDigit(s[|s| - 1]))
  }

  /** The digits before the point of a shoe size token (all of it for a whole size). */
  function WholePart(s: string): (w: string)
    requires IsShoeSize(s)
    ensures AllDigits(w) && |w| >= 1
  {
    if AllDigits(s) then s else s[..|s| - 2]
  }

  /**
   * Ten times the size a shoe size token denotes; exact, since it has at most
   * one fractional digit. It lies between ten times the whole part and nine
   * more, and a whole size gives exactly ten times its value.
   */
  function Tenths(s: string): (t: nat)
    requires IsShoeSize(s)
    ensures 10 * ValueOf(WholePart(s)) <= t <= 10 * ValueOf(WholePart(s)) + 9
    ensures AllDigits(s) ==> t == 10 * ValueOf(s)
  {
    if AllDigits(s) then 10 * ValueOf(s)
    else 10 * ValueOf(s[..|s| - 2]) + DigitValue(s[|s| - 1])
  }

  /** What `padSize` asks of its arguments: a shoe size other than "OS" must be a number. */
  predicate SizeCodable(size: string, kind: string)
  {
    size == OneSize || kind != ShoeKind || IsShoeSize(size)
  }

  /**
   * `padSize(size, type)`. "OS" is checked first and becomes "ONE" whatever
   * the type; a shoe size becomes the decimal digits of ten times the size,
   * zero-padded to three characters; any other size is zero-padded to three
   * characters as it stands.
   */
  function PadSize(size: string, kind: string): (code: string)
    requires SizeCodable(size, kind)
    ensures size == OneSize ==> code == OneSizeCode
    ensures size != OneSize && kind == ShoeKind ==>
      AllDigits(code) && ValueOf(code) == Tenths(size)
      && |code| >= 3 && (|code| > 3 ==> code[0] != '0')
    ensures size != OneSize && kind != ShoeKind ==>
      |code| == Max(|size|, 3) && code[|code| - |size|..] == size
      && (forall i :: 0 <= i < |code| - |size| ==> code[i] == '0')
  {
    if size == OneSize then OneSizeCode
    else if kind == ShoeKind then
      var digits := Decimal(Tenths(size));
      ZeroPaddingKeepsValue(if |digits| < 3 then 3 - |digits| else 0, digits);
      PadStart(digits, 3, '0')
    else PadStart(size, 3, '0')
  }

  /** `style.startsWith("S")`: the only test `generateSKU` uses to tell shoes from the rest. */
  predicate IsShoeStyle(style: string)
    ensures IsShoeStyle(style) <==> |style| >= 1 && style[..1] == "S"
  {
    |style| >= 1 && style[0] == 'S'
  }

  /** The size type `generateSKU` passes to `padSize` for a style. */
  function SizeKind(style: string): (kind: string)
    ensures kind == ShoeKind || kind == OtherKind
    ensures kind == ShoeKind <==> IsShoeStyle(style)
  {
    if IsShoeStyle(style) then ShoeKind else OtherKind
  }

  /**
   * `generateSKU(style, width, color, size)`: style, width, colour and size
   * code for a shoe style; style, colour and size code otherwise, the width
   * being dropped.
   */
  function GenerateSku(style: string, width: string, color: string, size: string): (sku: string)
    requires SizeCodable(size, SizeKind(style))
    ensures |sku| >= |style| && sku[..|style|] == style
  {
    var code := PadSize(size, SizeKind(style));
    if IsShoeStyle(style) then style + width + color + code else style + color + code
  }

  // ---------------------------------------------------------------------
  // Properties of the size codes
  // ---------------------------------------------------------------------

  /** The worked examples of the shoe size chart: half sizes, two-digit sizes and the child sizes after 13.5. */
  lemma ShoeCodeHalfSize()
    ensures PadSize("7.5", ShoeKind) == "075"
  {
    assert "7.5"[..1] == "7" && !IsDigit("7.5"[1]);
    assert ValueOf("7") == 7;
    assert Tenths("7.5") == 75;
    assert Decimal(75) == "75";
  }

  lemma ShoeCodeLargeHalfSize()
    ensures PadSize("13.5", ShoeKind) == "135"
  {
    assert !IsDigit("13.5"[2]);
    assert "13.5"[..2] == "13" && "13"[..1] == "1";
    assert ValueOf("13") == 13;
    assert Tenths("13.5") == 135;
    assert Decimal(13) == "13";
    assert Decimal(135) == "135";
  }

  lemma ShoeCodeSmallWholeSize()
    ensures PadSize("1", ShoeKind) == "010"
  {
    assert AllDigits("1") && ValueOf("1") == 1;
    assert Tenths("1") == 10;
    assert Decimal(10) == "10";
  }

  lemma ShoeCodeLargeWholeSize()
    ensures PadSize("16", ShoeKind) == "160"
  {
    assert "16"[..1] == "1";
    assert ValueOf("16") == 16;
    assert Tenths("16") == 160;
    assert Decimal(16) == "16";
    assert Decimal(160) == "160";
  }

  /**
   * A shoe size code is fixed by the size it denotes: two codes of the shape
   * `PadSize` promises (digits, at least three of them, no leading zero
   * beyond the third place from the right) with the same value are equal.
   */
  lemma {:induction false} ShoeCodeDeterminedByValue(a: string, b: string)
    requires AllDigits(a) && |a| >= 3 && (|a| > 3 ==> a[0] != '0')
    requires AllDigits(b) && |b| >= 3 && (|b| > 3 ==> b[0] != '0')
    requires ValueOf(a) == ValueOf(b)
    ensures a == b
  {
    var n := ValueOf(a);
    PaddedDecimal(a);
    PaddedDecimal(b);
  }

  /** A padded shoe code is `String(n).padStart(3, "0")` of its value n. */
  lemma {:induction false} PaddedDecimal(a: string)
    requires AllDigits(a) && |a| >= 3 && (|a| > 3 ==> a[0] != '0')
    ensures a == PadStart(Decimal(ValueOf(a)), 3, '0')
  {
    if |a| > 3 {
      DecimalOfValue(a);
    } else {
      var k := LeadingZeros(a);
      var t := a[k..];
      assert a == Repeat('0', k) + t;
      ZeroPaddingKeepsValue(k, t);
      DecimalOfValue(t);
    }
  }

  /** How many leading zeros to drop from a three-digit code to write its value canonically. */
  function LeadingZeros(a: string): (k: nat)
    requires AllDigits(a) && |a| == 3
    ensures k <= 2 && Canonical(a[k..]) && a[..k] == Repeat('0', k)
  {
    if a[0] != '0' then 0 else if a[1] != '0' then 1 else 2
  }

  /** Distinct shoe sizes get distinct codes, because the code reads back as ten times the size. */
  lemma ShoeCodeInjective(s: string, t: string)
    requires s != OneSize && t != OneSize && IsShoeSize(s) && IsShoeSize(t)
    requires PadSize(s, ShoeKind) == PadSize(t, ShoeKind)
    ensures Tenths(s) == Tenths(t)
  {
  }

  /** For a non-shoe type, sizes that do not start with '0' get distinct codes. */
  lemma {:induction false} OtherCodeInjective(s: string, t: string, kind: string)
    requires kind != ShoeKind && s != OneSize && t != OneSize
    requires |s| >= 1 && s[0] != '0' && |t| >= 1 && t[0] != '0'
    requires PadSize(s, kind) == PadSize(t, kind)
    ensures s == t
  {
    var code := PadSize(s, kind);
    assert code[|code| - |s|] == s[0] && code[|code| - |t|] == t[0];
  }

  /**
   * Without that condition the non-shoe codes collide: "1" and "01" both
   * become "001", and the token "ONE" is written like "OS".
   */
  lemma OtherCodeCollisions()
    ensures PadSize("1", OtherKind) == PadSize("01", OtherKind) == "001"
    ensures PadSize("ONE", OtherKind) == PadSize(OneSize, OtherKind)
  {
    assert Repeat('0', 2) == "00";
    assert Repeat('0', 1) == "0";
  }

  // ---------------------------------------------------------------------
  // Size tokens that `padSize` keeps apart
  // ---------------------------------------------------------------------

  /** A shoe size written as `String` would write it: no superfluous leading zero, no ".0". */
  predicate IsCanonicalShoeSize(s: string)
  {
    Canonical(s)
    || (|s| >= 3 && Canonical(s[..|s| - 2]) && s[|s| - 2] == '.' && IsDigit(s[|s| - 1]) && s[|s| - 1] != '0')
  }

  /** Distinct canonical shoe sizes denote distinct sizes. */
  lemma {:induction false} TenthsInjective(s: string, t: string)
    requires IsCanonicalShoeSize(s) && IsCanonicalShoeSize(t)
    ensures IsShoeSize(s) && IsShoeSize(t)
    ensures Tenths(s) == Tenths(t) ==> s == t
  {
    WholeSizeForm(s);
    WholeSizeForm(t);
    if Tenths(s) == Tenths(t) {
      if Canonical(s) {
        WholeSizesEqual(s, t);
      } else {
        HalfSizesEqual(s, t);
      }
    }
  }

  lemma WholeSizesEqual(s: string, t: string)
    requires Canonical(s) && Canonical(t) && ValueOf(s) == ValueOf(t)
    ensures s == t
  {
    DecimalOfValue(s);
    DecimalOfValue(t);
  }

  lemma HalfSizesEqual(s: string, t: string)
    requires IsCanonicalShoeSize(s) && IsCanonicalShoeSize(t)
    requires !Canonical(s) && !Canonical(t)
    requires IsShoeSize(s) && IsShoeSize(t) && Tenths(s) == Tenths(t)
    ensures s == t
  {
    var i, j := s[..|s| - 2], t[..|t| - 2];
    assert !IsDigit(s[|s| - 2]) && !IsDigit(t[|t| - 2]);
    assert !AllDigits(s) && !AllDigits(t);
    assert Tenths(s) == 10 * ValueOf(i) + DigitValue(s[|s| - 1]);
    assert Tenths(t) == 10 * ValueOf(j) + DigitValue(t[|t| - 1]);
    WholeSizesEqual(i, j);
    assert s == i + ['.'] + [s[|s| - 1]];
    assert t == j + ['.'] + [t[|t| - 1]];
  }

  /** A canonical shoe size is a whole size exactly when ten times it is a multiple of ten. */
  lemma WholeSizeForm(s: string)
    requires IsCanonicalShoeSize(s)
    ensures IsShoeSize(s)
    ensures Canonical(s) <==> Tenths(s) % 10 == 0
  {
    if !Canonical(s) {
      assert !IsDigit(s[|s| - 2]);
      assert !AllDigits(s);
    }
  }

  /**
   * A size token that no other token shares a code with: "OS"; a canonical
   * shoe size; or, for any other type, a token that neither starts with '0'
   * nor is spelled "ONE".
   */
  predicate CanonicalSize(s: string, kind: string)
  {
    s == OneSize
    || (kind == ShoeKind && IsCanonicalShoeSize(s))
    || (kind != ShoeKind && |s| >= 1 && s[0] != '0' && s != OneSizeCode)
  }

  lemma CanonicalSizeCodable(s: string, kind: string)
    requires CanonicalSize(s, kind)
    ensures SizeCodable(s, kind)
  {
    if kind == ShoeKind && s != OneSize {
      WholeSizeForm(s);
    }
  }

  /** Only "OS" is coded as "ONE" among canonical tokens. */
  lemma OneCodeOnlyForOneSize(s: string, kind: string)
    requires CanonicalSize(s, kind) && s != OneSize
    ensures SizeCodable(s, kind)
    ensures PadSize(s, kind) != OneSizeCode
  {
    CanonicalSizeCodable(s, kind);
    var code := PadSize(s, kind);
    if kind == ShoeKind {
      assert IsDigit(code[0]);
    } else if |s| >= 3 {
      assert code == code[|code| - |s|..] == s;
    } else {
      assert code[0] == '0';
    }
  }

  /** `padSize` is injective on canonical size tokens of one type. */
  lemma {:induction false} SizeCodeInjective(s: string, t: string, kind: string)
    requires CanonicalSize(s, kind) && CanonicalSize(t, kind)
    ensures SizeCodable(s, kind) && SizeCodable(t, kind)
    ensures PadSize(s, kind) == PadSize(t, kind) ==> s == t
  {
    CanonicalSizeCodable(s, kind);
    CanonicalSizeCodable(t, kind);
    if PadSize(s, kind) == PadSize(t, kind) {
      if s != OneSize {
        OneCodeOnlyForOneSize(s, kind);
      }
      if t != OneSize {
        OneCodeOnlyForOneSize(t, kind);
      }
      if s != OneSize && t != OneSize {
        if kind == ShoeKind {
          TenthsInjective(s, t);
        } else {
          OtherCodeInjective(s, t, kind);
        }
      }
    }
  }

  // ---------------------------------------------------------------------
  // Properties of the SKUs
  // ---------------------------------------------------------------------

  /** The category is decided by the first letter of the style alone. */
  lemma SkuKindByStyle(style: string, width: string, color: string, size: string)
    requires SizeCodable(size, SizeKind(style))
    ensures IsShoeStyle(style) ==>
      GenerateSku(style, width, color, size) == style + width + color + PadSize(size, ShoeKind)
    ensures !IsShoeStyle(style) ==>
      GenerateSku(style, width, color, size) == style + color + PadSize(size, OtherKind)
  {
  }

  /** A non-shoe SKU does not depend on the width. */
  lemma OtherSkuIgnoresWidth(style: string, w1: string, w2: string, color: string, size: string)
    requires !IsShoeStyle(style) && SizeCodable(size, SizeKind(style))
    ensures GenerateSku(style, w1, color, size) == GenerateSku(style, w2, color, size)
  {
  }

  /** SKUs of two different styles of the same length never coincide. */
  lemma {:induction false} DistinctStylesDistinctSkus(
    st1: string, w1: string, c1: string, s1: string,
    st2: string, w2: string, c2: string, s2: string)
    requires SizeCodable(s1, SizeKind(st1)) && SizeCodable(s2, SizeKind(st2))
    requires |st1| == |st2| && st1 != st2
    ensures GenerateSku(st1, w1, c1, s1) != GenerateSku(st2, w2, c2, s2)
  {
    var a, b := GenerateSku(st1, w1, c1, s1), GenerateSku(st2, w2, c2, s2);
    assert a[..|st1|] == st1 && b[..|st2|] == st2;
  }

  /**
   * The SKU has no separators, but when widths and colours have fixed
   * lengths its fields can be read back: equal SKUs of one style come from
   * the same colour, the same width (for a shoe) and the same size code.
   */
  lemma {:induction false} SkuFieldsRecoverable(
    style: string, w1: string, c1: string, s1: string, w2: string, c2: string, s2: string)
    requires SizeCodable(s1, SizeKind(style)) && SizeCodable(s2, SizeKind(style))
    requires |w1| == |w2| && |c1| == |c2|
    requires GenerateSku(style, w1, c1, s1) == GenerateSku(style, w2, c2, s2)
    ensures c1 == c2
    ensures IsShoeStyle(style) ==> w1 == w2
    ensures PadSize(s1, SizeKind(style)) == PadSize(s2, SizeKind(style))
  {
    var k := SizeKind(style);
    var p1, p2 := PadSize(s1, k), PadSize(s2, k);
    if IsShoeStyle(style) {
      SplitConcat(style + w1 + c1, p1, style + w2 + c2, p2);
      SplitConcat(style + w1, c1, style + w2, c2);
      SplitConcat(style, w1, style, w2);
    } else {
      SplitConcat(style + c1, p1, style + c2, p2);
      SplitConcat(style, c1, style, c2);
    }
  }

  /** Two concatenations agree part by part when their first parts have the same length. */
  lemma SplitConcat(x1: string, y1: string, x2: string, y2: string)
    requires x1 + y1 == x2 + y2 && |x1| == |x2|
    ensures x1 == x2 && y1 == y2
  {
    assert x1 == (x1 + y1)[..|x1|] && x2 == (x2 + y2)[..|x2|];
    assert y1 == (x1 + y1)[|x1|..] && y2 == (x2 + y2)[|x2|..];
  }

  /**
   * The SKU is made of its parts and of size-code characters: a character
   * absent from the parts that is neither a digit nor a letter of "ONE"
   * does not occur in it.
   */
  lemma SkuAvoids(style: string, width: string, color: string, size: string, ch: char)
    requires SizeCodable(size, SizeKind(style))
    requires ch !in style && ch !in width && ch !in color && ch !in size
    requires !IsDigit(ch) && ch !in OneSizeCode
    ensures ch !in GenerateSku(style, width, color, size)
  {
    var kind := SizeKind(style);
    var code := PadSize(size, kind);
    forall i | 0 <= i < |code| ensures code[i] != ch {
      if size == OneSize {
        assert code[i] in OneSizeCode;
      } else if kind == ShoeKind {
        assert IsDigit(code[i]);
      } else if i >= |code| - |size| {
        assert code[i] == code[|code| - |size|..][i - (|code| - |size|)] == size[i - (|code| - |size|)];
      }
    }
  }
}
