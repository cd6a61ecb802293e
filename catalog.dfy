/**
 * The product catalogue of the order form and the variants the form lists
 * for each product: every colour, then every width, then every size, with
 * the SKU of each variant as the key of its quantity field.
 */
module Catalog {
  import opened Wrappers
  import opened Text
  import opened Sku

  /** An entry of `sampleProducts`; `kind` is its `type` field and `widths` is absent for products without a width. */
  datatype Product = Product(
    style: string, sizes: seq<string>, widths: Option<seq<string>>, colors: seq<string>, kind: string)

  /** One orderable combination of a product. */
  datatype Variant = Variant(color: string, width: string, size: string)

  /** The hard-coded catalogue: three shoe styles and one accessory, in display order. */
  const SampleProducts: seq<Product> := [ShoeV720C, Shoe2050W, ShoeMOT100W, AccessoryB325U]

  const ShoeV720C: Product := Product("S000V720C",
    ["6", "6.5", "7", "7.5", "8", "8.5", "9", "9.5", "10", "10.5", "11", "11.5",
     "12", "12.5", "13", "13.5", "1", "1.5", "2", "2.5"],
    Some(["M", "W"]), ["BLK", "CAR"], "shoe")

  const Shoe2050W: Product := Product("S0002050W",
    ["3", "4", "5", "6", "7", "8", "9", "10", "11", "12", "13", "14"],
    Some(["M", "W"]), ["LPK"], "shoe")

  const ShoeMOT100W: Product := Product("S0MOT100W",
    ["3", "4", "5", "6", "7", "8", "9", "10", "11", "12", "13", "14", "15", "16"],
    Some(["M", "W"]), ["BLK", "LPK"], "shoe")

  const AccessoryB325U: Product := Product("A000B325U", ["OS"], None, ["CCG", "OAT"], "accessory")

  /** `product.widths || [""]`: a product without widths is listed under one empty width. */
  function Widths(p: Product): (ws: seq<string>)
    ensures p.widths.None? ==> ws == [""]
    ensures p.widths.Some? ==> ws == p.widths.value
  {
    match p.widths
    case None => [""]
    case Some(ws) => ws
  }

  // ---------------------------------------------------------------------
  // The colour x width x size enumeration of the render
  // ---------------------------------------------------------------------

  /** `sizes.map(...)` for one colour and width. */
  function SizeRow(color: string, width: string, sizes: seq<string>): (row: seq<Variant>)
    ensures |row| == |sizes|
  {
    seq(|sizes|, k requires 0 <= k < |sizes| => Variant(color, width, sizes[k]))
  }

  /** `widths.map(...)` for one colour: the size rows of each width in turn. */
  function WidthRows(color: string, widths: seq<string>, sizes: seq<string>): (rows: seq<Variant>)
    ensures |rows| == 0 <==> |widths| == 0 || |sizes| == 0
  {
    if widths == [] then [] else SizeRow(color, widths[0], sizes) + WidthRows(color, widths[1..], sizes)
  }

  /** `colors.map(...)`: the width rows of each colour in turn. */
  function Enumerate(colors: seq<string>, widths: seq<string>, sizes: seq<string>): (vs: seq<Variant>)
    ensures |vs| == 0 <==> |colors| == 0 || |widths| == 0 || |sizes| == 0
  {
    if colors == [] then [] else WidthRows(colors[0], widths, sizes) + Enumerate(colors[1..], widths, sizes)
  }

  /** The variants the form lists for a product, in the order it lists them. */
  function Variants(p: Product): (vs: seq<Variant>)
    ensures |vs| == 0 <==> |p.colors| == 0 || |Widths(p)| == 0 || |p.sizes| == 0
  {
    Enumerate(p.colors, Widths(p), p.sizes)
  }

  lemma {:induction false} WidthRowsAt(color: string, widths: seq<string>, sizes: seq<string>, wi: nat, si: nat)
    requires wi < |widths| && si < |sizes|
    ensures |WidthRows(color, widths, sizes)| == |widths| * |sizes|
    ensures wi * |sizes| + si < |widths| * |sizes|
    ensures WidthRows(color, widths, sizes)[wi * |sizes| + si] == Variant(color, widths[wi], sizes[si])
  {
    var row := SizeRow(color, widths[0], sizes);
    var tail := WidthRows(color, widths[1..], sizes);
    var n := |sizes|;
    assert WidthRows(color, widths, sizes) == row + tail;
    if |widths| == 1 {
      assert tail == [];
    } else {
      WidthRowsAt(color, widths[1..], sizes, if wi == 0 then 0 else wi - 1, si);
    }
    MulPred(|widths|, n);
    assert |tail| == (|widths| - 1) * n;
    if wi > 0 {
      MulPred(wi, n);
      assert (wi - 1) * n + si < |tail|;
      assert tail[(wi - 1) * n + si] == Variant(color, widths[wi], sizes[si]);
    }
  }

  /** The enumeration has |colors| * |widths| * |sizes| entries. */
  lemma {:induction false} EnumerateCount(colors: seq<string>, widths: seq<string>, sizes: seq<string>)
    ensures |Enumerate(colors, widths, sizes)| == |colors| * |widths| * |sizes|
  {
    if colors != [] {
      EnumerateCount(colors[1..], widths, sizes);
      WidthRowsCount(colors[0], widths, sizes);
      BlockArithmetic(|colors|, |widths|, |sizes|);
    }
  }

  lemma BlockArithmetic(c: nat, w: nat, s: nat)
    requires c > 0
    ensures c * w * s == w * s + (c - 1) * w * s
    ensures c * w * s == c * (w * s)
  {
  }

  lemma PositionArithmetic(ci: nat, w: nat, s: nat, wi: nat, si: nat)
    ensures (ci * w + wi) * s + si == ci * (w * s) + (wi * s + si)
    ensures ci * w * s == ci * (w * s)
  {
  }

  lemma {:induction false} WidthRowsCount(color: string, widths: seq<string>, sizes: seq<string>)
    ensures |WidthRows(color, widths, sizes)| == |widths| * |sizes|
  {
    if widths != [] {
      WidthRowsCount(color, widths[1..], sizes);
      assert |widths| * |sizes| == |sizes| + (|widths| - 1) * |sizes|;
    }
  }

  /**
   * The enumeration order: colour outermost, width in the middle, size
   * innermost, so the variant for colour ci, width wi and size si sits at
   * position (ci * |widths| + wi) * |sizes| + si.
   */
  lemma {:induction false} EnumerateAt(
    colors: seq<string>, widths: seq<string>, sizes: seq<string>, ci: nat, wi: nat, si: nat, pos: nat)
    requires ci < |colors| && wi < |widths| && si < |sizes|
    requires pos == (ci * |widths| + wi) * |sizes| + si
    ensures pos < |Enumerate(colors, widths, sizes)|
    ensures Enumerate(colors, widths, sizes)[pos] == Variant(colors[ci], widths[wi], sizes[si])
  {
    var block := |widths| * |sizes|;
    var inner := wi * |sizes| + si;
    WidthRowsAt(colors[ci], widths, sizes, wi, si);
    PositionArithmetic(ci, |widths|, |sizes|, wi, si);
    forall c | true
      ensures |WidthRows(c, widths, sizes)| == block
    {
      WidthRowsCount(c, widths, sizes);
    }
    EnumerateBlockAt(colors, widths, sizes, block, ci, inner, ci * block + inner);
  }

  /** Colour ci's width rows form the ci-th block of the enumeration, every block having the same length. */
  lemma {:induction false} EnumerateBlockAt(
    colors: seq<string>, widths: seq<string>, sizes: seq<string>, block: nat, ci: nat, k: nat, pos: nat)
    requires forall c :: |WidthRows(c, widths, sizes)| == block
    requires ci < |colors| && k < block && pos == ci * block + k
    ensures pos < |Enumerate(colors, widths, sizes)|
    ensures Enumerate(colors, widths, sizes)[pos] == WidthRows(colors[ci], widths, sizes)[k]
  {
    var head, rest := WidthRows(colors[0], widths, sizes), Enumerate(colors[1..], widths, sizes);
    assert |head| == block;
    assert Enumerate(colors, widths, sizes) == head + rest;
    if ci == 0 {
      assert (head + rest)[pos] == head[k];
    } else {
      MulPred(ci, block);
      EnumerateBlockAt(colors[1..], widths, sizes, block, ci - 1, k, pos - block);
      assert colors[1..][ci - 1] == colors[ci];
      assert (head + rest)[pos] == rest[pos - block];
    }
  }

  lemma MulPred(a: nat, b: nat)
    requires a > 0
    ensures (a - 1) * b >= 0
    ensures a * b == b + (a - 1) * b
  {
  }

  lemma {:induction false} WidthRowsMembers(color: string, widths: seq<string>, sizes: seq<string>, v: Variant)
    ensures v in WidthRows(color, widths, sizes) <==> v.color == color && v.width in widths && v.size in sizes
  {
    if widths != [] {
      WidthRowsMembers(color, widths[1..], sizes, v);
      var row := SizeRow(color, widths[0], sizes);
      if v.color == color && v.width == widths[0] && v.size in sizes {
        var k :| 0 <= k < |sizes| && sizes[k] == v.size;
        assert row[k] == v;
      }
      assert v.width in widths <==> v.width == widths[0] || v.width in widths[1..];
    }
  }

  /** Exactly the combinations of a listed colour, width and size are enumerated. */
  lemma {:induction false} EnumerateMembers(colors: seq<string>, widths: seq<string>, sizes: seq<string>, v: Variant)
    ensures v in Enumerate(colors, widths, sizes) <==> v.color in colors && v.width in widths && v.size in sizes
  {
    if colors != [] {
      EnumerateMembers(colors[1..], widths, sizes, v);
      WidthRowsMembers(colors[0], widths, sizes, v);
      assert v.color in colors <==> v.color == colors[0] || v.color in colors[1..];
    }
  }

  // ---------------------------------------------------------------------
  // Repetition-free enumeration
  // ---------------------------------------------------------------------

  predicate NoDup<T(==)>(s: seq<T>)
  {
    forall i, j :: 0 <= i < j < |s| ==> s[i] != s[j]
  }

  lemma NoDupConcat<T>(a: seq<T>, b: seq<T>)
    requires NoDup(a) && NoDup(b)
    requires forall x :: x in a ==> x !in b
    ensures NoDup(a + b)
  {
    forall i, j | 0 <= i < j < |a + b|
      ensures (a + b)[i] != (a + b)[j]
    {
      if i < |a| && j >= |a| {
        assert (a + b)[i] in a && (a + b)[j] in b;
      }
    }
  }

  lemma {:induction false} WidthRowsNoDup(color: string, widths: seq<string>, sizes: seq<string>)
    requires NoDup(widths) && NoDup(sizes)
    ensures NoDup(WidthRows(color, widths, sizes))
  {
    if widths != [] {
      var row, rest := SizeRow(color, widths[0], sizes), WidthRows(color, widths[1..], sizes);
      assert NoDup(widths[1..]) by {
        forall i, j | 0 <= i < j < |widths[1..]| ensures widths[1..][i] != widths[1..][j] {
          assert widths[1..][i] == widths[i + 1] && widths[1..][j] == widths[j + 1];
        }
      }
      WidthRowsNoDup(color, widths[1..], sizes);
      assert NoDup(row) by {
        forall i, j | 0 <= i < j < |row| ensures row[i] != row[j] {
          assert row[i].size == sizes[i] && row[j].size == sizes[j];
        }
      }
      assert widths[0] !in widths[1..] by {
        forall k | 0 <= k < |widths[1..]| ensures widths[1..][k] != widths[0] {
          assert widths[1..][k] == widths[k + 1];
        }
      }
      forall v | v in row ensures v !in rest {
        WidthRowsMembers(color, widths[1..], sizes, v);
      }
      NoDupConcat(row, rest);
    }
  }

  /** With no colour, width or size listed twice, no variant is listed twice. */
  lemma {:induction false} EnumerateNoDup(colors: seq<string>, widths: seq<string>, sizes: seq<string>)
    requires NoDup(colors) && NoDup(widths) && NoDup(sizes)
    ensures NoDup(Enumerate(colors, widths, sizes))
  {
    if colors != [] {
      var head, rest := WidthRows(colors[0], widths, sizes), Enumerate(colors[1..], widths, sizes);
      assert NoDup(colors[1..]) by {
        forall i, j | 0 <= i < j < |colors[1..]| ensures colors[1..][i] != colors[1..][j] {
          assert colors[1..][i] == colors[i + 1] && colors[1..][j] == colors[j + 1];
        }
      }
      EnumerateNoDup(colors[1..], widths, sizes);
      WidthRowsNoDup(colors[0], widths, sizes);
      assert colors[0] !in colors[1..] by {
        forall k | 0 <= k < |colors[1..]| ensures colors[1..][k] != colors[0] {
          assert colors[1..][k] == colors[k + 1];
        }
      }
      forall v | v in head ensures v !in rest {
        WidthRowsMembers(colors[0], widths, sizes, v);
        EnumerateMembers(colors[1..], widths, sizes, v);
      }
      NoDupConcat(head, rest);
    }
  }

  // ---------------------------------------------------------------------
  // SKUs of the listed variants
  // ---------------------------------------------------------------------

  /** Every size of the product can be coded for its style. */
  predicate Codable(p: Product)
  {
    forall s :: s in p.sizes ==> SizeCodable(s, SizeKind(p.style))
  }

  lemma {:induction false} VariantsCodable(p: Product)
    requires Codable(p)
    ensures forall v :: v in Variants(p) ==> SizeCodable(v.size, SizeKind(p.style))
  {
    forall v | v in Variants(p) ensures SizeCodable(v.size, SizeKind(p.style)) {
      EnumerateMembers(p.colors, Widths(p), p.sizes, v);
    }
  }

  /** The keys of a product's quantity fields, in the order the form lists them. */
  function Skus(p: Product): (skus: seq<string>)
    requires Codable(p)
    ensures |skus| == |Variants(p)|
    ensures forall k :: 0 <= k < |skus| ==> |skus[k]| >= |p.style| && skus[k][..|p.style|] == p.style
  {
    var vs := Variants(p);
    VariantsCodable(p);
    seq(|vs|, i requires 0 <= i < |vs| && SizeCodable(vs[i].size, SizeKind(p.style)) =>
      GenerateSku(p.style, vs[i].width, vs[i].color, vs[i].size))
  }

  /**
   * The field for colour ci, width wi and size si of a product is keyed by
   * the SKU of that combination, at position (ci * |widths| + wi) * |sizes| + si.
   */
  lemma {:induction false} SkusAt(p: Product, ci: nat, wi: nat, si: nat, k: nat)
    requires Codable(p)
    requires ci < |p.colors| && wi < |Widths(p)| && si < |p.sizes|
    requires k == (ci * |Widths(p)| + wi) * |p.sizes| + si
    ensures k < |Skus(p)|
    ensures Skus(p)[k] == GenerateSku(p.style, Widths(p)[wi], p.colors[ci], p.sizes[si])
  {
    EnumerateAt(p.colors, Widths(p), p.sizes, ci, wi, si, k);
    SkusIndex(p, k);
  }

  lemma {:induction false} SkusIndex(p: Product, k: nat)
    requires Codable(p) && k < |Variants(p)|
    ensures |Skus(p)| == |Variants(p)|
    ensures SizeCodable(Variants(p)[k].size, SizeKind(p.style))
    ensures Skus(p)[k] == GenerateSku(p.style, Variants(p)[k].width, Variants(p)[k].color, Variants(p)[k].size)
  {
    VariantsCodable(p);
  }

  /** Every product lists variants; the render lists them product by product. */
  function CatalogSkus(ps: seq<Product>): (skus: seq<string>)
    requires forall p :: p in ps ==> Codable(p)
    ensures |skus| == TotalVariants(ps)
  {
    if ps == [] then [] else Skus(ps[0]) + CatalogSkus(ps[1..])
  }

  /** The number of variants the form lists for a catalogue. */
  function TotalVariants(ps: seq<Product>): nat
  {
    if ps == [] then 0 else |Variants(ps[0])| + TotalVariants(ps[1..])
  }

  // ---------------------------------------------------------------------
  // Uniqueness of the SKUs
  // ---------------------------------------------------------------------

  /** All the strings of a list have the length of its first one. */
  predicate OneLength(xs: seq<string>)
  {
    forall x :: x in xs ==> |x| == |xs[0]|
  }

  /**
   * What keeps the SKUs of one product apart despite the missing separators:
   * colours of one length, widths of one length, size tokens in canonical
   * form, and at most one width for a non-shoe style, whose SKU drops it.
   */
  predicate KeyedProduct(p: Product)
  {
    OneLength(p.colors) && OneLength(Widths(p))
    && (forall s :: s in p.sizes ==> SizeCodable(s, SizeKind(p.style)) && CanonicalSize(s, SizeKind(p.style)))
    && (!IsShoeStyle(p.style) ==> |Widths(p)| <= 1)
  }

  /** Keyed products whose styles all have the length of the first one and are pairwise distinct. */
  predicate KeyedCatalog(ps: seq<Product>)
  {
    (forall i :: 0 <= i < |ps| ==> KeyedProduct(ps[i]) && |ps[i].style| == |ps[0].style|)
    && (forall i, j :: 0 <= i < j < |ps| ==> ps[i].style != ps[j].style)
  }

  /**
   * Within a keyed product the SKU determines the colour, the width and the
   * size it was made from.
   */
  lemma {:induction false} SkuFieldsUnique(
    p: Product, c1: string, w1: string, s1: string, c2: string, w2: string, s2: string)
    requires KeyedProduct(p)
    requires c1 in p.colors && w1 in Widths(p) && s1 in p.sizes
    requires c2 in p.colors && w2 in Widths(p) && s2 in p.sizes
    ensures GenerateSku(p.style, w1, c1, s1) == GenerateSku(p.style, w2, c2, s2) ==>
      c1 == c2 && w1 == w2 && s1 == s2
  {
    var kind := SizeKind(p.style);
    assert |c1| == |c2| && |w1| == |w2|;
    assert CanonicalSize(s1, kind) && CanonicalSize(s2, kind);
    assert !IsShoeStyle(p.style) ==> w1 == w2 by {
      if !IsShoeStyle(p.style) {
        assert w1 == Widths(p)[0] && w2 == Widths(p)[0];
      }
    }
    SizeCodeInjective(s1, s2, kind);
    if GenerateSku(p.style, w1, c1, s1) == GenerateSku(p.style, w2, c2, s2) {
      SkuFieldsRecoverable(p.style, w1, c1, s1, w2, c2, s2);
    }
  }

  /**
   * In a keyed catalogue, one SKU belongs to at most one (product, colour,
   * width, size) combination.
   */
  lemma {:induction false} SkuUnique(
    ps: seq<Product>, i: nat, c1: string, w1: string, s1: string,
    j: nat, c2: string, w2: string, s2: string)
    requires KeyedCatalog(ps) && i < |ps| && j < |ps|
    requires c1 in ps[i].colors && w1 in Widths(ps[i]) && s1 in ps[i].sizes
    requires c2 in ps[j].colors && w2 in Widths(ps[j]) && s2 in ps[j].sizes
    ensures SizeCodable(s1, SizeKind(ps[i].style)) && SizeCodable(s2, SizeKind(ps[j].style))
    ensures GenerateSku(ps[i].style, w1, c1, s1) == GenerateSku(ps[j].style, w2, c2, s2) ==>
      i == j && c1 == c2 && w1 == w2 && s1 == s2
  {
    var p, q := ps[i], ps[j];
    assert KeyedProduct(p) && KeyedProduct(q);
    if GenerateSku(p.style, w1, c1, s1) == GenerateSku(q.style, w2, c2, s2) {
      var sku := GenerateSku(p.style, w1, c1, s1);
      assert |p.style| == |q.style|;
      assert p.style == sku[..|p.style|] == q.style;
      assert forall a, b :: 0 <= a < |ps| && 0 <= b < |ps| && a != b ==> ps[a].style != ps[b].style;
      SkuFieldsUnique(p, c1, w1, s1, c2, w2, s2);
    }
  }

  /** A keyed product whose colours, widths and sizes are each listed once lists every SKU once. */
  lemma {:induction false} SkusNoDup(p: Product)
    requires KeyedProduct(p) && Codable(p)
    requires NoDup(p.colors) && NoDup(Widths(p)) && NoDup(p.sizes)
    ensures NoDup(Skus(p))
  {
    var vs, skus := Variants(p), Skus(p);
    EnumerateNoDup(p.colors, Widths(p), p.sizes);
    forall i, j | 0 <= i < j < |skus| ensures skus[i] != skus[j] {
      var v, u := vs[i], vs[j];
      EnumerateMembers(p.colors, Widths(p), p.sizes, v);
      EnumerateMembers(p.colors, Widths(p), p.sizes, u);
      SkuFieldsUnique(p, v.color, v.width, v.size, u.color, u.width, u.size);
    }
  }

  /** A key listed for a product is the SKU of one of its (colour, width, size) combinations. */
  lemma SkusMember(p: Product, x: string) returns (c: string, w: string, s: string)
    requires Codable(p) && x in Skus(p)
    ensures c in p.colors && w in Widths(p) && s in p.sizes
    ensures SizeCodable(s, SizeKind(p.style)) && x == GenerateSku(p.style, w, c, s)
  {
    var k :| 0 <= k < |Skus(p)| && Skus(p)[k] == x;
    SkusIndex(p, k);
    var v := Variants(p)[k];
    EnumerateMembers(p.colors, Widths(p), p.sizes, v);
    c, w, s := v.color, v.width, v.size;
  }

  /** A key listed by the catalogue belongs to one of its products. */
  lemma {:induction false} CatalogSkusMember(ps: seq<Product>, x: string)
    returns (i: nat, c: string, w: string, s: string)
    requires forall p :: p in ps ==> Codable(p)
    requires x in CatalogSkus(ps)
    ensures i < |ps| && c in ps[i].colors && w in Widths(ps[i]) && s in ps[i].sizes
    ensures SizeCodable(s, SizeKind(ps[i].style)) && x == GenerateSku(ps[i].style, w, c, s)
  {
    assert CatalogSkus(ps) == Skus(ps[0]) + CatalogSkus(ps[1..]);
    if x in Skus(ps[0]) {
      i := 0;
      c, w, s := SkusMember(ps[0], x);
    } else {
      var j;
      j, c, w, s := CatalogSkusMember(ps[1..], x);
      i := j + 1;
    }
  }

  /**
   * A keyed catalogue whose products list each colour, width and size once
   * lists every key once: no two quantity fields of the form share a key.
   */
  lemma {:induction false} CatalogSkusNoDup(ps: seq<Product>)
    requires KeyedCatalog(ps)
    requires forall p :: p in ps ==> Codable(p) && NoDup(p.colors) && NoDup(Widths(p)) && NoDup(p.sizes)
    ensures NoDup(CatalogSkus(ps))
  {
    if ps != [] {
      KeyedCatalogTail(ps);
      CatalogSkusNoDup(ps[1..]);
      SkusNoDup(ps[0]);
      CatalogSkusApart(ps);
      assert forall x :: x in Skus(ps[0]) ==> x !in CatalogSkus(ps[1..]);
      NoDupConcat(Skus(ps[0]), CatalogSkus(ps[1..]));
    }
  }

  lemma KeyedCatalogTail(ps: seq<Product>)
    requires KeyedCatalog(ps) && ps != []
    ensures KeyedCatalog(ps[1..])
  {
    var rest := ps[1..];
    forall i | 0 <= i < |rest| ensures KeyedProduct(rest[i]) && |rest[i].style| == |rest[0].style| {
      assert rest[i] == ps[i + 1] && rest[0] == ps[1];
    }
    forall i, j | 0 <= i < j < |rest| ensures rest[i].style != rest[j].style {
      assert rest[i] == ps[i + 1] && rest[j] == ps[j + 1];
    }
  }

  /** The first product of a keyed catalogue shares no key with the products after it. */
  lemma CatalogSkusApart(ps: seq<Product>)
    requires KeyedCatalog(ps) && ps != []
    requires forall p :: p in ps ==> Codable(p)
    ensures forall x, y :: x in Skus(ps[0]) && y in CatalogSkus(ps[1..]) ==> x != y
  {
    forall x, y | x in Skus(ps[0]) && y in CatalogSkus(ps[1..]) ensures x != y {
      KeysOfDifferentProducts(ps, x, y);
    }
  }

  lemma KeysOfDifferentProducts(ps: seq<Product>, x: string, y: string)
    requires KeyedCatalog(ps) && ps != []
    requires forall p :: p in ps ==> Codable(p)
    requires x in Skus(ps[0]) && y in CatalogSkus(ps[1..])
    ensures x != y
  {
    var c1, w1, s1 := SkusMember(ps[0], x);
    var j, c2, w2, s2 := TailSkusMember(ps, y);
    SkuUnique(ps, 0, c1, w1, s1, j, c2, w2, s2);
  }

  /** A key listed by the products after the first belongs to one of them. */
  lemma TailSkusMember(ps: seq<Product>, y: string) returns (j: nat, c: string, w: string, s: string)
    requires ps != [] && forall p :: p in ps ==> Codable(p)
    requires y in CatalogSkus(ps[1..])
    ensures 1 <= j < |ps| && c in ps[j].colors && w in Widths(ps[j]) && s in ps[j].sizes
    ensures SizeCodable(s, SizeKind(ps[j].style)) && y == GenerateSku(ps[j].style, w, c, s)
  {
    var rest := ps[1..];
    assert forall p :: p in rest ==> p in ps;
    var i;
    i, c, w, s := CatalogSkusMember(rest, y);
    assert rest[i] == ps[i + 1];
    j := i + 1;
  }

  /** No field of the product holds the character ch. */
  predicate Avoids(p: Product, ch: char)
  {
    ch !in p.style
    && (forall c :: c in p.colors ==> ch !in c)
    && (forall w :: w in Widths(p) ==> ch !in w)
    && (forall s :: s in p.sizes ==> ch !in s)
  }

  lemma AvoidsIntro(p: Product, ch: char)
    requires ch !in p.style
    requires forall c :: c in p.colors ==> ch !in c
    requires forall w :: w in Widths(p) ==> ch !in w
    requires forall s :: s in p.sizes ==> ch !in s
    ensures Avoids(p, ch)
  {
  }

  /** A character that no field of the catalogue holds, nor any size code, occurs in no key. */
  lemma CatalogSkusAvoid(ps: seq<Product>, ch: char)
    requires forall p :: p in ps ==> Codable(p) && Avoids(p, ch)
    requires !IsDigit(ch) && ch !in OneSizeCode
    ensures forall x :: x in CatalogSkus(ps) ==> ch !in x
  {
    forall x | x in CatalogSkus(ps) ensures ch !in x {
      var i, c, w, s := CatalogSkusMember(ps, x);
      assert ps[i] in ps;
      SkuAvoids(ps[i].style, w, c, s, ch);
    }
  }

  // ---------------------------------------------------------------------
  // The hard-coded catalogue
  // ---------------------------------------------------------------------

  /** The `startsWith("S")` test agrees with the `type` field of every catalogue entry. */
  lemma SampleClassification()
    ensures forall p :: p in SampleProducts ==> (IsShoeStyle(p.style) <==> p.kind == ShoeKind)
  {
  }

  /** A product is keyed when its colours share one length, its widths another, and its sizes are canonical. */
  lemma KeyedProductIntro(p: Product, colorLength: nat, widthLength: nat)
    requires forall c :: c in p.colors ==> |c| == colorLength
    requires forall w :: w in Widths(p) ==> |w| == widthLength
    requires forall s :: s in p.sizes ==> CanonicalSize(s, SizeKind(p.style))
    requires !IsShoeStyle(p.style) ==> |Widths(p)| <= 1
    ensures KeyedProduct(p) && Codable(p)
  {
    forall s | s in p.sizes ensures SizeCodable(s, SizeKind(p.style)) {
      CanonicalSizeCodable(s, SizeKind(p.style));
    }
  }

  // The shapes the catalogue's shoe sizes take: "7", "10", "7.5", "10.5".

  lemma OneDigitSize(a: char)
    requires IsDigit(a)
    ensures CanonicalSize([a], ShoeKind)
  {
  }

  lemma TwoDigitSize(a: char, b: char)
    requires IsDigit(a) && a != '0' && IsDigit(b)
    ensures CanonicalSize([a, b], ShoeKind)
  {
  }

  lemma OneDigitHalfSize(a: char)
    requires IsDigit(a)
    ensures CanonicalSize([a, '.', '5'], ShoeKind)
  {
    assert [a, '.', '5'][..1] == [a];
  }

  lemma TwoDigitHalfSize(a: char, b: char)
    requires IsDigit(a) && a != '0' && IsDigit(b)
    ensures CanonicalSize([a, b, '.', '5'], ShoeKind)
  {
    assert [a, b, '.', '5'][..2] == [a, b];
  }

  lemma SampleProduct0Size(s: string)
    requires s in ShoeV720C.sizes
    ensures CanonicalSize(s, ShoeKind)
  {
    OneDigitSize('6'); OneDigitHalfSize('6'); OneDigitSize('7'); OneDigitHalfSize('7');
    OneDigitSize('8'); OneDigitHalfSize('8'); OneDigitSize('9'); OneDigitHalfSize('9');
    TwoDigitSize('1', '0'); TwoDigitHalfSize('1', '0'); TwoDigitSize('1', '1'); TwoDigitHalfSize('1', '1');
    TwoDigitSize('1', '2'); TwoDigitHalfSize('1', '2'); TwoDigitSize('1', '3'); TwoDigitHalfSize('1', '3');
    OneDigitSize('1'); OneDigitHalfSize('1'); OneDigitSize('2'); OneDigitHalfSize('2');
  }

  lemma SampleProduct0Sizes()
    ensures forall s :: s in ShoeV720C.sizes ==> SizeCodable(s, ShoeKind) && CanonicalSize(s, ShoeKind)
  {
    forall s | s in ShoeV720C.sizes ensures SizeCodable(s, ShoeKind) && CanonicalSize(s, ShoeKind) {
      SampleProduct0Size(s);
      CanonicalSizeCodable(s, ShoeKind);
    }
  }

  lemma SampleProduct0Keyed()
    ensures KeyedProduct(ShoeV720C) && Codable(ShoeV720C)
  {
    var p := ShoeV720C;
    assert IsShoeStyle(p.style);
    assert Widths(p) == ["M", "W"];
    assert p.colors == ["BLK", "CAR"];
    SampleProduct0Sizes();
    KeyedProductIntro(p, 3, 1);
  }

  lemma SampleProduct1Size(s: string)
    requires s in Shoe2050W.sizes
    ensures CanonicalSize(s, ShoeKind)
  {
    OneDigitSize('3'); OneDigitSize('4'); OneDigitSize('5'); OneDigitSize('6');
    OneDigitSize('7'); OneDigitSize('8'); OneDigitSize('9'); TwoDigitSize('1', '0');
    TwoDigitSize('1', '1'); TwoDigitSize('1', '2'); TwoDigitSize('1', '3'); TwoDigitSize('1', '4');
  }

  lemma SampleProduct1Sizes()
    ensures forall s :: s in Shoe2050W.sizes ==> SizeCodable(s, ShoeKind) && CanonicalSize(s, ShoeKind)
  {
    forall s | s in Shoe2050W.sizes ensures SizeCodable(s, ShoeKind) && CanonicalSize(s, ShoeKind) {
      SampleProduct1Size(s);
      CanonicalSizeCodable(s, ShoeKind);
    }
  }

  lemma SampleProduct1Keyed()
    ensures KeyedProduct(Shoe2050W) && Codable(Shoe2050W)
  {
    var p := Shoe2050W;
    assert IsShoeStyle(p.style);
    assert Widths(p) == ["M", "W"];
    assert p.colors == ["LPK"];
    SampleProduct1Sizes();
    KeyedProductIntro(p, 3, 1);
  }

  lemma SampleProduct2Size(s: string)
    requires s in ShoeMOT100W.sizes
    ensures CanonicalSize(s, ShoeKind)
  {
    OneDigitSize('3'); OneDigitSize('4'); OneDigitSize('5'); OneDigitSize('6');
    OneDigitSize('7'); OneDigitSize('8'); OneDigitSize('9'); TwoDigitSize('1', '0');
    TwoDigitSize('1', '1'); TwoDigitSize('1', '2'); TwoDigitSize('1', '3'); TwoDigitSize('1', '4');
    TwoDigitSize('1', '5'); TwoDigitSize('1', '6');
  }

  lemma SampleProduct2Sizes()
    ensures forall s :: s in ShoeMOT100W.sizes ==> SizeCodable(s, ShoeKind) && CanonicalSize(s, ShoeKind)
  {
    forall s | s in ShoeMOT100W.sizes ensures SizeCodable(s, ShoeKind) && CanonicalSize(s, ShoeKind) {
      SampleProduct2Size(s);
      CanonicalSizeCodable(s, ShoeKind);
    }
  }

  lemma SampleProduct2Keyed()
    ensures KeyedProduct(ShoeMOT100W) && Codable(ShoeMOT100W)
  {
    var p := ShoeMOT100W;
    assert IsShoeStyle(p.style);
    assert Widths(p) == ["M", "W"];
    assert p.colors == ["BLK", "LPK"];
    SampleProduct2Sizes();
    KeyedProductIntro(p, 3, 1);
  }

  lemma SampleProduct3Keyed()
    ensures KeyedProduct(AccessoryB325U) && Codable(AccessoryB325U)
  {
    var p := AccessoryB325U;
    assert !IsShoeStyle(p.style) && SizeKind(p.style) == OtherKind;
    assert Widths(p) == [""];
    assert p.sizes == [OneSize];
    assert p.colors == ["CCG", "OAT"];
    KeyedProductIntro(p, 3, 0);
  }

  /**
   * The hard-coded catalogue is keyed: its SKUs identify product, colour,
   * width and size, so no two quantity fields of the form share a key.
   */
  lemma SampleProductKeyed(i: nat)
    requires i < |SampleProducts|
    ensures KeyedProduct(SampleProducts[i]) && Codable(SampleProducts[i])
  {
    if i == 0 {
      SampleProduct0Keyed();
    } else if i == 1 {
      SampleProduct1Keyed();
    } else if i == 2 {
      SampleProduct2Keyed();
    } else {
      SampleProduct3Keyed();
    }
  }

  lemma SampleStyles()
    ensures forall i :: 0 <= i < |SampleProducts| ==> |SampleProducts[i].style| == 9
    ensures forall i, j :: 0 <= i < j < |SampleProducts| ==> SampleProducts[i].style != SampleProducts[j].style
  {
    var tags := ['V', '2', 'T', 'B'];
    assert forall i :: 0 <= i < |SampleProducts| ==> SampleProducts[i].style[4] == tags[i];
  }

  lemma SampleCatalogKeyed()
    ensures KeyedCatalog(SampleProducts)
    ensures forall i :: 0 <= i < |SampleProducts| ==> Codable(SampleProducts[i])
  {
    forall i | 0 <= i < |SampleProducts| ensures KeyedProduct(SampleProducts[i]) && Codable(SampleProducts[i]) {
      SampleProductKeyed(i);
    }
    SampleStyles();
  }

  /**
   * Every (product, colour, width, size) of the hard-coded catalogue has a
   * SKU of its own.
   */
  lemma SampleSkusUnique(
    i: nat, c1: string, w1: string, s1: string, j: nat, c2: string, w2: string, s2: string)
    requires i < |SampleProducts| && j < |SampleProducts|
    requires c1 in SampleProducts[i].colors && w1 in Widths(SampleProducts[i]) && s1 in SampleProducts[i].sizes
    requires c2 in SampleProducts[j].colors && w2 in Widths(SampleProducts[j]) && s2 in SampleProducts[j].sizes
    ensures SizeCodable(s1, SizeKind(SampleProducts[i].style)) && SizeCodable(s2, SizeKind(SampleProducts[j].style))
    ensures GenerateSku(SampleProducts[i].style, w1, c1, s1) == GenerateSku(SampleProducts[j].style, w2, c2, s2)
      ==> i == j && c1 == c2 && w1 == w2 && s1 == s2
  {
    SampleCatalogKeyed();
    SkuUnique(SampleProducts, i, c1, w1, s1, j, c2, w2, s2);
  }

  lemma SampleProduct0SizesDistinct()
    ensures NoDup(ShoeV720C.sizes)
  {
    var front := ["6", "6.5", "7", "7.5", "8", "8.5", "9", "9.5", "10", "10.5"];
    var back := ["11", "11.5", "12", "12.5", "13", "13.5", "1", "1.5", "2", "2.5"];
    assert ShoeV720C.sizes == front + back;
    assert NoDup(front);
    assert NoDup(back);
    NoDupConcat(front, back);
  }

  lemma SampleProduct0Distinct()
    ensures NoDup(ShoeV720C.colors) && NoDup(Widths(ShoeV720C)) && NoDup(ShoeV720C.sizes)
  {
    SampleProduct0SizesDistinct();
    assert Widths(ShoeV720C) == ["M", "W"];
  }

  lemma SampleProduct1Distinct()
    ensures NoDup(Shoe2050W.colors) && NoDup(Widths(Shoe2050W)) && NoDup(Shoe2050W.sizes)
  {
    assert Widths(Shoe2050W) == ["M", "W"];
  }

  lemma SampleProduct2Distinct()
    ensures NoDup(ShoeMOT100W.colors) && NoDup(Widths(ShoeMOT100W)) && NoDup(ShoeMOT100W.sizes)
  {
    assert Widths(ShoeMOT100W) == ["M", "W"];
  }

  lemma SampleProduct3Distinct()
    ensures NoDup(AccessoryB325U.colors) && NoDup(Widths(AccessoryB325U)) && NoDup(AccessoryB325U.sizes)
  {
    assert Widths(AccessoryB325U) == [""];
  }

  /** Each list of the hard-coded catalogue names every colour, width and size once. */
  lemma SampleListsDistinct(i: nat)
    requires i < |SampleProducts|
    ensures NoDup(SampleProducts[i].colors) && NoDup(Widths(SampleProducts[i])) && NoDup(SampleProducts[i].sizes)
  {
    if i == 0 {
      SampleProduct0Distinct();
    } else if i == 1 {
      SampleProduct1Distinct();
    } else if i == 2 {
      SampleProduct2Distinct();
    } else {
      SampleProduct3Distinct();
    }
  }

  /** The order form lists every key of the hard-coded catalogue once. */
  lemma SampleCatalogSkusDistinct()
    ensures forall p :: p in SampleProducts ==> Codable(p)
    ensures NoDup(CatalogSkus(SampleProducts))
  {
    var ps := SampleProducts;
    SampleCatalogKeyed();
    forall p | p in ps ensures Codable(p) && NoDup(p.colors) && NoDup(Widths(p)) && NoDup(p.sizes) {
      var i :| 0 <= i < |ps| && ps[i] == p;
      SampleListsDistinct(i);
    }
    CatalogSkusNoDup(ps);
  }

  /** The form lists 80, 24, 56 and 2 variants for the four products. */
  lemma SampleVariantCounts()
    ensures |Variants(ShoeV720C)| == 80 && |Variants(Shoe2050W)| == 24
    ensures |Variants(ShoeMOT100W)| == 56 && |Variants(AccessoryB325U)| == 2
  {
    EnumerateCount(ShoeV720C.colors, Widths(ShoeV720C), ShoeV720C.sizes);
    EnumerateCount(Shoe2050W.colors, Widths(Shoe2050W), Shoe2050W.sizes);
    EnumerateCount(ShoeMOT100W.colors, Widths(ShoeMOT100W), ShoeMOT100W.sizes);
    EnumerateCount(AccessoryB325U.colors, Widths(AccessoryB325U), AccessoryB325U.sizes);
  }

  lemma SampleTotalVariants()
    ensures TotalVariants(SampleProducts) == 162
  {
    SampleVariantCounts();
    var ps := SampleProducts;
    assert TotalVariants(ps[3..]) == 2;
    assert TotalVariants(ps[2..]) == 56 + 2;
    assert TotalVariants(ps[1..]) == 24 + 58;
  }

  /** The form lists 162 quantity fields in all. */
  lemma SampleFieldCount()
    ensures forall p :: p in SampleProducts ==> Codable(p)
    ensures |CatalogSkus(SampleProducts)| == 162
  {
    SampleCodable();
    SampleTotalVariants();
  }

  lemma SampleCodable()
    ensures forall p :: p in SampleProducts ==> Codable(p)
  {
    forall p | p in SampleProducts ensures Codable(p) {
      var i :| 0 <= i < |SampleProducts| && SampleProducts[i] == p;
      SampleProductKeyed(i);
    }
  }

  /** A shoe size token is made of digits and a decimal point. */
  lemma ShoeSizeAvoids(s: string, ch: char)
    requires SizeCodable(s, ShoeKind)
    requires !IsDigit(ch) && ch != '.' && ch !in OneSize
    ensures ch !in s
  {
    if s != OneSize {
      forall i | 0 <= i < |s| ensures s[i] != ch {
        if !AllDigits(s) && i < |s| - 2 {
          assert s[i] == s[..|s| - 2][i];
        }
      }
    }
  }

  /** The fields of the hard-coded catalogue hold no comma and no line break. */
  lemma SampleFieldsPlain(i: nat)
    requires i < |SampleProducts|
    ensures Avoids(SampleProducts[i], ',') && Avoids(SampleProducts[i], '\n')
  {
    SampleFieldPlain(i, ',');
    SampleFieldPlain(i, '\n');
  }

  lemma SampleFieldPlain(i: nat, ch: char)
    requires i < |SampleProducts|
    requires ch == ',' || ch == '\n'
    ensures Avoids(SampleProducts[i], ch)
  {
    if i == 0 {
      SampleProduct0Plain(ch);
    } else if i == 1 {
      SampleProduct1Plain(ch);
    } else if i == 2 {
      SampleProduct2Plain(ch);
    } else {
      SampleProduct3Plain(ch);
    }
  }

  lemma SampleProduct0Plain(ch: char)
    requires ch == ',' || ch == '\n'
    ensures Avoids(ShoeV720C, ch)
  {
    assert Widths(ShoeV720C) == ["M", "W"];
    SampleProduct0SizesPlain(ch);
    AvoidsIntro(ShoeV720C, ch);
  }

  lemma SampleProduct0SizesPlain(ch: char)
    requires ch == ',' || ch == '\n'
    ensures forall s :: s in ShoeV720C.sizes ==> ch !in s
  {
    SampleProduct0Sizes();
    forall s | s in ShoeV720C.sizes ensures ch !in s {
      ShoeSizeAvoids(s, ch);
    }
  }

  lemma SampleProduct1Plain(ch: char)
    requires ch == ',' || ch == '\n'
    ensures Avoids(Shoe2050W, ch)
  {
    assert Widths(Shoe2050W) == ["M", "W"];
    SampleProduct1SizesPlain(ch);
    AvoidsIntro(Shoe2050W, ch);
  }

  lemma SampleProduct1SizesPlain(ch: char)
    requires ch == ',' || ch == '\n'
    ensures forall s :: s in Shoe2050W.sizes ==> ch !in s
  {
    SampleProduct1Sizes();
    forall s | s in Shoe2050W.sizes ensures ch !in s {
      ShoeSizeAvoids(s, ch);
    }
  }

  lemma SampleProduct2Plain(ch: char)
    requires ch == ',' || ch == '\n'
    ensures Avoids(ShoeMOT100W, ch)
  {
    assert Widths(ShoeMOT100W) == ["M", "W"];
    SampleProduct2SizesPlain(ch);
    AvoidsIntro(ShoeMOT100W, ch);
  }

  lemma SampleProduct2SizesPlain(ch: char)
    requires ch == ',' || ch == '\n'
    ensures forall s :: s in ShoeMOT100W.sizes ==> ch !in s
  {
    SampleProduct2Sizes();
    forall s | s in ShoeMOT100W.sizes ensures ch !in s {
      ShoeSizeAvoids(s, ch);
    }
  }

  lemma SampleProduct3Plain(ch: char)
    requires ch == ',' || ch == '\n'
    ensures Avoids(AccessoryB325U, ch)
  {
    assert Widths(AccessoryB325U) == [""];
  }

  /** No key of the hard-coded catalogue holds a comma or a line break. */
  lemma SampleSkusPlain()
    ensures forall p :: p in SampleProducts ==> Codable(p)
    ensures forall x :: x in CatalogSkus(SampleProducts) ==> ',' !in x && '\n' !in x
  {
    SampleCodable();
    forall p | p in SampleProducts ensures Avoids(p, ',') && Avoids(p, '\n') {
      var i :| 0 <= i < |SampleProducts| && SampleProducts[i] == p;
      SampleFieldsPlain(i);
    }
    CatalogSkusAvoid(SampleProducts, ',');
    CatalogSkusAvoid(SampleProducts, '\n');
  }
}
