/**
 * The order held by the form: quantity strings keyed by SKU, the customer
 * id, and the CSV file the export button produces from them.
 */
module Order {
  import opened Wrappers
  import opened Text
  import opened Catalog

  /** One `[sku, qty]` pair of `Object.entries(quantities)`. */
  datatype Entry = Entry(sku: string, qty: string)

  /** `parseInt(qty) > 0`; NaN compares false. */
  predicate IsPositiveQty(qty: string)
    ensures IsPositiveQty(qty) ==> Magnitude(Unsigned(qty)).Some?
  {
    match ParseInt(qty)
    case Some(v) => v > 0
    case None => false
  }

  /** A quantity written as a plain number is kept exactly when that number is not zero. */
  lemma PositiveQtyOfDecimal(n: nat)
    ensures IsPositiveQty(Decimal(n)) <==> n > 0
  {
    ParseIntOfDecimal(n);
  }

  /**
   * `parseInt` stops at the first character that is not a digit, so a
   * fraction or an exponent after the integer part does not matter:
   * "1.5" and "1e3" are kept, "0.5" is not.
   */
  lemma PositiveQtyOfLeadingDigits(n: nat, rest: string)
    requires rest == [] || !IsDigit(rest[0])
    requires n == 0 && rest != [] ==> rest[0] != 'x' && rest[0] != 'X'
    ensures IsPositiveQty(Decimal(n) + rest) <==> n > 0
  {
    ParseIntOfDecimalThen(n, rest);
  }

  /** Leading white space does not change whether a quantity is kept. */
  lemma PositiveQtyAfterSpace(a: string, qty: string)
    requires AllSpace(a)
    ensures IsPositiveQty(a + qty) <==> IsPositiveQty(qty)
  {
    ParseIntSkipsSpace(a, qty);
  }

  /** A negative quantity is dropped. */
  lemma NegativeQtyDropped(n: nat)
    ensures !IsPositiveQty("-" + Decimal(n))
  {
    ParseIntOfNegative(n);
  }

  /** An empty or non-numeric quantity (NaN for `parseInt`) is dropped. */
  lemma NonNumericQtyDropped(qty: string)
    requires Unsigned(qty) == [] || !IsDigit(Unsigned(qty)[0])
    ensures !IsPositiveQty(qty)
  {
    ParseIntWithoutDigits(qty);
  }

  /** Whole quantities the export keeps. */
  lemma KeptQtyExamples()
    ensures IsPositiveQty("3") && IsPositiveQty("12")
  {
    assert Decimal(3) == "3";
    PositiveQtyOfDecimal(3);
    assert Decimal(12) == "12";
    PositiveQtyOfDecimal(12);
  }

  /** A quantity typed with a leading blank is still kept. */
  lemma KeptPaddedQtyExample()
    ensures IsPositiveQty(" 7")
  {
    assert Decimal(7) == "7";
    PositiveQtyOfDecimal(7);
    PositiveQtyAfterSpace(" ", "7");
    assert " " + "7" == " 7";
  }

  /** A fractional quantity is kept: `parseInt("1.5")` is 1. */
  lemma KeptFractionExample()
    ensures IsPositiveQty("1.5")
  {
    assert Decimal(1) == "1";
    PositiveQtyOfLeadingDigits(1, ".5");
    assert "1" + ".5" == "1.5";
  }

  /** A quantity in exponent notation is kept: `parseInt("1e3")` is 1. */
  lemma KeptExponentExample()
    ensures IsPositiveQty("1e3")
  {
    assert Decimal(1) == "1";
    PositiveQtyOfLeadingDigits(1, "e3");
    assert "1" + "e3" == "1e3";
  }

  /** Quantities the export drops. */
  lemma DroppedQtyExamples()
    ensures !IsPositiveQty("0") && !IsPositiveQty("0.5") && !IsPositiveQty("-2")
  {
    assert Decimal(0) == "0";
    PositiveQtyOfDecimal(0);
    PositiveQtyOfLeadingDigits(0, ".5");
    assert "0" + ".5" == "0.5";
    assert Decimal(2) == "2";
    NegativeQtyDropped(2);
    assert "-" + "2" == "-2";
  }

  /** Empty and non-numeric quantities are dropped. */
  lemma NonNumericQtyExamples()
    ensures !IsPositiveQty("") && !IsPositiveQty("abc")
  {
    NonNumericQtyDropped("");
    NonNumericQtyDropped("abc");
  }

  /** `${sku},${qty}`. */
  function Row(e: Entry): (line: string)
    ensures |line| == |e.sku| + 1 + |e.qty|
    ensures line[..|e.sku|] == e.sku && line[|e.sku|] == ',' && line[|e.sku| + 1..] == e.qty
  {
    e.sku + "," + e.qty
  }

  // ---------------------------------------------------------------------
  // The export pipeline: entries, filter, map, join
  // ---------------------------------------------------------------------

  /** The entries of a map listed in the order of `keys`. */
  function EntriesOf(keys: seq<string>, m: map<string, string>): (es: seq<Entry>)
    requires forall k :: k in keys ==> k in m
    ensures |es| == |keys|
    ensures forall i :: 0 <= i < |keys| ==> es[i] == Entry(keys[i], m[keys[i]])
  {
    seq(|keys|, i requires 0 <= i < |keys| => Entry(keys[i], m[keys[i]]))
  }

  /** `.filter(([, qty]) => parseInt(qty) > 0)`. */
  function Kept(es: seq<Entry>): (r: seq<Entry>)
    ensures |r| <= |es|
  {
    if es == [] then []
    else (if IsPositiveQty(es[0].qty) then [es[0]] else []) + Kept(es[1..])
  }

  /** `.map(([sku, qty]) => `${sku},${qty}`)`. */
  function Rows(es: seq<Entry>): (rows: seq<string>)
    ensures |rows| == |es|
    ensures forall i :: 0 <= i < |es| ==> rows[i] == Row(es[i])
  {
    seq(|es|, i requires 0 <= i < |es| => Row(es[i]))
  }

  /** The lines of the exported file. */
  function CsvRows(es: seq<Entry>): (rows: seq<string>)
    ensures |rows| <= |es|
    ensures forall e :: e in es && IsPositiveQty(e.qty) ==> Row(e) in rows
  {
    KeptRows(es);
    Rows(Kept(es))
  }

  /** The number of characters in all the rows together. */
  function TotalLength(rows: seq<string>): nat
  {
    if rows == [] then 0 else |rows[0]| + TotalLength(rows[1..])
  }

  /** `rows.join("\n")`: no header and no trailing newline. */
  function JoinLines(rows: seq<string>): (text: string)
    ensures rows == [] ==> text == ""
    ensures rows != [] ==> |text| == TotalLength(rows) + |rows| - 1
  {
    if rows == [] then ""
    else if |rows| == 1 then rows[0]
    else rows[0] + "\n" + JoinLines(rows[1..])
  }

  /** `customerId.trim() || "order"`: never empty, and no white space at either end. */
  function BaseName(customerId: string): (base: string)
    ensures base != [] && !IsSpace(base[0]) && !IsSpace(base[|base| - 1])
  {
    var id := Trim(customerId);
    if id == "" then DefaultName() else id
  }

  /** The base name used when the customer id is blank. */
  function DefaultName(): (name: string)
    ensures name != [] && !IsSpace(name[0]) && !IsSpace(name[|name| - 1])
  {
    "order"
  }

  /** The name of the downloaded file: the base name followed by ".csv". */
  function FileName(customerId: string): (name: string)
    ensures |name| > 4 && name[|name| - 4..] == ".csv"
    ensures !IsSpace(name[0]) && !IsSpace(name[|name| - 5])
  {
    var base := BaseName(customerId);
    var name := base + ".csv";
    assert name[|base|..] == ".csv";
    assert name[0] == base[0] && name[|name| - 5] == base[|base| - 1];
    name
  }

  // ---------------------------------------------------------------------
  // What the filter keeps
  // ---------------------------------------------------------------------

  /** The filter keeps exactly the entries whose quantity parses to a positive integer. */
  /** Every entry with a positive quantity has its line among the exported ones. */
  lemma KeptRows(es: seq<Entry>)
    ensures forall e :: e in es && IsPositiveQty(e.qty) ==> Row(e) in Rows(Kept(es))
  {
    forall e | e in es && IsPositiveQty(e.qty)
      ensures Row(e) in Rows(Kept(es))
    {
      KeptMembers(es, e);
      var i :| 0 <= i < |Kept(es)| && Kept(es)[i] == e;
      assert Rows(Kept(es))[i] == Row(e);
    }
  }

  lemma {:induction false} KeptMembers(es: seq<Entry>, e: Entry)
    ensures e in Kept(es) <==> e in es && IsPositiveQty(e.qty)
  {
    if es != [] {
      KeptMembers(es[1..], e);
      assert es == [es[0]] + es[1..];
    }
  }

  /** The filter keeps the order of the entries: filtering a concatenation filters each part. */
  lemma {:induction false} KeptAppend(a: seq<Entry>, b: seq<Entry>)
    ensures Kept(a + b) == Kept(a) + Kept(b)
  {
    if a == [] {
      assert a + b == b;
    } else {
      var x, rest := a[0], a[1..];
      assert [x] + rest == a;
      assert [x] + (rest + b) == a + b;
      KeptCons(x, rest);
      KeptCons(x, rest + b);
      KeptAppend(rest, b);
      var k := Kept([x]);
      assert Kept(a + b) == k + (Kept(rest) + Kept(b));
      ConcatAssoc(k, Kept(rest), Kept(b));
    }
  }

  lemma ConcatAssoc<T>(x: seq<T>, y: seq<T>, z: seq<T>)
    ensures x + (y + z) == (x + y) + z
  {
  }

  /** The filter decides on the first entry alone, then goes on with the rest. */
  lemma KeptCons(e: Entry, es: seq<Entry>)
    ensures Kept([e] + es) == Kept([e]) + Kept(es)
  {
    assert ([e] + es)[0] == e && ([e] + es)[1..] == es;
    assert [e][1..] == [];
  }

  /** Listing the keys of a map, one entry per key, with the value the map holds for it. */
  lemma EntriesMembers(keys: seq<string>, m: map<string, string>, k: string, q: string)
    requires forall x :: x in keys ==> x in m
    ensures Entry(k, q) in EntriesOf(keys, m) <==> k in keys && m[k] == q
  {
    var es := EntriesOf(keys, m);
    if k in keys {
      var i :| 0 <= i < |keys| && keys[i] == k;
      assert es[i] == Entry(k, m[k]);
    }
  }

  /**
   * A row `sku,qty` is exported for exactly the keys whose quantity parses
   * to a positive integer, with the quantity as typed.
   */
  lemma ExportedEntries(keys: seq<string>, m: map<string, string>, k: string, q: string)
    requires forall x :: x in keys ==> x in m
    ensures Entry(k, q) in Kept(EntriesOf(keys, m)) <==> k in keys && m[k] == q && IsPositiveQty(q)
  {
    KeptMembers(EntriesOf(keys, m), Entry(k, q));
    EntriesMembers(keys, m, k, q);
  }

  /**
   * After `handleChange(sku, qty)` the export holds `sku,qty` exactly when
   * qty is positive, and every other key's row is as it was.
   */
  lemma ExportAfterChange(keys: seq<string>, m: map<string, string>, sku: string, qty: string, k: string, q: string)
    requires forall x :: x in keys <==> x in m
    ensures var keys' := if sku in m then keys else keys + [sku];
      Entry(k, q) in Kept(EntriesOf(keys', m[sku := qty])) <==>
        if k == sku then q == qty && IsPositiveQty(qty)
        else Entry(k, q) in Kept(EntriesOf(keys, m))
  {
    var keys' := if sku in m then keys else keys + [sku];
    var m' := m[sku := qty];
    assert sku in keys';
    assert forall x :: x in keys' ==> x == sku || x in keys;
    ExportedEntries(keys', m', k, q);
    ExportedEntries(keys, m, k, q);
  }

  // ---------------------------------------------------------------------
  // Reading the file back
  // ---------------------------------------------------------------------

  /** The index of the first occurrence of c in s. */
  function FirstIndex(s: string, c: char): (i: nat)
    requires c in s
    ensures i < |s| && s[i] == c && c !in s[..i]
  {
    if s[0] == c then 0
    else
      var i := 1 + FirstIndex(s[1..], c);
      assert s[..i] == [s[0]] + s[1..][..i - 1];
      i
  }

  lemma FirstIndexUnique(s: string, c: char, j: nat)
    requires j < |s| && s[j] == c && c !in s[..j]
    ensures FirstIndex(s, c) == j
  {
    var i := FirstIndex(s, c);
    forall k | 0 <= k < j ensures s[k] != c {
      assert s[..j][k] == s[k];
    }
    forall k | 0 <= k < i ensures s[k] != c {
      assert s[..i][k] == s[k];
    }
  }

  /** The lines of a text, split at each '\n'. */
  function Lines(text: string): (lines: seq<string>)
    ensures |lines| >= 1
    decreases |text|
  {
    if '\n' in text then
      var i := FirstIndex(text, '\n');
      [text[..i]] + Lines(text[i + 1..])
    else [text]
  }

  /** A line `sku,qty` split at its first comma. */
  function ParseRow(line: string): Entry
    requires ',' in line
  {
    var i := FirstIndex(line, ',');
    Entry(line[..i], line[i + 1..])
  }

  function ParseLines(lines: seq<string>): Option<seq<Entry>>
  {
    if lines == [] then Some([])
    else if ',' !in lines[0] then None
    else match ParseLines(lines[1..])
      case None => None
      case Some(es) => Some([ParseRow(lines[0])] + es)
  }

  /** The entries an exported file lists; None when a line has no comma. */
  function ParseCsv(text: string): Option<seq<Entry>>
  {
    if text == "" then Some([]) else ParseLines(Lines(text))
  }

  /** A row splits back into its SKU and its quantity when the SKU has no comma. */
  lemma ParseRowOfRow(e: Entry)
    requires ',' !in e.sku
    ensures ',' in Row(e) && ParseRow(Row(e)) == e
  {
    var r := Row(e);
    assert r[|e.sku|] == ',';
    assert r[..|e.sku|] == e.sku;
    assert r[|e.sku| + 1..] == e.qty;
  }

  /** Joined lines that hold no '\n' split back into the same lines. */
  lemma {:induction false} LinesOfJoin(rows: seq<string>)
    requires rows != []
    requires forall r :: r in rows ==> '\n' !in r
    ensures Lines(JoinLines(rows)) == rows
  {
    var r := rows[0];
    assert r in rows;
    if |rows| > 1 {
      var rest := JoinLines(rows[1..]);
      var text := r + "\n" + rest;
      assert JoinLines(rows) == text;
      assert text[|r|] == '\n' && text[..|r|] == r && text[|r| + 1..] == rest;
      FirstIndexUnique(text, '\n', |r|);
      LinesOfJoin(rows[1..]);
      assert Lines(text) == [r] + rows[1..];
      assert rows == [r] + rows[1..];
    }
  }

  lemma {:induction false} ParseLinesOfRows(es: seq<Entry>)
    requires forall e :: e in es ==> ',' !in e.sku
    ensures ParseLines(Rows(es)) == Some(es)
  {
    if es != [] {
      ParseRowOfRow(es[0]);
      assert Rows(es)[1..] == Rows(es[1..]);
      ParseLinesOfRows(es[1..]);
      assert es == [es[0]] + es[1..];
    }
  }

  /**
   * The exported file reads back as the kept entries, in order, when no SKU
   * holds a comma or a newline and no quantity holds a newline; a file with
   * nothing to export is empty.
   */
  lemma CsvReadBack(es: seq<Entry>)
    requires forall e :: e in es ==> ',' !in e.sku && '\n' !in e.sku && '\n' !in e.qty
    ensures Kept(es) == [] <==> JoinLines(CsvRows(es)) == ""
    ensures ParseCsv(JoinLines(CsvRows(es))) == Some(Kept(es))
  {
    var kept := Kept(es);
    var rows := CsvRows(es);
    forall e | e in kept ensures ',' !in e.sku && '\n' !in e.sku && '\n' !in e.qty {
      KeptMembers(es, e);
    }
    if kept != [] {
      forall r | r in rows ensures '\n' !in r {
        var i :| 0 <= i < |rows| && rows[i] == r;
        assert kept[i] in kept;
        assert r == kept[i].sku + "," + kept[i].qty;
      }
      ParseRowOfRow(kept[0]);
      assert rows[0][|kept[0].sku|] == ',';
      JoinLinesNonEmpty(rows);
      LinesOfJoin(rows);
      ParseLinesOfRows(kept);
    }
  }

  /**
   * An order whose keys are SKUs of the hard-coded catalogue exports to a
   * file that reads back as exactly the kept entries, in map order, as long
   * as no quantity holds a line break.
   */
  lemma CatalogOrderReadsBack(keys: seq<string>, m: map<string, string>)
    requires forall p :: p in SampleProducts ==> Codable(p)
    requires forall x :: x in keys ==> x in m && x in CatalogSkus(SampleProducts)
    requires forall x :: x in keys ==> '\n' !in m[x]
    ensures ParseCsv(JoinLines(CsvRows(EntriesOf(keys, m)))) == Some(Kept(EntriesOf(keys, m)))
  {
    var es := EntriesOf(keys, m);
    SampleSkusPlain();
    forall e | e in es ensures ',' !in e.sku && '\n' !in e.sku && '\n' !in e.qty {
      var i :| 0 <= i < |es| && es[i] == e;
      assert keys[i] in keys;
    }
    CsvReadBack(es);
  }

  lemma {:induction false} JoinLinesNonEmpty(rows: seq<string>)
    requires rows != [] && rows[0] != ""
    ensures JoinLines(rows) != ""
  {
    if |rows| > 1 {
      assert JoinLines(rows)[0] == rows[0][0];
    }
  }

  /** Appending a line to joined lines. */
  lemma {:induction false} JoinLinesSnoc(rows: seq<string>, r: string)
    ensures JoinLines(rows + [r]) == if rows == [] then r else JoinLines(rows) + "\n" + r
  {
    if |rows| == 1 {
      assert rows + [r] == [rows[0], r];
    } else if |rows| > 1 {
      assert (rows + [r])[1..] == rows[1..] + [r];
      JoinLinesSnoc(rows[1..], r);
    }
  }

  // ---------------------------------------------------------------------
  // The file name
  // ---------------------------------------------------------------------

  /** The file is named after the customer id without its surrounding whitespace. */
  lemma FileNameOfPadded(a: string, id: string, b: string)
    requires AllSpace(a) && AllSpace(b)
    requires id != [] && !IsSpace(id[0]) && !IsSpace(id[|id| - 1])
    ensures FileName(a + id + b) == id + ".csv"
  {
    TrimOfPadded(a, id, b);
  }

  /** An empty or blank customer id names the file "order.csv". */
  lemma FileNameOfBlank(customerId: string)
    requires AllSpace(customerId)
    ensures FileName(customerId) == "order.csv"
  {
    var e: string := [];
    assert AllSpace(e);
    assert customerId + e + e == customerId;
    TrimOfPadded(customerId, e, e);
  }

  // ---------------------------------------------------------------------
  // The form's state
  // ---------------------------------------------------------------------

  /**
   * The `quantities` and `customerId` state of the form. `keys` lists the
   * keys of `quantities` in the order they were first set, the order in
   * which `Object.entries` lists them.
   */
  class OrderForm {
    var keys: seq<string>
    var quantities: map<string, string>
    var customerId: string

    ghost predicate Valid()
      reads this
    {
      (forall k :: k in keys <==> k in quantities) && NoDup(keys)
    }

    /** `Object.entries(quantities)`. */
    function Entries(): (es: seq<Entry>)
      reads this
      requires Valid()
      ensures |es| == |keys|
    {
      EntriesOf(keys, quantities)
    }

    /** `quantities[sku] || ""`: what the quantity field of a SKU shows. */
    function DisplayValue(sku: string): (shown: string)
      reads this
      ensures sku in quantities ==> shown == quantities[sku]
      ensures sku !in quantities ==> shown == ""
    {
      if sku in quantities then quantities[sku] else ""
    }

    /** The form starts with no quantities and an empty customer id. */
    constructor ()
      ensures Valid()
      ensures keys == [] && quantities == map[] && customerId == ""
    {
      keys := [];
      quantities := map[];
      customerId := "";
    }

    /** `handleChange(sku, qty)`: `{ ...quantities, [sku]: qty }`. */
    method HandleChange(sku: string, qty: string)
      requires Valid()
      modifies this
      ensures Valid()
      ensures quantities == old(quantities)[sku := qty]
      ensures keys == if sku in old(quantities) then old(keys) else old(keys) + [sku]
      ensures customerId == old(customerId)
      ensures DisplayValue(sku) == qty
      ensures forall other :: other != sku ==> DisplayValue(other) == old(DisplayValue(other))
    {
      if sku !in quantities {
        NoDupSnoc(keys, sku);
        keys := keys + [sku];
      }
      quantities := quantities[sku := qty];
    }

    /** `setCustomerId(e.target.value)`. */
    method SetCustomerId(id: string)
      requires Valid()
      modifies this
      ensures Valid()
      ensures customerId == id
      ensures keys == old(keys) && quantities == old(quantities)
    {
      customerId := id;
    }

    /**
     * `exportCSV`: the rows of the entries with a positive quantity, joined
     * by newlines, and the file name made from the customer id.
     */
    method ExportCsv() returns (fileName: string, text: string)
      requires Valid()
      ensures text == JoinLines(CsvRows(Entries()))
      ensures fileName == FileName(customerId)
    {
      var rows: seq<string> := [];
      var i := 0;
      while i < |keys|
        invariant 0 <= i <= |keys|
        invariant rows == CsvRows(EntriesOf(keys[..i], quantities))
      {
        var sku := keys[i];
        var qty := quantities[sku];
        ExportStep(keys, quantities, i);
        if IsPositiveQty(qty) {
          rows := rows + [sku + "," + qty];
        }
        i := i + 1;
      }
      assert keys[..i] == keys;
      text := Join(rows);
      var id := Trim(customerId);
      fileName := (if id == "" then DefaultName() else id) + ".csv";
    }
  }

  /** `rows.join("\n")`, one row at a time. */
  method Join(rows: seq<string>) returns (text: string)
    ensures text == JoinLines(rows)
  {
    text := "";
    var j := 0;
    while j < |rows|
      invariant 0 <= j <= |rows|
      invariant text == JoinLines(rows[..j])
    {
      JoinLinesSnoc(rows[..j], rows[j]);
      assert rows[..j + 1] == rows[..j] + [rows[j]];
      text := if j == 0 then rows[j] else text + "\n" + rows[j];
      j := j + 1;
    }
    assert rows[..j] == rows;
  }

  /** One more key adds its row, if its quantity is positive, after the rows so far. */
  lemma ExportStep(keys: seq<string>, m: map<string, string>, i: nat)
    requires forall k :: k in keys ==> k in m
    requires i < |keys|
    ensures CsvRows(EntriesOf(keys[..i + 1], m))
         == CsvRows(EntriesOf(keys[..i], m))
            + (if IsPositiveQty(m[keys[i]]) then [keys[i] + "," + m[keys[i]]] else [])
  {
    var a, e := EntriesOf(keys[..i], m), Entry(keys[i], m[keys[i]]);
    EntriesSnoc(keys, m, i);
    KeptAppend(a, [e]);
    var tail := KeptOne(e);
    RowsAppend(Kept(a), tail);
    assert Rows(tail) == if IsPositiveQty(e.qty) then [Row(e)] else [];
  }

  lemma EntriesSnoc(keys: seq<string>, m: map<string, string>, i: nat)
    requires forall k :: k in keys ==> k in m
    requires i < |keys|
    ensures EntriesOf(keys[..i + 1], m) == EntriesOf(keys[..i], m) + [Entry(keys[i], m[keys[i]])]
  {
  }

  lemma KeptOne(e: Entry) returns (tail: seq<Entry>)
    ensures tail == Kept([e])
    ensures tail == if IsPositiveQty(e.qty) then [e] else []
  {
    assert [e][1..] == [];
    tail := Kept([e]);
  }

  lemma RowsAppend(a: seq<Entry>, b: seq<Entry>)
    ensures Rows(a + b) == Rows(a) + Rows(b)
  {
  }

  lemma NoDupSnoc(keys: seq<string>, k: string)
    requires NoDup(keys) && k !in keys
    ensures NoDup(keys + [k])
  {
  }
}
