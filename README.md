# B2B order form: SKU encoder, variant grid and CSV export

This project models the logic of the wholesale order form in
`src/order-form.tsx`. The form shows a hard-coded catalogue of four products.
For each product it lists every colour × width × size variant under a SKU
built by `generateSKU`, and it keeps the typed quantities in a SKU → string
map. The export button writes the entries with a positive quantity as
`sku,qty` lines into a file named after the customer id.

The model has five modules:

- `Wrappers` (`wrappers.dfy`): the `Option` type.
- `Text` (`text.dfy`): the JavaScript string primitives the form relies on.
  These are `String(n)` for a non-negative integer, `padStart`, `trim` with
  the ECMAScript white-space set, and `parseInt`. `parseInt` skips leading
  white space, reads an optional sign, reads a `0x` hexadecimal prefix or
  the leading run of decimal digits, and gives NaN (`None`) when no digit
  follows.
- `Sku` (`sku.dfy`): `padSize` and `generateSKU`, with the size-code and SKU
  properties.
- `Catalog` (`catalog.dfy`): the four sample products, and the colour-outer,
  width-middle, size-inner enumeration of the render, where `widths`
  defaults to `[""]`. It also proves that every SKU of the hard-coded
  catalogue is distinct, which the form relies on when it uses the SKU as a
  React key.
- `Order` (`order.dfy`): the export pipeline as functions, and the form
  state as the class `OrderForm`. `OrderForm` holds the `quantities` map,
  its keys in insertion order (the order `Object.entries` lists them in)
  and the customer id. `HandleChange` and `SetCustomerId` update that
  state. `ExportCsv` builds the rows with a loop and joins them with a
  second loop (`Join`). A reader `ParseCsv` is defined only to state that
  the exported file reads back.

Shoe sizes are exact tenths. A shoe size token is decimal digits with at most
one fractional digit, and `padSize` for a shoe is `String(10 × size)` padded
to three characters.

What the code does, and what the model therefore does:

- The export writes no header line, no group or subtotal lines and no
  trailing newline.
- An order with no positive quantity still exports, as an empty file.
- The width goes into the SKU as it is.
- Sizes are literal lists.
- The form has no catalogue builder, SKU decoder, totals, tax or import.

## Model

| member | source | states |
|---|---|---|
| Text.Decimal | src/order-form.tsx:39 | `String(n)` is a canonical digit string (no superfluous leading zero) whose value is n |
| Text.DecimalOfValue | src/order-form.tsx:39 | every canonical digit string is `String` of its value, so `String` and reading digits are inverse |
| Text.PadStart | src/order-form.tsx:39-41 | `padStart(width, fill)` has length max(len, width), ends with the original string and has only fill characters before it |
| Text.ZeroPaddingKeepsValue | src/order-form.tsx:39 | padding a digit string with '0' keeps it all digits and keeps its value |
| Text.ZerosAreWorthZero | src/order-form.tsx:39 | a run of '0' is all digits and worth 0 |
| Text.TrimStart | src/order-form.tsx:68 | removes exactly the leading white space: the result is a suffix, what it drops is all white space, and the result does not start with white space |
| Text.TrimEnd | src/order-form.tsx:68 | removes exactly the trailing white space, symmetrically |
| Text.Trim | src/order-form.tsx:68 | `trim()` is no longer than its input and neither starts nor ends with white space |
| Text.TrimOfPadded | src/order-form.tsx:68 | trimming white space + s + white space gives back s when s has no white space at either end |
| Text.TrimStartOfPadded | src/order-form.tsx:68 | leading white space before a string that does not start with white space is removed exactly |
| Text.TrimEndOfPadded | src/order-form.tsx:68 | trailing white space after a string that does not end with white space is removed exactly |
| Text.AllSpaceTrimStart | src/order-form.tsx:68 | an all-white-space string trims to the empty string |
| Text.TrimIdempotent | src/order-form.tsx:68 | trimming twice is trimming once |
| Text.TrimStartAfterSpace | src/order-form.tsx:63 | extra leading white space does not change what `parseInt` starts reading at |
| Text.DigitChar | src/order-form.tsx:39 | the digit character for d < 10 is a digit worth d |
| Text.HexDigitValue | src/order-form.tsx:63 | a hexadecimal digit is worth less than 16, and a decimal digit is worth its decimal value |
| Text.DigitRun | src/order-form.tsx:63 | the digits `parseInt` reads: an all-digit prefix followed by a non-digit or the end |
| Text.HexRun | src/order-form.tsx:63 | the hexadecimal digits `parseInt` reads after `0x`, likewise |
| Text.Magnitude | src/order-form.tsx:63 | `parseInt` has no value (NaN) exactly when no digit follows the sign, or no hexadecimal digit follows a `0x` prefix |
| Text.ParseInt | src/order-form.tsx:63 | `parseInt(s)` is NaN exactly when no digit (no hexadecimal digit after `0x`) follows the white space and the optional sign; a negative result needs a leading '-' and a positive one excludes it |
| Text.ParseIntOfDecimal | src/order-form.tsx:63 | `parseInt(String(n)) == n` for every n ≥ 0 |
| Text.ParseIntOfDecimalThen | src/order-form.tsx:63 | `parseInt` stops at the first non-digit: `parseInt(String(n) + rest) == n` (for "0x…" the hexadecimal rule applies instead) |
| Text.ParseIntOfNegative | src/order-form.tsx:63 | `parseInt("-" + String(n)) == -n` |
| Text.MagnitudeOfDecimal | src/order-form.tsx:63 | the digits of `String(n)` read back as n |
| Text.NoHexPrefixInDecimal | src/order-form.tsx:63 | `String(n)` never starts with `0x` |
| Text.DigitRunOfDigits | src/order-form.tsx:63 | the digit run of digits followed by a non-digit is exactly those digits |
| Text.ParseIntSkipsSpace | src/order-form.tsx:63 | leading white space does not change `parseInt` |
| Text.ParseIntWithoutDigits | src/order-form.tsx:63 | a quantity with no digit after the optional sign is NaN |
| Text.LeadingDigitBound | src/order-form.tsx:39 | a digit string not starting with '0' is worth at least 1, and at least 10 when it has two digits or more |
| Sku.WholePart | src/order-form.tsx:38 | the digits before the point of a shoe size: all digits, at least one |
| Sku.Tenths | src/order-form.tsx:38-39 | `Math.round(parseFloat(size) * 10)` in exact arithmetic: between ten times the whole part and nine more, and exactly ten times the value for a whole size |
| Sku.IsShoeStyle | src/order-form.tsx:45-46 | `style.startsWith("S")`: the style's first character is 'S' |
| Sku.SizeKind | src/order-form.tsx:45 | the size type passed to `padSize` is "shoe" exactly for a style starting with 'S', and "other" otherwise |
| Sku.PadSize | src/order-form.tsx:35-42 | "OS" becomes "ONE" whatever the type; a shoe size becomes digits worth 10 × the size, at least three, with no zero padding beyond three; any other token is left-padded with '0' to max(len, 3) and ends with the token |
| Sku.GenerateSku | src/order-form.tsx:44-51 | every SKU starts with its style |
| Sku.SkuKindByStyle | src/order-form.tsx:44-51 | `startsWith("S")` alone decides the category: style + width + colour + shoe code, or style + colour + other code |
| Sku.OtherSkuIgnoresWidth | src/order-form.tsx:48-49 | a non-shoe SKU does not depend on the width |
| Sku.ShoeCodeHalfSize | src/order-form.tsx:37-39 | "7.5" is coded "075" |
| Sku.ShoeCodeLargeHalfSize | src/order-form.tsx:37-39 | "13.5" is coded "135" |
| Sku.ShoeCodeSmallWholeSize | src/order-form.tsx:37-39 | "1" is coded "010" |
| Sku.ShoeCodeLargeWholeSize | src/order-form.tsx:37-39 | "16" is coded "160" |
| Sku.ShoeCodeDeterminedByValue | src/order-form.tsx:39 | two codes of the shape `padSize` produces that have the same value are equal |
| Sku.PaddedDecimal | src/order-form.tsx:39 | such a code is `String(v).padStart(3, "0")` of its value v |
| Sku.LeadingZeros | src/order-form.tsx:39 | a three-digit code is k ≤ 2 zeros followed by a canonical number |
| Sku.ShoeCodeInjective | src/order-form.tsx:37-39 | equal shoe codes mean equal sizes |
| Sku.OtherCodeInjective | src/order-form.tsx:41 | non-shoe tokens that do not start with '0' get distinct codes |
| Sku.OtherCodeCollisions | src/order-form.tsx:36-41 | without that condition non-shoe codes collide: "1" and "01" both give "001", and "ONE" is written like "OS" |
| Sku.TenthsInjective | src/order-form.tsx:38 | distinct canonical shoe sizes (no leading zero, no ".0") denote distinct sizes |
| Sku.WholeSizesEqual | src/order-form.tsx:38 | two canonical whole sizes of the same value are the same token |
| Sku.HalfSizesEqual | src/order-form.tsx:38 | two canonical fractional sizes worth the same tenths are the same token |
| Sku.WholeSizeForm | src/order-form.tsx:38 | a canonical shoe size is whole exactly when ten times it is a multiple of ten |
| Sku.CanonicalSizeCodable | src/order-form.tsx:35-42 | a canonical token is one `padSize` accepts |
| Sku.OneCodeOnlyForOneSize | src/order-form.tsx:35-42 | among canonical tokens only "OS" is coded "ONE" |
| Sku.SizeCodeInjective | src/order-form.tsx:35-42 | `padSize` is injective on canonical tokens of one type |
| Sku.DistinctStylesDistinctSkus | src/order-form.tsx:44-51 | SKUs of two different styles of the same length never coincide |
| Sku.SkuFieldsRecoverable | src/order-form.tsx:44-51 | with fixed-length colours and widths, equal SKUs of one style have the same colour, the same width (shoes) and the same size code |
| Sku.SplitConcat | src/order-form.tsx:47-49 | proof helper, not an operation of the source: concatenations with equal-length first parts agree part by part |
| Sku.SkuAvoids | src/order-form.tsx:44-51 | a character absent from style, width, colour and size, and not a digit or a letter of "ONE", is absent from the SKU |
| Catalog.SampleProducts | src/order-form.tsx:5-33 | the hard-coded catalogue: the four products below, in this order |
| Catalog.ShoeV720C | src/order-form.tsx:6-12 | style S000V720C: 20 sizes from "6" to "2.5", widths M and W, colours BLK and CAR, type shoe |
| Catalog.Shoe2050W | src/order-form.tsx:13-19 | style S0002050W: sizes "3" to "14", widths M and W, colour LPK, type shoe |
| Catalog.ShoeMOT100W | src/order-form.tsx:20-26 | style S0MOT100W: sizes "3" to "16", widths M and W, colours BLK and LPK, type shoe |
| Catalog.AccessoryB325U | src/order-form.tsx:27-32 | style A000B325U: size "OS", no widths, colours CCG and OAT, type accessory |
| Catalog.Widths | src/order-form.tsx:86 | `product.widths \|\| [""]` |
| Catalog.SizeRow | src/order-form.tsx:90-91 | `sizes.map(...)` for one colour and width: one variant per size |
| Catalog.WidthRows | src/order-form.tsx:86-91 | `widths.map(...)` for one colour: the size rows width by width; empty exactly when there is no width or no size |
| Catalog.Enumerate | src/order-form.tsx:83-91 | `colors.map(...)`: the width rows colour by colour; empty exactly when a colour, width or size list is empty |
| Catalog.Variants | src/order-form.tsx:83-91 | the variants the form lists for a product; none exactly when it has no colour, no width after the `[""]` default, or no size |
| Catalog.WidthRowsAt | src/order-form.tsx:86-91 | the rows of one colour: width wi, size si sits at position wi·\|sizes\| + si |
| Catalog.WidthRowsCount | src/order-form.tsx:86-91 | one colour has \|widths\|·\|sizes\| variants |
| Catalog.EnumerateCount | src/order-form.tsx:83-91 | a product has \|colours\|·\|widths\|·\|sizes\| variants |
| Catalog.EnumerateAt | src/order-form.tsx:83-91 | colour outer, width middle, size inner: (colour ci, width wi, size si) sits at position (ci·\|widths\| + wi)·\|sizes\| + si |
| Catalog.EnumerateBlockAt | src/order-form.tsx:83-91 | the block of colour ci is that colour's width rows |
| Catalog.WidthRowsMembers | src/order-form.tsx:86-91 | a variant is in a colour's rows iff it has that colour, a listed width and a listed size |
| Catalog.EnumerateMembers | src/order-form.tsx:83-91 | a variant is enumerated iff its colour, width and size are all listed |
| Catalog.WidthRowsNoDup | src/order-form.tsx:86-91 | distinct widths and sizes give no repeated variant |
| Catalog.EnumerateNoDup | src/order-form.tsx:83-91 | distinct colours, widths and sizes give no repeated variant |
| Catalog.NoDupConcat | src/order-form.tsx:80-91 | proof helper, not an operation of the source: two duplicate-free lists with no common element concatenate without duplicates |
| Catalog.VariantsCodable | src/order-form.tsx:91 | every enumerated size is one `padSize` accepts for the product's style |
| Catalog.SkusAt | src/order-form.tsx:83-91 | the SKU at position (ci·\|widths\| + wi)·\|sizes\| + si is `generateSKU(style, widths[wi], colours[ci], sizes[si])` |
| Catalog.Skus | src/order-form.tsx:91 | the SKUs of a product's fields: one per variant, each starting with the product's style |
| Catalog.SkusIndex | src/order-form.tsx:91 | the k-th SKU of a product is `generateSKU` of its k-th variant |
| Catalog.CatalogSkus | src/order-form.tsx:80-91 | the SKUs product by product: as many as the catalogue has variants |
| Catalog.SkuFieldsUnique | src/order-form.tsx:44-51 | within a keyed product, equal SKUs come from the same colour, width and size |
| Catalog.SkuUnique | src/order-form.tsx:44-51 | within a keyed catalogue, equal SKUs come from the same product, colour, width and size |
| Catalog.SkusNoDup | src/order-form.tsx:83-93 | a keyed product with distinct colours, widths and sizes lists no SKU twice |
| Catalog.SkusMember | src/order-form.tsx:83-91 | every SKU of a product is `generateSKU` of a listed colour, width and size |
| Catalog.CatalogSkusMember | src/order-form.tsx:80-91 | every SKU of the catalogue is `generateSKU` of some product's listed colour, width and size |
| Catalog.TailSkusMember | src/order-form.tsx:80-91 | a SKU listed after the first product belongs to a product other than the first |
| Catalog.CatalogSkusNoDup | src/order-form.tsx:80-93 | a keyed catalogue lists no SKU twice |
| Catalog.KeyedCatalogTail | src/order-form.tsx:80 | the rest of a keyed catalogue is keyed |
| Catalog.CatalogSkusApart | src/order-form.tsx:80-93 | the first product's SKUs differ from all the others' |
| Catalog.KeysOfDifferentProducts | src/order-form.tsx:80-93 | SKUs of two different products differ |
| Catalog.AvoidsIntro | src/order-form.tsx:5-33 | a product whose fields all lack a character avoids it |
| Catalog.CatalogSkusAvoid | src/order-form.tsx:80-91 | a character no field of the catalogue holds, and not a digit or a letter of "ONE", is in no SKU |
| Catalog.SampleClassification | src/order-form.tsx:5-33 | for each sample product the `startsWith("S")` test agrees with its `type` field |
| Catalog.KeyedProductIntro | src/order-form.tsx:5-33 | colours of one length, widths of one length, canonical sizes, and at most one width for a non-shoe make a product keyed |
| Catalog.SampleProduct0Sizes | src/order-form.tsx:8 | the sizes of S000V720C are canonical shoe sizes |
| Catalog.SampleProduct0Keyed | src/order-form.tsx:6-12 | S000V720C is keyed |
| Catalog.SampleProduct1Keyed | src/order-form.tsx:13-19 | S0002050W is keyed |
| Catalog.SampleProduct2Keyed | src/order-form.tsx:20-26 | S0MOT100W is keyed |
| Catalog.SampleProduct3Keyed | src/order-form.tsx:27-32 | A000B325U is keyed |
| Catalog.SampleStyles | src/order-form.tsx:5-33 | the four styles have nine characters each and are distinct |
| Catalog.SampleCatalogKeyed | src/order-form.tsx:5-33 | the hard-coded catalogue is keyed |
| Catalog.SampleSkusUnique | src/order-form.tsx:5-33 | in the hard-coded catalogue, equal SKUs come from the same product, colour, width and size |
| Catalog.SampleListsDistinct | src/order-form.tsx:5-33 | no sample product lists a colour, width or size twice |
| Catalog.SampleCatalogSkusDistinct | src/order-form.tsx:80-93 | the 162 SKUs the form renders are pairwise distinct, so the React keys are unique |
| Catalog.SampleVariantCounts | src/order-form.tsx:5-33 | the products have 80, 24, 56 and 2 variants |
| Catalog.SampleTotalVariants | src/order-form.tsx:5-33 | 162 variants in all |
| Catalog.SampleFieldCount | src/order-form.tsx:80-91 | the form renders 162 SKUs |
| Catalog.SampleCodable | src/order-form.tsx:5-33 | every sample size is one `padSize` accepts |
| Catalog.ShoeSizeAvoids | src/order-form.tsx:8 | a shoe size token holds only digits and '.' |
| Catalog.SampleFieldsPlain | src/order-form.tsx:5-33 | no field of the sample catalogue holds ',' or a line break |
| Catalog.SampleSkusPlain | src/order-form.tsx:5-33 | no SKU of the catalogue holds ',' or a line break |
| Order.PositiveQtyOfDecimal | src/order-form.tsx:63 | a plain number is kept exactly when it is not zero |
| Order.PositiveQtyOfLeadingDigits | src/order-form.tsx:63 | a fraction or exponent after the integer part does not matter: it is kept exactly when the integer part is not zero |
| Order.PositiveQtyAfterSpace | src/order-form.tsx:63 | leading white space does not change whether a quantity is kept |
| Order.NegativeQtyDropped | src/order-form.tsx:63 | negative quantities are dropped |
| Order.NonNumericQtyDropped | src/order-form.tsx:63 | empty and non-numeric quantities are dropped |
| Order.KeptQtyExamples | src/order-form.tsx:63 | "3" and "12" are kept |
| Order.KeptPaddedQtyExample | src/order-form.tsx:63 | " 7" is kept |
| Order.KeptFractionExample | src/order-form.tsx:63 | "1.5" is kept, as 1 |
| Order.KeptExponentExample | src/order-form.tsx:63 | "1e3" is kept, as 1 |
| Order.DroppedQtyExamples | src/order-form.tsx:63 | "0", "0.5" and "-2" are dropped |
| Order.NonNumericQtyExamples | src/order-form.tsx:63 | "" and "abc" are dropped |
| Order.IsPositiveQty | src/order-form.tsx:63 | `parseInt(qty) > 0`: a kept quantity has a digit after its optional sign, so NaN is never kept |
| Order.EntriesOf | src/order-form.tsx:62 | `Object.entries`: one entry per key, in key order, carrying the map's quantity |
| Order.Kept | src/order-form.tsx:63 | the filter keeps at most as many entries as it is given |
| Order.Row | src/order-form.tsx:64 | the line `${sku},${qty}`: the SKU, one comma, then the quantity |
| Order.Rows | src/order-form.tsx:64 | one `sku,qty` line per entry, in order |
| Order.CsvRows | src/order-form.tsx:62-64 | the exported lines: no more than there are entries, and every entry with a positive quantity has its line among them |
| Order.KeptRows | src/order-form.tsx:63-64 | every entry with a positive quantity has its line among the rows of the kept entries |
| Order.JoinLines | src/order-form.tsx:65 | `rows.join("\n")`: no rows give "", otherwise the rows' characters plus one "\n" between each two rows and none after the last |
| Order.KeptMembers | src/order-form.tsx:63 | an entry is kept iff it is an entry with a positive quantity |
| Order.KeptAppend | src/order-form.tsx:63 | the filter distributes over concatenation, so it keeps the order |
| Order.KeptCons | src/order-form.tsx:63 | the filter decides on the first entry alone and goes on with the rest |
| Order.EntriesMembers | src/order-form.tsx:62 | (k, q) is an entry iff k is a key mapped to q |
| Order.ExportedEntries | src/order-form.tsx:62-64 | (k, q) is exported iff k is a key mapped to q and q is positive |
| Order.ExportAfterChange | src/order-form.tsx:57-64 | after `handleChange(sku, qty)` the export holds (sku, qty) iff qty is positive, and every other SKU's entry is exported exactly as before |
| Order.BaseName | src/order-form.tsx:68 | `customerId.trim() \|\| "order"` is never empty and neither starts nor ends with white space |
| Order.DefaultName | src/order-form.tsx:68 | the fallback base name is not empty and has no white space at either end |
| Order.FileName | src/order-form.tsx:68-69 | the file name ends in ".csv" and the part before it neither starts nor ends with white space |
| Order.FileNameOfPadded | src/order-form.tsx:68-69 | an id surrounded by white space names the file id + ".csv" |
| Order.FileNameOfBlank | src/order-form.tsx:68-69 | an empty or all-white-space id names the file "order.csv" |
| Order.FirstIndex | src/order-form.tsx:64-65 | part of the model-only reader `ParseCsv`, which the source does not have: the first position of a character |
| Order.FirstIndexUnique | src/order-form.tsx:64-65 | part of the model-only reader `ParseCsv`: a position of c with no c before it is the first position |
| Order.Lines | src/order-form.tsx:65 | part of the model-only reader `ParseCsv`, splitting at line breaks: it gives at least one line |
| Order.ParseRowOfRow | src/order-form.tsx:64 | a row splits back at its first comma into the SKU and quantity when the SKU has no comma |
| Order.LinesOfJoin | src/order-form.tsx:65 | joining rows without line breaks by "\n" and splitting gives the rows back |
| Order.ParseLinesOfRows | src/order-form.tsx:64 | the rows read back as the entries |
| Order.CsvReadBack | src/order-form.tsx:62-65 | the file is empty iff nothing is kept, and otherwise reads back as exactly the kept entries in map order (no header, no trailing newline) |
| Order.CatalogOrderReadsBack | src/order-form.tsx:5-33 | an order on catalogue SKUs exports to a file that reads back as exactly its kept entries |
| Order.JoinLinesNonEmpty | src/order-form.tsx:65 | joining rows whose first row is not empty gives a non-empty text |
| Order.JoinLinesSnoc | src/order-form.tsx:65 | joining one more row adds "\n" and the row, except after no rows |
| Order.ExportStep | src/order-form.tsx:62-64 | one more key adds its row, when its quantity is positive, after the rows so far |
| Order.NoDupSnoc | src/order-form.tsx:58 | adding a new key keeps the key list free of duplicates |
| Order.OrderForm.Entries | src/order-form.tsx:62 | one entry per key of the quantities map |
| Order.OrderForm.DisplayValue | src/order-form.tsx:98 | `quantities[sku] \|\| ""`: the typed quantity, or "" for a SKU never typed |
| Order.OrderForm.constructor | src/order-form.tsx:54-55 | no quantities and an empty customer id |
| Order.OrderForm.HandleChange | src/order-form.tsx:57-59 | the map gets sku ↦ qty and nothing else changes; a new key is appended at the end of the entry order; the SKU's field now shows qty and every other field shows what it did |
| Order.OrderForm.SetCustomerId | src/order-form.tsx:77 | the customer id is replaced and the quantities are untouched |
| Order.OrderForm.ExportCsv | src/order-form.tsx:61-70 | the loop builds the rows of the entries with a positive quantity, and the text is them joined by "\n"; the file name is the trimmed id, or "order", followed by ".csv" |
| Order.Join | src/order-form.tsx:65 | the loop computes `rows.join("\n")` |

## Left out

- Rendering: the JSX, the React `useState` plumbing and the `Blob` and `saveAs` download are not modelled. The model keeps only the data they consume and produce: the text and the file name.
- Sku.PadSize: the shoe branch uses `parseFloat` and `Math.round` in floating point. The model works in exact tenths and requires a shoe size of digits with at most one fractional digit. The NaN a non-numeric shoe size would give ("NaN" padded) is not modelled.
- Text.PadStart: counts characters, not UTF-16 code units. This makes no difference for the ASCII sizes of the catalogue.
- Text.ParseInt: integers are unbounded. JavaScript's loss of precision above 2^53 is not modelled.
- Order.OrderForm: `Object.entries` lists integer-like keys ("12") first, in ascending order. The model lists keys in insertion order. Catalogue SKUs start with a letter, so they are never integer-like.
- Order.OrderForm.HandleChange: React may batch state updates. The model applies each change to the latest state.
- Order.CsvReadBack: requires that no quantity holds a line break. The number input does not produce one, but the export itself does not check.
- The send-order API handlers (`src/pages/api/send-order.ts`, `api/send-order.ts`) are network I/O and calls into an e-mail library. They are not part of this model.
- `src/components/ui/input.tsx` and `src/main.tsx` are presentation and DOM start-up only. They are not part of this model.
