# Cardmarket order export, modelled in Dafny

This project models the export core of a browser extension. The extension turns Cardmarket purchase
orders into CSV files:

- `extension/background.js` reads the scraped order rows. It parses loose number texts ("6.4",
  "6,40 €", "1.234,56") with `parseNumberLoose` and formats prices the German way with
  `formatPrice` ("6,40").
- Card names are cleaned of version markers ("(V.12)", "(Version 3)") by `normalizeName` and
  `cleanDisplayName`.
- `computeShippingAllocation` spreads each order's shipping over its cards, either equally per card
  or in proportion to each line's value.
- `buildManaBoxCsv` writes one ManaBox import record per row, with the purchase price raised by the
  card's shipping share. It uses the CSV writer `toCsvLine`/`buildCsv`.
- `extension/csv.js` holds a second CSV writer (`csvEscape`, `toCsv`). The popup injects it into the
  page next to the page script and it exposes `toCsv` as `window.CM_CSV`, but nothing in the extension
  calls it.

Modules, in dependency order:

| file | module | models |
|---|---|---|
| wrappers.dfy | Wrappers | `Option`, with `GetOr` for JavaScript's `??` |
| text.dfy | Text | `trim`, ASCII `toLowerCase`, digit strings, `join`, the character removals `parseNumberLoose` does |
| numbers.dfy | Numbers | `parseNumberLoose`, `Number` on decimal text, `formatPrice`, `String` of a number |
| names.dfy | Names | `normalizeName`, `cleanDisplayName` (the two marker expressions as leftmost-match searches) |
| csv_format.dfy | CsvFormat | the quoting both writers share, plus a CSV reader used as the writers' inverse |
| export_csv.dfy | ExportCsv | `toCsvLine`, `buildCsv` |
| csv_js.dfy | CsvJs | `csvEscape`, `toCsv` |
| rows.dfy | Orders | the order row, the values read from it (quantity, shipping, base price) and the line key |
| shipping.dfy | Shipping | `computeShippingAllocation`: both loops as methods, proved against a grouping function and an allocation function |
| manabox.dfy | ManaBox | `buildManaBoxCsv` |

How values are represented:

- Numbers are exact reals.
- Text is `seq<char>`.
- A row field the page did not fill is the empty string, as the page script writes it.
- `computeShippingAllocation` is a method. Its first loop (`GroupRows`, `CountRow`) is proved equal
  to the grouping function `Totals`. Its second loop (`AllocateOrders`, `LineShares`, `CardShare`)
  is proved equal to the per-order allocation `Allocate`.
- The source's `Map` objects are Dafny maps.

## Model

| member | source | states |
|---|---|---|
| Text.Trim | extension/background.js:5-7 | the result has no whitespace at either end |
| Text.TrimIsSlice | extension/background.js:6 | trimming removes only whitespace: the result is a slice of the input, and the cut margins are blank |
| Text.TrimIdempotent | extension/background.js:6 | trimming twice is trimming once |
| Text.TrimEmptyIffBlank | extension/background.js:32-33 | the trimmed text is empty exactly when the input is all whitespace (the "no number" branch) |
| Text.AsciiLower | extension/background.js:224 | `toLowerCase` keeps the length and lower-cases every character in place |
| Text.ReplaceFirstAt | extension/background.js:41 | `replace(',', '.')` changes only the first comma |
| Names.NormalizeName | extension/background.js:5-7 | the name trimmed: no margin whitespace; empty exactly when the name is blank; a slice of the name between blank margins |
| Names.FindMarker | extension/background.js:11-12 | finds the leftmost position from which the marker expression matches up to the end of the text, and no earlier one |
| Names.StripMarker | extension/background.js:11-12 | `replace` cuts the text at the leftmost match of the end-anchored expression, and leaves it unchanged without a match |
| Names.CleanDisplayName | extension/background.js:9-14 | the cleaned name has no margin whitespace |
| Names.CleanStripsV | extension/background.js:11 | a trailing "(V.n)" marker, in either letter case, goes together with the whitespace before it |
| Names.CleanStripsOneV | extension/background.js:11-13 | only the last "(V.n)" marker goes; the rest is checked only for "(Version n)" |
| Names.CleanStripsVersion | extension/background.js:12 | a trailing "(Version n)" marker, in any letter case, goes together with the whitespace before it |
| Names.CleanWithoutMarker | extension/background.js:9-14 | a name whose trimmed form does not end in ')' is only trimmed |
| Names.CleanIgnoresMargins | extension/background.js:9-14 | surrounding whitespace does not change the cleaned name |
| Names.NoMarkerWithoutParen | extension/background.js:11-12 | text that ends in neither ')' nor whitespace has no marker to remove |
| Names.FindLeftmost | extension/background.js:11-12 | a known leftmost match is where the text is cut |
| Names.StripAtParen | extension/background.js:11-12 | a marker after the last '(' is cut off together with the whitespace before it |
| Names.KeepAtParen | extension/background.js:11-12 | when what follows the last '(' is not a marker, nothing is removed |
| Names.CleanExampleV | extension/background.js:11 | "Ponder (v.12)" cleans to "Ponder" |
| Names.CleanExampleVersion | extension/background.js:12 | "Forest (Version 3)" cleans to "Forest" |
| Names.CleanExampleTwoMarkers | extension/background.js:11-13 | "Opt (V.1) (V.2)" cleans to "Opt (V.1)": each expression removes one marker |
| Names.KeepsEarlierMarker | extension/background.js:12 | the "(Version n)" expression leaves a "(V.n)" marker alone |
| Numbers.ParseNumberLoose | extension/background.js:28-53 | null and undefined read as nothing; a finite number reads as itself; NaN and the infinities read as nothing, since `Number(String(v))` is not finite again; a blank string reads as nothing |
| Numbers.LooseDecimal | extension/background.js:32-52 | a blank string reads as nothing |
| Numbers.Normalized | extension/background.js:36-41 | whitespace and euro signs are dropped; text without a comma is otherwise unchanged; text with a comma loses every dot, and its first comma becomes a dot at the same place, which is then the only dot |
| Numbers.LooseReadsOnlyDecimals | extension/background.js:32-52 | whatever reads as a number is, after the rewriting, empty (read as 0) or a sign, digits and an optional dot-fraction, and it reads as exactly the decimal it spells |
| Numbers.LooseRejectsForeign | extension/background.js:51-52 | text that keeps, after the rewriting, a character other than a digit, a sign or a dot reads as nothing |
| Numbers.DecimalLiteral | extension/background.js:51 | `Number` on decimal text gives a non-negative value without a leading '-' and a non-positive one with it |
| Numbers.UnsignedDecimal | extension/background.js:51 | an unsigned decimal reads as a non-negative value |
| Numbers.DecimalLiteralReads | extension/background.js:51 | `Number` reads a signed digit string, with or without a fraction, as exactly that decimal |
| Numbers.LooseReadsNumber | extension/background.js:28-53 | "[-]digits,digits" and "[-]digits.digits" read as the decimal they spell |
| Numbers.LooseReadsInteger | extension/background.js:28-53 | "[-]digits" reads as the integer it spells |
| Numbers.DotDecimal | extension/background.js:40-51 | with no comma, a dot is the decimal point ("6.4") |
| Numbers.GermanDecimal | extension/background.js:36-41 | the display form "a,b €" reads as a.b: whitespace and the euro sign are dropped and the comma is the decimal point |
| Numbers.GermanThousands | extension/background.js:39-41 | with a comma present, every dot of the integer and fraction parts is dropped, however many there are and wherever they stand, and the comma is the decimal point; with no digit on either side the text reads as nothing |
| Numbers.ReadsGermanThousandsExample | extension/background.js:20-27 | "1.234,56" reads as 1234.56 |
| Numbers.ReadsGermanMillionsExample | extension/background.js:39-41 | "1.234.567,89" reads as 1234567.89 |
| Numbers.ReadsGermanDisplayExample | extension/background.js:36-41 | "6,40 €" reads as 6.4 |
| Numbers.FormatPrice | extension/background.js:61-64 | the price text is empty exactly when the number is not finite |
| Numbers.FormatPriceShape | extension/background.js:61-64 | a finite price is written as a sign for negatives, integer digits without a leading zero, a comma and exactly two digits, spelling the amount's cents |
| Numbers.Cents | extension/background.js:63 | `toFixed(2)` picks the nearest number of cents, the larger one on a tie |
| Numbers.RoundToCentsError | extension/background.js:63 | formatting moves a price by at most half a cent |
| Numbers.RoundToCentsExact | extension/background.js:63 | an amount with at most two decimals is not changed by rounding |
| Numbers.DecimalTextRoundTrip | extension/background.js:63 | the digits written with a comma or a dot as the separator read back as the same decimal |
| Numbers.FormatPriceRoundTrip | extension/background.js:28-64 | reading a formatted price back gives the amount rounded to cents |
| Numbers.FormatPriceReadsBack | extension/background.js:28-64 | an amount with at most two decimals survives formatting and reading back unchanged |
| Numbers.FormatPriceExample | extension/background.js:63 | 6.4 is written "6,40" |
| Numbers.PriceExample | extension/background.js:63 | an amount of u units and c cents (c of at least ten) is written as u's digits, a comma and c's digits |
| Numbers.Canonical | extension/background.js:155 | `String` drops trailing fractional zeros without changing the value |
| Numbers.CanonicalIdempotent | extension/background.js:155 | a canonical decimal has no trailing zeros left to drop |
| Numbers.NumberToStringReads | extension/background.js:155 | `String` of a canonical decimal reads back as that decimal |
| Numbers.NumberToStringRoundTrip | extension/background.js:155 | `String` of a number reads back as the same number |
| Numbers.NumberToString | extension/background.js:155 | `String` of a number is never empty, starts with '-' exactly when the number is negative, and holds a dot exactly when the number has fractional digits |
| CsvFormat.QuotedRoundTrip | extension/background.js:156 | a quoted field with doubled quotes reads back as the original text |
| CsvFormat.UnquotedRoundTrip | extension/background.js:157 | a field without special characters reads back as itself |
| CsvFormat.FieldRoundTrip | extension/background.js:155-157 | an escaped field, followed by a comma, the terminator or the end, reads back as its text |
| CsvFormat.RecordRoundTrip | extension/background.js:152-160 | a written and terminated record reads back as its fields |
| CsvFormat.DocumentRoundTrip | extension/background.js:162-166 | terminated records read back as the same records |
| CsvFormat.JoinTerminated | extension/background.js:164-165 | joining lines with the terminator and then adding one terminator ends every line with it |
| ExportCsv.ToCsvLine | extension/background.js:152-160 | no values give an empty line; otherwise the line, once terminated, reads back as the cell texts, null and undefined as empty |
| ExportCsv.BuildCsv | extension/background.js:162-166 | the file is never empty and ends with a line feed |
| ExportCsv.ToCsvLineReadsBack | extension/background.js:152-160 | a written line reads back as the cell texts; null and undefined cells read as empty |
| ExportCsv.LinesAreEncoded | extension/background.js:162-165 | the header and the row lines are the encodings of the column names and of the rows' cells |
| ExportCsv.BuildCsvReadsBack | extension/background.js:162-166 | with rows and columns, the file reads back as the column names, then each row's cells in column order |
| ExportCsv.BuildCsvNoRows | extension/background.js:162-166 | with no rows, the file is the header and an empty line, which reads as one extra record with one empty cell |
| CsvJs.ToCsv | extension/csv.js:9-14 | the text starts with the byte-order mark |
| CsvJs.CsvEscape | extension/csv.js:1-7 | null and undefined are written as nothing; every cell reads back on its own as its text |
| CsvJs.CsvEscapeReadsBack | extension/csv.js:1-7 | an escaped cell, followed by a comma, CR LF or the end, reads back as its text; null and undefined read as empty |
| CsvJs.EscapeLine | extension/csv.js:10-11 | a line is the shared CSV encoding of the cell texts, with carriage return also forcing quotes |
| CsvJs.ToCsvReadsBack | extension/csv.js:9-14 | after the byte-order mark, with one CR LF added, the text reads back as the column names and then each row's cells |
| Orders.QtyOf | extension/background.js:179 | a blank quantity counts as 1; a readable one is the number read, an unreadable one 1 |
| Orders.ShipOf | extension/background.js:180 | a blank shipping amount counts as 0; a readable one is the number read, an unreadable one 0 |
| Orders.BaseUnitOf | extension/background.js:182-183 | the raw price attribute wins when it reads as a number; whenever it does not (blank, or text such as "n/a"), the displayed price is read instead; there is no base price exactly when neither reads |
| Orders.LineKey | extension/background.js:208 | the key is the cleaned item name, then two bars, then the collector number, each recoverable at its position |
| Orders.LineKeyNumber | extension/background.js:208 | for equally cleaned names, two line keys are equal exactly when the collector numbers are |
| Orders.LineKeyIgnoresMarker | extension/background.js:208 | "Ponder (v.12)" and "Ponder" with the same collector number share a line key |
| Shipping.ComputeShippingAllocation | extension/background.js:172-217 | the result is the allocation function of the rows and the mode |
| Shipping.GroupRows | extension/background.js:173-193 | the first loop builds exactly the grouping of the rows by order id |
| Shipping.CountRow | extension/background.js:185-192 | one row creates its group on first sight with that row's shipping, then adds its cards, value and line |
| Shipping.AllocateOrders | extension/background.js:195-216 | the second loop gives each order exactly its allocation, whatever the iteration order |
| Shipping.LineShares | extension/background.js:202-211 | the inner loop's map is the line shares set in line order, a later equal key overwriting |
| Shipping.CardShare | extension/background.js:205-207 | the inner loop's per-card share is the line's share; for a line with cards, share times cards is the shipping times the line's value over the order's value |
| Shipping.PerCard | extension/background.js:204-207 | a line with cards bears, over its cards, the shipping times its value over the order's value; a line without cards bears 0 |
| Shipping.ShareMap | extension/background.js:202-211 | every line's key is in the map; with pairwise different keys, each maps to that line's own per-card share |
| Shipping.Allocate | extension/background.js:198-213 | only "equal" gives an equal share, and with cards share times cards is the shipping, without cards 0; only "proportional" with a positive value fills the per-line map, with every line's key |
| Shipping.EqualPart | extension/background.js:200 | an order with cards: the equal share times the card count is the shipping |
| Shipping.GroupKeys | extension/background.js:175-177 | an order has a group exactly when its id is non-empty and some row carries it |
| Shipping.LineFromOrder | extension/background.js:189-192 | every line of a group comes from a row of that order |
| Shipping.GroupOfOrder | extension/background.js:185-192 | a group holds its order's lines in row order, its card count and its value |
| Shipping.GroupShipping | extension/background.js:185-187 | a group's shipping is read from the order's first row |
| Shipping.AllocationKeys | extension/background.js:172-217 | the allocation has an entry for every non-empty order id in the rows, and for no other |
| Shipping.TotalsShipping | extension/background.js:180-187 | an order's shipping is that of its first row; later rows' amounts are ignored |
| Shipping.TotalsOfOrder | extension/background.js:189-192 | an order's card count and value are the sums over its lines |
| Shipping.OverwriteKeys | extension/background.js:209 | the map's keys are exactly the keys that were set |
| Shipping.OverwriteLastWins | extension/background.js:208-209 | of several lines with one key, the last one's share is kept |
| Shipping.SumSharesScaled | extension/background.js:204-210 | the lines' shares add up to shipping times their value over the subtotal |
| Shipping.ProportionalConserves | extension/background.js:203-210 | when every line holds cards, the lines' shares add up to exactly the order's shipping |
| Shipping.ChargedPrefix | extension/background.js:237 | a map that gives each line its own share charges the lines their shares in all |
| Shipping.ChargedIsShares | extension/background.js:209 | with pairwise different keys, looking shares up by key charges each line exactly its share |
| Shipping.ProportionalCovers | extension/background.js:203-210 | with cards on every line and pairwise different keys, the cards bear exactly the shipping when they look their shares up |
| Shipping.SharedKeyExample | extension/background.js:208-209 | two lines with one key keep only the later share (0.75), so together they are charged 1.5 where the shipping is 1 |
| ManaBox.EffectiveMode | extension/background.js:220 | an absent mode becomes "none"; a given mode is kept; the result is never absent |
| ManaBox.Quantity | extension/background.js:225-247 | the quantity is positive: the number read when that is positive, otherwise 1 |
| ManaBox.QuantityText | extension/background.js:225-247 | the quantity cell is never empty and never starts with '-' |
| ManaBox.ShipShare | extension/background.js:229-240 | a mode other than "equal" and "proportional" (absent and "none" included), or an order without an allocation, gives no share; "equal" gives the order's equal share; "proportional" gives the share stored under the row's line key, and 0 when that key has no entry |
| ManaBox.CardName | extension/background.js:223 | the trimmed Scryfall name when it is not blank, else the cleaned item name; either way without margin whitespace |
| ManaBox.FoilText | extension/background.js:248 | the foil cell is "foil" or "normal" |
| ManaBox.PriceText | extension/background.js:242-252 | the price cell is empty exactly when the row has no base price |
| ManaBox.Cells | extension/background.js:223-256 | one cell per ManaBox column, each under its column name: the card name, the lower-cased trimmed set code, the quantity text, the foil text ("foil" or "normal"), the trimmed card number, the lower-cased trimmed language, the trimmed condition, the price text of the base price plus the row's shipping share (empty exactly without a base price), always "EUR" as purchase currency, the trimmed Scryfall ID and always an empty import error |
| ManaBox.BuildManaBoxCsv | extension/background.js:219-274 | the text is the CSV of the rows' records under the ManaBox columns, with the allocation for the mode ("none" when absent) |
| ManaBox.RecordCells | extension/background.js:244-271 | a record read under the ManaBox columns gives its cells in column order |
| ManaBox.TableOfRecords | extension/background.js:222-273 | the records' cell table is each row's cells |
| ManaBox.ManaBoxReadsBack | extension/background.js:219-274 | the export reads back as the column names, then one record per row holding that row's cells |
| ManaBox.ManaBoxNoRows | extension/background.js:273 | with no rows, the export is the header and an empty line |
| ManaBox.QuantityReadsBack | extension/background.js:225-247 | the quantity cell reads back as the row's quantity when that is a positive number, and as 1 otherwise |
| ManaBox.FoilIffFoil | extension/background.js:248 | the foil cell is "foil" exactly when the row's foil text is "foil" in any letter case |
| ManaBox.PriceReadsBack | extension/background.js:242-252 | with a base price, the price cell reads back as base plus shipping share, rounded to cents |
| ManaBox.NoModeNoShare | extension/background.js:229-230 | without a mode, or with "none", no card bears shipping |
| ManaBox.EqualShares | extension/background.js:233-234 | in "equal" mode, a row's share is its order's shipping divided among the order's cards |
| ManaBox.ProportionalShares | extension/background.js:235-237 | in "proportional" mode, each row bears the share under its key; with cards on every line, positive value and pairwise different keys, the order's cards bear exactly its shipping |
| ManaBox.ExampleAllocation | extension/background.js:172-217 | two one-card rows of order "O1", priced 5 and 15 with shipping 2, get shares 0.5 and 1.5 under their keys |
| ManaBox.ProportionalExample | extension/background.js:219-274 | for the same two rows, the shares are 0.5 and 1.5 and the prices "5,50" and "16,50" |

## Left out

- Parts of the extension outside the export core:
  - the page scraper (`extension/content.js`) and the popup (`extension/popup.js`);
  - the Scryfall lookup (`scryfallFetchJson`, `resolveScryfallCard`, `enrichRowsWithScryfall`, `sleep`);
  - the download (`downloadTextFile`) and the message listener.

  These do network, timer and browser I/O. The model starts from the rows they produce, each field
  a string.
- Numbers.ParseNumberLoose: `Number` is modelled on plain decimal text only: an optional sign,
  digits and an optional fraction, or "" as 0. Exponent forms ("1e3"), hexadecimal, binary and
  octal forms read as nothing here, while JavaScript reads them as finite numbers. The page never
  produces them. "Infinity" reads as nothing in both, since `parseNumberLoose` drops a number that
  is not finite. Digit strings are read as exact decimals: one beyond the double range, which
  `Number` turns into `Infinity` and `parseNumberLoose` into null, reads here as its value, and one
  with more than 17 significant digits, which `Number` rounds, reads here unrounded; the rounded
  value would also reach the Quantity cell through `String(qty)`. The page's prices and quantities
  are far shorter.
- Numbers.FormatPrice: reals are exact. `toFixed(2)` works on binary doubles, so a value such as
  1.005, which is stored just below itself, can round down in JavaScript where the model rounds up.
  The exponent form `toFixed` uses from 1e21 upward is not modelled either.
- Numbers.NumberToString: `String` of a number is modelled as the shortest plain decimal. The
  exponent forms JavaScript uses below 1e-6 and from 1e21 upward are not modelled.
- Text.AsciiLower: `toLowerCase` is modelled on the ASCII letters only. Other letters keep their case.
- The whitespace set of `trim` and `\s` is the ECMAScript set at the Unicode version written into
  `Text.IsWs`.
- Shipping.ProportionalConserves: the shares add up to the shipping exactly over the reals.
  JavaScript's floating point only comes close. The same holds for Shipping.Allocate, Shipping.PerCard,
  Shipping.ProportionalCovers, ManaBox.EqualShares and ManaBox.ProportionalShares.
- Shipping.ComputeShippingAllocation:
  - the `Number.isFinite(o.shipping)` guard is not modelled, because the shipping amount is always
    a finite number or the default 0;
  - `Map` iteration order is not modelled, because the result map does not depend on it.
- ManaBox.BuildManaBoxCsv: an absent shipping mode (`null`, `undefined` or "") is the empty string.
  The quantity cell is held as its `String` text. `toCsvLine` would produce the same text from the
  number.
