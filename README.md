# Inventory and purchases publishing pipeline: a Dafny model

The system moves two CSV exports from an SQL Server database to a
small SQLite database that an app downloads:

- **Two C# exporters.** `Exporter` handles the inventory and
  `ExporterCompras` the purchases. Each runs a query and writes the result
  as CSV, escaping fields with the quoting rules 6 and 7 of section 2 of
  RFC 4180. Each publishes the file over FTPS: upload under a `.part` name,
  delete the old file, rename.
- **A Python builder** (`build_and_upload_db.py`). It reads both CSV files
  and reconciles their headers with ordered lists of candidate names, using
  accent-, case- and punctuation-insensitive matching. It streams the rows
  into three SQLite tables in batches of 10,000. It then publishes the
  database the same way, with a SIZE check after the rename.

This project models the core of those three files and proves its
properties. The modules follow the program's structure:

| module | file | what it models |
|---|---|---|
| `Wrappers` | wrappers.dfy | `Option` and `Result` |
| `Text` | text.dfy | Python `str.isspace`/`strip`, .NET `Char.IsWhiteSpace`, Python substring test |
| `Headers` | headers.dfy | `_norm` and `_find_col` (exact phase, then fuzzy phase, else `KeyError`) |
| `Coerce` | coerce.dfy | `int(float(x))` with 0 on failure, over plain decimals |
| `Tables` | tables.dfy | `_get`, header cleaning, column resolution, and the three tables as functions of the rows |
| `Ingest` | ingest.dfy | the imperative row loops of `build_db` over a `Database` class: `seen_cod`, batch buffers, flushes, counters |
| `Csv` | csv.dfy | `CsvEscape`, header and data lines, a reader of those lines and the round trips |
| `Export` | export.dfy | `FormatValue` and the writer loops of `ExportCsvAsync` over a `Writer` class |
| `Paths` | paths.dfy | `TrimSlash`, the exporters' remote paths, the builder's `.part` name |
| `Remote` | remote.dfy | an FTP server as a `Server` class: a map of files, a set of directories, failable commands |
| `Upload` | upload.dfy | `upload_ftps` of the builder |
| `Publish` | publish.dfy | the publish sequence of both exporters' `Main` |

Each remote step that can fail takes its failure as a parameter: a record
of fault flags, plus the SIZE reply and the upload status. The result and
the final remote files are therefore functions of those inputs. Each
session method is proved equal to them. The lemmas then state what a run
does and does not guarantee.

The code column of the inventory resolves for a header such as
`Código De Barras`: its normal form under `_norm` is `codigodebarras`,
which is one of the code column's candidates at
back-end/PyBuilder/build_and_upload_db.py:264-266.

## Model

| member | source | states |
|---|---|---|
| Text.IsPySpace | back-end/PyBuilder/build_and_upload_db.py:61 | the characters Python's `str.isspace()` accepts, which `strip()` removes: the ASCII controls 0x09-0x0D and 0x1C-0x1F, space, NEL and the Unicode space separators |
| Text.IsDotNetSpace | back-end/Exporter/Program.cs:98 | .NET's `Char.IsWhiteSpace`, used by `string.IsNullOrWhiteSpace`: Python's set without U+001C-U+001F |
| Text.PyLStrip | back-end/PyBuilder/build_and_upload_db.py:61 | Python's `lstrip()`: the leading white space removed (shape proved in `Text.PyLStripShape`) |
| Text.PyRStrip | back-end/PyBuilder/build_and_upload_db.py:61 | Python's `rstrip()`: the trailing white space removed (shape proved in `Text.PyRStripShape`) |
| Text.PyStrip | back-end/PyBuilder/build_and_upload_db.py:61 | Python's `strip()`: white space removed from both ends (properties proved in `Text.PyStripProperties`) |
| Text.LStripChar | back-end/PyBuilder/build_and_upload_db.py:102 | `lstrip("\ufeff")`: every leading copy of the character removed |
| Text.PyLStripShape | back-end/PyBuilder/build_and_upload_db.py:61 | `lstrip` keeps a suffix that does not start with white space; everything it drops is white space |
| Text.PyRStripShape | back-end/PyBuilder/build_and_upload_db.py:61 | `rstrip` keeps a prefix that does not end with white space; everything it drops is white space |
| Text.PyStripProperties | back-end/PyBuilder/build_and_upload_db.py:61 | a stripped string neither starts nor ends with white space, and stripping it again changes nothing |
| Text.PyStripNoop | back-end/PyBuilder/build_and_upload_db.py:61 | a string with no white space at either end is its own strip |
| Text.RStripChar | back-end/Exporter/Program.cs:98 | `TrimEnd(c)` keeps a prefix that does not end in `c`, and removes only copies of `c` |
| Text.Contains | back-end/PyBuilder/build_and_upload_db.py:80 | Python's `needle in hay` on strings (characterised by `Text.ContainsIff`) |
| Text.ContainsIff | back-end/PyBuilder/build_and_upload_db.py:80 | `needle in hay` holds exactly when the needle occurs at some position of the hay |
| Text.EmptyContained | back-end/PyBuilder/build_and_upload_db.py:80 | the empty string is in every string |
| Text.ContainsSelf | back-end/PyBuilder/build_and_upload_db.py:80 | every string contains itself |
| Headers.Filter | back-end/PyBuilder/build_and_upload_db.py:61-64 | the characters the predicate keeps, in order: the BOM removal of line 61, the combining-mark filter of line 62 and the `re.sub(r"[^a-z0-9]+", "", s)` of line 64 |
| Headers.Decompose | back-end/PyBuilder/build_and_upload_db.py:62 | `unicodedata.normalize("NFD", s)` over ASCII and Latin-1: each Latin-1 letter becomes its base letter and combining mark |
| Headers.Lower | back-end/PyBuilder/build_and_upload_db.py:63 | `s.lower()` over ASCII and the Latin-1 capitals, one character for one |
| Headers.Norm | back-end/PyBuilder/build_and_upload_db.py:57-65 | every character of a normal form is in `[a-z0-9]`, and `_norm("")` is `""` |
| Headers.NormKeyFixed | back-end/PyBuilder/build_and_upload_db.py:57-65 | a string made only of `[a-z0-9]` is its own normal form |
| Headers.NormIdempotent | back-end/PyBuilder/build_and_upload_db.py:57-65 | `_norm(_norm(s)) == _norm(s)` for every string |
| Headers.NormPerChar | back-end/PyBuilder/build_and_upload_db.py:61-64 | on a header with no BOM and no surrounding white space, `_norm` is the concatenation of each character's folded form |
| Headers.FoldBelowLatin1 | back-end/PyBuilder/build_and_upload_db.py:62-64 | below U+00C0 a character folds to its lower-case form when that is in `[a-z0-9]`, and to nothing otherwise |
| Headers.FoldAllAppend | back-end/PyBuilder/build_and_upload_db.py:62-64 | folding distributes over concatenation |
| Headers.FoldStages | back-end/PyBuilder/build_and_upload_db.py:62-64 | decomposing, dropping marks, lower-casing and filtering in stages is folding character by character |
| Headers.Insert | back-end/PyBuilder/build_and_upload_db.py:69 | one dict assignment `norm_map[k] = h`: a new key goes last in the key order, an existing key keeps its place and takes the new value |
| Headers.IndexOf | back-end/PyBuilder/build_and_upload_db.py:69 | the dict after assigning each header, in order, under its normal form (characterised by `Headers.IndexFacts`, `Headers.IndexLastWins` and `Headers.IndexKeyOrder`) |
| Headers.BuildIndex | back-end/PyBuilder/build_and_upload_db.py:69 | `norm_map = {_norm(h): h for h in headers}` |
| Headers.IndexFacts | back-end/PyBuilder/build_and_upload_db.py:69 | the keys of `norm_map` are exactly the headers' normal forms, each listed once; each value is a header with that normal form |
| Headers.IndexLastWins | back-end/PyBuilder/build_and_upload_db.py:69 | among headers with the same normal form, the dict holds the last one |
| Headers.IndexKeyOrder | back-end/PyBuilder/build_and_upload_db.py:69 | the dict's keys are in the order of each normal form's first appearance |
| Headers.FirstPos | back-end/PyBuilder/build_and_upload_db.py:69 | the first position of a normal form: it holds that form, and no earlier position does |
| Headers.FirstPosSnoc | back-end/PyBuilder/build_and_upload_db.py:69 | inserting a later header does not move an existing key's first position |
| Headers.FindCol | back-end/PyBuilder/build_and_upload_db.py:67-86 | a resolved column is always one of the headers; a failure is the `KeyError` with the candidates and the headers |
| Headers.Norms | back-end/PyBuilder/build_and_upload_db.py:70 | `cand_norm` has one normal form per candidate, in order |
| Headers.ExactMatch | back-end/PyBuilder/build_and_upload_db.py:72-75 | the exact phase: the value of the first candidate form that is a key of `norm_map` (characterised by `Headers.ExactMatchFirst`) |
| Headers.Related | back-end/PyBuilder/build_and_upload_db.py:80 | the fuzzy test `cn and (cn in nh or nh in cn)` |
| Headers.FuzzyScan | back-end/PyBuilder/build_and_upload_db.py:79-81 | the inner fuzzy loop over `norm_map.items()` in insertion order: the value of the first key related to the candidate (characterised by `Headers.FuzzyScanFirst`) |
| Headers.FuzzyMatch | back-end/PyBuilder/build_and_upload_db.py:77-81 | the outer fuzzy loop over the candidate forms (characterised by `Headers.FuzzyMatchFirst` and `Headers.FuzzyMatchNone`) |
| Headers.ExactInValues | back-end/PyBuilder/build_and_upload_db.py:73-75 | an exact match is a value of the dict |
| Headers.FuzzyScanInValues | back-end/PyBuilder/build_and_upload_db.py:79-81 | an inner fuzzy match is a value of the dict |
| Headers.FuzzyInValues | back-end/PyBuilder/build_and_upload_db.py:78-81 | a fuzzy match is a value of the dict |
| Headers.ExactMatchFirst | back-end/PyBuilder/build_and_upload_db.py:73-75 | the exact phase finds nothing exactly when no candidate form is a key; otherwise it returns the entry of the first candidate that is one |
| Headers.FuzzyScanFirst | back-end/PyBuilder/build_and_upload_db.py:79-81 | the inner fuzzy loop returns the entry of the first related key, or nothing when no key is related |
| Headers.FuzzyMatchFirst | back-end/PyBuilder/build_and_upload_db.py:78-81 | the first candidate related to some key picks the first related key in insertion order |
| Headers.FuzzyMatchNone | back-end/PyBuilder/build_and_upload_db.py:78-81 | the fuzzy phase finds nothing exactly when no candidate is related to any key |
| Headers.FindColExact | back-end/PyBuilder/build_and_upload_db.py:69-75 | when candidate `i` is the first whose form is a header's, the result is the last header with that form, whatever later candidates or the fuzzy phase would give |
| Headers.FindColFuzzy | back-end/PyBuilder/build_and_upload_db.py:77-81 | with no exact match, the first candidate related to a key, together with the first such key in insertion order, decides the result |
| Headers.FindColFails | back-end/PyBuilder/build_and_upload_db.py:83-86 | `KeyError` is raised exactly when there is no exact match and no non-empty candidate form is related to any header form |
| Headers.EmptyHeaderMatchesAll | back-end/PyBuilder/build_and_upload_db.py:80 | a header whose normal form is empty is related to every non-empty candidate form, so resolution cannot fail while it is present |
| Coerce.CoerceInt | back-end/PyBuilder/build_and_upload_db.py:351-355 | `try: int(float(x)) except: 0` on a stripped cell: the truncated value of a parsed decimal, 0 when `float()` would raise; the overflow of `int()` beyond the double range is under "## Left out" (characterised by `Coerce.CoerceRender`, `Coerce.CoerceTruncates` and `Coerce.CoerceRejects`) |
| Coerce.Truncate | back-end/PyBuilder/build_and_upload_db.py:353 | `int()` of the parsed value: the fraction dropped toward zero, the sign kept |
| Coerce.DigitPrefix | back-end/PyBuilder/build_and_upload_db.py:353 | the longest run of leading digits: a prefix of digits, followed by no digit |
| Coerce.ParseDecimal | back-end/PyBuilder/build_and_upload_db.py:353 | an accepted literal has digits only in its whole and fraction parts, and at least one digit |
| Coerce.NatDigitsValue | back-end/PyBuilder/build_and_upload_db.py:353 | the digits of a natural number denote that number |
| Coerce.DigitPrefixAll | back-end/PyBuilder/build_and_upload_db.py:353 | the digit prefix of digits followed by a non-digit is exactly those digits |
| Coerce.ParseSigned | back-end/PyBuilder/build_and_upload_db.py:353 | an optional `-`, digits and an optional fraction parse into their sign, whole part and fraction |
| Coerce.CoerceRender | back-end/PyBuilder/build_and_upload_db.py:351-355 | coercing the decimal rendering of any integer gives that integer back; in the source this holds only within the double range (see the Coerce.CoerceInt line under "## Left out") |
| Coerce.CoerceTruncates | back-end/PyBuilder/build_and_upload_db.py:353 | an integer written in decimal and followed by a point and any digits coerces to that integer: the fraction is truncated toward zero, in exact decimal arithmetic (see "## Left out" for the doubles that round up) |
| Coerce.CoerceRejects | back-end/PyBuilder/build_and_upload_db.py:352-355 | a blank cell, `abc`, `12,5`, `-` and `.` all give 0 |
| Coerce.CoerceWholeFraction | back-end/PyBuilder/build_and_upload_db.py:353 | `"12.0"` gives 12 |
| Coerce.CoerceNegativeFraction | back-end/PyBuilder/build_and_upload_db.py:353 | `"-3.9"` gives -3, toward zero and not downward |
| Tables.Get | back-end/PyBuilder/build_and_upload_db.py:311-312 | `_get` of an unresolved column is `""` |
| Tables.CellStripped | back-end/PyBuilder/build_and_upload_db.py:312 | a cell has no white space at either end; a cell whose column is missing from the row reads as the stripped default |
| Tables.GetMissing | back-end/PyBuilder/build_and_upload_db.py:312 | a column missing from the row reads as `""` |
| Tables.CleanHeader | back-end/PyBuilder/build_and_upload_db.py:102 | `(h or "").lstrip("\ufeff").strip()` of one field name |
| Tables.Cell | back-end/PyBuilder/build_and_upload_db.py:312 | `(row.get(col) or dflt).strip()`: a missing or empty cell reads as the default |
| Tables.CleanHeaders | back-end/PyBuilder/build_and_upload_db.py:102 | one cleaned header per raw field name, in order |
| Tables.CleanHeaderShortens | back-end/PyBuilder/build_and_upload_db.py:102 | a field name that starts with a BOM is not its own cleaned header |
| Tables.OptionalCol | back-end/PyBuilder/build_and_upload_db.py:276-296 | an optional price column is present exactly when `_find_col` succeeds, and is then a header |
| Tables.ResolveInventory | back-end/PyBuilder/build_and_upload_db.py:264-305 | the inventory columns resolve exactly when the five required ones do; each is a header; otherwise the first failing required list's `KeyError` |
| Tables.ResolvePurchases | back-end/PyBuilder/build_and_upload_db.py:389-407 | the six purchase columns resolve exactly when each list does; each is a header; otherwise the first failing list's `KeyError` |
| Tables.ReadInventoryRow | back-end/PyBuilder/build_and_upload_db.py:333-351 | absent price columns read as `""`; a code column missing from the row reads as `""` |
| Tables.ReadInventory | back-end/PyBuilder/build_and_upload_db.py:332 | one view per row, each read from its row |
| Tables.Quantity | back-end/PyBuilder/build_and_upload_db.py:351-355 | the coerced quantity of `(row.get(col) or "0").strip()` |
| Tables.InvRecordOf | back-end/PyBuilder/build_and_upload_db.py:339-347 | the `inventarioc` tuple of a row: its cells in column order and `CREACION` `""` |
| Tables.StockOf | back-end/PyBuilder/build_and_upload_db.py:350-359 | the `stock` tuple of a row, present only when its code and its store are both non-empty |
| Tables.PurchaseOf | back-end/PyBuilder/build_and_upload_db.py:422-437 | the `comprasgalpones` tuple of a purchase row: `NombreGalpon` `""`, the cells stripped, the quantity coerced |
| Tables.QuantityMissing | back-end/PyBuilder/build_and_upload_db.py:351-355 | a missing quantity cell counts as `"0"`, so it is 0 |
| Tables.SeenCodes | back-end/PyBuilder/build_and_upload_db.py:334-338 | `seen_cod` never holds `""` and holds every non-empty code read so far |
| Tables.FirstRowWith | back-end/PyBuilder/build_and_upload_db.py:337-347 | the first row carrying a code: it carries the code, and no earlier row does |
| Tables.Inventory | back-end/PyBuilder/build_and_upload_db.py:332-348 | `inventarioc` after the inventory rows: one record per new non-empty code, in first-appearance order (characterised by `Tables.InventoryCodes` and `Tables.InventoryFirstRows`) |
| Tables.Upserts | back-end/PyBuilder/build_and_upload_db.py:326-330 | `INSERT OR REPLACE` of each stock tuple in turn (characterised by `Tables.UpsertsLastWins`) |
| Tables.StockTable | back-end/PyBuilder/build_and_upload_db.py:350-372 | `stock` after the inventory rows: the upserts of the emitted tuples (characterised by `Tables.StockTableLastWins`) |
| Tables.StockRecords | back-end/PyBuilder/build_and_upload_db.py:350-359 | at most one stock tuple per row, never with an empty code or store |
| Tables.Purchases | back-end/PyBuilder/build_and_upload_db.py:422-438 | one `comprasgalpones` tuple per row, each with `NombreGalpon` `""` |
| Tables.PurchasesAt | back-end/PyBuilder/build_and_upload_db.py:429-437 | the i-th purchase tuple is read from the i-th row |
| Tables.Flatten | back-end/PyBuilder/build_and_upload_db.py:361-372 | the tuples of the `executemany` batches, in the order they were written |
| Tables.FlattenSnoc | back-end/PyBuilder/build_and_upload_db.py:361-363 | the batches written so far, plus one more batch, are those tuples followed by the new batch |
| Tables.InventoryStep | back-end/PyBuilder/build_and_upload_db.py:332-359 | one more inventory row: the seen set, `inventarioc` and the stock tuples grow exactly as the loop body does |
| Tables.PurchasesStep | back-end/PyBuilder/build_and_upload_db.py:422-438 | one more purchase row appends exactly its tuple |
| Tables.InventoryCodes | back-end/PyBuilder/build_and_upload_db.py:337-348 | `inventarioc` holds one record per distinct non-empty code: its codes are distinct, all seen, and as many as the distinct codes (`inv_count`) |
| Tables.InventoryFirstRows | back-end/PyBuilder/build_and_upload_db.py:337-347 | each `inventarioc` record is built from the first row with its code, `CREACION` `""`, in the order of those first rows |
| Tables.EmptyCodeIgnored | back-end/PyBuilder/build_and_upload_db.py:333-335 | a row whose code reads as `""` adds nothing to either table or to the seen set |
| Tables.NoCodesNoRows | back-end/PyBuilder/build_and_upload_db.py:333-335 | when every code reads as `""`, both inventory tables stay empty |
| Tables.BomCodeColumnDropsAllRows | back-end/PyBuilder/build_and_upload_db.py:102 | when the code column's raw field name carries a BOM, its cleaned name keys no row, every code reads as `""`, and both inventory tables come out empty |
| Tables.UpsertsLastWins | back-end/PyBuilder/build_and_upload_db.py:326-330 | `INSERT OR REPLACE`: each key holds the quantity of its last record, never a sum; no other keys appear; untouched keys keep their value |
| Tables.UpsertsAppend | back-end/PyBuilder/build_and_upload_db.py:365-372 | upserting two runs of tuples in turn is upserting their concatenation |
| Tables.UpsertsSize | back-end/PyBuilder/build_and_upload_db.py:251-256 | the table gains at most one row per upserted tuple |
| Tables.StockReplacesNotSums | back-end/PyBuilder/build_and_upload_db.py:326-330 | two tuples for one (code, store) give `stock_count` 2, one row, and the second quantity |
| Tables.StockTableLastWins | back-end/PyBuilder/build_and_upload_db.py:350-372 | `stock` maps each emitted key to the quantity of its last tuple, has at most `stock_count` rows, and no key with an empty code or store |
| Ingest.Database.constructor | back-end/PyBuilder/build_and_upload_db.py:212-257 | a freshly created database has three empty tables |
| Ingest.Database.InsertInventory | back-end/PyBuilder/build_and_upload_db.py:362 | `executemany` of the inventory insert appends the batch to `inventarioc`, and nothing else changes |
| Ingest.Database.UpsertStock | back-end/PyBuilder/build_and_upload_db.py:366 | `executemany` of the stock upsert replaces each tuple's key in turn, and nothing else changes |
| Ingest.Database.InsertPurchases | back-end/PyBuilder/build_and_upload_db.py:441 | `executemany` of the purchase insert appends the batch to `comprasgalpones`, and nothing else changes |
| Ingest.BatchesSized | back-end/PyBuilder/build_and_upload_db.py:361-367 | every `executemany` batch holds between 1 and `CHUNK` = 10,000 tuples |
| Ingest.FlushInventory | back-end/PyBuilder/build_and_upload_db.py:361-363 | after the flush check the buffer is below 10,000; table followed by buffer is unchanged; written batches stay non-empty and at most 10,000 |
| Ingest.FlushStock | back-end/PyBuilder/build_and_upload_db.py:365-367 | the same for the stock buffer, and the table stays the upsert of every tuple written |
| Ingest.FlushPurchases | back-end/PyBuilder/build_and_upload_db.py:440-442 | the same for the purchase buffer |
| Ingest.DrainInventory | back-end/PyBuilder/build_and_upload_db.py:369-370 | the final partial flush writes the remaining buffer, only when it is non-empty |
| Ingest.DrainStock | back-end/PyBuilder/build_and_upload_db.py:371-372 | the final partial flush of the stock buffer |
| Ingest.DrainPurchases | back-end/PyBuilder/build_and_upload_db.py:444-445 | the final partial flush of the purchase buffer |
| Ingest.ReadRow | back-end/PyBuilder/build_and_upload_db.py:333-355 | the view of row `k` is the reading of that row |
| Ingest.InventoryRow | back-end/PyBuilder/build_and_upload_db.py:332-367 | one iteration of the inventory loop keeps the loop invariant: tables plus buffers equal the functions of the rows read, buffers below 10,000, counters exact |
| Ingest.IngestInventory | back-end/PyBuilder/build_and_upload_db.py:314-372 | `inventarioc` and `stock` end as `Tables.Inventory` and `Tables.StockTable` of the rows; batches concatenate to the tuples and are sized 1..10,000; `inv_count` is the number of distinct codes; `stock_count` the number of stock tuples |
| Ingest.AppendPurchase | back-end/PyBuilder/build_and_upload_db.py:429-437 | the row's tuple joins the buffer, so table plus buffer are the tuples of the rows read |
| Ingest.IngestPurchases | back-end/PyBuilder/build_and_upload_db.py:412-445 | `comprasgalpones` ends as one tuple per row in order, with no deduplication; batches concatenate to it and are sized 1..10,000; `com_count` is the row count |
| Ingest.BuildDb | back-end/PyBuilder/build_and_upload_db.py:212-465 | the build succeeds exactly when both column sets resolve; a failure of the inventory columns leaves the tables empty; a failure of only the purchase columns returns that column's `KeyError` while the connection holds the inventory rows, uncommitted, and no purchases; on success the tables and the three counters are as the functions of the rows say |
| Csv.IsSpecial | back-end/Exporter/Program.cs:145 | the characters that make `CsvEscape` quote: comma, quote, LF, CR |
| Csv.NeedsQuotes | back-end/Exporter/Program.cs:145 | `needsQuotes`: some character of the field is special |
| Csv.Double | back-end/Exporter/Program.cs:146 | `s.Replace("\"", "\"\"")`: every quote doubled, every other character kept |
| Csv.Escape | back-end/Exporter/Program.cs:144-147 | `CsvEscape` (also back-end/ExporterCompras/Program.cs:133-136): a field needing quotes is quoted with its quotes doubled, any other is kept (characterised by `Csv.EscapeUnchangedIff` and `Csv.EscapeRoundTrip`) |
| Csv.Join | back-end/Exporter/Program.cs:117-129 | the fields joined with a comma before all but the first, as both writer loops emit them |
| Csv.DataLine | back-end/Exporter/Program.cs:125-129 | a data line without its terminator: the escaped cells joined (read back by `Csv.DataLineRoundTrip`) |
| Csv.HeaderLine | back-end/Exporter/Program.cs:117-120 | the header line without its terminator: the names joined, unescaped |
| Csv.Escapes | back-end/Exporter/Program.cs:125-129 | one escaped field per cell |
| Csv.DoubleLength | back-end/Exporter/Program.cs:146 | doubling the quotes never shortens a string |
| Csv.EscapeUnchangedIff | back-end/Exporter/Program.cs:144-147 | `CsvEscape(s) == s` exactly when `s` holds none of `,`, `"`, LF, CR; otherwise the result gains at least two characters |
| Csv.DoublePaired | back-end/Exporter/Program.cs:146 | in `s.Replace("\"", "\"\"")` every quote is one of an adjacent pair |
| Csv.EscapedQuotesPaired | back-end/ExporterCompras/Program.cs:133-136 | a quoted field starts and ends with a quote, and every quote between them is paired |
| Csv.ReadQuotedShorter | back-end/Exporter/Program.cs:144-147 | reading a quoted field consumes input |
| Csv.ReadUnquotedShorter | back-end/Exporter/Program.cs:144-147 | reading an unquoted field never grows the input |
| Csv.ReadField | back-end/Exporter/Program.cs:144-147 | reading one field never grows the input |
| Csv.ReadQuotedDouble | back-end/Exporter/Program.cs:146 | a doubled string followed by the closing quote reads back as the string |
| Csv.ReadUnquotedPlain | back-end/Exporter/Program.cs:145-146 | a field without a comma, followed by a comma or the end, reads back as itself |
| Csv.ReadFieldEscape | back-end/Exporter/Program.cs:144-147 | an escaped field followed by a comma or the end of the line reads back as the original field |
| Csv.ReadFieldQuoted | back-end/Exporter/Program.cs:146 | the quoted case of that round trip |
| Csv.ReadFieldPlain | back-end/Exporter/Program.cs:146 | the unquoted case of that round trip |
| Csv.EscapeRoundTrip | back-end/ExporterCompras/Program.cs:133-136 | decoding `CsvEscape(s)` gives `s` back, for every string |
| Csv.JoinCons | back-end/Exporter/Program.cs:125-126 | joining a field in front of others puts one comma between them |
| Csv.EscapesCons | back-end/Exporter/Program.cs:125-128 | escaping distributes over the cells |
| Csv.DataLineRoundTrip | back-end/Exporter/Program.cs:125-129 | a data line of one or more cells reads back as exactly those cells, so as many fields as columns |
| Csv.HeaderLineRoundTrip | back-end/Exporter/Program.cs:117-120 | the unescaped header line reads back as the names when none holds a special character |
| Csv.EscapesPlain | back-end/Exporter/Program.cs:145-146 | names with no special character are their own escapes |
| Csv.HeaderCommaSplits | back-end/ExporterCompras/Program.cs:115-118 | a column named `a,b` gives the same header line as two columns `a` and `b` |
| Csv.EmptyLineAmbiguous | back-end/Exporter/Program.cs:125-130 | a row with no cells and a row with one empty cell are the same line |
| Export.FormatValue | back-end/Exporter/Program.cs:135-142 | null and `DBNull` are written as `""`, any other value as its rendering |
| Export.Cells | back-end/ExporterCompras/Program.cs:123-125 | one text cell per column, each the formatted value |
| Export.Body | back-end/Exporter/Program.cs:124-131 | the data lines of the rows, each followed by the terminator, in order |
| Export.Document | back-end/Exporter/Program.cs:116-131 | the whole file: the header line, its terminator and the data lines (written by `Export.ExportCsv`) |
| Export.Writer.constructor | back-end/Exporter/Program.cs:112-114 | a new writer is empty and has the given line terminator |
| Export.Writer.Write | back-end/Exporter/Program.cs:118-119 | a write appends its text |
| Export.Writer.WriteLine | back-end/Exporter/Program.cs:121 | `WriteLine()` appends the writer's terminator |
| Export.JoinSnoc | back-end/Exporter/Program.cs:117-119 | one more field adds a comma, unless it is the first, and the field |
| Export.RowStep | back-end/Exporter/Program.cs:125-128 | one more cell extends the row's line by a comma, unless it is the first, and the escaped cell |
| Export.WriteHeader | back-end/Exporter/Program.cs:117-121 | the header loop writes the names joined by commas, unescaped, then the terminator |
| Export.WriteRow | back-end/Exporter/Program.cs:125-130 | the cell loop writes the row's data line, the escaped cells joined by commas, then the terminator |
| Export.WriteNextRow | back-end/Exporter/Program.cs:124-131 | one row of the data loop appends that row's line after those already written |
| Export.ExportCsv | back-end/Exporter/Program.cs:104-133 | the writer ends up holding the header line and one line per row, each with its terminator, in order |
| Export.ExportFile | back-end/ExporterCompras/Program.cs:104-131 | the file written with a given terminator is that document; when every row has one value per column, every data line reads back as exactly that row's cells, one field per column |
| Export.RowLineDecodes | back-end/ExporterCompras/Program.cs:122-129 | every data line reads back as its cells, as many as there are columns |
| Export.NullRowDecodes | back-end/ExporterCompras/Program.cs:125 | a row of `DBNull` cells is written as commas alone and reads back as that many empty fields |
| Export.DocumentRow | back-end/Exporter/Program.cs:124-131 | row `k`'s line follows the lines of the rows before it |
| Paths.Slashes | back-end/Exporter/Program.cs:98 | `Replace('\\', '/')` keeps the length, leaves no backslash, and keeps every other character |
| Paths.TrimSlash | back-end/Exporter/Program.cs:98 | an empty or white-space directory gives `""`; otherwise backslashes become slashes and all trailing slashes are removed; never a trailing slash or a backslash |
| Paths.TrimSlashFixedIff | back-end/ExporterCompras/Program.cs:100 | `TrimSlash(t) == t` exactly when `t` has no backslash, no trailing slash, and is empty or not all white space |
| Paths.TrimSlashTwice | back-end/ExporterCompras/Program.cs:100 | a second `TrimSlash` changes a result only when it is all white space, and then to `""` |
| Paths.TrimSlashNotIdempotent | back-end/Exporter/Program.cs:98 | `" /"` trims to `" "`, which trims to `""` |
| Paths.TrimSlashBackslashes | back-end/Exporter/Program.cs:98 | `\exports\` becomes `/exports` |
| Paths.TrimSlashRoot | back-end/Exporter/Program.cs:39-41 | the root directory `/` trims to `""`, so the final path is `/inventario.csv` |
| Paths.TempName | back-end/PyBuilder/build_and_upload_db.py:135 | the temporary name is the remote name followed by five more characters |
| Paths.FinalPath | back-end/Exporter/Program.cs:41 | the final remote path `{remoteDir}/{CsvName}` |
| Paths.TempPath | back-end/Exporter/Program.cs:40 | the temporary remote path `{remoteDir}/{CsvName}.part` |
| Paths.TempNames | back-end/PyBuilder/build_and_upload_db.py:135 | the temporary name differs from the final one; different finals have different temporaries; the exporters' temporary path is the temporary name of their final path |
| Remote.Server.constructor | back-end/PyBuilder/build_and_upload_db.py:113-119 | a server with the given files and directories and no command sent |
| Remote.Server.Open | back-end/PyBuilder/build_and_upload_db.py:123 | connecting succeeds unless it fails, and changes no file |
| Remote.Server.ChangeDirectory | back-end/PyBuilder/build_and_upload_db.py:127 | CWD succeeds exactly when the directory exists and no fault occurs |
| Remote.Server.MakeDirectory | back-end/PyBuilder/build_and_upload_db.py:130 | MKD succeeds exactly when the directory is new and no fault occurs, and then adds it |
| Remote.Server.EnsureDirectory | back-end/Exporter/Program.cs:63 | `CreateDirectory` fails only by a fault, and the directory exists afterwards |
| Remote.Server.DeleteFile | back-end/PyBuilder/build_and_upload_db.py:149 | DELE succeeds exactly when the file exists and no fault occurs, and then removes only that file |
| Remote.Server.StoreFile | back-end/PyBuilder/build_and_upload_db.py:145 | STOR creates or replaces only that file with the bytes, unless it fails |
| Remote.Server.RenameFile | back-end/PyBuilder/build_and_upload_db.py:152 | RNFR/RNTO succeeds exactly when the source exists and no fault occurs; it moves the bytes and replaces the target |
| Remote.Server.FileSize | back-end/PyBuilder/build_and_upload_db.py:162 | SIZE returns the server's reply and changes nothing |
| Remote.Server.FileExists | back-end/Exporter/Program.cs:76 | `FileExists` reports whether the file is there, unless it fails |
| Remote.Server.Close | back-end/PyBuilder/build_and_upload_db.py:176 | QUIT or `Disconnect` changes no file |
| Upload.ReachesDir | back-end/PyBuilder/build_and_upload_db.py:126-133 | the directory is reached: the first CWD succeeds, or, after an MKD whose failure is ignored, the second one does |
| Upload.SizeMatches | back-end/PyBuilder/build_and_upload_db.py:162-165 | SIZE returned a number equal to the local size |
| Upload.Outcome | back-end/PyBuilder/build_and_upload_db.py:121-178 | how a run ends: the first step that raises decides, in the order connect, directory, STOR, rename, SIZE, size check (characterised by `Upload.OutcomeOkIff`) |
| Upload.Deleted | back-end/PyBuilder/build_and_upload_db.py:138-141 | a best-effort DELE on the files: gone when it succeeds, otherwise unchanged |
| Upload.Published | back-end/PyBuilder/build_and_upload_db.py:137-171 | the files after the steps inside the directory: orphan delete, STOR, delete of the final, rename, delete after a mismatch |
| Upload.FinalFiles | back-end/PyBuilder/build_and_upload_db.py:121-178 | the remote files after a whole run (characterised by `Upload.SuccessPublishes`, `Upload.OthersUntouched`, `Upload.RenameFailureLosesFinal` and `Upload.MismatchDeletesFinal`) |
| Upload.DirCommands | back-end/PyBuilder/build_and_upload_db.py:126-133 | the commands sent to reach the directory |
| Upload.PlaceCommands | back-end/PyBuilder/build_and_upload_db.py:137-171 | the commands sent inside the directory |
| Upload.SessionCommands | back-end/PyBuilder/build_and_upload_db.py:121-178 | the commands of a whole run, QUIT last once connected (characterised by `Upload.QuitLast` and `Upload.OnlyTempStored`) |
| Upload.OutcomeOkIff | back-end/PyBuilder/build_and_upload_db.py:121-178 | a run succeeds exactly when the directory is reached, the store and the rename succeed, and SIZE reports the local size; the three best-effort deletes and QUIT never decide it |
| Upload.OthersUntouched | back-end/PyBuilder/build_and_upload_db.py:121-178 | whatever happens, only the remote name and its `.part` change |
| Upload.SuccessPublishes | back-end/PyBuilder/build_and_upload_db.py:145-173 | on success the remote name holds the local bytes, no `.part` is left, and nothing else changed |
| Upload.RenameFailureLosesFinal | back-end/PyBuilder/build_and_upload_db.py:148-152 | a failed rename leaves the upload under `.part` and no final file, unless the delete before it failed too: neither the old nor the new bytes are guaranteed |
| Upload.MismatchDeletesFinal | back-end/PyBuilder/build_and_upload_db.py:162-171 | a missing or different SIZE ends with the mismatch error, after the final name was deleted unless that delete failed |
| Upload.QuitLast | back-end/PyBuilder/build_and_upload_db.py:174-178 | once connected, QUIT is sent exactly once, as the last command, on every way out |
| Upload.OnlyTempStored | back-end/PyBuilder/build_and_upload_db.py:135-152 | the only name stored to is `remote_name + ".part"`, and every rename goes from it to `remote_name` |
| Upload.EnterDir | back-end/PyBuilder/build_and_upload_db.py:126-133 | CWD, or MKD with its failure ignored and CWD again: the directory is reached as the fault-free path says; only the directory set changes, and a missing directory is created exactly when the MKD succeeds |
| Upload.PlaceFile | back-end/PyBuilder/build_and_upload_db.py:135-173 | the steps inside the directory end with the outcome, the files and the commands of the specification functions |
| Upload.UploadFtps | back-end/PyBuilder/build_and_upload_db.py:121-178 | `upload_ftps` ends as `Outcome` says, leaves the files `FinalFiles` says, sends the commands `SessionCommands` says, and creates the directory exactly when it was missing, the connection succeeded and the MKD succeeds |
| Publish.Accepted | back-end/Exporter/Program.cs:72-73 | the upload returned `Success` or `Skipped` |
| Publish.Connected | back-end/Exporter/Program.cs:47-63 | the local steps, the connect and `CreateDirectory` did not throw |
| Publish.Uploaded | back-end/Exporter/Program.cs:66-71 | the files after `UploadFile`: the temporary holds the bytes only when the status is `Success` |
| Publish.Replaced | back-end/Exporter/Program.cs:76-78 | the files after the existence test, the delete of the final and the rename of the temporary |
| Publish.Swapped | back-end/Exporter/Program.cs:66-78 | the files after the upload, and after the replacement when the status is accepted |
| Publish.RenameSucceeds | back-end/Exporter/Program.cs:60-78 | every step up to and including the rename succeeds |
| Publish.PublishedFiles | back-end/Exporter/Program.cs:43-87 | the remote files after `Main` (characterised by `Publish.SuccessReplaces`, `Publish.SkippedPublishesStale`, `Publish.RenameFailureLosesFinal` and `Publish.OthersUntouched`) |
| Publish.ExitCode | back-end/Exporter/Program.cs:43-87 | the value `Main` returns: 0 only after a successful rename and disconnect (characterised by `Publish.ExitZeroIff`) |
| Publish.ReplaceCommands | back-end/Exporter/Program.cs:76-81 | the commands sent after an accepted upload |
| Publish.SwapCommands | back-end/Exporter/Program.cs:66-81 | the commands sent from the upload on |
| Publish.ClientCommands | back-end/Exporter/Program.cs:60-81 | the commands of a whole run (characterised by `Publish.DisconnectAfterRename`) |
| Publish.ExitZeroIff | back-end/Exporter/Program.cs:43-87 | `Main` returns 0 exactly when nothing throws, the status is `Success` or `Skipped`, a temporary exists to rename, and the disconnect succeeds |
| Publish.BadStatusNoRename | back-end/Exporter/Program.cs:72-73 | a status other than `Success`/`Skipped`, or a throwing upload, ends with 1 before any rename, the files unchanged |
| Publish.SuccessReplaces | back-end/Exporter/Program.cs:66-81 | after a `Success` upload and rename, the final name holds the bytes, no temporary is left, and nothing else changed |
| Publish.SkippedPublishesStale | back-end/ExporterCompras/Program.cs:73-80 | `Skipped` stores nothing, yet the run goes on: a stale `.part` is published, or without one the final file is deleted and the run fails |
| Publish.RenameFailureLosesFinal | back-end/ExporterCompras/Program.cs:77-80 | a rename that throws after the final file was deleted leaves no final file, and the run fails |
| Publish.DisconnectOnlyDecidesExit | back-end/Exporter/Program.cs:81-82 | a failing disconnect changes only the exit code, to 1 |
| Publish.OthersUntouched | back-end/Exporter/Program.cs:60-81 | only the temporary and the final names change |
| Publish.DisconnectAfterRename | back-end/ExporterCompras/Program.cs:80-84 | `Disconnect` is sent exactly when the rename succeeded, and then last |
| Publish.Replace | back-end/Exporter/Program.cs:76-81 | existence test, delete and rename end with the files and commands of `Replaced` and `ReplaceCommands` |
| Publish.Swap | back-end/Exporter/Program.cs:66-82 | upload to disconnect end with the exit code, the files and the commands of the specification functions |
| Publish.PublishFile | back-end/Exporter/Program.cs:43-87 | the shared sequence returns `ExitCode`, leaves `PublishedFiles`, creates the directory it is given once connected, and sends `ClientCommands` |
| Publish.InventoryMain | back-end/Exporter/Program.cs:39-87 | the inventory exporter creates `TrimSlash(RemoteDir)` and publishes under the paths built from it: its exit code, its remote files and its command log are `ExitCode`, `PublishedFiles` and `ClientCommands` of those paths, so `Publish.DisconnectAfterRename` applies to it |
| Publish.PurchasesMain | back-end/ExporterCompras/Program.cs:41-89 | the purchases exporter publishes under `TrimSlash(RemoteDir)` paths but creates `RemoteDir` as configured: its exit code, its remote files and its command log are `ExitCode`, `PublishedFiles` and `ClientCommands` of those paths with `RemoteDir` as the created directory, so `Publish.DisconnectAfterRename` applies to it |
| Publish.MainPathsDistinct | back-end/ExporterCompras/Program.cs:41-42 | both exporters' temporary path differs from their final path |

## Left out

- Headers.Norm: NFD decomposition and `lower()` are modelled for ASCII and the Latin-1 letters U+00C0..U+00FF only. Combining marks are the block U+0300..U+036F. The full Unicode tables are library data.
- Coerce.CoerceInt: only `[+-]? digits ('.' digits?)?` or `[+-]? '.' digits` over ASCII digits is modelled. Exponents, `inf`/`nan`, underscores, surrounding white space inside `float()` and non-ASCII Unicode decimal digits (`float("١٢")` is 12.0) are floating-point library behaviour; such inputs give 0 in the model. Rounding to the nearest double is not modelled either: a fraction whose nearest double is the next integer (`"0.99999999999999999"` gives 1, `"-3.99999999999999999"` gives -4) rounds up in the source but is truncated in the model, and huge values lose precision in the source but not in the model. Beyond the largest double (about 1.8e308) `float()` gives `inf` and `int()` raises `OverflowError`, so the source gives 0 where the model gives the value.
- Coerce.CoerceTruncates: states truncation for every fraction, in exact arithmetic; in the source it holds only for fractions whose nearest double stays below the next integer in magnitude, since `float()` rounds first (`int(float("0.99999999999999999"))` is 1).
- Dialect sniffing, gzip and CSV reading in `open_gz_csv_dict`: heuristic library code. A source is given as rows already keyed by the raw field names, plus those field names.
- SQLite specifics (PRAGMAs, `executescript`, indexes, `VACUUM`, deleting an existing file): they do not change table contents. The tables are a `Database` class with two sequences and a map.
- Ingest.BuildDb: its tables are the connection's view, inserts included, not what is committed to the file. The only `conn.commit()` (back-end/PyBuilder/build_and_upload_db.py:458) follows the purchases block. A `KeyError` from `_find_col` leaves `build_db` before it, and `main` (line 488) does not catch it. On both error paths nothing after the schema script of line 226 is committed, so the database file keeps empty tables. When only the purchase columns fail, the inventory rows that the model's tables hold are never persisted. The commit itself is not modelled.
- Exceptions inside the row loops (a failing `executemany`) are not modelled; the loops run to the end.
- The `[MAP]`/`[INFO]` prints, logging and timestamps: output only.
- `download_ftps_file`, `ensure_local_csv_gz`, hashing, the manifest and `main` of the builder: file and network plumbing outside the core.
- FTPS transport: TLS, `auth`, `prot_p`, login, passive mode and timeouts. A connection is one failable step.
- The diagnostic `LIST` in `upload_ftps`: its failure is swallowed and it changes nothing.
- Remote.Server.StoreFile: a failed transfer is modelled as storing nothing. A partial file left by a broken transfer is not modelled.
- Remote.Server.FileSize: the SIZE reply is an input and is not tied to the stored bytes. This lets the model cover a server that misreports, as the check in `upload_ftps` expects.
- Directories do not constrain where files can be stored. `UploadFile`'s `createRemoteDir` is not modelled separately.
- Publish.ExitCode: the bytes are a parameter. Their link to the exported CSV (UTF-8 without BOM, and gzip for the purchases file) is not modelled; encoding and compression are library code.
- Publish.PublishFile: the local steps inside the `try` (the SQL export, the gzip) are one fault flag, `local`. `Directory.CreateDirectory(outDir)` runs before the `try` (back-end/Exporter/Program.cs:36, back-end/ExporterCompras/Program.cs:37); its failure is an unhandled exception out of `Main`, not exit code 1, and is not modelled. The `using` disposal of the client after an exception is not modelled.
- Publish.InventoryMain: a null `RemoteDir` cannot reach `Main`, since the configuration default is `/exports`. `TrimSlash(None)` is still defined and gives `""`.
- Export.FormatValue: the rendering of each SQL type is taken as already applied, and `Value` carries the rendered text. The inventory exporter renders with `IFormattable.ToString(null, InvariantCulture)`; the purchases exporter uses `ToString()` in the current culture (back-end/ExporterCompras/Program.cs:124), where a decimal may come out as `12,5` and is then quoted.
- `SqlClient` readers, `async`/`await`, `IConfiguration` binding and `FlushAsync`: the writer loops are modelled synchronously over a reader given as column names and rows.
- The platform's default line terminator in the purchases exporter is the writer's `newLine` parameter. The inventory exporter passes `"\n"`.
