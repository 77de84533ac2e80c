# Order intake: normalisation, aggregation and file validation

This project models the logic core of a purchase-order intake pipeline in
Dafny and proves properties of that model. Partners ("dropshippers") send
CSV files in their own layouts. The pipeline has two parts:

- **File validation** (`invalid_file_checker.py`). Every file runs through five rules
  in a fixed order: not empty, a `.csv` name, the partner's header template,
  not already ingested, required content present. The first rule that fails
  routes the file to the invalid list with its reason.
- **Order parsing** (`xlsx_parser.py`). The parser does the following:
  - It renames partner-specific headers to canonical names using an alias table.
  - It normalises each row: zip, city text, names, address, country and state codes, phone, order date, and integer columns.
  - It checks each row for blank required fields and for the SKU's character set.
  - It folds the accepted rows into one purchase order per order number, with a SKU → quantity item map.
  - It files rejected rows under the name of their dropshipper.
  - A last step splits the orders into shippable ones and ones that cannot ship. An order bound for an excluded state moves to an international account that substitutes for its dropshipper, where one exists.

Modules, one file each:

| file | module | models |
|---|---|---|
| `common.dfy` | `Common` | `Option`, `Result`, first-match search over an ordered table |
| `ascii.dfy` | `Ascii` | the Python `str` operations used, restricted to ASCII |
| `formatters.dfy` | `Formatters` | `_zip_formater`, `_text_formater`, `_phone_formater`, `_has_valid_sku`, `_sku_cleaner` |
| `header_aliases.dfy` | `HeaderAliases` | `standardize_columns`, in place on an array of labels |
| `country_state.dfy` | `CountryState` | `_country_and_state_formater` |
| `records.dfy` | `Records` | the frame, `_transform_data`, `_has_all_required_columns` |
| `aggregation.dfy` | `Aggregation` | `_parse` |
| `shipping.dfy` | `Shipping` | `check_shipping_states` |
| `file_validation.dfy` | `FileValidation` | the five rules, `_check`, `validate_files`, the header step of `clean_and_save_csv` |

Several operations loop and change state in the source: `_parse`,
`check_shipping_states`, `standardize_columns`, `_country_and_state_formater`
and `validate_files`. Each is a `method` with the same loop, and each is
proved equal to a specification function. For example, `Aggregate` returns
`AggregateSpec(rows, ds)`, and `StandardizeColumns` leaves
`cols[..] == Standardize(table, old(cols[..]))`. The lemmas then state what
those functions mean.

The fold lemmas of `_parse` and `validate_files` are stated for any
sequence of per-row verdicts, `ok[i]` or `vs[i]`. The methods use the real
verdicts, `Verdicts(rows)` and `Verdicts(files, ctx)`. `AggregateOrderNumbers`
shows the instantiation for order numbers.

In these places the code behaves in ways a reader may not expect:

- Alias resolution is not idempotent. When two variants of one canonical
  name are both present, a second pass renames the one the first pass left
  (`StandardizeNotIdempotent`). Labels that are no variant are left alone
  (`NoVariantNoChange`).
- The template rule compares the space-stripped headers with the template
  as they are. No alias resolution happens before that comparison.
- The SKU pattern `^[a-zA-Z0-9/-]*$` uses Python's `$`, which also matches
  before one final newline. The empty SKU matches as well
  (`HasValidSkuMeaning`, `SkuEdgeCases`).
- Only spaces are removed from a SKU, not other whitespace.
- `_has_all_required_columns` compares each field with `""`. An
  unresolved (None) country or state, the always five-character zip and the
  integer quantity are therefore never reported missing
  (`NormalisedNeverMissing`).
- The integer conversions run on the whole column, so a bad quantity or
  dropshipper id fails the whole frame, not just its row (`TransformData`).
- Row failures are not always isolated:
  - A rejected row whose dropshipper id matches no entry reuses the name
    from the previous rejected row.
  - When no earlier row was rejected, the handler's variable is unbound and
    `_parse` raises (`BucketsError`).
  - Row isolation holds when the rejected row's dropshipper is known
    (`OneRejectedRow`).
- A frame with rows but no `sku` or `purchase_order_number` column makes
  `_parse` raise. The first row fails before `missing_columns` is bound
  (`ParseSpec`).
- `it_has_required_content` returns a bare `False` on an exception, for
  example a missing or repeated required column. `validate_files` then
  cannot unpack the result and raises (`ValidateCrashes`).
- `zfill` places the padding zeros after a leading sign (`ZipFormat`).
- A repeated SKU within one order overwrites the quantity; it is not
  summed (`OrdersLastWins`).

## Model

| member | source | states |
|---|---|---|
| `Ascii.Keep` | xlsx_parser.py:257-260 | `re.sub` with a negated class and "": only characters satisfying the class remain, every such character that occurs is kept, and the input comes back when all satisfy it |
| `Ascii.KeepSingle` | xlsx_parser.py:257-260 | on one character the filter keeps it or drops it |
| `Ascii.KeepConcat` | xlsx_parser.py:285 | removing characters distributes over concatenation; with `KeepSingle` this fixes the order and the repetitions of what is kept |
| `Ascii.RemoveSpaces` | xlsx_parser.py:161 | `replace(" ", "")`: no space remains, and a string without spaces is unchanged |
| `Ascii.RemoveSpacesMembers` | xlsx_parser.py:161 | removing the spaces is the filter that keeps the non-space characters in order; every other character that occurs is kept |
| `Ascii.Upper` | xlsx_parser.py:225 | `str.upper()` upper-cases each letter position-wise and keeps the length |
| `Ascii.Title` | xlsx_parser.py:81-82 | `str.title()`: a letter is upper-cased after a non-letter and lower-cased after a letter |
| `Ascii.IsUpper` | xlsx_parser.py:263 | `str.isupper()`: when it holds, upper-casing the string changes nothing |
| `Ascii.TitleIdempotent` | xlsx_parser.py:81-82 | title-casing a title-cased name changes nothing |
| `Ascii.ParseInt` | xlsx_parser.py:114-117 | `int(s)`: a value iff the string is digits, or a sign followed by digits, with at least one digit; the value is the digits' value, negated after "-" |
| `Ascii.DecimalValue` | xlsx_parser.py:285 | the digits of `str(n)` read back as `n` |
| `Ascii.ParseIntToString` | xlsx_parser.py:114-117 | `int(str(n)) == n` for every integer |
| `Formatters.ZeroFill` | xlsx_parser.py:297 | `zfill(width)`: a string at least `width` long comes back unchanged; a shorter one becomes exactly `width` long, the original at the end and zeros before it, or after a leading sign |
| `Formatters.ZipFormat` | xlsx_parser.py:295-301 | always five characters; longer codes are cut to their first five; shorter ones are zero-filled on the left, after a sign as `zfill` does |
| `Formatters.ZipIdempotent` | xlsx_parser.py:295-301 | formatting a formatted zip code changes nothing |
| `Formatters.ZipExamples` | xlsx_parser.py:295-301 | "123" → "00123", "123456" → "12345", "12345" unchanged |
| `Formatters.TextFormat` | xlsx_parser.py:252-268 | keeps only ASCII letters and spaces, with the same letters up to case; title-cased exactly when the cleaned text is upper case, otherwise the cleaned text |
| `Formatters.TextFormatIdempotent` | xlsx_parser.py:252-268 | formatting formatted text changes nothing |
| `Formatters.PhoneFormat` | xlsx_parser.py:270-293 | the cell is handed back unchanged exactly when it has no digit (the caught `int("")` error); otherwise it becomes a number |
| `Formatters.PhoneOfDecimal` | xlsx_parser.py:285 | a phone written as any number of leading zeros followed by the decimal form of n becomes the number n |
| `Formatters.PhoneDigits` | xlsx_parser.py:285 | the number a phone cell becomes is written by the cell's digits, in order, after their leading zeros |
| `Formatters.DigitsDecompose` | xlsx_parser.py:285 | every non-empty digit string is some zeros followed by the decimal form of its value |
| `Formatters.PhoneIgnoresSeparator` | xlsx_parser.py:272-285 | a non-digit inserted anywhere does not change a phone number |
| `Formatters.MatchSkuClassMeaning` | xlsx_parser.py:147 | the class `[a-zA-Z0-9/-]*` consumed to the end matches exactly the strings of class characters |
| `Formatters.HasValidSkuMeaning` | xlsx_parser.py:144-148 | a SKU is valid iff it is class characters, optionally followed by one final newline |
| `Formatters.SkuEdgeCases` | xlsx_parser.py:144-148 | the empty SKU is valid; a SKU with a space never is |
| `Formatters.StripMarkers` | xlsx_parser.py:350 | the marker removal never lengthens the SKU and introduces no character |
| `Formatters.StripMarkersKeeps` | xlsx_parser.py:350 | a text that does not start with a marker keeps its first character |
| `Formatters.StripMarkersDrops` | xlsx_parser.py:350 | a marker at the start is dropped |
| `Formatters.StripMarkersPrefix` | xlsx_parser.py:350 | marker-free text before a `-` passes through the removal unchanged |
| `Formatters.MarkerRemoved` | xlsx_parser.py:346-350 | the first -R, -S, -P or -FBA after marker-free text is removed and the removal goes on after it, so every marker goes and the rest stays in order |
| `Formatters.SkuCleaner` | xlsx_parser.py:340-355 | None exactly for "SKU " prefixes; otherwise a string no longer than the input |
| `Formatters.StripMarkersNoMarker` | xlsx_parser.py:346-350 | without a -R/-S/-P/-FBA marker the substitution changes nothing |
| `Formatters.SmlBranchUnreachable` | xlsx_parser.py:351-353 | every SKU containing "-SML" contains "-S", so the "-SML" branch is never taken |
| `Formatters.SkuCleanerLeadingS` | xlsx_parser.py:342-350 | a SKU starting with "S" but not "SKU " loses that one "S" and the markers of the rest |
| `Formatters.SkuCleanerDropsLeadingS` | xlsx_parser.py:346-350 | a leading "S" is dropped and the rest is cleaned as it would be on its own |
| `Formatters.SkuCleanerIsMarkerRemoval` | xlsx_parser.py:340-355 | a SKU not starting with "S" is cleaned to its marker removal, whichever branch runs |
| `HeaderAliases.RenameAll` | xlsx_parser.py:67 | `rename` keeps the number and positions of the columns |
| `HeaderAliases.FirstPresent` | xlsx_parser.py:65-68 | the first variant, in list order, present among the columns; none iff no variant is present |
| `HeaderAliases.ApplyAlias` | xlsx_parser.py:64-68 | one canonical name renames only its first present variant, wherever it occurs, and nothing else; with no variant present nothing changes |
| `HeaderAliases.Standardize` | xlsx_parser.py:61-69 | standardizing keeps the number of columns |
| `HeaderAliases.RenameColumn` | xlsx_parser.py:67 | in place: the label array becomes the renamed labels |
| `HeaderAliases.ApplyAliasInPlace` | xlsx_parser.py:65-68 | the variant scan with `break` leaves the array equal to `ApplyAlias` of its old contents |
| `HeaderAliases.StandardizeColumns` | xlsx_parser.py:61-69 | the nested loops leave the array equal to `Standardize` of its old contents |
| `HeaderAliases.NonVariantKeepsName` | xlsx_parser.py:64-68 | a column matching no variant keeps its label |
| `HeaderAliases.LabelOriginalOrCanonical` | xlsx_parser.py:64-68 | every label afterwards is the original one or a canonical name |
| `HeaderAliases.NoVariantNoChange` | xlsx_parser.py:61-69 | a header list without variants is left unchanged |
| `HeaderAliases.StandardizeNotIdempotent` | xlsx_parser.py:61-69 | with two variants of one name present, a second pass renames again |
| `CountryState.LettersOnly` | xlsx_parser.py:219-220 | the letter filter: only ASCII letters remain, every letter that occurs is kept, and `Keep`'s lemmas fix their order |
| `CountryState.MatchingCountry` | xlsx_parser.py:223-227 | the first index entry whose triple contains the upper- or title-cased country; none iff no entry matches |
| `CountryState.StateCode` | xlsx_parser.py:229-234 | a short state is upper-cased; a longer one is replaced by its title-cased lookup, or kept when the lookup raises |
| `CountryState.ResolveCountryState` | xlsx_parser.py:215-250 | both null or neither; null iff a non-empty index has no match; an empty index returns the cleaned cells; the first match gives its two-letter code and the state code |
| `CountryState.CountryAndStateFormat` | xlsx_parser.py:215-250 | the flagged scan with `break` and the caught lookup error returns `ResolveCountryState` |
| `Records.TransformData` | xlsx_parser.py:71-119 | reports a repeated label iff a label it reads occurs twice, naming such a label; otherwise succeeds iff every column read exists and both integer columns convert; one bad quantity fails the frame; on success every row is normalised |
| `Records.FirstRepeatedReported` | xlsx_parser.py:71-119 | of the labels read twice, the one read first is reported |
| `Records.RenamedDuplicateReported` | xlsx_parser.py:61-82 | alias renaming can leave `customer_last_name` twice, and the transformation then reports it |
| `Records.TransformRow` | xlsx_parser.py:74-117 | one row after the column transformations: a five-character zip, country and state both resolved or both null, a non-empty date when the timestamp is non-empty, a city of letters and spaces, the SKU and order number as read, and the converted integers |
| `Records.TransformRows` | xlsx_parser.py:74-111 | one normalised row per input row |
| `Records.TransformRowNormalised` | xlsx_parser.py:74-117 | address is `address_1 + " " + address_2` whenever that column exists, names are title-cased, an empty date becomes the timestamp, zip has five characters, country and state resolve together, the integers are the parsed cells |
| `Records.BlankAmong` | xlsx_parser.py:137 | the blank names are never more than the names |
| `Records.BlankAmongMembers` | xlsx_parser.py:137 | the list holds exactly the given names whose field is `""` |
| `Records.BlankAmongSingle` | xlsx_parser.py:137 | on one name the list is that name when its field is `""`, otherwise empty |
| `Records.BlankAmongConcat` | xlsx_parser.py:137 | the comprehension distributes over concatenation; with `BlankAmongSingle` this fixes the list order |
| `Records.HasAllRequiredColumns` | xlsx_parser.py:121-142 | the flag is true iff the list of missing fields is empty |
| `Records.MissingColumnsMembers` | xlsx_parser.py:136-137 | the missing list holds exactly the required fields equal to `""` |
| `Records.NormalisedNeverMissing` | xlsx_parser.py:121-142 | a five-character zip (as normalisation guarantees), the quantity and an unresolved country or state are never reported missing |
| `Records.RequiredFieldsPresent` | xlsx_parser.py:121-142 | the required-field test passes iff none of the required text fields is the empty string |
| `Aggregation.Verdicts` | xlsx_parser.py:159-172 | one verdict per row |
| `Aggregation.VerdictAt` | xlsx_parser.py:161-172 | the verdict of row i is whether that row passes the checks of the `try` block |
| `Aggregation.NewOrderHolds` | xlsx_parser.py:184-197 | a new order carries the row's number and dropshipper and holds only the row's cleaned SKU, with the row's quantity |
| `Aggregation.AddRowEffect` | xlsx_parser.py:174-197 | merging an accepted row adds its number to the keys; a new number gets a new order; a known one keeps its fields and only sets the item; every other order is unchanged |
| `Aggregation.RejectRowFails` | xlsx_parser.py:199-211 | the handler raises, with the unbound-name error, iff the row's dropshipper is unknown and no name is bound; otherwise the name becomes the row's own dropshipper's when known, else stays the previous one |
| `Aggregation.RejectRowAppends` | xlsx_parser.py:206-209 | the rejected row and its blank fields are appended to the end of its name's bucket; every other bucket is unchanged |
| `Aggregation.CheckRow` | xlsx_parser.py:161-172 | computes the cleaned SKU, the missing fields, and acceptance (no missing field and a valid SKU) |
| `Aggregation.AddToOrders` | xlsx_parser.py:174-197 | a known number only sets the item; an unknown one gets a new order from the row |
| `Aggregation.FindDropshipperName` | xlsx_parser.py:200-204 | the first matching dropshipper's name, or the previous value when none matches |
| `Aggregation.HandleRejected` | xlsx_parser.py:199-211 | the handler appends (row, missing fields) to the resolved name's bucket, or raises with no name |
| `Aggregation.ParseRow` | xlsx_parser.py:159-211 | one loop iteration advances the orders and the buckets by exactly one row of the fold, or reports the error with which the whole of `_parse` then ends |
| `Aggregation.Aggregate` | xlsx_parser.py:150-213 | the loop returns `AggregateSpec`: the orders and buckets of the fold, or the error that escaped |
| `Aggregation.Parse` | xlsx_parser.py:150-213 | transform, then aggregate; without the SKU or order-number column a non-empty frame raises |
| `Aggregation.ErrorPersists` | xlsx_parser.py:199-211 | once the handler raises, the fold's result is that error |
| `Aggregation.FoldStep` | xlsx_parser.py:168-211 | an accepted row only adds to the orders; a rejected row only goes through the handler |
| `Aggregation.OrdersKeys` | xlsx_parser.py:174-197 | exactly one order per distinct number of the accepted rows, and no other |
| `Aggregation.OrdersSnapshot` | xlsx_parser.py:182-197 | the scalar fields come from the first accepted row of the number and are never overwritten |
| `Aggregation.OrdersItemKeys` | xlsx_parser.py:177-197 | the item keys are exactly the cleaned SKUs of the number's accepted rows |
| `Aggregation.OrdersLastWins` | xlsx_parser.py:178 | a repeated SKU keeps the quantity of its last accepted row |
| `Aggregation.BucketsNameBound` | xlsx_parser.py:199-209 | the only error is the unbound name; the variable is unbound exactly while every row so far was accepted |
| `Aggregation.RejectRowError` | xlsx_parser.py:199-209 | the handler raises iff the row's dropshipper is unknown and no name is bound |
| `Aggregation.BucketsError` | xlsx_parser.py:199-209 | `_parse` raises iff the first rejected row's dropshipper is unknown |
| `Aggregation.ResolvedNameNearest` | xlsx_parser.py:200-204 | a rejected row is filed under the name of the nearest rejected row, at or before it, whose dropshipper is known |
| `Aggregation.BucketsContents` | xlsx_parser.py:199-209 | each bucket is exactly its filed rows, in row order, with their missing fields; the variable holds the last resolved name |
| `Aggregation.UnresolvedRow` | xlsx_parser.py:199-209 | a row without a resolved name follows only accepted rows, or the fold has already raised |
| `Aggregation.RejectedRowsFiled` | xlsx_parser.py:199-211 | when `_parse` returns, every rejected row has been filed under some name |
| `Aggregation.AggregateOrderNumbers` | xlsx_parser.py:159-213 | the returned orders are keyed by exactly the numbers of the accepted rows |
| `Aggregation.OneRejectedRow` | xlsx_parser.py:159-211 | one rejected row with a known dropshipper: no exception, and that row is the only entry of the only bucket |
| `Aggregation.PlainSkuAccepted` | xlsx_parser.py:161-172 | a row with its required fields filled and a class-character SKU without spaces is accepted under that SKU |
| `Aggregation.TwoItemsOneOrder` | xlsx_parser.py:177-197 | two accepted rows of one number with different SKUs give one order holding both items |
| `Shipping.CheckShippingStates` | xlsx_parser.py:16-36 | the two results split the orders with disjoint keys; a non-excluded order is shippable unchanged, an excluded one with a substitute account is shippable under it, any other is unable to ship, unchanged |
| `Shipping.SplitSizes` | xlsx_parser.py:16-36 | no order is lost or duplicated: the sizes add up |
| `FileValidation.IsNotEmpty` | invalid_file_checker.py:71-78 | passes iff the size is positive, otherwise fails with "File is empty" |
| `FileValidation.IsCsvFile` | invalid_file_checker.py:81-88 | passes iff the path ends with ".csv" (case-sensitive), otherwise fails with "File is not a csv" |
| `FileValidation.CleanHeader` | invalid_file_checker.py:59-67 | the header keeps its length and each label becomes that label with its spaces removed: no space remains and every other character is kept |
| `FileValidation.FollowsTemplateRule` | invalid_file_checker.py:91-112 | passes iff the cleaned headers equal the template exactly; an unreadable file fails with the generic reason; the file keeps its cleaned headers |
| `FileValidation.BaseName` | dropship_db.py:24 | what follows the last backslash: a suffix without backslashes, the path itself when it has none |
| `FileValidation.IsNotDuplicate` | invalid_file_checker.py:115-125 | passes iff the file's name is not in the store, otherwise fails with "File is a duplicate" |
| `FileValidation.Occurrences` | invalid_file_checker.py:150-151 | zero exactly for an absent label |
| `FileValidation.ColumnIndex` | invalid_file_checker.py:151 | the first column with that label |
| `FileValidation.RequiredFromPasses` | invalid_file_checker.py:148-161 | the content rule passes iff every required column occurs once after renaming and holds a non-null value |
| `FileValidation.RequiredFromFirst` | invalid_file_checker.py:148-164 | the first required column, in list order, that is not filled decides: missing or repeated gives the bare `False`; present once, it has no value and the reason is "Column c is empty" |
| `FileValidation.RequiredFromReason` | invalid_file_checker.py:148-164 | the bare `False` comes iff the first unfilled required column is missing or repeated; a failure comes iff it occurs once, and then names that column |
| `FileValidation.RequiredContentRule` | invalid_file_checker.py:128-166 | after alias renaming: passes iff every required column is filled; fails iff the first unfilled required column occurs once, with "Column c is empty" for that column |
| `FileValidation.Check` | invalid_file_checker.py:14-17 | only the template rule changes the file, and no rule changes its path |
| `FileValidation.ChainVerdict` | invalid_file_checker.py:34-51 | the rules run in the order not-empty, csv, template, not-duplicate, required-content, and the first failure gives the verdict and its reason |
| `FileValidation.RunRules` | invalid_file_checker.py:43-51 | the inner loop with `break` returns the chain's verdict |
| `FileValidation.ValidateFile` | invalid_file_checker.py:27-54 | one outer iteration advances the two lists by exactly one file of the fold |
| `FileValidation.ValidateFiles` | invalid_file_checker.py:19-56 | the nested loop returns `ValidateSpec`: the two lists of the fold, or the unpacking error |
| `FileValidation.Verdicts` | invalid_file_checker.py:43-51 | one verdict per file |
| `FileValidation.ListsStep` | invalid_file_checker.py:43-54 | a passing file is appended to the valid list, a failing one to the invalid list with its reason |
| `FileValidation.ListsErrorPersists` | invalid_file_checker.py:44 | once unpacking raises, the result is that error |
| `FileValidation.ValidateCrashes` | invalid_file_checker.py:44-46 | `validate_files` raises iff some file's content rule returns the bare `False` |
| `FileValidation.ValidateLists` | invalid_file_checker.py:31-54 | without that error each file appears exactly once: among the valid paths iff every rule passed, else among the invalid pairs with the first failure's reason |

## Left out

- Reading files with pandas is not modelled:
  - the encoding fallback of `_df_reader`;
  - `read_csv` and `to_csv`;
  - `dropna`, `fillna` and `concat` in `file_parser`;
  - `data_extractor`.
- The model takes already-decoded rows as input. An empty cell reads as `""` in the parser and as null in the validator.
- pandas renames a repeated header on read ("a", "a.1"). The model takes the header as given.
- `Records.TransformData`: a label it reads that occurs twice after alias renaming gives `DuplicateColumn` in the model. In the source `df[label]` is then a frame, and the outcome depends on the column:
  - the name columns raise an AttributeError from `.title()`, which escapes `_parse`;
  - `_text_formater` and `_phone_formater` catch the TypeError from `re.sub` and hand the columns back unformatted;
  - the other columns go through pandas' frame operations.
  The model does not follow pandas through these cases.
- Filesystem access is not modelled: `os.walk`, `os.path.getsize`, `os.path.join`, and the rewrite of the file by `clean_and_save_csv`.
  - A file is a record: path, size, readability, header and rows.
  - The files arrive as a sequence in walk order.
- `clean_and_save_csv` reads the file without `dtype=str` before rewriting it, which can change how values are written. The model keeps the rows and cleans only the headers.
- The duplicate check calls `check_for_duplicate`, which the store class does not define. The model uses the semantics of `check_for_duplicate_files`: the base name is looked up in a set of ingested names. Its SQL query is not modelled.
- The database, FTP, e-mail, configuration and `main.py` orchestration are not part of this model.
- The alias table, the country index, the dropshipper list, the excluded states and the international accounts are inputs. Ordered tables are sequences in store order.
- `datetime.now()` is the `now` parameter; tqdm progress bars and prints are omitted.
- The `shipstation=True` branch of `_phone_formater` and the `remove_empty_spaces=True` branch of `_text_formater` are omitted; `_transform_data` uses neither.
- The no-op `if row.city == "" ...: pass` in `_parse` is omitted.
- Strings are ASCII only: letters are a-z and A-Z, digits are 0-9, and `str.title`, `isupper` and `zfill` are modelled for those.
- `int()` accepts surrounding whitespace and `_` separators in Python; the model does not.
- Integers are unbounded: the 64-bit limit of `astype(int)` is not modelled, and very long phone numbers do not overflow.
- The model does not capture the iteration order of the returned dicts. Orders and buckets are maps, and the shipping split is unordered.
- `check_shipping_states` rewrites `dropshipper_id` in the caller's order objects. The model returns updated copies, so that aliasing is not modelled.
- `Formatters.PhoneIgnoresSeparator`: stated only when the phone without the separator already has a digit; a phone without digits is covered by `PhoneFormat`'s own contract instead.
- `Aggregation.OrdersKeys`, `Aggregation.OrdersSnapshot`, `Aggregation.OrdersItemKeys`, `Aggregation.OrdersLastWins`, `Aggregation.BucketsContents` and the other fold lemmas are stated for any verdict sequence. `_parse` uses `Verdicts(rows)`, and `Aggregation.AggregateOrderNumbers` shows that instantiation.
- Exceptions that escape are modelled as `Err` values. The messages they would print are not.
