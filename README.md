# Sales ETL record rules, in Dafny

This project models the record rules of a small sales ETL script (`main.py`). A batch of sales
rows, loaded from CSV files, goes through four rules:

- **Valid-sales cleaner** (`limpiar_ventas_validas`). It runs fixed passes over a local copy of
  the batch, in this order:
  - uppercase the `Sale_ID` and drop rows without one;
  - keep the first row of each `Sale_ID`;
  - reduce `Product` to its last `-` segment and drop missing products;
  - strip the currency tags from `Amount`, read it as a number, convert euros at 0.85 and round
    to cents;
  - parse `Date` and `Audit_Date` and drop rows where either is missing.

  It is modelled as a method (`ValidSales.CleanValidSales`) that runs those passes over a
  sequence. The method is proved equal to a composition of pass functions (`ValidSales.CleanValid`),
  and that composition is characterised row by row.
- **Invalid-sales classifier** (`limpiar_ventas_invalidas`). It claims rows in three rounds, each
  from what the previous round left:
  - `N`: a missing field;
  - `A`: an amount text naming neither `USD` nor `EUR`;
  - `D`: a `Sale_ID` occurring twice or more among the rows still left.

  The report is the three buckets, one after the other. It is modelled as a chain of filters
  (`InvalidSales.ClassifyInvalid`) over a generic three-round classifier (module `ClaimRounds`).
  A per-row reference (`ReasonOf`) is proved to agree with it.
- **Monthly report** (`generar_ventas_resumen_mensual`). It groups rows by (`MM/YYYY`, product)
  and gives the sum, count and minimum of the amounts of each group (module `MonthlySummary`,
  built on the generic group-by of module `Grouping`).
- **Date formatter** (`formatear_fechas`). It rewrites the `Date` and `Audit_Date` columns as
  `YYYY-MM-DD` text (module `Presentation`).

Modelling choices:

- A row is `Sales.Sale`, with an `Option` per field: `None` is pandas' NaN/NaT.
- A batch is `Sales.Table`: the set of columns it has, plus its rows in input order. A missing
  column is what makes a rule raise `KeyError`.
- Amounts are exact: a `real` once read, integer cents once rounded (`Amounts`). The reader
  follows `float()`: surrounding whitespace, a sign, digits with single underscores between
  them, a decimal point, an exponent, and `nan` in any case, which becomes a missing amount.
- Date parsing (`pd.to_datetime(errors='coerce')`) is an abstract parameter
  `Dates.DateParser = string -> Option<CalendarDate>`. `Dates.ParseIso` is one concrete strict
  reader, proved to round-trip with the formatter.

## Model

| member | source | states |
|---|---|---|
| ValidSales.CleanValidSales | main.py:53-100 | The method's result is exactly `CleanValid`: the passes in source order, `Err(MissingColumn)` for a column it reads that is absent, `Err(UnparseableAmount)` for the first amount reaching line 79 that `float()` rejects |
| ValidSales.KeepWhere | main.py:61 | The loop keeps exactly the rows the mask accepts, in order (`Filter`) |
| ValidSales.DropDuplicateIds | main.py:63 | The loop keeps the first row of each Sale_ID, including the missing one, and drops every later one |
| ValidSales.UpperSaleIds | main.py:59 | Every row gets its Sale_ID uppercased; nothing else changes |
| ValidSales.NormaliseProducts | main.py:67 | Every row's product is replaced by `CleanProduct` of it; nothing else changes |
| ValidSales.ParseAmountColumn | main.py:75-79 | Either the whole column reads, or the result is the error for the first row whose text `float()` rejects |
| ValidSales.ConvertEuros | main.py:81 | Exactly the rows whose original text ends in `EUR` are multiplied by 0.85; the others are unchanged |
| ValidSales.RoundAmounts | main.py:83 | Each amount is rounded to cents half-to-even; a missing one stays missing |
| ValidSales.SetAmounts | main.py:79-87 | Each row gets its rounded amount in place of its text; its other fields are kept |
| ValidSales.PriceAmounts | main.py:75-87 | The amount passes together give the per-row `ConvertAmount` when every text reads, and the first error otherwise |
| ValidSales.ParseDates | main.py:92-93 | Each row's `Date` text is read with the date parser; `Audit_Date`, already a date from the loader, is kept as it is (line 93 leaves a datetime column unchanged) |
| ValidSales.FirstRejected | main.py:79 | The index returned is the first row whose amount `float()` rejects, or the length when none does |
| ValidSalesProperties.CleanValidCharacterised | main.py:59-97 | The cleaner either fails, with the first faulting amount among the first rows of their ids, or returns exactly the rows selected by `Selected`: the first row of each uppercased id whose normalised form is complete, normalised, in input order |
| ValidSalesProperties.ValidOutput | main.py:59-100 | An accepted batch's valid rows are the `Selected` rows of the input |
| ValidSalesProperties.ValidRowsFromInput | main.py:59-97 | The valid rows are a subsequence of the input, in input order: each is the normalised form of an input row that is the first with its id, and is complete |
| ValidSalesProperties.ValidRowMembership | main.py:59-97 | Conversely, every input row that is first with its id and complete once normalised is in the output |
| ValidSalesProperties.ValidIdsDistinct | main.py:59-63 | Valid Sale_IDs are present, uppercase and pairwise distinct |
| ValidSalesProperties.FirstOccurrenceShadows | main.py:63-97 | When the first row of an id fails a later filter, no row with that id survives, because de-duplication runs before the null filters |
| ValidSalesProperties.RejectedAmountRefusesBatch | main.py:79 | A first-of-its-id row with a product whose amount `float()` rejects makes the whole cleaner fail with `UnparseableAmount` |
| ValidSalesProperties.NormaliserUppercasesId | main.py:59 | The normalised form of a row carries the uppercased Sale_ID |
| ValidSalesProperties.KeptIdsDistinct | main.py:63 | Two kept input rows never share an uppercased Sale_ID |
| ValidSalesProperties.CleanProductSegment | main.py:67 | When the uppercased, stripped product reads `prefix-segment` with no `-` in `segment`, the product becomes `segment` |
| ValidSalesProperties.CleanProductWithoutDash | main.py:67 | A product without `-` is only uppercased and stripped |
| ValidSalesProperties.InnerSpaceKept | main.py:67 | `"x- b"` becomes `" B"`: whitespace after the last `-` survives |
| Amounts.ConvertUntagged | main.py:77-83 | Any text that contains neither `USD` nor `EUR` is read as it is and rounded, with no conversion |
| Amounts.ConvertDollar | main.py:77-83 | Such text followed by `USD` loses the tag and is read and rounded, with no conversion |
| Amounts.ConvertEuro | main.py:77-83 | Such text followed by `EUR` loses the tag, is read, multiplied by 0.85 and rounded |
| Amounts.ConversionExamples | main.py:77-83 | `100EUR` gives 8500 cents; `100USD` and `100` give 10000 cents |
| Amounts.RoundHalfEven | main.py:83 | The result is within half a unit of the input, and an exact tie goes to the even neighbour |
| Amounts.ToCentsExact | main.py:83 | Rounding leaves an amount that is already whole cents unchanged |
| Amounts.ParseUnsignedInteger | main.py:79 | Digits, with single underscores allowed between two digits, read as the number the digits denote |
| Amounts.ExponentScales | main.py:79 | Any mantissa (digit parts around at most one point), `e` or `E`, and any signed exponent read as the mantissa times ten to the exponent, exactly |
| Amounts.UnderscoreIgnored | main.py:79 | An underscore between two runs of digits changes nothing: the text reads as it does without it |
| Amounts.TaggedDigitPart | main.py:77-83 | A whole number, untagged, `USD`-tagged or `EUR`-tagged, converts through its value, euros at the rate |
| Amounts.TaggedExponent | main.py:77-83 | Any numeral written with an exponent, untagged, `USD`-tagged or `EUR`-tagged, converts through the value of its exponent form, euros at the rate |
| Amounts.ExponentExample | main.py:77-83 | `1e2USD` gives 10000 cents |
| Amounts.NegativeExponentExample | main.py:77-83 | `1E-2USD` gives 1 cent |
| Amounts.NanDollar | main.py:77-85 | `nan` in any case, with a `USD` tag, reads as NaN: the row gets no amount and nothing raises |
| ValidSalesProperties.NanAmountDropped | main.py:79-85 | A row whose amount reads as NaN raises nothing at line 79, is left without an amount and never becomes valid |
| Text.LastSegmentUnique | main.py:67 | The last segment is the unique dash-free suffix that is the whole text or follows a `-` |
| Text.RemoveAllChangesIffContains | main.py:77 | Removing a tag changes the text exactly when the text contains it, and then shortens it |
| Text.ContainsIffOccurs | main.py:129 | `contains` holds exactly when the pattern occurs at some position |
| Text.UpperIdempotent | main.py:59 | Uppercasing twice is uppercasing once |
| InvalidSales.ClassifyInvalid | main.py:106-151 | Every reported row is a labelled input row carrying the reason the per-row `ReasonOf` gives it; the report is never longer than the input, and it is the empty frame when the Sale_ID, Product or Amount column is missing |
| InvalidSales.InvalidBucketExact | main.py:119-141 | Each reason's part of the report is exactly the labelled rows that reason's rule claims, in input order |
| InvalidSales.InvalidBucketsInOrder | main.py:141 | Every `N` row precedes every `A` row, which precedes every `D` row |
| InvalidSales.InvalidClaim | main.py:119-141 | A labelled row is reported with a reason exactly when the per-row reference gives it that reason |
| InvalidSales.InvalidPartition | main.py:119-141 | As a multiset, the reported rows are exactly the input rows some rule claims: none invented, none reported twice |
| InvalidSales.MissingValueOnlyN | main.py:119-131 | A row with a null is reported as `N`, and only as `N`, whatever its amount text |
| InvalidSales.MissingIdIsNotMissingValue | main.py:112-119 | After line 112-113 a missing Sale_ID or Product is the text `NAN`, so only Amount, Date and Audit_Date can trigger `N` |
| InvalidSales.BadCurrencyExactly | main.py:125-131 | `A` claims exactly the null-free rows whose uppercased amount text contains neither `USD` nor `EUR` |
| InvalidSales.DuplicatesAllClaimed | main.py:134-138 | `D` reports every occurrence of an id that occurs twice or more among the rows left after `N` and `A`, and no occurrence of any other id |
| ClaimRounds.RoundsClaim | main.py:119-141 | In the generic classifier, an input element is reported with a reason exactly when the per-element rule gives that reason |
| ClaimRounds.RoundsPartition | main.py:119-141 | The generic classifier's output rows form, as a multiset, exactly the claimed input elements |
| ClaimRounds.RoundsInOrder | main.py:141 | The generic classifier's output is ordered `N`, then `A`, then `D` |
| ClaimRounds.RoundsAtMostInput | main.py:141 | The generic classifier never reports more rows than it is given |
| ClaimRounds.RoundsDuplicates | main.py:134-138 | The `D` round reports every occurrence of an id repeated among the remaining rows, and nothing else |
| MonthlySummary.ReportGroups | main.py:164-172 | There is one report row per distinct (month, product) group: the groups are pairwise distinct, each is the group of some input row, and every row with a date and a product has its group in the report |
| MonthlySummary.GroupAmountsFromRows | main.py:166-169 | A group's amounts are exactly the amounts of the input rows of that group |
| MonthlySummary.ReportAggregates | main.py:166-169 | A row's total is the sum of its group's amounts and its count is their number; its minimum exists exactly when the count is positive, is one of the amounts and is at most each of them |
| MonthlySummary.ReportCountsCoverRows | main.py:166-169 | The counts over the whole report add up to the number of rows with a date, a product and an amount |
| MonthlySummary.ReportTotalsCoverAmounts | main.py:166-169 | The totals over the whole report add up to the sum of every aggregated amount |
| MonthlySummary.SameGroupPair | main.py:164-172 | Two priced sales of the same month and product give one row whose total is their sum, whose count is 2 and whose minimum is the smaller amount |
| MonthlySummary.ReportExample | main.py:164-172 | Sales of 10.00 and 25.50 for product `A` in March 2024 give the single row `("03/2024", "A", 35.50, 2, 10.00)` |
| Grouping.GroupKeys | main.py:166 | The group keys are pairwise distinct, and a key is listed exactly when some element has it |
| Grouping.Least | main.py:167 | `min` is present exactly for a non-empty group; it is a member of the group and at most every member |
| Grouping.GroupTotals | main.py:166-169 | Group totals over distinct keys add up to the total over the elements with one of those keys |
| Grouping.GroupTotalsCover | main.py:166-169 | Group totals over all the keys add up to the total over every aggregated element |
| Dates.MonthKey | main.py:164 | The `MM/YYYY` label has seven characters with `/` at position 2 |
| Dates.MonthKeyIdentifiesMonth | main.py:164 | Two dates get the same label exactly when they fall in the same month of the same year |
| Dates.ParseFormatIso | main.py:209 | A date written as `YYYY-MM-DD` reads back as the same date |
| Dates.FormatParseIso | main.py:207-209 | Any text the strict reader accepts is the formatted form of its date |
| Pipeline.ValidTableComplete | main.py:61-97 | An accepted batch has, and keeps, every column, and every valid row has every field |
| Pipeline.ValidReportCountsEveryRow | main.py:164-172 | The report of the valid rows exists, each group holds at least one sale and has a minimum, and the counts add up to the number of valid rows |
| Presentation.FormatDates | main.py:201-210 | The formatted table has the same columns and the same number of rows |
| Presentation.FormatCellsReadBack | main.py:204-209 | Only the two date columns change, and a formatted date reads back as the date the cell was read as |
| Presentation.ValidDatesReadBack | main.py:204-209 | A valid row's formatted dates read back as its own dates |
| Presentation.InvalidDatesRewritten | main.py:204-209 | An invalid row keeps its reason and other fields; its date text becomes the date the parser reads, or missing when the parser reads none |
| Presentation.IsoTextUnchanged | main.py:207-209 | Text already in `YYYY-MM-DD` form is left as it is |
| Presentation.FormatIdempotent | main.py:201-210 | Formatting an already formatted table again changes nothing |

## Left out

- I/O is not part of this model. That covers everything in `etl_utils.py`: logging, the SQL
  Server engine, CSV reading and writing, `to_sql` loading, and listing and concatenating the
  files of a folder. The `Audit_Date` stamped from the file name on load is an input field that
  is already present.
- The top-level script of `main.py` is not modelled: configuration, the calls that chain the
  rules, and the export loops. The one chaining property kept is `Pipeline`, the cleaner feeding
  the report.
- Floating point: amounts are exact decimals. `astype(float)` and `round(2)` are modelled as an
  exact decimal reader and half-to-even rounding to integer cents. Binary representation error
  is not modelled.
- ValidSales.CleanValidSales: `inf`, `infinity` and decimal digits outside ASCII are not read as
  numbers. `float()` reads them, and the source keeps an `inf` row with an infinite amount. The
  model refuses the batch with `UnparseableAmount` instead, because cents have no infinite value.
- ValidSales.PriceAmounts: the same texts (`inf`, `infinity`, non-ASCII digits) are refused here,
  where line 79 reads them.
- ValidSalesProperties.RejectedAmountRefusesBatch: its premise counts those same texts as
  unreadable, so for them it states a failure the source does not have.
- Text.Upper: maps ASCII and Latin-1 letters only, one character to one. Python's `str.upper`
  also maps Greek, Cyrillic and other scripts, and turns `ß` into `SS`. Ids or products that
  differ only in such letters stay apart in the model (lines 59, 63, 67, 112-113 and 127).
- Sales.RawSale: every Sale_ID, Product and Amount cell reaches the rules as text. `read_csv`
  infers numbers, so a file whose amounts are all untagged numbers contributes float cells. The
  source's `.str.replace` at line 77 turns those into NaN and line 85 drops the rows. When every
  amount of the batch is numeric, `.str` raises instead. Numeric Sale_IDs likewise become NaN at
  line 59. The model reads every cell as text.
- Date inference: `pd.to_datetime(errors='coerce')` is an abstract parser parameter. Its
  concrete formats are not modelled, nor is the time of day that formatting drops.
- Group order: pandas sorts the groups of `groupby` by key. `MonthlySummary.MonthlyReport`
  lists them in order of first occurrence instead. Every report property is stated per group or
  as a total, so none depends on the order.
- Formatting the monthly report is not modelled as a separate function. `formatear_fechas`
  leaves that frame unchanged, since it has neither a `Date` nor an `Audit_Date` column.
- Logging and exception messages are not modelled. The fail-safe handlers are modelled as their
  results: the empty frame (`None`, or `EmptyTable`).
- Presentation.FormatCell: when a date column is absent, the formatted field is `None`. The
  source has no such column at all, so the model keeps nothing there.

Where the code differs from the behaviour described for it, the model follows the code:

- The valid-sales cleaner is described as never raising. In fact `astype(float)` at line 79
  raises on amount text it cannot read, for example a lowercase `eur` tag, which the tag removal
  misses. The model returns `Err(UnparseableAmount(text))`
  (`ValidSalesProperties.RejectedAmountRefusesBatch`).
- De-duplication (line 63) runs before the product, amount and date filters. So an id whose
  first row is dropped later loses every row (`ValidSalesProperties.FirstOccurrenceShadows`).
- The product is stripped as a whole before it is split. Whitespace after the last `-`
  therefore survives (`ValidSalesProperties.InnerSpaceKept`). The invalid classifier (line 113)
  does not strip at all.
- The invalid classifier never parses dates. A row whose `Date` text does not read as a date is
  therefore dropped by the valid cleaner, but it is reported as invalid only if another rule
  claims it.
- Lowercase `eur`/`usd` tags satisfy rule `A`'s check, which uppercases the text first. The valid
  cleaner's tag removal is case-sensitive, so the same text makes the cleaner raise once its row
  reaches line 79.
