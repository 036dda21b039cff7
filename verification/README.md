# Finance tracker import, paging and export pipelines in Dafny

This project models the pure pipelines of a personal finance tracker. The
tracker keeps expenses and incomes in Dominican pesos (DOP) plus other
currencies. Five parts are modelled:

- **BHD statement import** (`BhdParse`, `Classify`, `BhdImport`). The route
  reads a bank workbook and finds each sheet's cut-off date and header row.
  It locates the columns, reads each data row's date, detail and amounts, and
  stops at 1000 rows per sheet. Debits are filed under a category and a
  purpose chosen by keyword rules. Credits become incomes.
- **Generic CSV imports** for expenses and incomes (`RowImport`,
  `ExpenseImport`, `IncomeImport`). Each row's keys are normalised. The route
  then checks, in order: the date, the amount, the twelve-digit ceiling, the
  currency, then (for expenses) the category and merchant, then the rate and
  the converted amount. At most 500 rows are read and at most 20 errors are
  reported.
- **Reviewed-statement import** (`StatementImport`). Rows the user has
  already checked become DOP inserts. Incomplete or oversized rows are
  silently dropped, and at most 2000 rows are read.
- **Pagination** in the expense and income list endpoints (`Pagination`).
  This covers the page and page-size parameters, the window of one row more
  than a page, and the counters.
- **CSV export** through `toCsvValue` (`CsvExport`). Each value is quoted when
  it holds a comma, a newline or a quote. The model includes a reader, and
  proves that every exported document reads back as its header and the
  exported fields.

Shared pieces:

- `Numbers` models JavaScript's `Number()` on decimal text, `toFixed(2)` and
  `countIntegerDigits`.
- `Dates` models `normalizeDate`.
- `Text` models trimming, case mapping and splitting.
- `Sheet` models spreadsheet cells.
- `Records` holds the insert records.

The database, the session and the workbook file become parameters: a
`signedIn`/`hasFile` flag, the catalogue rows, the currency codes, and the
sheets as rows of cells.

Details of the route code that the model keeps:

- `findHeaderRow` returns nothing when no row qualifies. The model's
  `BuildRows` then yields no rows; it does not fall back to the first row.
- `parseNumber` strips every character but digits, `.` and `-`, so a comma
  is never a decimal separator.
- The BHD importer drops unusable rows silently. It reports no error for
  them.
- The income CSV import asks for no category at all.
- The exported CSV header line is joined as is, not through `toCsvValue`.
- The 1000-row cap applies to each sheet, not to the workbook.

## Model

| member | source | states |
|---|---|---|
| Dates.NormalizeDate | src/app/api/expenses/import/route.ts:14-24 | after trimming and turning `/` into `-`, a `YYYY-MM-DD` text is kept as is; a `DD-MM-YYYY` text is reordered to year-month-day; anything else is refused; every accepted result has the `YYYY-MM-DD` shape |
| Dates.NormalizeDateIdempotent | src/app/api/incomes/import/route.ts:14-24 | a date the normaliser accepted is accepted again unchanged |
| Dates.IsoDateRoundTrip | src/app/api/statements/bhd/import/route.ts:287 | the `YYYY-MM-DD` text of a valid calendar date (years 0-9999) passes the CSV importers' date normaliser unchanged and its digits spell that year, month and day |
| Numbers.CountIntegerDigitsMeansMagnitude | src/app/api/expenses/import/route.ts:8-12 | for a digit string, more than twelve integer digits after stripping leading zeros means exactly a value of at least 10^12 |
| Numbers.CleanedCeilingMeansMagnitude | src/app/api/expenses/import/route.ts:109-119 | for a cleaned amount text (digits and points) that reads as a number, the number is non-negative and the twelve-digit test fails exactly when it is at least 10^12 |
| Numbers.RoundCents | src/app/api/expenses/import/route.ts:163 | `toFixed(2)` moves a value below 10^21 in magnitude by at most half a cent and lands on whole cents; a non-negative value stays non-negative |
| Numbers.NumberTooLongMeansMagnitude | src/app/api/statements/import/route.ts:79-81 | the intended digit test on a non-negative number rejects exactly the values of at least 10^12 |
| Numbers.ExponentNotationEscapesCeiling | src/app/api/statements/import/route.ts:8-12 | 10^22 passes the digit test as written (its text is exponent notation) but fails the intended one |
| Numbers.DigitsNumberOf | src/app/api/expenses/list/route.ts:9 | `Number` of a plain digit string is the value those digits spell |
| Numbers.StripLeadingZerosKeepsValue | src/app/api/expenses/import/route.ts:10 | removing leading zeros (keeping one digit) leaves a digit string of the same value with no leading zero |
| Numbers.NumericCharsConcat | src/app/api/statements/bhd/import/route.ts:19 | the cleaning works character by character: cleaning a joined text is joining the cleaned pieces |
| Numbers.NumericCharsKeepsNumericText | src/app/api/expenses/import/route.ts:109 | a text of digits and points (and minus signs, where kept) comes through the cleaning unchanged |
| Numbers.NumericCharsDropsOtherText | src/app/api/incomes/import/route.ts:95 | a text with no digit, point or kept minus sign is cleaned to the empty text |
| Numbers.NumericCharsIdempotent | src/app/api/statements/bhd/import/route.ts:19 | cleaning a cleaned text changes nothing |
| Numbers.AsWrittenCeilingMeansMagnitude | src/app/api/expenses/import/route.ts:8-12 | on a non-negative amount, the digit test as written refuses exactly the values from 10^12 up to (not including) 10^21, and agrees with the intended test below 10^21 |
| Text.JoinSplitOn | src/app/api/statements/bhd/import/route.ts:32 | splitting on a character and joining the pieces with it gives back the original text |
| Text.SplitOnSpaceRuns | src/app/api/statements/bhd/import/route.ts:92 | splitting on runs of two or more spaces yields pieces without such runs, and a text without any is its own single piece |
| Text.SplitOnSpaceRunsRebuilds | src/app/api/statements/bhd/import/route.ts:92 | the pieces, with the runs cut out put back between them, spell the original text, so splitting loses nothing |
| Text.RunsAreSpace | src/app/api/statements/bhd/import/route.ts:92 | every run cut out is two or more white-space characters |
| Text.PieceEndsBeforeRun | src/app/api/statements/bhd/import/route.ts:92 | a piece followed by a run does not end in white space, so each run is cut in full |
| Text.PieceStartsAfterRun | src/app/api/statements/bhd/import/route.ts:92 | a piece after a run does not start with white space |
| Base.MapBy | src/app/api/expenses/import/route.ts:61-68 | a `Map` built from pairs has exactly the keys of the pairs; every entry comes from some pair; a key's value is that of its last pair |
| Base.FlattenRelation | src/app/api/expenses/list/route.ts:94-98 | an embedded relation reads as nothing when absent, as the object when single, and as the first element (if any) when an array |
| BhdParse.ParseNumber | src/app/api/statements/bhd/import/route.ts:16-22 | an empty cell reads 0; a numeric cell reads its value; any other cell reads as `Number` of its digits, points and minus signs, or 0 when those do not read as a number |
| BhdParse.ParseStatementDate | src/app/api/statements/bhd/import/route.ts:24-57 | a falsy cell gives no date; a valid date cell is taken as is; every result is a valid calendar date |
| BhdParse.SlashPath | src/app/api/statements/bhd/import/route.ts:32-51 | a text with at least one `/` is read only by the day/month[/year] path |
| BhdParse.TwoPartDateYear | src/app/api/statements/bhd/import/route.ts:42-47 | a `day/month` text takes the cut-off's year, or the year before when its month lies after the cut-off month, and is valid exactly when that calendar date exists |
| BhdParse.ShortYearMeansTwoThousands | src/app/api/statements/bhd/import/route.ts:39-41 | a one- or two-digit year `y` in `day/month/y` means 2000 + y |
| BhdParse.DayMonthDigits | src/app/api/statements/bhd/import/route.ts:32-50 | a `d/m` digit text against a cut-off gives day d of month m in the year the cut-off rule picks, exactly when that date exists |
| BhdParse.UtcDateWhole | src/app/api/statements/bhd/import/route.ts:49-50 | `Date.UTC` on whole numbers yields that calendar date (two-digit years in the 1900s) when it exists, and nothing otherwise |
| BhdParse.FindCutoffDate | src/app/api/statements/bhd/import/route.ts:59-71 | with no row (but the last) mentioning "fecha de corte" there is no cut-off; otherwise the cut-off is the first date found below the first such row; any result is a valid date |
| BhdParse.NoDateBelowLater | src/app/api/statements/bhd/import/route.ts:63-67 | if no date is found below some row, none is found below any later row |
| BhdParse.FindHeaderRow | src/app/api/statements/bhd/import/route.ts:73-107 | the header is the first row passing the joined-text or the per-cell keyword test, with nothing found exactly when no row passes |
| BhdParse.SingleCellHeaderSplits | src/app/api/statements/bhd/import/route.ts:92 | a one-cell header row is split on runs of spaces in its trimmed text |
| BhdParse.FindColumn | src/app/api/statements/bhd/import/route.ts:114-118 | the column found is the first header passing the test, and -1 means none does |
| BhdParse.ExtraDetailColumns | src/app/api/statements/bhd/import/route.ts:120-123 | the extra detail columns are, in increasing order, exactly the blank headers strictly between the detail and debit columns (when both exist) |
| BhdParse.ParseDataRow | src/app/api/statements/bhd/import/route.ts:133-168 | a row becomes a statement row exactly when it has a date, a non-empty detail and a non-zero debit or credit; the result is well formed and carries that date, that detail, the reference and the parsed amounts |
| BhdParse.BuildRows | src/app/api/statements/bhd/import/route.ts:109-174 | without a header nothing is read; otherwise the rows are the first 1000 parsed rows below the header, each well formed |
| BhdParse.WorkbookRows | src/app/api/statements/bhd/import/route.ts:231-237 | every row collected from the sheets is well formed and each sheet adds at most 1000; no sheet gives no rows, and a single sheet gives exactly what `buildRows` reads from it with its own cut-off |
| BhdParse.WorkbookRowsAppend | src/app/api/statements/bhd/import/route.ts:231-237 | the sheets are read in order and their rows appended: the rows of a workbook split into the rows of its first sheets followed by those of the rest |
| Classify.FirstRuleHit | src/app/api/statements/bhd/import/route.ts:292-300 | the first rule whose keyword matches and whose name is in the catalogue decides; no hit means no rule does |
| Classify.CategoryFor | src/app/api/statements/bhd/import/route.ts:291-303 | the category is the first rule hit's id, or the default when no rule hits |
| Classify.ImpliedPurpose | src/app/api/statements/bhd/import/route.ts:316-324 | a need-type category implies the `need` purpose, a want-type one the `want` purpose, any other none |
| Classify.PurposeFor | src/app/api/statements/bhd/import/route.ts:305-328 | a purpose rule hit wins; else, for a non-empty category, the purpose it implies when that id is not empty; in every other case the default; the result is the default or a catalogue purpose id |
| Classify.DefaultsAlwaysFile | src/app/api/statements/bhd/import/route.ts:326-333 | with non-empty defaults every debit is filed, so the category-required error never arises |
| Classify.UnmatchedDetailGetsDefaults | src/app/api/statements/bhd/import/route.ts:301-328 | a detail no rule matches, under a default category implying no purpose, is filed under both defaults |
| BhdImport.ShapeRow | src/app/api/statements/bhd/import/route.ts:286-361 | a positive debit adds exactly one expense or one category-required error; the error ends the row, so a positive credit adds one income exactly when no error was raised |
| BhdImport.ShapeRows | src/app/api/statements/bhd/import/route.ts:286-361 | over all rows, expenses plus errors are one per debit and incomes at most one per credit (exactly one when every debit can be filed), with error rows numbered within the batch |
| BhdImport.ShapeRowsErrors | src/app/api/statements/bhd/import/route.ts:286-333 | the errors are exactly one per debit that cannot be filed, each numbered `index + 1` of its own row, in strictly increasing row order |
| BhdImport.ImportStatement | src/app/api/statements/bhd/import/route.ts:196-383 | the route answers Unauthorized, upload failed, category required or empty in that order; otherwise it files one expense per debit and one income per credit, skips nothing and reports no error |
| BhdImport.ExpensesArePlainDop | src/app/api/statements/bhd/import/route.ts:335-346 | each expense is a positive DOP amount with no rate, no merchant, a purpose and its DOP amount equal to its amount |
| BhdImport.IncomeDatesAreIso | src/app/api/statements/bhd/import/route.ts:349-360 | for statement dates in the years 0 to 9999, each income is a positive DOP amount and its date passes the CSV importers' date normaliser unchanged |
| RowImport.NormalizeRecord | src/app/api/expenses/import/route.ts:87-92 | the normalised row has exactly the trimmed, lower-cased keys, each holding the trimmed value of its last occurrence |
| RowImport.FirstField | src/app/api/expenses/import/route.ts:94-101 | the first non-empty field among the alternatives, or empty when all are empty |
| RowImport.ActiveCodes | src/app/api/incomes/import/route.ts:57-59 | the accepted codes are exactly the upper-cased codes of active currencies |
| RowImport.CheckHead | src/app/api/expenses/import/route.ts:103-124 | the date, amount, ceiling and currency checks in that order, each with its message; a passing row has a `YYYY-MM-DD` date and an amount in [0, 10^12) |
| RowImport.CheckAmount | src/app/api/expenses/import/route.ts:109-119 | a missing or unreadable amount is invalid, one of at least 10^12 too large, any other accepted as read |
| RowImport.RateOf | src/app/api/expenses/import/route.ts:154-161 | DOP needs no rate; any other currency needs a rate field that reads as a number, and takes it |
| RowImport.Converted | src/app/api/expenses/import/route.ts:163-167 | for a rate that is not negative, the conversion is accepted exactly when the amount times the rate, rounded to cents, stays below 10^12 |
| RowImport.ReadRows | src/app/api/expenses/import/route.ts:86-180 | every row is either inserted or reported once; errors are numbered in row order and each carries that row's failure message |
| RowImport.ImportRows | src/app/api/expenses/import/route.ts:26-194 | an empty upload and a missing session are refused; otherwise the inserts are the accepted rows among the first 500, inserted plus skipped is the row count, the errors returned are the first 20 of the read rows' errors, in row order, and each names a read row and its own failure |
| RowImport.SkippedCountsRejectsAndOverflow | src/app/api/expenses/import/route.ts:189-193 | the skipped count is the rows refused among the first 500 plus the rows beyond 500 |
| ExpenseImport.Resolve | src/app/api/expenses/import/route.ts:131-135 | the text is taken as an id when it is one, else looked up as a lower-cased name, else as the name as written |
| ExpenseImport.ResolvedIsCatalogueId | src/app/api/expenses/import/route.ts:131-147 | whatever is resolved is a catalogue id, whose name (lower-cased) matches the text unless the text was that id |
| ExpenseImport.CategoryOf | src/app/api/expenses/import/route.ts:126-140 | a missing category is required; a filled one is accepted exactly when it resolves to a non-empty id |
| ExpenseImport.MerchantOf | src/app/api/expenses/import/route.ts:142-152 | an empty merchant means none; a filled one is accepted exactly when it resolves to a non-empty id |
| ExpenseImport.ReadExpense | src/app/api/expenses/import/route.ts:94-179 | the first failing check in source order is the row's error; a row passing all of them becomes an expense with the checked values and no purpose |
| ExpenseImport.ImportExpenses | src/app/api/expenses/import/route.ts:26-194 | empty upload and missing session refused; otherwise the inserts are the accepted rows among the first 500, inserted plus skipped is the row count, and the errors are the first 20 of the read rows' errors |
| ExpenseImport.AcceptedExpenseIsSound | src/app/api/expenses/import/route.ts:103-179 | an accepted expense has a `YYYY-MM-DD` date, an amount in [0, 10^12), an accepted currency with a rate exactly when foreign, a DOP amount below 10^12 (for a rate that is not negative) and a catalogue category |
| ExpenseImport.InsertedExpensesAreSound | src/app/api/expenses/import/route.ts:86-193 | every inserted expense comes from one of the first 500 rows and has the properties above |
| IncomeImport.ReadIncome | src/app/api/incomes/import/route.ts:81-136 | the first failing check in source order is the row's error; a passing row becomes an income with its source and notes |
| IncomeImport.ImportIncomes | src/app/api/incomes/import/route.ts:26-151 | empty upload and missing session refused; otherwise the inserts are the accepted rows among the first 500, inserted plus skipped is the row count, and the errors are the first 20 of the read rows' errors, each within the read rows |
| IncomeImport.InsertedIncomesAreSound | src/app/api/incomes/import/route.ts:73-137 | every inserted income comes from one of the first 500 rows, is dated `YYYY-MM-DD`, with an amount in [0, 10^12) in an accepted currency, a rate exactly when foreign and a bounded DOP amount |
| IncomeImport.HomeCurrencyRowNeedsNoRate | src/app/api/incomes/import/route.ts:112-125 | a DOP row ignores its rate fields and is inserted exactly when its amount rounded to cents is below 10^12 |
| StatementImport.ImportReviewed | src/app/api/statements/import/route.ts:14-127 | Unauthorized, empty and missing-category answers in that order; otherwise one income or expense per kept row among the first 2000 |
| StatementImport.KeptRowsSplit | src/app/api/statements/import/route.ts:82-106 | every kept row becomes exactly one insert, an income or an expense |
| StatementImport.ReviewedInsertsAreDop | src/app/api/statements/import/route.ts:82-106 | every insert is a non-zero DOP amount with no rate, below 10^12 when positive; expenses carry the chosen category, no purpose and the merchant when given |
| StatementImport.HugeReviewedAmountSlipsThrough | src/app/api/statements/import/route.ts:76-81 | a reviewed amount of 10^22 is kept by the test as written and dropped by the intended one |
| Pagination.PageOf | src/app/api/expenses/list/route.ts:10-13 | the page is at least 1: 1 for a parameter that is not a finite number or is below one, otherwise the number rounded down |
| Pagination.PageSizeOf | src/app/api/expenses/list/route.ts:18 | the size is always an allowed one: the parameter when it is an allowed size, and the default 25 when it is not |
| Pagination.ParsePageOfDecimal | src/app/api/incomes/list/route.ts:8-14 | a page number written in decimal, read with `Number` and clamped, is that page |
| Pagination.ParsePageSizeOfDecimal | src/app/api/incomes/list/route.ts:16-19 | an allowed page size written in decimal, read with `Number`, is kept as that size |
| Pagination.Fetch | src/app/api/expenses/list/route.ts:51 | the range query returns the rows at positions offset to offset + size inclusive, as far as they exist |
| Pagination.Paginate | src/app/api/expenses/list/route.ts:43-112 | a page shows the rows from its offset, at most a page size of them; it has a next page exactly when rows exist past its end; the counters bracket the rows shown |
| Pagination.ShowingMatchesRows | src/app/api/incomes/list/route.ts:75-76 | a non-empty page's counters are the one-based first and last positions of exactly the rows it shows |
| Pagination.HasNextMeansNextPageNonEmpty | src/app/api/incomes/list/route.ts:82 | `hasNext` holds exactly when the following page is not empty |
| Pagination.PagesTile | src/app/api/incomes/list/route.ts:40-64 | pages 1 to n together are the first n times size rows, with none skipped or repeated |
| CsvExport.ToCsvValue | src/app/api/expenses/export/route.ts:6-15 | null is written empty; a value without comma, newline or quote is written as is; any other is quoted with its quotes doubled |
| CsvExport.ReadQuotedDoubled | src/app/api/incomes/export/route.ts:12 | a value with its quotes doubled, followed by a closing quote, reads back as the value |
| CsvExport.ReadEncodedField | src/app/api/incomes/export/route.ts:6-15 | a written value followed by a separator or the end reads back as the value, the null value as empty |
| CsvExport.CsvDocumentRoundTrip | src/app/api/expenses/export/route.ts:90 | a document of a plain header line and written rows reads back as the header and each row's values |
| CsvExport.RelationName | src/app/api/expenses/export/route.ts:73-78 | a missing relation names nothing; a single object gives its name; an array gives its first element's name, and an empty array nothing; a missing name reads as empty |
| CsvExport.ExpenseExportReadsBack | src/app/api/expenses/export/route.ts:61-90 | the expense export reads back as its header and, per expense, merchant, category, date, amount with currency, DOP amount and notes |
| CsvExport.ExportExpenses | src/app/api/expenses/export/route.ts:61-90 | the exported expense document reads back as the header and every expense's six fields |
| CsvExport.IncomeExportReadsBack | src/app/api/incomes/export/route.ts:53-71 | the income export reads back as its header and, per income, source, date, amount with currency, DOP amount and notes |
| CsvExport.ExportIncomes | src/app/api/incomes/export/route.ts:53-71 | the exported income document reads back as the header and every income's five fields |

## Left out

- Database, session and storage calls are left out. The session, the uploaded file, the catalogue rows and the currency codes are parameters. Database insert errors, which end a route with the database's message, are not modelled.
- Workbook decoding (XLSX) is left out. A workbook is given as sheets of cells, with date cells already decoded.
- Floating point is left out: amounts are exact reals. `toFixed(2)` is exact rounding to cents, and products are not rounded to doubles.
- Number parsing covers decimal text only. Hexadecimal, octal, binary and `Infinity` text read as not-a-number. The source accepts `"Infinity"` as a rate, which the model refuses.
- The `new Date(text)` fallback in the statement date parser is left out: a text the day/month path does not read gives no date. The host's free-form date parsing is not specified.
- `Date.UTC` overflow is left out: an out-of-range day or month gives no date instead of rolling over into the next month.
- BhdParse.UtcDate: does not bound the year. `Date.UTC` gives NaN beyond 8.64e15 milliseconds from 1970, which is past the year 275760 (and before -271821); the model still gives a date there.
- RowImport.Converted: applies the intended ceiling, so a converted amount of at least 10^21 is refused. The route as written lets it through (see Findings), and the model does not follow it there.
- ExpenseImport.ReadExpense: refuses a converted amount of at least 10^21, where the route as written inserts it; below 10^21 the two agree (`Numbers.AsWrittenCeilingMeansMagnitude`).
- ExpenseImport.AcceptedExpenseIsSound: the bound on the DOP amount holds for the corrected ceiling; the route as written can insert a DOP amount of 10^21 or more.
- ExpenseImport.InsertedExpensesAreSound: the same bound, for the same reason.
- IncomeImport.ReadIncome: refuses a converted amount of at least 10^21, where the route as written inserts it.
- IncomeImport.InsertedIncomesAreSound: the bound on the DOP amount holds for the corrected ceiling only.
- StatementImport.Keeps: applies the intended ceiling, so a reviewed amount of 10^21 or more is dropped; the route as written keeps it (see Findings).
- StatementImport.ImportReviewed: drops reviewed amounts of 10^21 or more, which the route as written inserts.
- StatementImport.ReviewedInsertsAreDop: the bound below 10^12 holds for the corrected ceiling only.
- Time zones are left out: `toISOString` dates are taken to be the UTC calendar date. The cut-off date's year and month are also read from its UTC calendar date, while the route reads them in the host's local time (`getFullYear`, `getMonth`). On a host behind UTC, a cut-off of 1 March read from text is local February, so a `15/03` row falls in the year before in the route and in the cut-off's year in the model.
- BhdParse.FindColumn: a cell absent from the worksheet is read as an empty cell. `sheet_to_json` leaves such a cell as a hole in the row array, and `findIndex` over the normalised header hands the hole to `startsWith` as `undefined`, which throws. So on a header row with a hole before the matching column the route fails with an uncaught error, while the model reads the rows. The hole behaviour belongs to the spreadsheet library, which is not part of this model.
- The current year is a parameter (`currentYear`), since it comes from the clock.
- Translation is left out: messages are the translation keys the routes pass to `t`.
- Case mapping covers Basic Latin and Latin-1 only. The keyword rules are case-insensitive literal keyword lists, with accented variants listed out, instead of regular expressions.
- How numbers print is left out. An exported amount and DOP amount are the host's `String()` text, given as input.
- The list and export filters, the ordering and the `user_id` column are left out. Pagination works on the already filtered and ordered list of matching rows.
- CsvExport.ExportExpenses: requires header labels that need no quoting, because the source joins the header line unquoted, so a label with a comma would not read back.
- CsvExport.ExportIncomes: requires header labels that need no quoting, for the same reason.
- RowImport.Converted: says nothing about acceptance for a negative rate. The digit count of a negative product includes its minus sign, which the model computes but the contract does not state.
- Classify.ImpliedPurpose: its need clause covers category names outside the want list only. The two lists are disjoint, so this is every need name.
- The client pages that call these routes, the dashboard, budgets, catalogue management, the admin area and the API description are left out. They are not part of the import, paging and export pipelines.

## Findings

| source | as written | input that shows it | evidently intended | confidence | as-written member | corrected member |
|---|---|---|---|---|---|---|
| src/app/api/expenses/import/route.ts:163-167 | the converted-amount ceiling counts the characters before the `.` in `String(amountDop)`, which from 10^21 up is exponent notation such as `1e+22`, so it never exceeds twelve | a foreign-currency row with amount `999999999999` and rate `1e10` (converted amount about 10^22) is inserted | refuse every converted amount of at least 10^12 | not executed | Numbers.ExponentNotationEscapesCeiling | Numbers.NumberTooLongMeansMagnitude |
| src/app/api/statements/import/route.ts:79-81 | the reviewed-row ceiling counts the digits of `String(row.amount)` the same way | a reviewed row with amount `1e22` is kept and inserted | drop every amount of at least 10^12 | not executed | StatementImport.HugeReviewedAmountSlipsThrough | StatementImport.KeptAmountBelowCeiling |
