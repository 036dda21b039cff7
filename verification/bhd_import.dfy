/** The BHD statement import route: every worksheet's statement rows
    become DOP expenses (debits, filed under a category and a purpose) and
    DOP incomes (credits). */
module BhdImport {
  import opened Base
  import opened Text
  import opened Dates
  import opened Sheet
  import opened BhdParse
  import opened Classify
  import opened Records

  /** The catalogue and the defaults the route files debits with. */
  datatype Books = Books(categories: seq<Named>, purposes: seq<Named>, defaultCategoryId: string, defaultPurposeId: string)

  /** A statement row's reference, when it is non-empty text. */
  predicate HasRef(row: StatementRow) {
    row.ref.Some? && row.ref.value != ""
  }

  /** The expense a debit becomes: the debit in DOP, dated by the row's
      UTC day, with the detail (and the reference) as its notes. */
  function DebitExpense(row: StatementRow, categoryId: string, purposeId: string): ExpenseInsert
    requires ValidDate(row.date)
  {
    ExpenseInsert(
      row.debit, HomeCurrency, None, row.debit, IsoDate(row.date),
      Some(if HasRef(row) then row.detail + " (Ref " + row.ref.value + ")" else row.detail),
      categoryId, Some(purposeId), None)
  }

  /** The income a credit becomes: the credit in DOP, the detail as its
      source, the reference as its notes. */
  function CreditIncome(row: StatementRow): IncomeInsert
    requires ValidDate(row.date)
  {
    IncomeInsert(
      row.credit, HomeCurrency, None, row.credit, IsoDate(row.date),
      Some(row.detail), if HasRef(row) then Some("Ref " + row.ref.value) else None)
  }

  /** How the route files the debit with a given detail, for the
      catalogue and defaults at hand. */
  function Filer(books: Books): string -> Filing {
    detail => FileDebit(detail, books.categories, books.purposes, books.defaultCategoryId, books.defaultPurposeId)
  }

  /** The expense a row yields, if any: a positive debit that `file` files. */
  function ExpenseOf(file: string -> Filing): StatementRow -> Option<ExpenseInsert> {
    (row: StatementRow) =>
      if row.debit > 0.0 && ValidDate(row.date) && file(row.detail).Filed? then
        Some(DebitExpense(row, file(row.detail).categoryId, file(row.detail).purposeId))
      else None
  }

  /** The income a row yields, if any: a positive credit, unless the row
      also holds a debit that `file` cannot file, whose error ends the
      row's turn before its credit is read. */
  function IncomeOf(file: string -> Filing): StatementRow -> Option<IncomeInsert> {
    (row: StatementRow) =>
      if row.credit > 0.0 && ValidDate(row.date) && (row.debit <= 0.0 || file(row.detail).Filed?) then
        Some(CreditIncome(row))
      else None
  }

  predicate IsDebit(row: StatementRow) {
    row.debit > 0.0
  }

  predicate IsCredit(row: StatementRow) {
    row.credit > 0.0
  }

  /** A debit that cannot be filed under a category: the rows the route
      reports as `categoryRequired`. */
  predicate UnfiledDebit(file: string -> Filing, row: StatementRow) {
    IsDebit(row) && !file(row.detail).Filed?
  }

  /** `UnfiledDebit` as a test to count with. */
  function CannotFile(file: string -> Filing): StatementRow -> bool {
    (row: StatementRow) => UnfiledDebit(file, row)
  }

  datatype Shaped = Shaped(expenses: seq<ExpenseInsert>, incomes: seq<IncomeInsert>, errors: seq<RowError>)

  /** One statement row, number `number`: a positive debit becomes an
      expense, or a `categoryRequired` error when it cannot be filed, which
      ends the row; otherwise a positive credit becomes an income (a row may
      yield both an expense and an income). */
  function ShapeRow(row: StatementRow, number: nat, file: string -> Filing): (r: Shaped)
    requires WellFormed(row)
    ensures r.incomes == (if IncomeOf(file)(row).Some? then [IncomeOf(file)(row).value] else [])
    ensures |r.incomes| == (if IsCredit(row) && r.errors == [] then 1 else 0)
    ensures r.expenses == (if ExpenseOf(file)(row).Some? then [ExpenseOf(file)(row).value] else [])
    ensures |r.expenses| + |r.errors| == (if IsDebit(row) then 1 else 0)
    ensures |r.errors| == (if UnfiledDebit(file, row) then 1 else 0)
    ensures forall k | 0 <= k < |r.errors| :: r.errors[k] == RowError(number, "expenses.categoryRequired")
  {
    var expense, error :=
      if !IsDebit(row) then [] else if file(row.detail).Filed? then [DebitExpense(row, file(row.detail).categoryId, file(row.detail).purposeId)] else [],
      if IsDebit(row) && !file(row.detail).Filed? then [RowError(number, "expenses.categoryRequired")] else [];
    Shaped(expense, if IsCredit(row) && error == [] then [CreditIncome(row)] else [], error)
  }

  /** The route's `forEach` over the statement rows, the first of which is
      row number `first + 1`. */
  function ShapeRows(rows: seq<StatementRow>, first: nat, file: string -> Filing): (r: Shaped)
    requires forall k | 0 <= k < |rows| :: WellFormed(rows[k])
    ensures r.incomes == FilterMap(rows, IncomeOf(file))
    ensures |r.incomes| <= Count(rows, IsCredit)
    ensures (forall d :: file(d).Filed?) ==> |r.incomes| == Count(rows, IsCredit)
    ensures |r.expenses| + |r.errors| == Count(rows, IsDebit)
    ensures r.expenses == FilterMap(rows, ExpenseOf(file))
    ensures forall k | 0 <= k < |r.errors| :: first < r.errors[k].row <= first + |rows|
    ensures forall k | 0 <= k < |r.errors| :: r.errors[k].message == "expenses.categoryRequired"
    ensures (forall d :: file(d).Filed?) ==> r.errors == []
    decreases |rows|
  {
    if |rows| == 0 then Shaped([], [], [])
    else
      var head := ShapeRow(rows[0], first + 1, file);
      var rest := ShapeRows(rows[1..], first + 1, file);
      FilterMapCons(rows, IncomeOf(file));
      FilterMapCons(rows, ExpenseOf(file));
      ErrorsJoin(head.errors, rest.errors, first, |rows|);
      Shaped(head.expenses + rest.expenses, head.incomes + rest.incomes, head.errors + rest.errors)
  }

  /** The first row's errors followed by those of the rest are all
      category-required errors numbered within the batch. */
  lemma ErrorsJoin(head: seq<RowError>, rest: seq<RowError>, first: nat, n: nat)
    requires n >= 1
    requires forall k | 0 <= k < |head| :: head[k] == RowError(first + 1, "expenses.categoryRequired")
    requires forall k | 0 <= k < |rest| :: first + 1 < rest[k].row <= first + n
    requires forall k | 0 <= k < |rest| :: rest[k].message == "expenses.categoryRequired"
    ensures forall k | 0 <= k < |head + rest| :: first < (head + rest)[k].row <= first + n
    ensures forall k | 0 <= k < |head + rest| :: (head + rest)[k].message == "expenses.categoryRequired"
  {
  }

  /** Each error names, by its number, a row of the batch starting after
      row `first`, and that row is an unfiled debit. */
  predicate ReportsUnfiled(errors: seq<RowError>, rows: seq<StatementRow>, first: nat, file: string -> Filing) {
    forall k | 0 <= k < |errors| ::
      first < errors[k].row <= first + |rows| && UnfiledDebit(file, rows[errors[k].row - first - 1])
  }

  /** The errors are in strictly increasing row order. */
  predicate InRowOrder(errors: seq<RowError>) {
    forall k, l | 0 <= k < l < |errors| :: errors[k].row < errors[l].row
  }

  /** The first row's error, if it has one, followed by those of the other
      rows: one error per unfiled debit, in row order, each carrying its
      own row's number. */
  lemma {:induction false} UnfiledErrorsJoin(rows: seq<StatementRow>, file: string -> Filing, head: seq<RowError>, rest: seq<RowError>, first: nat)
    requires |rows| >= 1
    requires |head| == (if UnfiledDebit(file, rows[0]) then 1 else 0)
    requires forall k | 0 <= k < |head| :: head[k] == RowError(first + 1, "expenses.categoryRequired")
    requires |rest| == Count(rows[1..], CannotFile(file))
    requires ReportsUnfiled(rest, rows[1..], first + 1, file)
    requires InRowOrder(rest)
    ensures |head + rest| == Count(rows, CannotFile(file))
    ensures ReportsUnfiled(head + rest, rows, first, file)
    ensures InRowOrder(head + rest)
  {
    forall k | 0 <= k < |head + rest|
      ensures first < (head + rest)[k].row <= first + |rows| && UnfiledDebit(file, rows[(head + rest)[k].row - first - 1])
    {
      if k < |head| {
        assert (head + rest)[k] == head[k];
      } else {
        var e := rest[k - |head|];
        assert (head + rest)[k] == e;
        var j := e.row - first - 2;
        assert 0 <= j < |rows[1..]| && UnfiledDebit(file, rows[1..][j]);
        assert rows[1..][j] == rows[j + 1];
      }
    }
  }

  /** The route reports exactly the unfiled debits, each under its own row
      number (`index + 1`, with the batch starting after row `first`), in
      row order. */
  lemma {:induction false} ShapeRowsErrors(rows: seq<StatementRow>, first: nat, file: string -> Filing)
    requires forall k | 0 <= k < |rows| :: WellFormed(rows[k])
    ensures |ShapeRows(rows, first, file).errors| == Count(rows, CannotFile(file))
    ensures ReportsUnfiled(ShapeRows(rows, first, file).errors, rows, first, file)
    ensures InRowOrder(ShapeRows(rows, first, file).errors)
    decreases |rows|
  {
    if |rows| > 0 {
      ShapeRowsErrors(rows[1..], first + 1, file);
      var head := ShapeRow(rows[0], first + 1, file).errors;
      var rest := ShapeRows(rows[1..], first + 1, file).errors;
      assert ShapeRows(rows, first, file).errors == head + rest;
      UnfiledErrorsJoin(rows, file, head, rest, first);
    }
  }

  /** The route's answer with the rows it inserts: the expense and income
      rows, how many rows were skipped, and the first twenty errors. */
  datatype Imported = Imported(expenses: seq<ExpenseInsert>, incomes: seq<IncomeInsert>, skipped: nat, errors: seq<RowError>)

  /** The BHD import route. `signedIn` and `hasFile` stand for the session
      and the upload; `sheets` for the workbook's worksheets in order;
      `currentYear` for the clock. */
  function ImportStatement(
    signedIn: bool, hasFile: bool, sheets: seq<seq<Row>>, currentYear: int,
    defaultCategoryId: string, defaultPurposeId: string,
    categories: seq<Named>, purposes: seq<Named>): (r: Result<Imported, string>)
    ensures !signedIn <==> r == Err("Unauthorized")
    ensures signedIn && !hasFile ==> r == Err("imports.uploadFailed")
    ensures signedIn && hasFile && (Trim(defaultCategoryId) == "" || Trim(defaultPurposeId) == "") ==>
              r == Err("expenses.categoryRequired")
    ensures r == Err("imports.empty") <==>
              signedIn && hasFile && Trim(defaultCategoryId) != "" && Trim(defaultPurposeId) != ""
              && WorkbookRows(sheets, currentYear) == []
    ensures r.Ok? ==>
              var rows := WorkbookRows(sheets, currentYear);
              var books := Books(categories, purposes, Trim(defaultCategoryId), Trim(defaultPurposeId));
              && rows != []
              && r.value.skipped == 0 && r.value.errors == []
              && r.value.expenses == FilterMap(rows, ExpenseOf(Filer(books)))
              && r.value.incomes == FilterMap(rows, IncomeOf(Filer(books)))
              && |r.value.expenses| == Count(rows, IsDebit)
              && |r.value.incomes| == Count(rows, IsCredit)
  {
    if !signedIn then Err("Unauthorized")
    else if !hasFile then Err("imports.uploadFailed")
    else
      var category := Trim(defaultCategoryId);
      var purpose := Trim(defaultPurposeId);
      if category == "" || purpose == "" then Err("expenses.categoryRequired")
      else
        var rows := WorkbookRows(sheets, currentYear);
        if rows == [] then Err("imports.empty")
        else
          var books := Books(categories, purposes, category, purpose);
          assert forall d :: Filer(books)(d).Filed? by {
            forall d ensures Filer(books)(d).Filed? {
              DefaultsAlwaysFile(d, categories, purposes, category, purpose);
            }
          }
          var shaped := ShapeRows(rows, 0, Filer(books));
          Ok(Imported(shaped.expenses, shaped.incomes, |shaped.errors|, Take(shaped.errors, MaxReportedErrors)))
  }

  /** Every expense the route writes is a positive DOP amount with no
      exchange rate, its DOP amount equal to its amount, and no merchant. */
  lemma ExpensesArePlainDop(rows: seq<StatementRow>, file: string -> Filing, k: nat)
    requires k < |FilterMap(rows, ExpenseOf(file))|
    ensures var e := FilterMap(rows, ExpenseOf(file))[k];
            && e.amount > 0.0 && e.amountDop == e.amount && e.currency == HomeCurrency
            && e.fxRateToDop.None? && e.merchantId.None? && e.purposeId.Some?
  {
    var e := FilterMap(rows, ExpenseOf(file))[k];
    var j :| 0 <= j < |rows| && ExpenseOf(file)(rows[j]) == Some(e);
    var row := rows[j];
    assert row.debit > 0.0 && ValidDate(row.date) && file(row.detail).Filed?;
    assert e == DebitExpense(row, file(row.detail).categoryId, file(row.detail).purposeId);
  }

  /** The dates the route writes are `YYYY-MM-DD` text that the generic
      importers' `normalizeDate` accepts unchanged, for years 0 to 9999. */
  lemma IncomeDatesAreIso(rows: seq<StatementRow>, file: string -> Filing, k: nat)
    requires k < |FilterMap(rows, IncomeOf(file))|
    requires forall j | 0 <= j < |rows| :: 0 <= rows[j].date.year <= 9999
    ensures var i := FilterMap(rows, IncomeOf(file))[k];
            && NormalizeDate(i.incomeDate) == Some(i.incomeDate)
            && i.amount > 0.0 && i.amountDop == i.amount && i.currency == HomeCurrency
  {
    var i := FilterMap(rows, IncomeOf(file))[k];
    var j :| 0 <= j < |rows| && IncomeOf(file)(rows[j]) == Some(i);
    var row := rows[j];
    assert row.credit > 0.0 && ValidDate(row.date);
    assert i == CreditIncome(row);
    IsoDateRoundTrip(row.date);
  }
}
