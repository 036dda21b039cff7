/** The reviewed-statement import route: rows the user has already checked
    (date, description, amount and kind) become DOP incomes and expenses,
    the expenses filed under one chosen category. Rows that are incomplete
    or too large are dropped without a report. */
module StatementImport {
  import opened Base
  import opened Text
  import opened Numbers
  import opened Records

  /** At most this many reviewed rows are read. */
  const MaxReviewedRows: nat := 2000

  /** A reviewed row as the client sends it. `kind` is the row's `type`
      field; `amount` is a JSON number. */
  datatype ReviewedRow = ReviewedRow(date: string, description: string, amount: real, kind: string)

  /** What the route writes, and answers with the two counts. */
  datatype Reviewed = Reviewed(expenses: seq<ExpenseInsert>, incomes: seq<IncomeInsert>)

  /** A row is kept when its date, description and amount are all truthy
      and the amount's integer part has at most twelve characters. */
  predicate Keeps(row: ReviewedRow) {
    row.date != "" && row.description != "" && row.amount != 0.0 && !NumberTooLong(row.amount)
  }

  /** The same test with the digit count the route evaluates, which from
      10^21 up counts the characters of exponent notation. */
  predicate KeepsAsWritten(row: ReviewedRow) {
    row.date != "" && row.description != "" && row.amount != 0.0 && !NumberTooLongAsWritten(row.amount)
  }

  predicate IsIncome(row: ReviewedRow) {
    row.kind == "income"
  }

  /** The income a kept `income` row becomes: its amount in DOP, its
      description as the source. */
  function IncomeFrom(row: ReviewedRow): Option<IncomeInsert> {
    if Keeps(row) && IsIncome(row) then
      Some(IncomeInsert(row.amount, HomeCurrency, None, row.amount, row.date, Some(row.description), None))
    else None
  }

  /** The expense any other kept row becomes: its amount in DOP, its
      description as the notes, filed under `categoryId` with no purpose,
      and at `merchantId` when that is not empty. */
  function ExpenseFrom(categoryId: string, merchantId: string): ReviewedRow -> Option<ExpenseInsert> {
    (row: ReviewedRow) =>
      if Keeps(row) && !IsIncome(row) then
        Some(ExpenseInsert(row.amount, HomeCurrency, None, row.amount, row.date, Some(row.description),
                           categoryId, None, NonEmpty(merchantId)))
      else None
  }

  /** The route. `signedIn` stands for the session; `defaultCategoryId`
      and `merchantId` are the request's fields as sent. The session is
      checked first, then the rows, then the category. */
  function ImportReviewed(signedIn: bool, rows: seq<ReviewedRow>, defaultCategoryId: string, merchantId: string): (r: Result<Reviewed, string>)
    ensures !signedIn <==> r == Err("Unauthorized")
    ensures signedIn && |rows| == 0 ==> r == Err("imports.empty")
    ensures signedIn && |rows| > 0 && Trim(defaultCategoryId) == "" ==> r == Err("statementImport.selectCategory")
    ensures r.Ok? <==> signedIn && |rows| > 0 && Trim(defaultCategoryId) != ""
    ensures r.Ok? ==>
              var read := Take(rows, MaxReviewedRows);
              && r.value.incomes == FilterMap(read, IncomeFrom)
              && r.value.expenses == FilterMap(read, ExpenseFrom(Trim(defaultCategoryId), Trim(merchantId)))
              && |r.value.expenses| + |r.value.incomes| == Count(read, Keeps)
    ensures r.Ok? ==> |r.value.expenses| + |r.value.incomes| <= Min(|rows|, MaxReviewedRows)
  {
    if !signedIn then Err("Unauthorized")
    else if |rows| == 0 then Err("imports.empty")
    else
      var category := Trim(defaultCategoryId);
      if category == "" then Err("statementImport.selectCategory")
      else
        var read := Take(rows, MaxReviewedRows);
        KeptRowsSplit(read, category, Trim(merchantId));
        Ok(Reviewed(FilterMap(read, ExpenseFrom(category, Trim(merchantId))), FilterMap(read, IncomeFrom)))
  }

  /** Every kept row becomes exactly one insert: an income or an
      expense. */
  lemma {:induction false} KeptRowsSplit(rows: seq<ReviewedRow>, categoryId: string, merchantId: string)
    ensures |FilterMap(rows, ExpenseFrom(categoryId, merchantId))| + |FilterMap(rows, IncomeFrom)| == Count(rows, Keeps)
  {
    if |rows| > 0 {
      KeptRowsSplit(rows[1..], categoryId, merchantId);
    }
  }

  /** Every insert is a DOP amount with no rate, its DOP amount equal to its
      amount, and (when positive) below 10^12. */
  lemma ReviewedInsertsAreDop(rows: seq<ReviewedRow>, categoryId: string, merchantId: string)
    ensures forall k | 0 <= k < |FilterMap(rows, IncomeFrom)| ::
              var i := FilterMap(rows, IncomeFrom)[k];
              && i.currency == HomeCurrency && i.fxRateToDop.None? && i.amountDop == i.amount && i.amount != 0.0
              && (i.amount > 0.0 ==> i.amount < Pow10(MaxIntegerDigits) as real)
    ensures forall k | 0 <= k < |FilterMap(rows, ExpenseFrom(categoryId, merchantId))| ::
              var e := FilterMap(rows, ExpenseFrom(categoryId, merchantId))[k];
              && e.currency == HomeCurrency && e.fxRateToDop.None? && e.amountDop == e.amount && e.amount != 0.0
              && (e.amount > 0.0 ==> e.amount < Pow10(MaxIntegerDigits) as real)
              && e.categoryId == categoryId && e.purposeId.None? && e.merchantId == NonEmpty(merchantId)
  {
    ReviewedIncomesAreDop(rows);
    ReviewedExpensesAreDop(rows, categoryId, merchantId);
  }

  lemma ReviewedIncomesAreDop(rows: seq<ReviewedRow>)
    ensures forall k | 0 <= k < |FilterMap(rows, IncomeFrom)| ::
              var i := FilterMap(rows, IncomeFrom)[k];
              && i.currency == HomeCurrency && i.fxRateToDop.None? && i.amountDop == i.amount && i.amount != 0.0
              && (i.amount > 0.0 ==> i.amount < Pow10(MaxIntegerDigits) as real)
  {
    var incomes := FilterMap(rows, IncomeFrom);
    forall k | 0 <= k < |incomes|
      ensures var i := incomes[k];
              && i.currency == HomeCurrency && i.fxRateToDop.None? && i.amountDop == i.amount && i.amount != 0.0
              && (i.amount > 0.0 ==> i.amount < Pow10(MaxIntegerDigits) as real)
    {
      var j :| 0 <= j < |rows| && IncomeFrom(rows[j]) == Some(incomes[k]);
      KeptAmountBelowCeiling(rows[j]);
    }
  }

  lemma ReviewedExpensesAreDop(rows: seq<ReviewedRow>, categoryId: string, merchantId: string)
    ensures forall k | 0 <= k < |FilterMap(rows, ExpenseFrom(categoryId, merchantId))| ::
              var e := FilterMap(rows, ExpenseFrom(categoryId, merchantId))[k];
              && e.currency == HomeCurrency && e.fxRateToDop.None? && e.amountDop == e.amount && e.amount != 0.0
              && (e.amount > 0.0 ==> e.amount < Pow10(MaxIntegerDigits) as real)
              && e.categoryId == categoryId && e.purposeId.None? && e.merchantId == NonEmpty(merchantId)
  {
    var expenses := FilterMap(rows, ExpenseFrom(categoryId, merchantId));
    forall k | 0 <= k < |expenses|
      ensures var e := expenses[k];
              && e.currency == HomeCurrency && e.fxRateToDop.None? && e.amountDop == e.amount && e.amount != 0.0
              && (e.amount > 0.0 ==> e.amount < Pow10(MaxIntegerDigits) as real)
              && e.categoryId == categoryId && e.purposeId.None? && e.merchantId == NonEmpty(merchantId)
    {
      var j :| 0 <= j < |rows| && ExpenseFrom(categoryId, merchantId)(rows[j]) == Some(expenses[k]);
      KeptAmountBelowCeiling(rows[j]);
    }
  }

  /** A kept row's amount is not zero and, when positive, below 10^12. */
  lemma KeptAmountBelowCeiling(row: ReviewedRow)
    requires Keeps(row)
    ensures row.amount != 0.0
    ensures row.amount > 0.0 ==> row.amount < Pow10(MaxIntegerDigits) as real
  {
    if row.amount > 0.0 { NumberTooLongMeansMagnitude(row.amount); }
  }

  /** The digit check as written keeps a reviewed row of 10^22, whose
      integer part has twenty-three digits; the intended check drops it. */
  lemma HugeReviewedAmountSlipsThrough(date: string, description: string, kind: string)
    requires date != "" && description != ""
    ensures KeepsAsWritten(ReviewedRow(date, description, 1e22, kind))
    ensures !Keeps(ReviewedRow(date, description, 1e22, kind))
  {
    ExponentNotationEscapesCeiling();
  }
}
