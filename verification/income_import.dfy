/** The income CSV import route: the shared checks alone, with an optional
    `source` field; no category is asked for. */
module IncomeImport {
  import opened Base
  import opened Records
  import opened RowImport

  const IncomeMessages: Messages := Messages(
    "incomeImports.empty", "incomeImports.dateInvalid", "incomeImports.amountInvalid", "income.amountTooLarge",
    "incomeImports.currencyInvalid", "income.fxRateRequired", "income.convertedTooLarge")

  /** Date fields, in order of preference. */
  const IncomeDateFields: seq<string> := ["date", "income_date"]

  /** One normalised row: the head checks, then the rate and the
      conversion; the first failure is the row's error. */
  function ReadIncome(codes: set<string>, m: map<string, string>): (r: Result<IncomeInsert, string>)
    ensures var head := CheckHead(m, IncomeDateFields, IncomeMessages, codes);
            && (head.Err? ==> r == Err(head.error))
            && (head.Ok? && Convert(m, head.value, IncomeMessages).Err? ==> r == Err(Convert(m, head.value, IncomeMessages).error))
            && (r.Ok? <==> head.Ok? && Convert(m, head.value, IncomeMessages).Ok?)
    ensures r.Ok? ==>
              var head := CheckHead(m, IncomeDateFields, IncomeMessages, codes).value;
              var conv := Convert(m, head, IncomeMessages).value;
              r.value == IncomeInsert(head.amount, head.currency, conv.fxRate, conv.amountDop, head.date,
                                      NonEmpty(Field(m, "source")), NonEmpty(Field(m, "notes")))
  {
    match CheckHead(m, IncomeDateFields, IncomeMessages, codes)
    case Err(e) => Err(e)
    case Ok(head) =>
      match Convert(m, head, IncomeMessages)
      case Err(e) => Err(e)
      case Ok(conv) =>
        Ok(IncomeInsert(head.amount, head.currency, conv.fxRate, conv.amountDop, head.date,
                        NonEmpty(Field(m, "source")), NonEmpty(Field(m, "notes"))))
  }

  function IncomeReader(codes: set<string>): map<string, string> -> Result<IncomeInsert, string> {
    m => ReadIncome(codes, m)
  }

  /** The income import route. `signedIn` stands for the session, `rows`
      for the uploaded rows and `codes` for the accepted currency codes. */
  function ImportIncomes(rows: seq<Record>, signedIn: bool, codes: set<string>): (r: Result<Answer<IncomeInsert>, string>)
    ensures |rows| == 0 ==> r == Err("incomeImports.empty")
    ensures |rows| > 0 && !signedIn ==> r == Err("errors.signInRequired")
    ensures r.Ok? <==> |rows| > 0 && signedIn
    ensures r.Ok? ==> |r.value.inserts| + r.value.skipped == |rows| && |r.value.inserts| <= MaxImportRows
    ensures r.Ok? ==> |r.value.errors| <= MaxReportedErrors
    ensures r.Ok? ==> forall k | 0 <= k < |r.value.errors| :: 2 <= r.value.errors[k].row <= Min(|rows|, MaxImportRows) + 1
    ensures r.Ok? ==> r.value.inserts == FilterMap(Take(rows, MaxImportRows), Accepted(Outcome(IncomeReader(codes))))
    ensures r.Ok? ==> r.value.errors == Take(ReadRows(Take(rows, MaxImportRows), 1, Outcome(IncomeReader(codes))).1, MaxReportedErrors)
  {
    ImportRows(rows, signedIn, IncomeMessages.empty, IncomeReader(codes))
  }

  /** Every income the route inserts came from one of the first 500 rows,
      is dated `YYYY-MM-DD`, has an amount in [0, 10^12) in an accepted
      currency, a rate exactly when that currency is foreign, and (for a
      rate that is not negative) a DOP amount below 10^12. */
  lemma InsertedIncomesAreSound(rows: seq<Record>, signedIn: bool, codes: set<string>, k: nat)
    requires ImportIncomes(rows, signedIn, codes).Ok?
    requires k < |ImportIncomes(rows, signedIn, codes).value.inserts|
    ensures var i := ImportIncomes(rows, signedIn, codes).value.inserts[k];
            && (exists j | 0 <= j < Min(|rows|, MaxImportRows) :: ReadIncome(codes, NormalizeRecord(rows[j])) == Ok(i))
            && Dates.IsIsoShape(i.incomeDate)
            && 0.0 <= i.amount < Ceiling
            && i.currency in codes
            && (i.fxRateToDop.None? <==> i.currency == HomeCurrency)
            && (i.fxRateToDop.GetOr(1.0) >= 0.0 ==> i.amountDop < Ceiling)
  {
    var r := ImportRows(rows, signedIn, IncomeMessages.empty, IncomeReader(codes));
    var i := r.value.inserts[k];
    var j :| 0 <= j < Min(|rows|, MaxImportRows) && IncomeReader(codes)(NormalizeRecord(rows[j])) == Ok(i);
    var m := NormalizeRecord(rows[j]);
    var head := CheckHead(m, IncomeDateFields, IncomeMessages, codes).value;
    var fx := RateOf(m, head.currency, IncomeMessages);
    assert fx.Ok? && fx.value == i.fxRateToDop;
  }

  /** A DOP row needs no rate: once its date, amount and currency pass,
      it is inserted exactly when its amount rounded to cents stays below
      10^12 (an amount such as 999999999999.999 passes the digit check but
      rounds up to 10^12 and is refused), with no rate and the rounded
      amount as its DOP amount, whatever its rate fields say. */
  lemma HomeCurrencyRowNeedsNoRate(codes: set<string>, m: map<string, string>)
    requires CheckHead(m, IncomeDateFields, IncomeMessages, codes).Ok?
    requires CheckHead(m, IncomeDateFields, IncomeMessages, codes).value.currency == HomeCurrency
    ensures var amount := CheckHead(m, IncomeDateFields, IncomeMessages, codes).value.amount;
            && (ReadIncome(codes, m).Ok? <==> Numbers.RoundCents(amount) < Ceiling)
            && (ReadIncome(codes, m).Ok? ==>
                  ReadIncome(codes, m).value.fxRateToDop.None? && ReadIncome(codes, m).value.amountDop == Numbers.RoundCents(amount))
            && (ReadIncome(codes, m).Err? ==> ReadIncome(codes, m).error == IncomeMessages.convertedTooLarge)
  {
    var head := CheckHead(m, IncomeDateFields, IncomeMessages, codes).value;
    assert RateOf(m, head.currency, IncomeMessages) == Ok(None);
    assert head.amount * 1.0 == head.amount;
  }
}
