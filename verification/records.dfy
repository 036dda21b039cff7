/** What the import routes write and answer: the expense and income rows
    they insert, the per-row errors they report, and their JSON answers.
    Messages are the translation keys the routes pass to `t`; the owning
    user's id, which every inserted row also carries, is left to the
    caller. */
module Records {
  import opened Base
  import opened Text

  /** A row for the `expenses` table. */
  datatype ExpenseInsert = ExpenseInsert(
    amount: real,
    currency: string,
    fxRateToDop: Option<real>,
    amountDop: real,
    expenseDate: string,
    notes: Option<string>,
    categoryId: string,
    purposeId: Option<string>,
    merchantId: Option<string>)

  /** A row for the `incomes` table. */
  datatype IncomeInsert = IncomeInsert(
    amount: real,
    currency: string,
    fxRateToDop: Option<real>,
    amountDop: real,
    incomeDate: string,
    source: Option<string>,
    notes: Option<string>)

  /** A rejected input row: its number as the route reports it, and the
      translation key of the reason. */
  datatype RowError = RowError(row: nat, message: string)

  /** At most this many row errors are returned. */
  const MaxReportedErrors: nat := 20

  /** The home currency: amounts in it need no exchange rate. */
  const HomeCurrency: string := "DOP"

  /** `value || null` for text. */
  function NonEmpty(s: string): (r: Option<string>)
    ensures r.Some? <==> s != ""
    ensures r.Some? ==> r.value == s
  {
    if s == "" then None else Some(s)
  }
}
