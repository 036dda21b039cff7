/** The expense CSV import route: on top of the shared checks, every row
    names a category (by id or by name) and may name a merchant, both of
    which must resolve to a row of the user's catalogue. */
module ExpenseImport {
  import opened Base
  import opened Text
  import opened Records
  import opened Classify
  import opened RowImport

  const ExpenseMessages: Messages := Messages(
    "imports.empty", "imports.dateInvalid", "imports.amountInvalid", "expenses.amountTooLarge",
    "imports.currencyInvalid", "expenses.fxRateRequired", "expenses.convertedTooLarge")

  /** Date fields, in order of preference. */
  const ExpenseDateFields: seq<string> := ["date", "expense_date"]

  predicate IsId(rows: seq<Named>, id: string) {
    exists k | 0 <= k < |rows| :: rows[k].id == id
  }

  /** `idMap.get(raw) ?? nameMap.get(raw.toLowerCase()) ?? nameMap.get(raw)
      ?? null`: the text as an id, else as a name in any case, else as a
      name exactly as written. */
  function Resolve(rows: seq<Named>, raw: string): (r: Option<string>)
    ensures IsId(rows, raw) ==> r == Some(raw)
    ensures !IsId(rows, raw) && ToLower(raw) in IdByName(rows) ==> r == Some(IdByName(rows)[ToLower(raw)])
    ensures r.None? <==> !IsId(rows, raw) && ToLower(raw) !in IdByName(rows) && raw !in IdByName(rows)
  {
    if IsId(rows, raw) then Some(raw)
    else match Get(IdByName(rows), ToLower(raw))
      case Some(id) => Some(id)
      case None => Get(IdByName(rows), raw)
  }

  /** Whatever `Resolve` finds is the id of a catalogue row, and one whose
      name (lower-cased) is the text, unless the text was that id. */
  lemma ResolvedIsCatalogueId(rows: seq<Named>, raw: string)
    requires Resolve(rows, raw).Some?
    ensures var id := Resolve(rows, raw).value;
            exists k | 0 <= k < |rows| :: rows[k].id == id && (id == raw || ToLower(rows[k].name) in {ToLower(raw), raw})
  {
    var id := Resolve(rows, raw).value;
    var f := (row: Named) => (ToLower(row.name), row.id);
    if IsId(rows, raw) {
      var k :| 0 <= k < |rows| && rows[k].id == raw;
      assert rows[k].id == id && id == raw;
    } else {
      var key := if ToLower(raw) in IdByName(rows) then ToLower(raw) else raw;
      assert IdByName(rows)[key] == id;
      var k :| 0 <= k < |rows| && f(rows[k]) == (key, IdByName(rows)[key]);
      assert rows[k].id == id && ToLower(rows[k].name) == key;
    }
  }

  /** The category check: the category (or `category_name`) field must be
      filled, and must resolve to a non-empty id. */
  function CategoryOf(m: map<string, string>, categories: seq<Named>): (r: Result<string, string>)
    ensures var raw := FirstField(m, ["category", "category_name"]);
            && (raw == "" ==> r == Err("expenses.categoryRequired"))
            && (raw != "" ==> (r.Ok? <==> Resolve(categories, raw).Some? && Resolve(categories, raw).value != ""))
            && (raw != "" && r.Err? ==> r == Err("imports.categoryMissing"))
            && (r.Ok? ==> r.value != "" && Some(r.value) == Resolve(categories, raw))
  {
    var raw := FirstField(m, ["category", "category_name"]);
    if raw == "" then Err("expenses.categoryRequired")
    else match Resolve(categories, raw)
      case Some(id) => if id == "" then Err("imports.categoryMissing") else Ok(id)
      case None => Err("imports.categoryMissing")
  }

  /** The merchant check: an empty merchant (or `merchant_name`) field means
      no merchant; a filled one must resolve to a non-empty id. */
  function MerchantOf(m: map<string, string>, merchants: seq<Named>): (r: Result<Option<string>, string>)
    ensures var raw := FirstField(m, ["merchant", "merchant_name"]);
            && (raw == "" ==> r == Ok(None))
            && (raw != "" ==> (r.Ok? <==> Resolve(merchants, raw).Some? && Resolve(merchants, raw).value != ""))
            && (raw != "" && r.Err? ==> r == Err("imports.merchantMissing"))
            && (raw != "" && r.Ok? ==> r.value.Some? && r.value.value != "" && r.value == Resolve(merchants, raw))
  {
    var raw := FirstField(m, ["merchant", "merchant_name"]);
    if raw == "" then Ok(None)
    else match Resolve(merchants, raw)
      case Some(id) => if id == "" then Err("imports.merchantMissing") else Ok(Some(id))
      case None => Err("imports.merchantMissing")
  }

  /** What the route reads its rows against: the user's categories and
      merchants and the accepted currency codes. */
  datatype Catalogue = Catalogue(categories: seq<Named>, merchants: seq<Named>, codes: set<string>)

  /** One normalised row: the shared head checks, then the category, then
      the merchant, then the rate and the conversion; the first failure is
      the row's error. An accepted row becomes an expense without a
      purpose. */
  function ReadExpense(c: Catalogue, m: map<string, string>): (r: Result<ExpenseInsert, string>)
    ensures var head := CheckHead(m, ExpenseDateFields, ExpenseMessages, c.codes);
            var category := CategoryOf(m, c.categories);
            var merchant := MerchantOf(m, c.merchants);
            && (head.Err? ==> r == Err(head.error))
            && (head.Ok? && category.Err? ==> r == Err(category.error))
            && (head.Ok? && category.Ok? && merchant.Err? ==> r == Err(merchant.error))
            && (head.Ok? && category.Ok? && merchant.Ok? && Convert(m, head.value, ExpenseMessages).Err? ==>
                  r == Err(Convert(m, head.value, ExpenseMessages).error))
            && (r.Ok? <==> head.Ok? && category.Ok? && merchant.Ok? && Convert(m, head.value, ExpenseMessages).Ok?)
    ensures r.Ok? ==>
              var head := CheckHead(m, ExpenseDateFields, ExpenseMessages, c.codes).value;
              var conv := Convert(m, head, ExpenseMessages).value;
              r.value == ExpenseInsert(head.amount, head.currency, conv.fxRate, conv.amountDop, head.date,
                                       NonEmpty(Field(m, "notes")), CategoryOf(m, c.categories).value, None,
                                       MerchantOf(m, c.merchants).value)
  {
    match CheckHead(m, ExpenseDateFields, ExpenseMessages, c.codes)
    case Err(e) => Err(e)
    case Ok(head) =>
      match CategoryOf(m, c.categories)
      case Err(e) => Err(e)
      case Ok(categoryId) =>
        match MerchantOf(m, c.merchants)
        case Err(e) => Err(e)
        case Ok(merchantId) =>
          match Convert(m, head, ExpenseMessages)
          case Err(e) => Err(e)
          case Ok(conv) =>
            Ok(ExpenseInsert(head.amount, head.currency, conv.fxRate, conv.amountDop, head.date,
                             NonEmpty(Field(m, "notes")), categoryId, None, merchantId))
  }

  function ExpenseReader(c: Catalogue): map<string, string> -> Result<ExpenseInsert, string> {
    m => ReadExpense(c, m)
  }

  /** The expense import route. `signedIn` stands for the session and
      `rows` for the uploaded rows. */
  function ImportExpenses(rows: seq<Record>, signedIn: bool, c: Catalogue): (r: Result<Answer<ExpenseInsert>, string>)
    ensures |rows| == 0 ==> r == Err("imports.empty")
    ensures |rows| > 0 && !signedIn ==> r == Err("errors.signInRequired")
    ensures r.Ok? <==> |rows| > 0 && signedIn
    ensures r.Ok? ==> |r.value.inserts| + r.value.skipped == |rows| && |r.value.inserts| <= MaxImportRows
    ensures r.Ok? ==> |r.value.errors| <= MaxReportedErrors
    ensures r.Ok? ==> forall k | 0 <= k < |r.value.errors| :: 2 <= r.value.errors[k].row <= Min(|rows|, MaxImportRows) + 1
    ensures r.Ok? ==> r.value.inserts == FilterMap(Take(rows, MaxImportRows), Accepted(Outcome(ExpenseReader(c))))
    ensures r.Ok? ==> r.value.errors == Take(ReadRows(Take(rows, MaxImportRows), 1, Outcome(ExpenseReader(c))).1, MaxReportedErrors)
  {
    ImportRows(rows, signedIn, ExpenseMessages.empty, ExpenseReader(c))
  }

  /** Every expense the route writes satisfies what the checks promise: a
      `YYYY-MM-DD` date, an amount in [0, 10^12), an accepted currency with
      a rate exactly when it is foreign, a resolved category, and (for a
      rate that is not negative) a DOP amount below 10^12. */
  lemma AcceptedExpenseIsSound(c: Catalogue, m: map<string, string>)
    requires ReadExpense(c, m).Ok?
    ensures var e := ReadExpense(c, m).value;
            && Dates.IsIsoShape(e.expenseDate)
            && 0.0 <= e.amount < Ceiling
            && e.currency in c.codes
            && (e.fxRateToDop.None? <==> e.currency == HomeCurrency)
            && (e.fxRateToDop.GetOr(1.0) >= 0.0 ==> e.amountDop < Ceiling)
            && e.categoryId != ""
            && exists k | 0 <= k < |c.categories| :: c.categories[k].id == e.categoryId
  {
    var e := ReadExpense(c, m).value;
    var head := CheckHead(m, ExpenseDateFields, ExpenseMessages, c.codes).value;
    var fx := RateOf(m, head.currency, ExpenseMessages);
    assert fx.Ok? && fx.value == e.fxRateToDop;
    ResolvedIsCatalogueId(c.categories, FirstField(m, ["category", "category_name"]));
  }

  /** Every expense the route inserts came from one of the first 500 rows
      and satisfies what the checks promise. */
  lemma InsertedExpensesAreSound(rows: seq<Record>, signedIn: bool, c: Catalogue, k: nat)
    requires ImportExpenses(rows, signedIn, c).Ok?
    requires k < |ImportExpenses(rows, signedIn, c).value.inserts|
    ensures var e := ImportExpenses(rows, signedIn, c).value.inserts[k];
            && (exists j | 0 <= j < Min(|rows|, MaxImportRows) :: ReadExpense(c, NormalizeRecord(rows[j])) == Ok(e))
            && Dates.IsIsoShape(e.expenseDate)
            && 0.0 <= e.amount < Ceiling
            && e.currency in c.codes
            && (e.fxRateToDop.None? <==> e.currency == HomeCurrency)
            && (e.fxRateToDop.GetOr(1.0) >= 0.0 ==> e.amountDop < Ceiling)
            && exists i | 0 <= i < |c.categories| :: c.categories[i].id == e.categoryId
  {
    var r := ImportRows(rows, signedIn, ExpenseMessages.empty, ExpenseReader(c));
    var e := r.value.inserts[k];
    var j :| 0 <= j < Min(|rows|, MaxImportRows) && ExpenseReader(c)(NormalizeRecord(rows[j])) == Ok(e);
    AcceptedExpenseIsSound(c, NormalizeRecord(rows[j]));
  }
}
