/** What the expense and income CSV importers share: the normalisation
    of an uploaded row, the field look-ups with their fallback names, the
    date, amount, currency and exchange-rate checks in the order the routes
    make them, and the row loop with its 500-row cap and 20-error report. */
module RowImport {
  import opened Base
  import opened Text
  import opened Numbers
  import opened Dates
  import opened Records

  /** At most this many uploaded rows are read. */
  const MaxImportRows: nat := 500

  /** An uploaded row: its entries in order, each key with its value
      already rendered by `String(value ?? "")`. */
  type Record = seq<(string, string)>

  /** One entry as the routes normalise it: key trimmed and lower-cased,
      value trimmed. */
  function NormalEntry(entry: (string, string)): (string, string) {
    (ToLower(Trim(entry.0)), Trim(entry.1))
  }

  /** The row as the routes read it: every normalised key is present,
      bound to the normalised value of the last entry with that key. */
  function NormalizeRecord(rec: Record): (m: map<string, string>)
    ensures forall key :: key in m <==> exists k | 0 <= k < |rec| :: NormalEntry(rec[k]).0 == key
    ensures forall k | 0 <= k < |rec| ::
              (forall l | k < l < |rec| :: NormalEntry(rec[l]).0 != NormalEntry(rec[k]).0) ==>
                m[NormalEntry(rec[k]).0] == NormalEntry(rec[k]).1
  {
    MapBy(rec, NormalEntry)
  }

  /** `normalized[key]`, with a missing key reading as empty text. */
  function Field(m: map<string, string>, key: string): string {
    if key in m then m[key] else ""
  }

  /** `normalized[keys[0]] || normalized[keys[1]] || ... || ""`: the first
      of the named fields that is not empty. */
  function FirstField(m: map<string, string>, keys: seq<string>): (r: string)
    ensures r == "" <==> forall k | 0 <= k < |keys| :: Field(m, keys[k]) == ""
    ensures r != "" ==> exists k | 0 <= k < |keys| ::
              Field(m, keys[k]) == r && forall l | 0 <= l < k :: Field(m, keys[l]) == ""
  {
    if |keys| == 0 then ""
    else if Field(m, keys[0]) != "" then Field(m, keys[0])
    else
      var r := FirstField(m, keys[1..]);
      assert forall k | 1 <= k < |keys| :: keys[k] == keys[1..][k - 1];
      r
  }

  // ---------------------------------------------------------------------------
  // The checks

  /** The translation keys a route reports its row errors and its empty
      upload with. */
  datatype Messages = Messages(
    empty: string, dateInvalid: string, amountInvalid: string, amountTooLarge: string,
    currencyInvalid: string, fxRateRequired: string, convertedTooLarge: string)

  /** A currency row: its code and whether it is active. */
  datatype Currency = Currency(code: string, isActive: bool)

  /** The codes an import accepts: the active ones, upper-cased. */
  function ActiveCodes(currencies: seq<Currency>): (s: set<string>)
    ensures forall c :: c in s <==> exists k | 0 <= k < |currencies| :: currencies[k].isActive && ToUpper(currencies[k].code) == c
  {
    set k | 0 <= k < |currencies| && currencies[k].isActive :: ToUpper(currencies[k].code)
  }

  /** `amount.replace(/[^0-9.]/g, "")`. */
  function CleanAmount(raw: string): (r: string)
    ensures IsCleaned(r)
  {
    NumericChars(raw, false)
  }

  /** The amount the cleaned `amount` field reads as; `None` for empty
      text and for text `Number` does not read (`1.2.3`). */
  function AmountOf(m: map<string, string>): Option<real> {
    var clean := CleanAmount(Field(m, "amount"));
    if clean == "" then None else NumberOf(clean)
  }

  /** `(normalized.currency || "DOP").toUpperCase()`. */
  function CurrencyOf(m: map<string, string>): (c: string)
    ensures c != ""
    ensures Field(m, "currency") == "" ==> c == HomeCurrency
  {
    ToUpper(if Field(m, "currency") != "" then Field(m, "currency") else HomeCurrency)
  }

  /** The bound the twelve-digit ceiling stands for. */
  const Ceiling: real := Pow10(MaxIntegerDigits) as real

  /** The date, amount and currency of a row that passed the first checks. */
  datatype Head = Head(date: string, amount: real, currency: string)

  /** The first four checks, in order: the date must normalise, the cleaned
      amount must read as a number below 10^12 (at most twelve integer
      digits), and the currency must be an active one. Each failure
      reports its own message, the earliest failing check winning. */
  function CheckHead(m: map<string, string>, dateKeys: seq<string>, msgs: Messages, codes: set<string>): (r: Result<Head, string>)
    ensures var date := NormalizeDate(FirstField(m, dateKeys));
            var amount := AmountOf(m);
            && (date.None? ==> r == Err(msgs.dateInvalid))
            && (date.Some? && amount.None? ==> r == Err(msgs.amountInvalid))
            && (date.Some? && amount.Some? && amount.value >= Ceiling ==> r == Err(msgs.amountTooLarge))
            && (date.Some? && amount.Some? && amount.value < Ceiling && CurrencyOf(m) !in codes ==> r == Err(msgs.currencyInvalid))
            && (r.Ok? <==> date.Some? && amount.Some? && amount.value < Ceiling && CurrencyOf(m) in codes)
            && (r.Ok? ==> r.value == Head(date.value, amount.value, CurrencyOf(m)))
    ensures r.Ok? ==> IsIsoShape(r.value.date) && 0.0 <= r.value.amount < Ceiling
  {
    match NormalizeDate(FirstField(m, dateKeys))
    case None => Err(msgs.dateInvalid)
    case Some(date) =>
      match CheckAmount(m, msgs)
      case Err(e) => Err(e)
      case Ok(amount) =>
        var currency := CurrencyOf(m);
        if currency == "" || currency !in codes then Err(msgs.currencyInvalid)
        else Ok(Head(date, amount, currency))
  }

  /** The amount checks: the cleaned amount must read as a number, and one
      with at most twelve integer digits, which for cleaned text means a
      number in [0, 10^12). */
  function CheckAmount(m: map<string, string>, msgs: Messages): (r: Result<real, string>)
    ensures AmountOf(m).None? ==> r == Err(msgs.amountInvalid)
    ensures AmountOf(m).Some? && AmountOf(m).value >= Ceiling ==> r == Err(msgs.amountTooLarge)
    ensures r.Ok? <==> AmountOf(m).Some? && AmountOf(m).value < Ceiling
    ensures r.Ok? ==> r.value == AmountOf(m).value && r.value >= 0.0
  {
    var clean := CleanAmount(Field(m, "amount"));
    var amount := NumberOf(clean);
    if clean == "" || amount.None? then Err(msgs.amountInvalid)
    else
      assert amount.value >= 0.0 && (CountIntegerDigits(clean) > MaxIntegerDigits <==> amount.value >= Ceiling) by {
        CleanedCeilingMeansMagnitude(clean);
      }
      if CountIntegerDigits(clean) > MaxIntegerDigits then Err(msgs.amountTooLarge)
      else Ok(amount.value)
  }

  /** The rate text of a row: `fx_rate_to_dop`, else `fx_rate`, else
      `fxrate`. */
  function RateText(m: map<string, string>): string {
    FirstField(m, ["fx_rate_to_dop", "fx_rate", "fxrate"])
  }

  /** The exchange rate and the converted amount of a row. */
  datatype Conversion = Conversion(fxRate: Option<real>, amountDop: real)

  /** The rate check: a foreign currency needs a rate that `Number` reads
      (the rate text is not cleaned first); a DOP amount stores none. */
  function RateOf(m: map<string, string>, currency: string, msgs: Messages): (r: Result<Option<real>, string>)
    ensures currency == HomeCurrency ==> r == Ok(None)
    ensures currency != HomeCurrency ==>
              (r.Err? <==> RateText(m) == "" || NumberOf(RateText(m)).None?)
    ensures currency != HomeCurrency && r.Ok? ==> r.value.Some? && Some(r.value.value) == NumberOf(RateText(m))
    ensures r.Err? ==> r.error == msgs.fxRateRequired
  {
    if currency == HomeCurrency then Ok(None)
    else
      var raw := RateText(m);
      var fx := NumberOf(raw);
      if raw == "" || fx.None? then Err(msgs.fxRateRequired) else Ok(Some(fx.value))
  }

  /** The conversion check: the amount times the rate, rounded to cents,
      must stay below 10^12 when it is not negative (when a negative rate
      makes it negative, within twelve characters before the point, sign
      included). */
  function Converted(amount: real, fx: Option<real>, msgs: Messages): (r: Result<Conversion, string>)
    requires amount >= 0.0
    ensures fx.GetOr(1.0) >= 0.0 ==> (r.Ok? <==> RoundCents(amount * fx.GetOr(1.0)) < Ceiling)
    ensures r.Ok? ==> r.value == Conversion(fx, RoundCents(amount * fx.GetOr(1.0)))
    ensures r.Err? ==> r.error == msgs.convertedTooLarge
  {
    var amountDop := RoundCents(amount * fx.GetOr(1.0));
    assert fx.GetOr(1.0) >= 0.0 ==> (NumberTooLong(amountDop) <==> amountDop >= Ceiling) by {
      if fx.GetOr(1.0) >= 0.0 {
        assert amount * fx.GetOr(1.0) >= 0.0;
        NumberTooLongMeansMagnitude(amountDop);
      }
    }
    if NumberTooLong(amountDop) then Err(msgs.convertedTooLarge) else Ok(Conversion(fx, amountDop))
  }

  /** The last two checks, in order. */
  function Convert(m: map<string, string>, head: Head, msgs: Messages): (r: Result<Conversion, string>)
    requires head.amount >= 0.0
    ensures RateOf(m, head.currency, msgs).Err? ==> r == Err(msgs.fxRateRequired)
    ensures RateOf(m, head.currency, msgs).Ok? ==> r == Converted(head.amount, RateOf(m, head.currency, msgs).value, msgs)
  {
    match RateOf(m, head.currency, msgs)
    case Err(e) => Err(e)
    case Ok(fx) => Converted(head.amount, fx, msgs)
  }

  // ---------------------------------------------------------------------------
  // The row loop and the answer

  /** The route's answer together with the rows it inserts. */
  datatype Answer<T> = Answer(inserts: seq<T>, skipped: nat, errors: seq<RowError>)

  /** The value a row yields when it is accepted. */
  function Accepted<T>(outcome: Record -> Result<T, string>): Record -> Option<T> {
    (rec: Record) => if outcome(rec).Ok? then Some(outcome(rec).value) else None
  }

  /** The `forEach` over the rows, the first of which is row number
      `first + 1`: every row becomes an insert or an error, and the error
      names the row and the reason it was refused. */
  function ReadRows<T>(rows: seq<Record>, first: nat, outcome: Record -> Result<T, string>): (r: (seq<T>, seq<RowError>))
    ensures |r.0| + |r.1| == |rows|
    ensures r.0 == FilterMap(rows, Accepted(outcome))
    ensures forall k | 0 <= k < |r.1| :: first < r.1[k].row <= first + |rows|
    ensures forall k, l | 0 <= k < l < |r.1| :: r.1[k].row < r.1[l].row
    ensures forall k | 0 <= k < |r.1| ::
              outcome(rows[r.1[k].row - first - 1]) == Err(r.1[k].message)
    decreases |rows|
  {
    if |rows| == 0 then ([], [])
    else
      var rest := ReadRows(rows[1..], first + 1, outcome);
      ErrorsStep(rows, first, outcome, rest.1);
      match outcome(rows[0])
      case Ok(v) => ([v] + rest.0, rest.1)
      case Err(e) => (rest.0, [RowError(first + 1, e)] + rest.1)
  }

  /** The error facts of the rows after the first carry over to all the
      rows, with or without an error for the first. */
  lemma ErrorsStep<T>(rows: seq<Record>, first: nat, outcome: Record -> Result<T, string>, errors: seq<RowError>)
    requires |rows| > 0
    requires forall k | 0 <= k < |errors| :: first + 1 < errors[k].row <= first + 1 + |rows[1..]|
    requires forall k, l | 0 <= k < l < |errors| :: errors[k].row < errors[l].row
    requires forall k | 0 <= k < |errors| ::
               outcome(rows[1..][errors[k].row - (first + 1) - 1]) == Err(errors[k].message)
    ensures forall k | 0 <= k < |errors| :: first < errors[k].row <= first + |rows|
    ensures forall k | 0 <= k < |errors| :: outcome(rows[errors[k].row - first - 1]) == Err(errors[k].message)
    ensures outcome(rows[0]).Err? ==>
              var all := [RowError(first + 1, outcome(rows[0]).error)] + errors;
              && (forall k | 0 <= k < |all| :: first < all[k].row <= first + |rows|)
              && (forall k, l | 0 <= k < l < |all| :: all[k].row < all[l].row)
              && (forall k | 0 <= k < |all| :: outcome(rows[all[k].row - first - 1]) == Err(all[k].message))
  {
    forall k | 0 <= k < |errors| ensures outcome(rows[errors[k].row - first - 1]) == Err(errors[k].message) {
      assert rows[1..][errors[k].row - (first + 1) - 1] == rows[errors[k].row - first - 1];
    }
    if outcome(rows[0]).Err? {
      var all := [RowError(first + 1, outcome(rows[0]).error)] + errors;
      forall k | 0 <= k < |all| ensures outcome(rows[all[k].row - first - 1]) == Err(all[k].message) {
        if k > 0 { assert all[k] == errors[k - 1]; }
      }
      forall k, l | 0 <= k < l < |all| ensures all[k].row < all[l].row {
        assert all[l] == errors[l - 1];
        if k > 0 { assert all[k] == errors[k - 1]; }
      }
    }
  }

  /** How a route reads one row: normalise it, then check it. */
  function Outcome<T>(read: map<string, string> -> Result<T, string>): Record -> Result<T, string> {
    (rec: Record) => read(NormalizeRecord(rec))
  }

  /** The shared route skeleton: an empty upload is refused, then a missing
      session; otherwise the first 500 rows are read, numbered from 2 as a
      spreadsheet with a header line numbers them, and the answer counts as
      skipped every row that was not inserted, including those past the
      cap. */
  function ImportRows<T>(rows: seq<Record>, signedIn: bool, emptyMessage: string, read: map<string, string> -> Result<T, string>): (r: Result<Answer<T>, string>)
    ensures |rows| == 0 ==> r == Err(emptyMessage)
    ensures |rows| > 0 && !signedIn ==> r == Err("errors.signInRequired")
    ensures r.Ok? <==> |rows| > 0 && signedIn
    ensures r.Ok? ==> r.value.inserts == FilterMap(Take(rows, MaxImportRows), Accepted(Outcome(read)))
    ensures r.Ok? ==> |r.value.inserts| + r.value.skipped == |rows|
    ensures r.Ok? ==> r.value.errors == Take(ReadRows(Take(rows, MaxImportRows), 1, Outcome(read)).1, MaxReportedErrors)
    ensures r.Ok? ==> |r.value.errors| <= MaxReportedErrors
    ensures r.Ok? ==> forall k | 0 <= k < |r.value.errors| :: 2 <= r.value.errors[k].row <= Min(|rows|, MaxImportRows) + 1
    ensures r.Ok? ==> forall k, l | 0 <= k < l < |r.value.errors| :: r.value.errors[k].row < r.value.errors[l].row
    ensures r.Ok? ==> forall k | 0 <= k < |r.value.errors| ::
              read(NormalizeRecord(rows[r.value.errors[k].row - 2])) == Err(r.value.errors[k].message)
    ensures r.Ok? ==> forall k | 0 <= k < |r.value.inserts| ::
              exists j | 0 <= j < Min(|rows|, MaxImportRows) :: read(NormalizeRecord(rows[j])) == Ok(r.value.inserts[k])
  {
    if |rows| == 0 then Err(emptyMessage)
    else if !signedIn then Err("errors.signInRequired")
    else
      var read500 := Take(rows, MaxImportRows);
      var (inserts, errors) := ReadRows(read500, 1, Outcome(read));
      assert forall k | 0 <= k < |read500| :: read500[k] == rows[k];
      assert forall k | 0 <= k < |Take(errors, MaxReportedErrors)| :: Take(errors, MaxReportedErrors)[k] == errors[k];
      forall k | 0 <= k < |inserts|
        ensures exists j | 0 <= j < Min(|rows|, MaxImportRows) :: read(NormalizeRecord(rows[j])) == Ok(inserts[k])
      {
        var j :| 0 <= j < |read500| && Accepted(Outcome(read))(read500[j]) == Some(inserts[k]);
        assert read(NormalizeRecord(rows[j])) == Ok(inserts[k]);
      }
      Ok(Answer(inserts, |rows| - |inserts|, Take(errors, MaxReportedErrors)))
  }

  /** Every row past the cap is counted as skipped, on top of every row
      within it that was rejected. */
  lemma SkippedCountsRejectsAndOverflow<T>(rows: seq<Record>, signedIn: bool, emptyMessage: string, read: map<string, string> -> Result<T, string>)
    requires |rows| > 0 && signedIn
    ensures var r := ImportRows(rows, signedIn, emptyMessage, read).value;
            var all := ReadRows(Take(rows, MaxImportRows), 1, Outcome(read)).1;
            r.skipped == |all| + (if |rows| > MaxImportRows then |rows| - MaxImportRows else 0)
  {
  }
}
