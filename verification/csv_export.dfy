/** CSV export of expenses and incomes: `toCsvValue`, which quotes a field
    as rules 6 and 7 of section 2 of RFC 4180 describe, the data lines and
    the document. A reader for the same format is defined alongside, and
    the export is proved to read back as the values it wrote. */
module CsvExport {
  import opened Base
  import opened Text

  const Quote: char := '"'

  /** A field must be quoted when it holds a comma, a line feed or a double
      quote. */
  predicate NeedsQuotes(v: string) {
    ',' in v || '\n' in v || Quote in v
  }

  /** Every double quote written twice. */
  function DoubleQuotes(v: string): (r: string)
    ensures |r| >= |v|
    ensures Quote !in v ==> r == v
  {
    if |v| == 0 then ""
    else (if v[0] == Quote then [Quote, Quote] else [v[0]]) + DoubleQuotes(v[1..])
  }

  /** `toCsvValue(value)`: null becomes the empty field; a value that needs
      quoting is wrapped in double quotes with its own quotes doubled;
      anything else is written as it is. */
  function ToCsvValue(value: Option<string>): (r: string)
    ensures value.None? ==> r == ""
    ensures value.Some? && !NeedsQuotes(value.value) ==> r == value.value
    ensures value.Some? && NeedsQuotes(value.value) ==>
              |r| >= 2 && r[0] == Quote && r[|r| - 1] == Quote && r[1..|r| - 1] == DoubleQuotes(value.value)
  {
    match value
    case None => ""
    case Some(v) => if NeedsQuotes(v) then [Quote] + DoubleQuotes(v) + [Quote] else v
  }

  // ---------------------------------------------------------------------------
  // Reading CSV back

  /** What ends a field: a comma, a line feed, or the end of the text. */
  datatype Stop = Comma | LineEnd | TextEnd

  /** The content of a quoted field, read after its opening quote: `""`
      stands for one quote and a lone `"` closes the field. Gives the
      content and the text after the closing quote, or `None` when the
      field is never closed. */
  function ReadQuoted(s: string): (r: Option<(string, string)>)
    ensures r.Some? ==> |r.value.1| < |s|
    decreases |s|
  {
    if |s| == 0 then None
    else if s[0] == Quote && |s| >= 2 && s[1] == Quote then
      match ReadQuoted(s[2..])
      case None => None
      case Some((v, t)) => Some(([Quote] + v, t))
    else if s[0] == Quote then Some(("", s[1..]))
    else
      match ReadQuoted(s[1..])
      case None => None
      case Some((v, t)) => Some(([s[0]] + v, t))
  }

  predicate IsSeparator(c: char) {
    c == ',' || c == '\n'
  }

  /** One field from the start of `s`: its value, what ended it, and the
      text after that. A quoted field must be followed by a separator or
      the end; an unquoted one runs to the first separator. */
  function ReadField(s: string): (r: Option<(string, Stop, string)>)
    ensures r.Some? && !r.value.1.TextEnd? ==> |r.value.2| < |s|
  {
    if |s| > 0 && s[0] == Quote then
      match ReadQuoted(s[1..])
      case None => None
      case Some((v, t)) =>
        if t == "" then Some((v, TextEnd, ""))
        else if t[0] == ',' then Some((v, Comma, t[1..]))
        else if t[0] == '\n' then Some((v, LineEnd, t[1..]))
        else None
    else
      var i := FirstWhere(s, 0, IsSeparator);
      if i == |s| then Some((s, TextEnd, ""))
      else Some((s[..i], if s[i] == ',' then Comma else LineEnd, s[i + 1..]))
  }

  /** The records of a CSV text, lines separated by line feeds, the record
      being read so far held in `fields`; `None` for malformed text. */
  function ReadRecords(s: string, fields: seq<string>): (r: Option<seq<seq<string>>>)
    decreases |s|
  {
    match ReadField(s)
    case None => None
    case Some((v, TextEnd, _)) => Some([fields + [v]])
    case Some((v, Comma, t)) => ReadRecords(t, fields + [v])
    case Some((v, LineEnd, t)) => Then(fields + [v], ReadRecords(t, []))
  }

  /** The record a line ends, put before the records that follow. */
  function Then(line: seq<string>, more: Option<seq<seq<string>>>): Option<seq<seq<string>>> {
    match more
    case None => None
    case Some(rest) => Some([line] + rest)
  }

  function ReadCsv(s: string): Option<seq<seq<string>>> {
    ReadRecords(s, [])
  }

  // ---------------------------------------------------------------------------
  // Writing CSV

  /** Each value through `toCsvValue`. */
  function Encoded(values: seq<Option<string>>): (r: seq<string>)
    ensures |r| == |values|
    ensures forall k | 0 <= k < |values| :: r[k] == ToCsvValue(values[k])
  {
    seq(|values|, k requires 0 <= k < |values| => ToCsvValue(values[k]))
  }

  /** `row.join(",")` over the encoded fields. */
  function CsvLine(values: seq<Option<string>>): string {
    Join(",", Encoded(values))
  }

  /** Each row as its line. */
  function Lines(rows: seq<seq<Option<string>>>): (r: seq<string>)
    ensures |r| == |rows|
    ensures forall k | 0 <= k < |rows| :: r[k] == CsvLine(rows[k])
  {
    seq(|rows|, k requires 0 <= k < |rows| => CsvLine(rows[k]))
  }

  /** `[header.join(","), ...rows.map((row) => row.join(","))].join("\n")`:
      the header labels are joined as they are, without `toCsvValue`. */
  function CsvDocument(header: seq<string>, rows: seq<seq<Option<string>>>): string {
    Join("\n", [Join(",", header)] + Lines(rows))
  }

  /** What a written value reads back as: null reads as the empty field. */
  function ReadsAs(value: Option<string>): string {
    value.GetOr("")
  }

  /** The values a row of written fields reads back as. */
  function ReadRow(values: seq<Option<string>>): (r: seq<string>)
    ensures |r| == |values|
    ensures forall k | 0 <= k < |values| :: r[k] == values[k].GetOr("")
  {
    seq(|values|, k requires 0 <= k < |values| => ReadsAs(values[k]))
  }

  /** Each row as it reads back. */
  function ReadRows(rows: seq<seq<Option<string>>>): (r: seq<seq<string>>)
    ensures |r| == |rows|
    ensures forall k | 0 <= k < |rows| :: r[k] == ReadRow(rows[k])
  {
    seq(|rows|, k requires 0 <= k < |rows| => ReadRow(rows[k]))
  }

  // ---------------------------------------------------------------------------
  // Round trip

  /** Doubled quotes read back as the text they came from, up to the
      closing quote, when what follows is not another quote. */
  lemma {:induction false} ReadQuotedDoubled(v: string, t: string)
    requires t == "" || t[0] != Quote
    ensures ReadQuoted(DoubleQuotes(v) + [Quote] + t) == Some((v, t))
    decreases |v|
  {
    if |v| > 0 {
      ReadQuotedDoubled(v[1..], t);
      var s := DoubleQuotes(v) + [Quote] + t;
      var tail := DoubleQuotes(v[1..]) + [Quote] + t;
      if v[0] == Quote {
        assert s == [Quote, Quote] + tail;
        assert s[2..] == tail;
      } else {
        assert s == [v[0]] + tail;
        assert s[1..] == tail;
      }
      assert [v[0]] + v[1..] == v;
    } else {
      var s := DoubleQuotes(v) + [Quote] + t;
      assert s == [Quote] + t;
      assert s[1..] == t;
    }
  }

  /** One encoded field, then `rest` (empty, or a separator and more),
      reads back as the value. */
  lemma {:induction false} ReadEncodedField(value: Option<string>, rest: string)
    requires rest == "" || IsSeparator(rest[0])
    ensures var stop := if rest == "" then TextEnd else if rest[0] == ',' then Comma else LineEnd;
            ReadField(ToCsvValue(value) + rest) == Some((ReadsAs(value), stop, if rest == "" then "" else rest[1..]))
  {
    var v := ReadsAs(value);
    if value.Some? && NeedsQuotes(v) {
      assert ToCsvValue(value) == [Quote] + DoubleQuotes(v) + [Quote];
      QuotedField(v, rest);
    } else {
      assert ToCsvValue(value) == v;
      UnquotedField(v, rest);
    }
  }

  lemma {:induction false} QuotedField(v: string, rest: string)
    requires rest == "" || IsSeparator(rest[0])
    ensures var stop := if rest == "" then TextEnd else if rest[0] == ',' then Comma else LineEnd;
            ReadField([Quote] + DoubleQuotes(v) + [Quote] + rest) == Some((v, stop, if rest == "" then "" else rest[1..]))
  {
    var s := [Quote] + DoubleQuotes(v) + [Quote] + rest;
    assert s[1..] == DoubleQuotes(v) + [Quote] + rest;
    ReadQuotedDoubled(v, rest);
  }

  lemma {:induction false} UnquotedField(v: string, rest: string)
    requires !NeedsQuotes(v)
    requires rest == "" || IsSeparator(rest[0])
    ensures var stop := if rest == "" then TextEnd else if rest[0] == ',' then Comma else LineEnd;
            ReadField(v + rest) == Some((v, stop, if rest == "" then "" else rest[1..]))
  {
    var s := v + rest;
    assert forall k | 0 <= k < |v| :: s[k] == v[k] && !IsSeparator(v[k]) && v[k] != Quote;
    assert !(|s| > 0 && s[0] == Quote);
    if rest == "" {
      assert s == v;
    } else {
      assert s[|v|] == rest[0];
      assert FirstWhere(s, 0, IsSeparator) == |v|;
      assert s[..|v|] == v;
      assert s[|v| + 1..] == rest[1..];
    }
  }

  /** An encoded field followed by a comma: reading goes on with the value
      added to the record. */
  lemma {:induction false} FieldThenComma(acc: seq<string>, value: Option<string>, after: string)
    ensures ReadRecords(ToCsvValue(value) + "," + after, acc) == ReadRecords(after, acc + [ReadsAs(value)])
  {
    var s := ToCsvValue(value) + "," + after;
    assert s == ToCsvValue(value) + ("," + after);
    ReadEncodedField(value, "," + after);
    assert ("," + after)[1..] == after;
    assert ReadField(s) == Some((ReadsAs(value), Comma, after));
  }

  lemma {:induction false} FieldThenLineEnd(acc: seq<string>, value: Option<string>, after: string)
    ensures ReadRecords(ToCsvValue(value) + "\n" + after, acc) == Then(acc + [ReadsAs(value)], ReadRecords(after, []))
  {
    var s := ToCsvValue(value) + "\n" + after;
    assert s == ToCsvValue(value) + ("\n" + after);
    ReadEncodedField(value, "\n" + after);
    assert ("\n" + after)[1..] == after;
    assert ReadField(s) == Some((ReadsAs(value), LineEnd, after));
  }

  lemma {:induction false} FieldAtEnd(acc: seq<string>, value: Option<string>)
    ensures ReadRecords(ToCsvValue(value), acc) == Some([acc + [ReadsAs(value)]])
  {
    ReadEncodedField(value, "");
    assert ToCsvValue(value) + "" == ToCsvValue(value);
  }

  /** The line of `values` splits into its first field and the line of the
      others. */
  lemma {:induction false} LineSplits(values: seq<Option<string>>)
    requires |values| >= 2
    ensures CsvLine(values) == ToCsvValue(values[0]) + "," + CsvLine(values[1..])
    ensures ReadRow(values) == [ReadsAs(values[0])] + ReadRow(values[1..])
  {
    EncodedSplits(values);
    ReadRowSplits(values);
  }

  lemma {:induction false} EncodedSplits(values: seq<Option<string>>)
    requires |values| >= 1
    ensures Encoded(values)[1..] == Encoded(values[1..])
  {
    var tail := values[1..];
    var dropped := Encoded(values)[1..];
    forall k | 0 <= k < |tail| ensures dropped[k] == Encoded(tail)[k] {
      assert values[k + 1] == tail[k];
    }
    assert dropped == Encoded(tail);
  }

  lemma {:induction false} ReadRowSplits(values: seq<Option<string>>)
    requires |values| >= 1
    ensures ReadRow(values) == [ReadsAs(values[0])] + ReadRow(values[1..])
  {
    var tail := values[1..];
    var expected := [ReadsAs(values[0])] + ReadRow(tail);
    forall k | 0 <= k < |values| ensures ReadRow(values)[k] == expected[k] {
      if k > 0 {
        assert values[k] == tail[k - 1];
      }
    }
    assert ReadRow(values) == expected;
  }

  /** A whole line at the end of the text reads back as one record. */
  lemma {:induction false} LineAtEnd(acc: seq<string>, values: seq<Option<string>>)
    requires |values| > 0
    ensures ReadRecords(CsvLine(values), acc) == Some([acc + ReadRow(values)])
    decreases |values|
  {
    if |values| == 1 {
      assert CsvLine(values) == ToCsvValue(values[0]);
      assert ReadRow(values) == [ReadsAs(values[0])];
      FieldAtEnd(acc, values[0]);
    } else {
      LineSplits(values);
      FieldThenComma(acc, values[0], CsvLine(values[1..]));
      LineAtEnd(acc + [ReadsAs(values[0])], values[1..]);
      assert acc + [ReadsAs(values[0])] + ReadRow(values[1..]) == acc + ReadRow(values);
    }
  }

  /** A whole line followed by a line feed reads back as one record, then
      the records of what follows. */
  lemma {:induction false} LineThenLineEnd(acc: seq<string>, values: seq<Option<string>>, more: string)
    requires |values| > 0
    ensures ReadRecords(CsvLine(values) + "\n" + more, acc) == Then(acc + ReadRow(values), ReadRecords(more, []))
    decreases |values|
  {
    if |values| == 1 {
      assert CsvLine(values) == ToCsvValue(values[0]);
      assert ReadRow(values) == [ReadsAs(values[0])];
      FieldThenLineEnd(acc, values[0], more);
    } else {
      var after := CsvLine(values[1..]) + "\n" + more;
      LineThenComma(values, more);
      FieldThenComma(acc, values[0], after);
      LineThenLineEnd(acc + [ReadsAs(values[0])], values[1..], more);
      LineSplits(values);
      assert acc + [ReadsAs(values[0])] + ReadRow(values[1..]) == acc + ReadRow(values);
    }
  }

  lemma {:induction false} LineThenComma(values: seq<Option<string>>, more: string)
    requires |values| >= 2
    ensures CsvLine(values) + "\n" + more == ToCsvValue(values[0]) + "," + (CsvLine(values[1..]) + "\n" + more)
  {
    LineSplits(values);
  }

  /** The document of several rows splits into the first line and the
      document of the others. */
  lemma {:induction false} RowsSplit(rows: seq<seq<Option<string>>>)
    requires |rows| >= 2
    ensures Join("\n", Lines(rows)) == CsvLine(rows[0]) + "\n" + Join("\n", Lines(rows[1..]))
    ensures ReadRows(rows) == [ReadRow(rows[0])] + ReadRows(rows[1..])
  {
    assert Lines(rows)[1..] == Lines(rows[1..]);
  }

  /** Lines written one after the other, separated by line feeds, read back
      as their values, row by row. */
  lemma {:induction false} ReadEncodedLines(rows: seq<seq<Option<string>>>)
    requires |rows| > 0
    requires forall k | 0 <= k < |rows| :: |rows[k]| > 0
    ensures ReadRecords(Join("\n", Lines(rows)), []) == Some(ReadRows(rows))
    decreases |rows|
  {
    if |rows| == 1 {
      OneRow(rows);
      LineAtEnd([], rows[0]);
      assert [] + ReadRow(rows[0]) == ReadRow(rows[0]);
    } else {
      var tail := rows[1..];
      RowsSplit(rows);
      var rest := Join("\n", Lines(tail));
      LineThenLineEnd([], rows[0], rest);
      ReadEncodedLines(tail);
      assert [] + ReadRow(rows[0]) == ReadRow(rows[0]);
      assert Then(ReadRow(rows[0]), Some(ReadRows(tail))) == Some(ReadRows(rows));
    }
  }

  lemma {:induction false} OneRow(rows: seq<seq<Option<string>>>)
    requires |rows| == 1
    ensures Join("\n", Lines(rows)) == CsvLine(rows[0])
    ensures ReadRows(rows) == [ReadRow(rows[0])]
  {
    assert Lines(rows) == [CsvLine(rows[0])];
  }

  /** The export reads back as the header and then, row by row, the values
      written (null read as the empty field), as long as no header label
      needs quoting and no row is empty. */
  lemma {:induction false} CsvDocumentRoundTrip(header: seq<string>, rows: seq<seq<Option<string>>>)
    requires |header| > 0 && forall k | 0 <= k < |header| :: !NeedsQuotes(header[k])
    requires forall k | 0 <= k < |rows| :: |rows[k]| > 0
    ensures ReadCsv(CsvDocument(header, rows)) == Some([header] + ReadRows(rows))
  {
    var labels := Labels(header);
    LabelsWriteThemselves(header);
    var all := [labels] + rows;
    PrependRow(labels, rows);
    ReadEncodedLines(all);
  }

  /** The header labels as values. */
  function Labels(header: seq<string>): (r: seq<Option<string>>)
    ensures |r| == |header|
    ensures forall k | 0 <= k < |header| :: r[k] == Some(header[k])
  {
    seq(|header|, k requires 0 <= k < |header| => Some(header[k]))
  }

  /** Labels that need no quoting are written, and read back, as they
      are. */
  lemma {:induction false} LabelsWriteThemselves(header: seq<string>)
    requires forall k | 0 <= k < |header| :: !NeedsQuotes(header[k])
    ensures Encoded(Labels(header)) == header
    ensures ReadRow(Labels(header)) == header
  {
  }

  lemma {:induction false} PrependRow(first: seq<Option<string>>, rows: seq<seq<Option<string>>>)
    ensures Lines([first] + rows) == [CsvLine(first)] + Lines(rows)
    ensures ReadRows([first] + rows) == [ReadRow(first)] + ReadRows(rows)
  {
    PrependLine(first, rows);
    PrependReadRow(first, rows);
  }

  lemma {:induction false} PrependLine(first: seq<Option<string>>, rows: seq<seq<Option<string>>>)
    ensures Lines([first] + rows) == [CsvLine(first)] + Lines(rows)
  {
    var all := [first] + rows;
    var lines := Lines(all);
    var expected := [CsvLine(first)] + Lines(rows);
    forall k | 0 <= k < |all| ensures lines[k] == expected[k] {
      if k > 0 {
        assert all[k] == rows[k - 1];
      }
    }
    assert lines == expected;
  }

  lemma {:induction false} PrependReadRow(first: seq<Option<string>>, rows: seq<seq<Option<string>>>)
    ensures ReadRows([first] + rows) == [ReadRow(first)] + ReadRows(rows)
  {
    var all := [first] + rows;
    var read := ReadRows(all);
    var expected := [ReadRow(first)] + ReadRows(rows);
    forall k | 0 <= k < |all| ensures read[k] == expected[k] {
      if k > 0 {
        assert all[k] == rows[k - 1];
      }
    }
    assert read == expected;
  }

  // ---------------------------------------------------------------------------
  // The two exports

  /** An expense as the export selects it. `amountText` and
      `amountDopText` stand for JavaScript's rendering of the numbers;
      `None` for a null column. */
  datatype ExportedExpense = ExportedExpense(
    expenseDate: Option<string>, amountText: string, currency: string, amountDopText: Option<string>,
    notes: Option<string>, category: Relation<Option<string>>, merchant: Relation<Option<string>>)

  /** The name of a joined row: `(Array.isArray(v) ? v[0]?.name : v?.name)
      ?? ""`. */
  function RelationName(rel: Relation<Option<string>>): (name: string)
    ensures rel.Absent? ==> name == ""
    ensures rel.One? ==> name == rel.item.GetOr("")
    ensures rel.Many? && |rel.items| == 0 ==> name == ""
    ensures rel.Many? && |rel.items| > 0 ==> name == rel.items[0].GetOr("")
  {
    FlattenRelation(rel).GetOr(None).GetOr("")
  }

  /** The six values of an expense line: merchant, category, date, amount
      with its currency, DOP total, notes. */
  function ExpenseValues(e: ExportedExpense): (r: seq<Option<string>>)
    ensures |r| == 6
  {
    [Some(RelationName(e.merchant)), Some(RelationName(e.category)), e.expenseDate,
     Some(e.amountText + " " + e.currency), e.amountDopText, Some(e.notes.GetOr(""))]
  }

  /** The six fields a reader of the export sees for an expense. */
  function ExpenseFields(e: ExportedExpense): seq<string> {
    [RelationName(e.merchant), RelationName(e.category), e.expenseDate.GetOr(""),
     e.amountText + " " + e.currency, e.amountDopText.GetOr(""), e.notes.GetOr("")]
  }

  function ExpenseRows(expenses: seq<ExportedExpense>): (rows: seq<seq<Option<string>>>)
    ensures |rows| == |expenses|
    ensures forall k | 0 <= k < |expenses| :: rows[k] == ExpenseValues(expenses[k])
  {
    seq(|expenses|, k requires 0 <= k < |expenses| => ExpenseValues(expenses[k]))
  }

  lemma {:induction false} ExpenseValuesReadBack(e: ExportedExpense)
    ensures ReadRow(ExpenseValues(e)) == ExpenseFields(e)
  {
  }

  /** The fields a reader sees, expense by expense. */
  function ExpenseFieldRows(expenses: seq<ExportedExpense>): (r: seq<seq<string>>)
    ensures |r| == |expenses|
    ensures forall k | 0 <= k < |expenses| :: r[k] == ExpenseFields(expenses[k])
  {
    seq(|expenses|, k requires 0 <= k < |expenses| => ExpenseFields(expenses[k]))
  }

  lemma {:induction false} ExpenseExportReadsBack(header: seq<string>, expenses: seq<ExportedExpense>)
    requires |header| > 0 && forall k | 0 <= k < |header| :: !NeedsQuotes(header[k])
    ensures ReadCsv(CsvDocument(header, ExpenseRows(expenses))) == Some([header] + ExpenseFieldRows(expenses))
  {
    var rows := ExpenseRows(expenses);
    CsvDocumentRoundTrip(header, rows);
    forall k | 0 <= k < |expenses| ensures ReadRows(rows)[k] == ExpenseFieldRows(expenses)[k] {
      ExpenseValuesReadBack(expenses[k]);
    }
    assert ReadRows(rows) == ExpenseFieldRows(expenses);
  }

  /** The expense export: six header labels, then one line per expense.
      Read back, it gives the header and then each expense's six fields,
      whatever commas, line feeds or quotes they hold. */
  function ExportExpenses(header: seq<string>, expenses: seq<ExportedExpense>): (csv: string)
    requires |header| == 6 && forall k | 0 <= k < 6 :: !NeedsQuotes(header[k])
    ensures ReadCsv(csv) == Some([header] + ExpenseFieldRows(expenses))
  {
    ExpenseExportReadsBack(header, expenses);
    CsvDocument(header, ExpenseRows(expenses))
  }

  /** An income as the export selects it. */
  datatype ExportedIncome = ExportedIncome(
    source: Option<string>, incomeDate: Option<string>, amountText: string, currency: string,
    amountDopText: Option<string>, notes: Option<string>)

  /** The five values of an income line: source, date, amount with its
      currency, DOP total, notes. */
  function IncomeValues(i: ExportedIncome): (r: seq<Option<string>>)
    ensures |r| == 5
  {
    [Some(i.source.GetOr("")), i.incomeDate, Some(i.amountText + " " + i.currency), i.amountDopText, Some(i.notes.GetOr(""))]
  }

  /** The five fields a reader of the export sees for an income. */
  function IncomeFields(i: ExportedIncome): seq<string> {
    [i.source.GetOr(""), i.incomeDate.GetOr(""), i.amountText + " " + i.currency, i.amountDopText.GetOr(""), i.notes.GetOr("")]
  }

  function IncomeRows(incomes: seq<ExportedIncome>): (rows: seq<seq<Option<string>>>)
    ensures |rows| == |incomes|
    ensures forall k | 0 <= k < |incomes| :: rows[k] == IncomeValues(incomes[k])
  {
    seq(|incomes|, k requires 0 <= k < |incomes| => IncomeValues(incomes[k]))
  }

  lemma {:induction false} IncomeValuesReadBack(i: ExportedIncome)
    ensures ReadRow(IncomeValues(i)) == IncomeFields(i)
  {
  }

  /** The fields a reader sees, income by income. */
  function IncomeFieldRows(incomes: seq<ExportedIncome>): (r: seq<seq<string>>)
    ensures |r| == |incomes|
    ensures forall k | 0 <= k < |incomes| :: r[k] == IncomeFields(incomes[k])
  {
    seq(|incomes|, k requires 0 <= k < |incomes| => IncomeFields(incomes[k]))
  }

  lemma {:induction false} IncomeExportReadsBack(header: seq<string>, incomes: seq<ExportedIncome>)
    requires |header| > 0 && forall k | 0 <= k < |header| :: !NeedsQuotes(header[k])
    ensures ReadCsv(CsvDocument(header, IncomeRows(incomes))) == Some([header] + IncomeFieldRows(incomes))
  {
    var rows := IncomeRows(incomes);
    CsvDocumentRoundTrip(header, rows);
    forall k | 0 <= k < |incomes| ensures ReadRows(rows)[k] == IncomeFieldRows(incomes)[k] {
      IncomeValuesReadBack(incomes[k]);
    }
    assert ReadRows(rows) == IncomeFieldRows(incomes);
  }

  /** The income export: five header labels, then one line per income,
      which read back as the header and each income's five fields. */
  function ExportIncomes(header: seq<string>, incomes: seq<ExportedIncome>): (csv: string)
    requires |header| == 5 && forall k | 0 <= k < 5 :: !NeedsQuotes(header[k])
    ensures ReadCsv(csv) == Some([header] + IncomeFieldRows(incomes))
  {
    IncomeExportReadsBack(header, incomes);
    CsvDocument(header, IncomeRows(incomes))
  }
}
