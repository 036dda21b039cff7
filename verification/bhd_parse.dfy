/** The worksheet side of the BHD bank-statement importer: reading amounts
    and dates out of cells, finding the statement's cutoff date and its
    header row, mapping the columns, and turning the rows below the header
    into statement rows. */
module BhdParse {
  import opened Base
  import opened Text
  import opened Numbers
  import opened Dates
  import opened Sheet

  /** At most this many rows are read from one worksheet. */
  const MaxRows: nat := 1000

  // ---------------------------------------------------------------------------
  // Amounts

  /** `parseNumber`: empty cells and empty text read as 0, numbers stand as
      they are, and any other value keeps only its digits, points and minus
      signs before conversion; what does not convert reads as 0. */
  function ParseNumber(c: Cell): (r: real)
    ensures c.Num? ==> r == c.value
    ensures c.Empty? || c == Str("") ==> r == 0.0
    ensures !c.Num? && NumberOf(NumericChars(CellText(c), true)).None? ==> r == 0.0
    ensures !c.Num? && NumberOf(NumericChars(CellText(c), true)).Some? ==> r == NumberOf(NumericChars(CellText(c), true)).value
  {
    match c
    case Empty => 0.0
    case Num(v, _) => v
    case _ =>
      if CellText(c) == "" then 0.0 else NumberOf(NumericChars(CellText(c), true)).GetOr(0.0)
  }

  // ---------------------------------------------------------------------------
  // Dates

  /** `Date.UTC` reading a year: whole years 0 to 99 mean 1900 to 1999. */
  function UtcYear(y: int): int {
    if 0 <= y <= 99 then 1900 + y else y
  }

  /** `new Date(Date.UTC(year, month - 1, day))` for arguments that name a
      real day after truncation toward zero. Arguments that overflow the
      month or the year, which `Date.UTC` would carry into the next one, are
      not modelled and give no date. */
  function UtcDate(year: real, month: real, day: real): (r: Option<CalDate>)
    ensures r.Some? ==> ValidDate(r.value)
    ensures r.Some? ==> r.value == CalDate(UtcYear(Trunc(year)), Trunc(month - 1.0) + 1, Trunc(day))
  {
    var d := CalDate(UtcYear(Trunc(year)), Trunc(month - 1.0) + 1, Trunc(day));
    if ValidDate(d) then Some(d) else None
  }

  /** A number JavaScript treats as true: neither `NaN` nor zero. */
  predicate TruthyNumber(n: Option<real>) {
    n.Some? && n.value != 0.0
  }

  /** The year a slash date is placed in. With a third component that reads
      as a non-zero number, that number, two-digit years meaning 20xx;
      otherwise the cutoff date's year (the current year when there is no
      cutoff), one less for a day-month date whose month lies after the
      cutoff month. */
  function SlashYear(parts: seq<string>, month: real, cutoff: Option<CalDate>, currentYear: int): real
    requires |parts| >= 2
  {
    var base := if cutoff.Some? then cutoff.value.year else currentYear;
    if |parts| >= 3 then
      var y := NumberOf(parts[2]);
      if TruthyNumber(y) then (if y.value < 100.0 then 2000.0 + y.value else y.value) else base as real
    else if cutoff.Some? && month > cutoff.value.month as real then
      (base - 1) as real
    else
      base as real
  }

  /** The `split("/")` path of `parseStatementDate`. */
  function SlashDate(parts: seq<string>, cutoff: Option<CalDate>, currentYear: int): (r: Option<CalDate>)
    requires |parts| >= 2
    ensures !TruthyNumber(NumberOf(parts[0])) || !TruthyNumber(NumberOf(parts[1])) ==> r.None?
    ensures r.Some? ==> ValidDate(r.value)
  {
    var day := NumberOf(parts[0]);
    var month := NumberOf(parts[1]);
    if !TruthyNumber(day) || !TruthyNumber(month) then None
    else UtcDate(SlashYear(parts, month.value, cutoff, currentYear), month.value, day.value)
  }

  /** `parseStatementDate`: a false value gives no date, a valid date cell
      is its own date, and text is read as `day/month[/year]`. Text without
      a slash would go to the host's `new Date(text)`, which is not modelled
      and gives no date here. */
  function ParseStatementDate(c: Cell, cutoff: Option<CalDate>, currentYear: int): (r: Option<CalDate>)
    ensures !Truthy(c) ==> r.None?
    ensures c.DateCell? && ValidDate(c.date) ==> r == Some(c.date)
    ensures r.Some? ==> ValidDate(r.value)
  {
    if !Truthy(c) then None
    else if c.DateCell? && ValidDate(c.date) then Some(c.date)
    else
      var str := Trim(CellText(c));
      if str == "" then None
      else
        var parts := SplitOn(str, '/');
        if |parts| >= 2 then SlashDate(parts, cutoff, currentYear) else None
  }

  /** Text whose trimmed form splits on `/` into at least two pieces is
      read by the slash path. */
  lemma SlashPath(text: string, cutoff: Option<CalDate>, currentYear: int)
    requires |SplitOn(Trim(text), '/')| >= 2
    ensures ParseStatementDate(Str(text), cutoff, currentYear) == SlashDate(SplitOn(Trim(text), '/'), cutoff, currentYear)
  {
    assert SplitOn("", '/') == [""];
  }

  /** `Date.UTC` on whole numbers. */
  lemma UtcDateWhole(y: int, m: int, d: int)
    ensures UtcDate(y as real, m as real, d as real) ==
              if ValidDate(CalDate(UtcYear(y), m, d)) then Some(CalDate(UtcYear(y), m, d)) else None
  {
    TruncWhole(y);
    TruncWhole(m - 1);
    TruncWhole(d);
    assert m as real - 1.0 == (m - 1) as real;
  }

  /** A `day/month` text on a statement with a cutoff date gives that day
      of that month in the cutoff's year, or in the year before when the
      month comes after the cutoff month (a December purchase on a January
      statement); two-digit years from `Date.UTC` aside. */
  lemma TwoPartDateYear(text: string, day: nat, month: nat, cutoff: CalDate, currentYear: int)
    requires 0 < day && 0 < month
    requires var parts := SplitOn(Trim(text), '/');
             |parts| == 2 && NumberOf(parts[0]) == Some(day as real) && NumberOf(parts[1]) == Some(month as real)
    ensures var year := UtcYear(if month > cutoff.month then cutoff.year - 1 else cutoff.year);
            var d := CalDate(year, month, day);
            ParseStatementDate(Str(text), Some(cutoff), currentYear) == if ValidDate(d) then Some(d) else None
  {
    var parts := SplitOn(Trim(text), '/');
    var year := if month > cutoff.month then cutoff.year - 1 else cutoff.year;
    SlashPath(text, Some(cutoff), currentYear);
    SlashDateDayMonth(parts, day, month, cutoff, currentYear);
    UtcDateWhole(year, month, day);
  }

  lemma SlashDateDayMonth(parts: seq<string>, day: nat, month: nat, cutoff: CalDate, currentYear: int)
    requires 0 < day && 0 < month
    requires |parts| == 2 && NumberOf(parts[0]) == Some(day as real) && NumberOf(parts[1]) == Some(month as real)
    ensures var year := if month > cutoff.month then cutoff.year - 1 else cutoff.year;
            SlashDate(parts, Some(cutoff), currentYear) == UtcDate(year as real, month as real, day as real)
  {
    assert TruthyNumber(NumberOf(parts[0])) && TruthyNumber(NumberOf(parts[1]));
    assert month as real > cutoff.month as real <==> month > cutoff.month;
    var year := if month > cutoff.month then cutoff.year - 1 else cutoff.year;
    assert SlashYear(parts, month as real, Some(cutoff), currentYear) == year as real;
  }

  /** A `day/month/year` text whose year reads as 1 to 99 lands in 2000
      plus that year, whatever the cutoff. */
  lemma ShortYearMeansTwoThousands(text: string, day: nat, month: nat, y: nat, cutoff: Option<CalDate>, currentYear: int)
    requires 0 < day && 0 < month && 0 < y < 100
    requires var parts := SplitOn(Trim(text), '/');
             && |parts| == 3 && NumberOf(parts[0]) == Some(day as real) && NumberOf(parts[1]) == Some(month as real)
             && NumberOf(parts[2]) == Some(y as real)
    ensures var d := CalDate(2000 + y, month, day);
            ParseStatementDate(Str(text), cutoff, currentYear) == if ValidDate(d) then Some(d) else None
  {
    var parts := SplitOn(Trim(text), '/');
    SlashPath(text, cutoff, currentYear);
    SlashDateShortYear(parts, day, month, y, cutoff, currentYear);
    UtcDateWhole(2000 + y, month, day);
  }

  lemma SlashDateShortYear(parts: seq<string>, day: nat, month: nat, y: nat, cutoff: Option<CalDate>, currentYear: int)
    requires 0 < day && 0 < month && 0 < y < 100
    requires |parts| == 3 && NumberOf(parts[0]) == Some(day as real) && NumberOf(parts[1]) == Some(month as real)
    requires NumberOf(parts[2]) == Some(y as real)
    ensures SlashDate(parts, cutoff, currentYear) == UtcDate((2000 + y) as real, month as real, day as real)
  {
    ShortSlashYear(parts, month as real, y, cutoff, currentYear);
  }

  lemma ShortSlashYear(parts: seq<string>, month: real, y: nat, cutoff: Option<CalDate>, currentYear: int)
    requires |parts| == 3 && 0 < y < 100 && NumberOf(parts[2]) == Some(y as real)
    ensures SlashYear(parts, month, cutoff, currentYear) == (2000 + y) as real
  {
  }

  /** `TwoPartDateYear` for the plain form `DD/MM` (any number of digits):
      "15/12" on a statement cut in January 2024 is 15 December 2023. */
  lemma DayMonthDigits(a: string, b: string, cutoff: CalDate, currentYear: int)
    requires |a| > 0 && |b| > 0 && AllDigits(a) && AllDigits(b)
    requires DigitsValue(a) > 0 && DigitsValue(b) > 0
    ensures var month := DigitsValue(b);
            var year := UtcYear(if month > cutoff.month then cutoff.year - 1 else cutoff.year);
            var d := CalDate(year, month, DigitsValue(a));
            ParseStatementDate(Str(a + "/" + b), Some(cutoff), currentYear) == if ValidDate(d) then Some(d) else None
  {
    DayMonthText(a, b);
    DigitsNumberOf(a);
    DigitsNumberOf(b);
    TwoPartDateYear(a + "/" + b, DigitsValue(a), DigitsValue(b), cutoff, currentYear);
  }

  /** Digits, a slash and digits split back into the two digit runs. */
  lemma DayMonthText(a: string, b: string)
    requires |a| > 0 && |b| > 0 && AllDigits(a) && AllDigits(b)
    ensures SplitOn(Trim(a + "/" + b), '/') == [a, b]
  {
    var text := a + "/" + b;
    assert IsDigit(a[0]) && IsDigit(b[|b| - 1]);
    assert text[0] == a[0] && text[|text| - 1] == b[|b| - 1];
    TrimStartOfTrimmed(text);
    TrimEndOfTrimmed(text);
    SlashDateParts(a, b);
  }

  lemma SlashDateParts(a: string, b: string)
    requires AllDigits(a) && AllDigits(b)
    ensures SplitOn(a + "/" + b, '/') == [a, b]
  {
    NoCharInDigits(a, '/');
    NoCharInDigits(b, '/');
    SplitOnFirst(a, '/', b);
    SplitOnAbsent(b, '/');
  }

  // ---------------------------------------------------------------------------
  // The cutoff date

  /** Some cell of the row mentions "fecha de corte", in any letter case
      (`row.some(...)`, cell by cell). */
  predicate MentionsCutoff(row: Row) {
    |row| > 0 && (Contains(ToLower(CellText(row[0])), "fecha de corte") || MentionsCutoff(row[1..]))
  }

  /** `row.find(cell => cell !== null && cell !== undefined && cell !== "")`. */
  function FirstFilled(row: Row): (c: Cell)
    ensures c != Empty ==> c in row && c != Str("")
    ensures forall k | 0 <= k < |row| :: row[k] == Empty || row[k] == Str("") || c != Empty
  {
    if |row| == 0 then Empty
    else if row[0] != Empty && row[0] != Str("") then row[0]
    else FirstFilled(row[1..])
  }

  /** The date a row under the cutoff label offers: its first filled
      cell, read with no cutoff. */
  function RowDate(row: Row, currentYear: int): Option<CalDate> {
    ParseStatementDate(FirstFilled(row), None, currentYear)
  }

  /** The first row from `j` on that offers a date, or `|rows|`. */
  function DateRowFrom(rows: seq<Row>, j: nat, currentYear: int): (k: nat)
    ensures j <= k <= |rows| || (j > |rows| && k == j)
    ensures k < |rows| ==> RowDate(rows[k], currentYear).Some?
    ensures forall l | j <= l < k && l < |rows| :: RowDate(rows[l], currentYear).None?
    decreases |rows| - j
  {
    if j >= |rows| then j
    else if RowDate(rows[j], currentYear).Some? then j
    else DateRowFrom(rows, j + 1, currentYear)
  }

  /** The first date offered from row `j` on. */
  function DateBelow(rows: seq<Row>, j: nat, currentYear: int): (r: Option<CalDate>)
    ensures r.Some? ==> ValidDate(r.value)
  {
    var k := DateRowFrom(rows, j, currentYear);
    if k < |rows| then RowDate(rows[k], currentYear) else None
  }

  /** The first row from `i` on, short of the last, that mentions the
      cutoff label; `|rows|` if none. */
  function LabelRowFrom(rows: seq<Row>, i: nat): (k: nat)
    ensures k == |rows| || (i <= k < |rows| - 1 && MentionsCutoff(rows[k]))
    ensures forall l | i <= l < k && l < |rows| - 1 :: !MentionsCutoff(rows[l])
    decreases |rows| - i
  {
    if i + 1 >= |rows| then |rows|
    else if MentionsCutoff(rows[i]) then i
    else LabelRowFrom(rows, i + 1)
  }

  /** When nothing from row `i` on offers a date, nothing from a later row
      on does either. */
  lemma {:induction false} NoDateBelowLater(rows: seq<Row>, i: nat, j: nat, currentYear: int)
    requires i <= j
    requires DateBelow(rows, i, currentYear).None?
    ensures DateBelow(rows, j, currentYear).None?
  {
    var k := DateRowFrom(rows, i, currentYear);
    assert forall l | j <= l < |rows| :: RowDate(rows[l], currentYear).None?;
  }

  /** `findCutoffDate`: the first date offered under the first row (other
      than the last) that mentions "fecha de corte". The source moves on to
      the next such row when one has no date below it, but a later row
      cannot have one then (`NoDateBelowLater`), so the first label row
      decides. None when no row carries the label. */
  function FindCutoffDate(rows: seq<Row>, currentYear: int): (r: Option<CalDate>)
    ensures r.Some? ==> ValidDate(r.value)
    ensures (forall k | 0 <= k < |rows| - 1 :: !MentionsCutoff(rows[k])) ==> r.None?
    ensures forall k | 0 <= k < |rows| - 1 && MentionsCutoff(rows[k]) && (forall l | 0 <= l < k :: !MentionsCutoff(rows[l])) ::
              r == DateBelow(rows, k + 1, currentYear)
  {
    FirstLabelRow(rows);
    if LabelRowFrom(rows, 0) < |rows| then DateBelow(rows, LabelRowFrom(rows, 0) + 1, currentYear) else None
  }

  /** The search from the top finds no label row when none carries the
      label, and otherwise the first one, short of the last row. */
  lemma FirstLabelRow(rows: seq<Row>)
    ensures (forall k | 0 <= k < |rows| - 1 :: !MentionsCutoff(rows[k])) ==> LabelRowFrom(rows, 0) == |rows|
    ensures forall k | 0 <= k < |rows| - 1 && MentionsCutoff(rows[k]) && (forall l | 0 <= l < k :: !MentionsCutoff(rows[l])) ::
              LabelRowFrom(rows, 0) == k
  {
  }

  // ---------------------------------------------------------------------------
  // The header row

  /** The trimmed, non-empty cell texts of a row, in order. */
  function NonBlankTexts(row: Row): (r: seq<string>)
    ensures forall k | 0 <= k < |r| :: r[k] != "" && NoSpaceAtEnds(r[k])
  {
    if |row| == 0 then []
    else
      var t := Trim(CellText(row[0]));
      (if t != "" then [t] else []) + NonBlankTexts(row[1..])
  }

  /** `row.map(cell => String(cell ?? "").trim()).filter(Boolean).join(" ")`. */
  function JoinedText(row: Row): string {
    Join(" ", NonBlankTexts(row))
  }

  /** The first header test: the joined row text, lower-cased, mentions
      "fecha" and one of "debito", "débitos", "credit", "créditos". */
  predicate JoinedKeywordTest(row: Row) {
    var j := ToLower(JoinedText(row));
    && j != ""
    && Contains(j, "fecha")
    && (Contains(j, "debito") || Contains(j, "débitos") || Contains(j, "credit") || Contains(j, "créditos"))
  }

  /** The second header test: some normalised cell starts with "fecha" and
      some normalised cell mentions "debito" or "credito". */
  predicate CellKeywordTest(row: Row) {
    && (exists k | 0 <= k < |row| :: StartsWith(NormalizeHeader(row[k]), "fecha"))
    && ((exists k | 0 <= k < |row| :: Contains(NormalizeHeader(row[k]), "debito"))
        || (exists k | 0 <= k < |row| :: Contains(NormalizeHeader(row[k]), "credito")))
  }

  predicate IsHeaderRow(row: Row) {
    JoinedKeywordTest(row) || CellKeywordTest(row)
  }

  /** The header cells a header row stands for: the row itself, except
      that a row of at most one cell found by the joined-text test is split
      on runs of two or more white-space characters. */
  function HeaderCells(row: Row): seq<Cell> {
    if |row| <= 1 && JoinedKeywordTest(row) then TextCells(SplitOnSpaceRuns(JoinedText(row))) else row
  }

  /** Text pieces as string cells. */
  function TextCells(pieces: seq<string>): (r: seq<Cell>)
    ensures |r| == |pieces|
    ensures forall k | 0 <= k < |pieces| :: r[k] == Str(pieces[k])
  {
    seq(|pieces|, k requires 0 <= k < |pieces| => Str(pieces[k]))
  }

  datatype HeaderMatch = HeaderMatch(index: nat, cells: seq<Cell>)

  /** `findHeaderRow`: the first row that passes either keyword test, with
      its header cells; none (not row 0) when no row passes. */
  function FindHeaderRow(rows: seq<Row>): (r: Option<HeaderMatch>)
    ensures r.Some? ==> r.value.index < |rows| && IsHeaderRow(rows[r.value.index])
    ensures r.Some? ==> r.value.cells == HeaderCells(rows[r.value.index])
    ensures r.Some? ==> forall k | 0 <= k < r.value.index :: !IsHeaderRow(rows[k])
    ensures r.None? <==> forall k | 0 <= k < |rows| :: !IsHeaderRow(rows[k])
  {
    var k := FirstWhere(rows, 0, IsHeaderRow);
    if k < |rows| then Some(HeaderMatch(k, HeaderCells(rows[k]))) else None
  }

  /** The joined text of a one-cell row is that cell's trimmed text. */
  lemma JoinedTextOfOneCell(s: string)
    ensures JoinedText([Str(s)]) == Trim(s)
  {
    var row := [Str(s)];
    assert row[1..] == [] && NonBlankTexts([]) == [];
    assert CellText(row[0]) == s;
    var texts := if Trim(s) != "" then [Trim(s)] else [];
    assert NonBlankTexts(row) == texts + [];
    assert texts + [] == texts;
  }

  /** A one-cell header is taken apart on the wide gaps between its words:
      "Fecha  Referencia  Detalle  Débitos" gives four header cells. */
  lemma SingleCellHeaderSplits(s: string)
    requires JoinedKeywordTest([Str(s)])
    ensures HeaderCells([Str(s)]) == TextCells(SplitOnSpaceRuns(Trim(s)))
  {
    JoinedTextOfOneCell(s);
  }

  // ---------------------------------------------------------------------------
  // Columns

  /** How a header name is recognised: by its start, or anywhere in it. */
  datatype HeaderTest = Prefix(p: string) | Infix(n: string)

  predicate Passes(t: HeaderTest, h: string) {
    match t
    case Prefix(p) => StartsWith(h, p)
    case Infix(n) => Contains(h, n)
  }

  /** `headers.findIndex(...)`: the first header passing `t`, or -1. */
  function FindColumn(headers: seq<string>, t: HeaderTest): (r: int)
    ensures -1 <= r < |headers|
    ensures r >= 0 ==> Passes(t, headers[r]) && forall k | 0 <= k < r :: !Passes(t, headers[k])
    ensures r == -1 <==> forall k | 0 <= k < |headers| :: !Passes(t, headers[k])
  {
    if |headers| == 0 then -1
    else if Passes(t, headers[0]) then 0
    else
      var r := FindColumn(headers[1..], t);
      assert forall k | 1 <= k < |headers| :: headers[k] == headers[1..][k - 1];
      if r == -1 then -1 else r + 1
  }

  /** The blank-header columns strictly between the detail and the debit
      column, in index order, from index `i` on. */
  function ExtrasFrom(headers: seq<string>, detail: int, debit: int, i: nat): (r: seq<nat>)
    ensures forall k | 0 <= k < |r| :: i <= r[k] < |headers|
    ensures forall k, l | 0 <= k < l < |r| :: r[k] < r[l]
    ensures forall x: nat :: x in r <==> i <= x < |headers| && headers[x] == "" && detail != -1 && debit != -1 && detail < x < debit
    decreases |headers| - i
  {
    if i >= |headers| then []
    else
      var rest := ExtrasFrom(headers, detail, debit, i + 1);
      if headers[i] == "" && detail != -1 && debit != -1 && detail < i < debit then [i] + rest else rest
  }

  /** `detailExtraIdxs`: exactly the blank-header columns strictly between
      the detail and the debit column, ascending; none when either of those
      two columns is missing. */
  function ExtraDetailColumns(headers: seq<string>, detail: int, debit: int): (r: seq<nat>)
    ensures forall k, l | 0 <= k < l < |r| :: r[k] < r[l]
    ensures forall x: nat :: x in r <==> x < |headers| && headers[x] == "" && detail != -1 && debit != -1 && detail < x < debit
  {
    ExtrasFrom(headers, detail, debit, 0)
  }

  /** Where each field of the statement sits. -1 marks a missing column. */
  datatype Columns = Columns(date: int, ref: int, detail: int, debit: int, credit: int, extras: seq<nat>)

  function Headers(cells: seq<Cell>): (h: seq<string>)
    ensures |h| == |cells|
    ensures forall k | 0 <= k < |cells| :: h[k] == NormalizeHeader(cells[k])
  {
    seq(|cells|, k requires 0 <= k < |cells| => NormalizeHeader(cells[k]))
  }

  /** The column mapping of `buildRows`: date, reference and detail by the
      start of the header ("fecha", "ref", "detalle"), debit and credit by a
      header mentioning "debito" / "credito". */
  function LayoutOf(cells: seq<Cell>): (c: Columns)
    ensures var h := Headers(cells);
            && c.date == FindColumn(h, Prefix("fecha"))
            && c.ref == FindColumn(h, Prefix("ref"))
            && c.detail == FindColumn(h, Prefix("detalle"))
            && c.debit == FindColumn(h, Infix("debito"))
            && c.credit == FindColumn(h, Infix("credito"))
            && c.extras == ExtraDetailColumns(h, c.detail, c.debit)
  {
    var h := Headers(cells);
    var detail := FindColumn(h, Prefix("detalle"));
    var debit := FindColumn(h, Infix("debito"));
    Columns(
      FindColumn(h, Prefix("fecha")), FindColumn(h, Prefix("ref")), detail, debit,
      FindColumn(h, Infix("credito")), ExtraDetailColumns(h, detail, debit))
  }

  // ---------------------------------------------------------------------------
  // Rows

  /** One movement of the statement. */
  datatype StatementRow = StatementRow(date: CalDate, ref: Option<string>, detail: string, debit: real, credit: real)

  /** What every row `buildRows` emits satisfies: a real date, a non-empty
      trimmed detail, and a debit or a credit that is not zero. */
  predicate WellFormed(r: StatementRow) {
    ValidDate(r.date) && r.detail != "" && NoSpaceAtEnds(r.detail) && (r.debit != 0.0 || r.credit != 0.0)
  }

  /** The trimmed texts of the true cells at `idxs`, in order. */
  function ExtraParts(row: Row, idxs: seq<nat>): seq<string> {
    if |idxs| == 0 then []
    else
      var c := At(row, idxs[0]);
      (if Truthy(c) then [Trim(CellText(c))] else []) + ExtraParts(row, idxs[1..])
  }

  /** The detail text: the detail cell and then the extra detail cells,
      each trimmed, joined with single spaces and trimmed again. */
  function DetailText(row: Row, cols: Columns): (d: string)
    ensures NoSpaceAtEnds(d)
  {
    var main := At(row, cols.detail);
    var first := if cols.detail != -1 && Truthy(main) then [Trim(CellText(main))] else [];
    Trim(Join(" ", first + ExtraParts(row, cols.extras)))
  }

  /** The amount in column `idx`, or 0 when the column is missing. */
  function AmountAt(row: Row, idx: int): real {
    if idx != -1 then ParseNumber(At(row, idx)) else 0.0
  }

  /** The reference: the text of a true reference cell, untrimmed. */
  function RefOf(row: Row, cols: Columns): Option<string> {
    var c := At(row, cols.ref);
    if cols.ref != -1 && Truthy(c) then Some(CellText(c)) else None
  }

  /** One data row: kept exactly when its date cell reads as a date, its
      detail is not empty, and it has a debit or a credit. */
  function ParseDataRow(row: Row, cols: Columns, cutoff: Option<CalDate>, currentYear: int): (r: Option<StatementRow>)
    ensures r.Some? <==>
              && ParseStatementDate(At(row, cols.date), cutoff, currentYear).Some?
              && DetailText(row, cols) != ""
              && (AmountAt(row, cols.debit) != 0.0 || AmountAt(row, cols.credit) != 0.0)
    ensures r.Some? ==> WellFormed(r.value)
    ensures r.Some? ==> r.value.debit == AmountAt(row, cols.debit) && r.value.credit == AmountAt(row, cols.credit)
    ensures r.Some? ==> r.value.date == ParseStatementDate(At(row, cols.date), cutoff, currentYear).value
    ensures r.Some? ==> r.value.detail == DetailText(row, cols) && r.value.ref == RefOf(row, cols)
  {
    var date := ParseStatementDate(At(row, cols.date), cutoff, currentYear);
    if date.None? then None
    else
      var detail := DetailText(row, cols);
      if detail == "" then None
      else
        var debit := AmountAt(row, cols.debit);
        var credit := AmountAt(row, cols.credit);
        if debit == 0.0 && credit == 0.0 then None
        else Some(StatementRow(date.value, RefOf(row, cols), detail, debit, credit))
  }

  /** `ParseDataRow` with the layout, the cutoff and the year fixed. */
  function RowReader(cols: Columns, cutoff: Option<CalDate>, currentYear: int): Row -> Option<StatementRow> {
    row => ParseDataRow(row, cols, cutoff, currentYear)
  }

  /** The rows below header row `index`, read with `cols`, keeping the
      valid ones and stopping after `MaxRows` of them. Each row kept is well
      formed and was read from a row below the header. */
  function RowsBelow(rows: seq<Row>, index: nat, cols: Columns, cutoff: Option<CalDate>, currentYear: int): (r: seq<StatementRow>)
    requires index < |rows|
    ensures |r| <= MaxRows
    ensures r == Take(FilterMap(rows[index + 1..], RowReader(cols, cutoff, currentYear)), MaxRows)
    ensures forall k | 0 <= k < |r| :: WellFormed(r[k])
    ensures forall k | 0 <= k < |r| :: exists j | index < j < |rows| :: ParseDataRow(rows[j], cols, cutoff, currentYear) == Some(r[k])
  {
    KeptRowsComeFromBelow(rows, index, cols, cutoff, currentYear);
    FilterMapUpTo(rows[index + 1..], RowReader(cols, cutoff, currentYear), MaxRows)
  }

  /** Every row kept from below the header is well formed and is what
      `ParseDataRow` reads from one of those rows. */
  lemma KeptRowsComeFromBelow(rows: seq<Row>, index: nat, cols: Columns, cutoff: Option<CalDate>, currentYear: int)
    requires index < |rows|
    ensures var r := Take(FilterMap(rows[index + 1..], RowReader(cols, cutoff, currentYear)), MaxRows);
            && (forall k | 0 <= k < |r| :: WellFormed(r[k]))
            && (forall k | 0 <= k < |r| :: exists j | index < j < |rows| :: ParseDataRow(rows[j], cols, cutoff, currentYear) == Some(r[k]))
  {
    var below := rows[index + 1..];
    var read := RowReader(cols, cutoff, currentYear);
    var r := Take(FilterMap(below, read), MaxRows);
    forall k | 0 <= k < |r|
      ensures WellFormed(r[k])
      ensures exists j | index < j < |rows| :: ParseDataRow(rows[j], cols, cutoff, currentYear) == Some(r[k])
    {
      assert r[k] == FilterMap(below, read)[k];
      var j :| 0 <= j < |below| && read(below[j]) == Some(r[k]);
      assert below[j] == rows[index + 1 + j];
    }
  }

  /** `buildRows`: nothing without a header row; otherwise the rows below
      it, read with the layout of its header cells. */
  function BuildRows(rows: seq<Row>, cutoff: Option<CalDate>, currentYear: int): (r: seq<StatementRow>)
    ensures |r| <= MaxRows
    ensures forall k | 0 <= k < |r| :: WellFormed(r[k])
    ensures FindHeaderRow(rows).None? ==> r == []
    ensures FindHeaderRow(rows).Some? ==>
              var h := FindHeaderRow(rows).value;
              r == RowsBelow(rows, h.index, LayoutOf(h.cells), cutoff, currentYear)
  {
    match FindHeaderRow(rows)
    case None => []
    case Some(h) => RowsBelow(rows, h.index, LayoutOf(h.cells), cutoff, currentYear)
  }

  /** All worksheets of the workbook, in sheet order: each contributes the
      rows `buildRows` reads from it, with its own cutoff date. */
  function WorkbookRows(sheets: seq<seq<Row>>, currentYear: int): (r: seq<StatementRow>)
    ensures forall k | 0 <= k < |r| :: WellFormed(r[k])
    ensures |r| <= MaxRows * |sheets|
    ensures |sheets| == 0 ==> r == []
    ensures |sheets| == 1 ==> r == BuildRows(sheets[0], FindCutoffDate(sheets[0], currentYear), currentYear)
  {
    if |sheets| == 0 then []
    else BuildRows(sheets[0], FindCutoffDate(sheets[0], currentYear), currentYear) + WorkbookRows(sheets[1..], currentYear)
  }

  /** The sheets are read one after the other: the rows of a workbook are
      those of its first sheets followed by those of the others. */
  lemma {:induction false} WorkbookRowsAppend(a: seq<seq<Row>>, b: seq<seq<Row>>, currentYear: int)
    ensures WorkbookRows(a + b, currentYear) == WorkbookRows(a, currentYear) + WorkbookRows(b, currentYear)
    decreases |a|
  {
    if |a| == 0 {
      assert a + b == b;
    } else {
      var head := BuildRows(a[0], FindCutoffDate(a[0], currentYear), currentYear);
      AppendTail(a, b);
      assert WorkbookRows(a + b, currentYear) == head + WorkbookRows(a[1..] + b, currentYear);
      WorkbookRowsAppend(a[1..], b, currentYear);
      assert WorkbookRows(a, currentYear) == head + WorkbookRows(a[1..], currentYear);
      AppendAssoc(head, WorkbookRows(a[1..], currentYear), WorkbookRows(b, currentYear));
    }
  }
}
