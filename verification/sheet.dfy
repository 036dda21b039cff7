/** A worksheet as `sheet_to_json(sheet, { header: 1, raw: true })` hands it
    over: rows of cells. */
module Sheet {
  import opened Text
  import opened Dates

  /** One cell. `Num` and `DateCell` carry, besides their value, the text
      JavaScript's `String(value)` gives for them, which depends on the host
      (number formatting, time zone) and is taken as given. */
  datatype Cell =
    | Empty
    | Str(s: string)
    | Num(value: real, text: string)
    | DateCell(date: CalDate, text: string)

  type Row = seq<Cell>

  /** `String(cell ?? "")`. */
  function CellText(c: Cell): string {
    match c
    case Empty => ""
    case Str(s) => s
    case Num(_, t) => t
    case DateCell(_, t) => t
  }

  /** JavaScript truthiness of a cell: empty text and the number zero are
      false, a date object is always true. */
  predicate Truthy(c: Cell) {
    match c
    case Empty => false
    case Str(s) => s != ""
    case Num(v, _) => v != 0.0
    case DateCell(_, _) => true
  }

  /** `row[i]`, with `undefined` (an `Empty` cell) outside the row, including
      the index -1 that a failed `findIndex` yields. */
  function At(row: Row, i: int): Cell {
    if 0 <= i < |row| then row[i] else Empty
  }

  /** `normalizeHeader`: the cell's text, trimmed and lower-cased; empty for
      an empty cell. */
  function NormalizeHeader(c: Cell): (h: string)
    ensures c.Empty? ==> h == ""
  {
    ToLower(Trim(CellText(c)))
  }
}
