/**
 * The spreadsheet grid: rows of loosely typed cells, and the JavaScript coercions
 * the tracker applies to them.
 */
module Cells {
  import opened Options
  import opened Strings

  /** A cell as the sheet reader delivers it: blank (`''` or absent), text, or a number. */
  datatype Cell = Empty | Text(s: string) | Num(r: real)

  /**
   * The host coercions whose details are outside the model: `parseFloat` and
   * `parseInt` on text (prefix parsing; `None` stands for NaN) and `String(n)` on a number.
   */
  datatype Runtime = Runtime(
    parseFloat: string -> Option<real>,
    parseInt: string -> Option<int>,
    numberText: real -> string)

  /** `String(cell)` */
  function CellString(rt: Runtime, c: Cell): string
  {
    match c
    case Empty => ""
    case Text(s) => s
    case Num(r) => rt.numberText(r)
  }

  /** JavaScript truthiness of a cell value. */
  predicate Truthy(c: Cell)
  {
    match c
    case Empty => false
    case Text(s) => s != ""
    case Num(r) => r != 0.0
  }

  /** `String(cell || '')`: a falsy cell (blank, '' or the number 0) reads as ''. */
  function CellOrBlank(rt: Runtime, c: Cell): (s: string)
    ensures !Truthy(c) ==> s == ""
  {
    if Truthy(c) then CellString(rt, c) else ""
  }

  /** `parseFloat(cell)`: a number parses to itself, a blank to NaN. */
  function CellNumber(rt: Runtime, c: Cell): Option<real>
  {
    match c
    case Empty => None
    case Text(s) => rt.parseFloat(s)
    case Num(r) => Some(r)
  }

  /** `x || 0` applied to a parsed number: NaN becomes 0. */
  function OrZero(o: Option<real>): real
  {
    o.GetOr(0.0)
  }

  /** `row[col]`, with an absent cell read as blank. */
  function CellAt(row: seq<Cell>, col: int): Cell
  {
    if 0 <= col < |row| then row[col] else Empty
  }

  /** `String(row[col] || '').trim()` */
  function TrimmedText(rt: Runtime, row: seq<Cell>, col: int): string
  {
    Trim(CellOrBlank(rt, CellAt(row, col)))
  }

  /** `rows[i] || []` */
  function RowAt(rows: seq<seq<Cell>>, i: int): seq<Cell>
  {
    if 0 <= i < |rows| then rows[i] else []
  }

  /** `row.join(' ').toLowerCase()` */
  function RowText(rt: Runtime, row: seq<Cell>): string
  {
    Lower(Join(seq(|row|, i requires 0 <= i < |row| => CellString(rt, row[i])), " "))
  }
}
