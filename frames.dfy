/** The data frame as both scripts see it after `pd.read_csv`: a header of
    column names and positional rows of cells, with pandas' cell-level
    conversion `pd.to_numeric(..., errors="coerce")`. */
module Frames {
  import opened Results

  /** One cell: empty (NaN), raw text from the CSV file, or a number. */
  datatype Cell = Missing | Text(text: string) | Num(num: real)

  /** A data frame: the header and the rows, each row positional against the header. */
  datatype Frame = Frame(columns: seq<string>, rows: seq<seq<Cell>>)

  /** pandas' recognition of a number in a text cell; `None` when the text
      does not parse. Supplied from outside the model. */
  type Parser = string -> Option<real>

  /** Position of the first column called `name`. */
  function IndexOf(names: seq<string>, name: string): (r: Option<nat>)
    ensures r.Some? ==> r.value < |names| && names[r.value] == name
    ensures r.Some? ==> forall j :: 0 <= j < r.value ==> names[j] != name
    ensures r.None? <==> name !in names
  {
    if names == [] then None
    else if names[0] == name then Some(0)
    else match IndexOf(names[1..], name)
      case None => None
      case Some(k) => Some(k + 1)
  }

  /** `row[name]`: the cell under the first column called `name`, or
      `Missing` when there is no such column. */
  function Get(columns: seq<string>, row: seq<Cell>, name: string): Cell
  {
    match IndexOf(columns, name)
    case Some(k) => if k < |row| then row[k] else Missing
    case None => Missing
  }

  /** A numeric cell's value; `None` for NaN. */
  function NumAt(columns: seq<string>, row: seq<Cell>, name: string): (r: Option<real>)
    ensures r.Some? <==> Get(columns, row, name).Num?
  {
    match Get(columns, row, name)
    case Num(x) => Some(x)
    case _ => None
  }

  /** A categorical cell's label; `None` for NaN. */
  function TextAt(columns: seq<string>, row: seq<Cell>, name: string): (r: Option<string>)
    ensures r.Some? <==> Get(columns, row, name).Text?
  {
    match Get(columns, row, name)
    case Text(s) => Some(s)
    case _ => None
  }

  /** `pd.to_numeric(cell, errors="coerce")`: numbers stay, text is parsed,
      and text that does not parse becomes NaN instead of raising. */
  function ToNumeric(c: Cell, parse: Parser): (r: Cell)
    ensures r.Missing? || r.Num?
    ensures c.Num? ==> r == c
    ensures c.Missing? ==> r.Missing?
    ensures c.Text? ==> (r.Num? <==> parse(c.text).Some?)
  {
    match c
    case Missing => Missing
    case Num(_) => c
    case Text(s) => match parse(s)
      case Some(x) => Num(x)
      case None => Missing
  }

  /** Coercing twice is coercing once. */
  lemma ToNumericIdempotent(c: Cell, parse: Parser)
    ensures ToNumeric(ToNumeric(c, parse), parse) == ToNumeric(c, parse)
  {
  }
}
