/** Cell values, rows and SQL's three truth values. */
module Values {
  import opened Basics

  /** A scalar cell. Reals stand for the engine's ordered floats. */
  datatype Value = Null | Int(i: int) | Text(s: string) | Bool(b: bool) | Float(r: real)

  type Row = seq<Value>

  /** A position outside the row reads as NULL. */
  function Cell(row: Row, col: nat): Value {
    if col < |row| then row[col] else Null
  }

  /** A row's cells at the given positions. */
  function Project(row: Row, cols: seq<nat>): (vals: Row)
    ensures |vals| == |cols| && forall i | 0 <= i < |cols| :: vals[i] == Cell(row, cols[i])
  {
    seq(|cols|, i requires 0 <= i < |cols| => Cell(row, cols[i]))
  }

  datatype Ordering = Less | Equal | Greater

  function CompareInt(a: int, b: int): Ordering {
    if a < b then Less else if a == b then Equal else Greater
  }

  function CompareReal(a: real, b: real): Ordering {
    if a < b then Less else if a == b then Equal else Greater
  }

  /** Lexicographic order by code point, which is also the order of the UTF-8 bytes. */
  function CompareText(a: string, b: string): Ordering {
    if a == [] then (if b == [] then Equal else Less)
    else if b == [] then Greater
    else if a[0] == b[0] then CompareText(a[1..], b[1..])
    else CompareInt(a[0] as int, b[0] as int)
  }

  /** Values of different kinds have no order. */
  function Compare(a: Value, b: Value): Option<Ordering> {
    match (a, b)
    case (Int(x), Int(y)) => Some(CompareInt(x, y))
    case (Float(x), Float(y)) => Some(CompareReal(x, y))
    case (Text(x), Text(y)) => Some(CompareText(x, y))
    case (Bool(x), Bool(y)) => Some(CompareInt(if x then 1 else 0, if y then 1 else 0))
    case _ => None
  }

  predicate SameKind(a: Value, b: Value) {
    match a
    case Null => b.Null?
    case Int(_) => b.Int?
    case Text(_) => b.Text?
    case Bool(_) => b.Bool?
    case Float(_) => b.Float?
  }

  datatype Tri = True | False | Unknown

  function FromBool(b: bool): Tri {
    if b then True else False
  }

  function Not3(t: Tri): Tri {
    match t
    case True => False
    case False => True
    case Unknown => Unknown
  }
}
