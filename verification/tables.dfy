/** The table shapes the transforms work on: a header of column names and
    rectangular rows. Cells read from a file are text or missing; processed
    cells may also hold a number or a point in time. */
module Tables {
  import opened Wrappers

  /** A processed cell: missing (pandas' NaN / NaT), text, a float, or a
      timestamp given as an abstract instant. */
  datatype Cell = Null | Text(s: string) | Num(x: real) | Time(t: int)

  datatype Table<T> = Table(header: seq<string>, rows: seq<seq<T>>)

  /** The pandas frame invariant: every row has one cell per column. */
  predicate Rectangular<T>(t: Table<T>) {
    forall i :: 0 <= i < |t.rows| ==> |t.rows[i]| == |t.header|
  }

  /** The values the transforms treat as missing before any column work. */
  const MissingTokens: set<string> := {"", "N/A", "NaN", "null", "NULL"}

  /** `df.replace(['', 'N/A', 'NaN', 'null', 'NULL'], np.nan)` on one cell. */
  function DropMissing(v: Option<string>): (r: Option<string>)
    ensures r.Some? <==> v.Some? && v.value !in MissingTokens
    ensures r.Some? ==> r == v
  {
    match v
    case None => None
    case Some(s) => if s in MissingTokens then None else v
  }

  /** A cell no column operation touched. */
  function Untouched(v: Option<string>): (c: Cell)
    ensures c.Null? <==> v.None?
    ensures v.Some? ==> c == Text(v.value)
  {
    match v
    case None => Null
    case Some(s) => Text(s)
  }

  /** Some column of this name occurs twice: selecting it yields a frame, not a
      column, and every column operation of the transforms raises on that. */
  predicate Duplicated(header: seq<string>, name: string) {
    exists i, j :: 0 <= i < j < |header| && header[i] == name && header[j] == name
  }

  /** Each cell rewritten by a function of its column's name. */
  function MapByColumn<T, U>(t: Table<T>, f: (string, T) -> U): (r: Table<U>)
    requires Rectangular(t)
    ensures r.header == t.header && |r.rows| == |t.rows| && Rectangular(r)
    ensures forall i, j :: 0 <= i < |t.rows| && 0 <= j < |t.header| ==> r.rows[i][j] == f(t.header[j], t.rows[i][j])
  {
    Table(t.header, seq(|t.rows|, i requires 0 <= i < |t.rows| =>
      seq(|t.header|, j requires 0 <= j < |t.header| => f(t.header[j], t.rows[i][j]))))
  }

  /** `rename(columns={from: to})`: every column called `from` is renamed. */
  function Rename(header: seq<string>, from: string, to: string): (r: seq<string>)
    ensures |r| == |header|
    ensures forall j :: 0 <= j < |header| ==> r[j] == (if header[j] == from then to else header[j])
  {
    seq(|header|, j requires 0 <= j < |header| => if header[j] == from then to else header[j])
  }

  /** `df[name] = value` for a scalar: every column of that name is overwritten,
      or a new column is appended at the right when there is none. */
  function SetColumn<T>(t: Table<T>, name: string, value: T): (r: Table<T>)
    requires Rectangular(t)
    ensures Rectangular(r) && |r.rows| == |t.rows|
    ensures name in t.header ==> r.header == t.header
    ensures name !in t.header ==> r.header == t.header + [name]
  {
    if name in t.header then
      Table(t.header, seq(|t.rows|, i requires 0 <= i < |t.rows| =>
        seq(|t.header|, j requires 0 <= j < |t.header| => if t.header[j] == name then value else t.rows[i][j])))
    else
      Table(t.header + [name], seq(|t.rows|, i requires 0 <= i < |t.rows| => t.rows[i] + [value]))
  }

  /** The cells of the new or overwritten column all hold the value, and every
      other cell is where it was. */
  lemma SetColumnCells<T>(t: Table<T>, name: string, value: T)
    requires Rectangular(t)
    ensures var r := SetColumn(t, name, value);
      && (forall i, j :: 0 <= i < |r.rows| && 0 <= j < |r.header| && r.header[j] == name ==> r.rows[i][j] == value)
      && (forall i, j :: 0 <= i < |t.rows| && 0 <= j < |t.header| && t.header[j] != name ==> r.rows[i][j] == t.rows[i][j])
  {
  }
}
