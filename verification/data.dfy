/** The data the pipeline works on: table cells, tables and the answers it returns. */
module Data {

  /** One cell of a DataFrame: NaN, a number, or a string. */
  datatype Cell = Missing | Num(x: real) | Text(s: string)

  /** A DataFrame: column labels in order and rows of cells by position. A row shorter
      than the header reads as NaN in the columns it lacks. */
  datatype Table = Table(columns: seq<string>, rows: seq<seq<Cell>>)

  /** One element of the JSON answer list. */
  datatype Answer =
    | Count(n: nat)                              // a row count
    | Str(s: string)                             // a string: a default, a message or a data URI
    | Float(x: real)                             // the 0.0 correlation default
    | Title(cell: Cell)                          // the Title cell of a chosen row
    | Pearson(rank: seq<Cell>, peak: seq<Cell>)  // round(Rank.corr(Peak), 6), left uncomputed

  /** Position of the first column labelled `name`. */
  function IndexOf(names: seq<string>, name: string): (k: nat)
    requires name in names
    ensures k < |names| && names[k] == name && name !in names[..k]
  {
    if names[0] == name then 0 else 1 + IndexOf(names[1..], name)
  }

  function CellAt(row: seq<Cell>, k: nat): Cell {
    if k < |row| then row[k] else Missing
  }

  /** Column `k` is the first one labelled `name`. */
  predicate FirstLabelled(names: seq<string>, name: string, k: int) {
    0 <= k < |names| && names[k] == name && name !in names[..k]
  }

  /** Only one position can be the first with a given label. */
  lemma FirstLabelledUnique(names: seq<string>, name: string, j: int, k: int)
    requires FirstLabelled(names, name, j) && FirstLabelled(names, name, k)
    ensures j == k
  {
  }

  /** `df[name]`: the cells of the first column labelled `name`, one per row. */
  function Column(t: Table, name: string): (col: seq<Cell>)
    requires name in t.columns
    ensures |col| == |t.rows|
    ensures forall i, k :: 0 <= i < |t.rows| && FirstLabelled(t.columns, name, k) ==>
      col[i] == if k < |t.rows[i]| then t.rows[i][k] else Missing
  {
    var k := IndexOf(t.columns, name);
    forall j | FirstLabelled(t.columns, name, j) ensures j == k {
      FirstLabelledUnique(t.columns, name, j, k);
    }
    seq(|t.rows|, i requires 0 <= i < |t.rows| => CellAt(t.rows[i], k))
  }

  /** Every label in `names` is a column of `t`: the guard `'A' in df.columns and ...`. */
  predicate HasColumns(t: Table, names: seq<string>) {
    forall n :: n in names ==> n in t.columns
  }

  /** The number of positions at which the flags hold: `df[mask].shape[0]`. */
  function CountTrue(b: seq<bool>): (n: nat)
    ensures n == |set i | 0 <= i < |b| && b[i]|
  {
    if |b| == 0 then
      0
    else
      var front := b[..|b| - 1];
      var m := CountTrue(front);
      var last := |b| - 1;
      assert (set i | 0 <= i < |b| && b[i])
          == (set i | 0 <= i < |front| && front[i]) + (if b[last] then {last} else {});
      m + (if b[last] then 1 else 0)
  }
}
