/** Cell values, rows, and the column and table descriptions read from a database. */
module Schema {
  import opened Common

  /** A Python cell value. `Float` holds a finite float; `NonFinite` stands for the
      infinities and NaN. `Json` is a dict or list, `Other` any further type. */
  datatype Value =
    | Null
    | Bool(b: bool)
    | Int(i: int)
    | Float(f: real)
    | NonFinite
    | Str(s: string)
    | Json(doc: int)
    | Other(tag: int)

  type Row = map<string, Value>

  /** dict.get: a missing key reads as None. */
  function Get(row: Row, col: string): Value {
    if col in row then row[col] else Null
  }

  /** The projection done by SELECT col, col, ... */
  function Project(row: Row, cols: set<string>): Row {
    map c | c in cols && c in row :: row[c]
  }

  datatype ColumnSchema = ColumnSchema(
    name: string,
    dataType: string,
    isNullable: bool,
    isPrimaryKey: bool,
    default: Option<string>,
    maxLength: Option<int>)

  datatype TableSchema = TableSchema(
    name: string,
    columns: seq<ColumnSchema>,
    primaryKeys: seq<string>,
    rowCount: nat)

  datatype ColumnMapping = ColumnMapping(
    sourceCol: string,
    destCol: string,
    sourceType: string,
    destType: string,
    included: bool)

  /** The columns' names, in order. */
  function Names(cols: seq<ColumnSchema>): (names: seq<string>)
    ensures |names| == |cols|
    ensures forall i :: 0 <= i < |cols| ==> names[i] == cols[i].name
  {
    seq(|cols|, i requires 0 <= i < |cols| => cols[i].name)
  }

  /** The lookup {c.name: c for c in cols}: the last column of a name wins. */
  function ByName(cols: seq<ColumnSchema>): map<string, ColumnSchema> {
    if cols == [] then map[]
    else
      var n := |cols| - 1;
      ByName(cols[..n])[cols[n].name := cols[n]]
  }

  /** The lookup holds exactly the names of the columns, each with a column of that name. */
  lemma {:induction false} ByNameHolds(cols: seq<ColumnSchema>)
    ensures forall i :: 0 <= i < |cols| ==> cols[i].name in ByName(cols)
    ensures forall n :: n in ByName(cols) ==> ByName(cols)[n] in cols && ByName(cols)[n].name == n
    decreases |cols|
  {
    if cols != [] {
      var n := |cols| - 1;
      ByNameHolds(cols[..n]);
      assert forall i :: 0 <= i < n ==> cols[..n][i] == cols[i];
    }
  }

  /** With distinct names the lookup finds each column itself. */
  lemma {:induction false} ByNameDistinct(cols: seq<ColumnSchema>, i: nat)
    requires i < |cols| && Distinct(Names(cols))
    ensures cols[i].name in ByName(cols) && ByName(cols)[cols[i].name] == cols[i]
    decreases |cols|
  {
    var n := |cols| - 1;
    if i < n {
      assert Names(cols)[i] != Names(cols)[n];
      assert Names(cols[..n]) == Names(cols)[..n];
      ByNameDistinct(cols[..n], i);
      assert cols[..n][i] == cols[i];
    }
  }
}
