/** Column selection and row transformation (app/migration/mapper.py). */
module Mapper {
  import opened Common
  import opened Schema
  import opened Text

  /** The text json.dumps produces for a document. */
  type Dumps = int -> string

  datatype CoercionError = NotAnInteger

  const BOOLEAN_TYPES := ["BOOLEAN"]
  const INTEGER_TYPES := ["INTEGER", "SMALLINT", "BIGINT"]
  const STRING_TYPES := ["TEXT", "VARCHAR", "CHAR"]

  /** int(x) of a finite float: truncation toward zero. */
  function Truncate(x: real): int {
    if x >= 0.0 then x.Floor else -((-x).Floor)
  }

  function Coerce(dumps: Dumps, value: Value, destType: string): Result<Value, CoercionError> {
    if value.Null? then Ok(Null)
    else
      var upper := BeforeParen(Upper(destType));
      if upper in BOOLEAN_TYPES then
        match value
        case Bool(b) => Ok(Bool(b))
        case Int(i) => Ok(Bool(i != 0))
        case Str(s) => Ok(Bool(Lower(s) in ["1", "true", "yes", "t"]))
        case _ => Ok(value)
      else if upper in INTEGER_TYPES && value.NonFinite? then Err(NotAnInteger)
      else if upper in INTEGER_TYPES && value.Float? then Ok(Int(Truncate(value.f)))
      else if upper in STRING_TYPES && value.Json? then Ok(Str(dumps(value.doc)))
      else Ok(value)
  }

  /** Truncation goes toward zero: nearest integer that is not larger in magnitude. */
  lemma TruncateTowardZero(x: real)
    ensures x >= 0.0 ==> 0.0 <= Truncate(x) as real <= x < Truncate(x) as real + 1.0
    ensures x <= 0.0 ==> Truncate(x) as real - 1.0 < x <= Truncate(x) as real <= 0.0
  {
    if x < 0.0 {
      assert (-x).Floor as real <= -x < (-x).Floor as real + 1.0;
    }
  }

  /** The value and the destination type are one of the pairs a coercion treats specially. */
  predicate ActsOn(t: string, v: Value) {
    var base := BeforeParen(Upper(t));
    || (base in BOOLEAN_TYPES && (v.Int? || v.Str?))
    || (base in INTEGER_TYPES && (v.Float? || v.NonFinite?))
    || (base in STRING_TYPES && v.Json?)
  }

  /** Those are the pairs for which it changes the value or raises, and no other. */
  lemma CoerceActsExactly(dumps: Dumps, v: Value, t: string)
    ensures Coerce(dumps, v, t) != Ok(v) <==> ActsOn(t, v)
  {
    var base := BeforeParen(Upper(t));
    hide BeforeParen, Upper;
    assert base in BOOLEAN_TYPES ==> base[0] == 'B' && |base| == 7;
    assert base in INTEGER_TYPES ==> base[0] in {'I', 'S', 'B'} && |base| in {7, 8, 6};
    assert base in INTEGER_TYPES && |base| == 7 ==> base[0] == 'I';
    assert base in STRING_TYPES ==> base[0] in {'T', 'V', 'C'};
  }

  /** n is x without its fraction. */
  predicate WithoutFraction(x: real, n: int) {
    if x >= 0.0 then 0.0 <= n as real <= x < n as real + 1.0 else n as real - 1.0 < x <= n as real <= 0.0
  }

  /** What a value must become in a column of base type `base`. */
  ghost predicate Coerced(dumps: Dumps, base: string, v: Value, out: Value) {
    if v.Int? && base == "BOOLEAN" then out.Bool? && (out.b <==> v.i != 0)
    else if v.Str? && base == "BOOLEAN" then
      out.Bool? && (out.b <==> Lower(v.s) == "1" || Lower(v.s) == "true" || Lower(v.s) == "yes" || Lower(v.s) == "t")
    else if v.Float? && (base == "INTEGER" || base == "SMALLINT" || base == "BIGINT") then
      out.Int? && WithoutFraction(v.f, out.i)
    else if v.Json? && (base == "TEXT" || base == "VARCHAR" || base == "CHAR") then out == Str(dumps(v.doc))
    else out == v
  }

  /** EVERY VALUE BECOMES WHAT IT MUST: flags by their truth, floats without their fraction,
      documents as text, everything else as it is. */
  lemma CoerceMeets(dumps: Dumps, v: Value, t: string)
    ensures
      var base, r := BeforeParen(Upper(t)), Coerce(dumps, v, t);
      r.Ok? ==> forall out :: Coerced(dumps, base, v, out) <==> out == r.value
  {
    var base, r := BeforeParen(Upper(t)), Coerce(dumps, v, t);
    hide Coerced, Coerce;
    if r.Ok? {
      forall out ensures Coerced(dumps, base, v, out) <==> out == r.value {
        if v.Float? || v.NonFinite? {
          FloatMeets(dumps, v, t, out);
        } else if v.Str? {
          StringMeets(dumps, v, t, out);
        } else {
          OtherMeets(dumps, v, t, out);
        }
      }
    }
  }

  lemma Bases(base: string)
    ensures base in BOOLEAN_TYPES <==> base == "BOOLEAN"
    ensures base in INTEGER_TYPES <==> base == "INTEGER" || base == "SMALLINT" || base == "BIGINT"
    ensures base in STRING_TYPES <==> base == "TEXT" || base == "VARCHAR" || base == "CHAR"
  {
  }

  lemma FloatMeets(dumps: Dumps, v: Value, t: string, out: Value)
    requires (v.Float? || v.NonFinite?) && Coerce(dumps, v, t).Ok?
    ensures Coerced(dumps, BeforeParen(Upper(t)), v, out) <==> out == Coerce(dumps, v, t).value
  {
    KindsApart(t);
    Bases(BeforeParen(Upper(t)));
    hide BeforeParen, Upper, Lower;
    if v.Float? {
      TruncateTowardZero(v.f);
      hide Truncate;
      if out.Int? && WithoutFraction(v.f, out.i) { OneWhole(v.f, out.i, Truncate(v.f)); }
    }
  }

  lemma StringMeets(dumps: Dumps, v: Value, t: string, out: Value)
    requires v.Str?
    ensures Coerce(dumps, v, t).Ok?
    ensures Coerced(dumps, BeforeParen(Upper(t)), v, out) <==> out == Coerce(dumps, v, t).value
  {
    Bases(BeforeParen(Upper(t)));
    hide BeforeParen, Upper, Lower;
  }

  lemma OtherMeets(dumps: Dumps, v: Value, t: string, out: Value)
    requires !v.Float? && !v.NonFinite? && !v.Str?
    ensures Coerce(dumps, v, t).Ok?
    ensures Coerced(dumps, BeforeParen(Upper(t)), v, out) <==> out == Coerce(dumps, v, t).value
  {
    KindsApart(t);
    Bases(BeforeParen(Upper(t)));
    hide BeforeParen, Upper, Lower;
  }

  lemma OneWhole(x: real, m: int, n: int)
    requires WithoutFraction(x, m) && WithoutFraction(x, n)
    ensures m == n
  {
  }

  /** Two types a coercion does not tell apart. */
  predicate SameKind(t: string, u: string) {
    var x, y := BeforeParen(Upper(t)), BeforeParen(Upper(u));
    && (x in BOOLEAN_TYPES <==> y in BOOLEAN_TYPES)
    && (x in INTEGER_TYPES <==> y in INTEGER_TYPES)
    && (x in STRING_TYPES <==> y in STRING_TYPES)
  }

  /** Coercions of one value to two types agree exactly if the types are of one kind or
      neither coercion does anything. */
  lemma CoerceAgreesExactly(dumps: Dumps, v: Value, t: string, u: string)
    ensures Coerce(dumps, v, t) == Coerce(dumps, v, u) <==> SameKind(t, u) || (!ActsOn(t, v) && !ActsOn(u, v))
  {
    CoerceActsExactly(dumps, v, t);
    CoerceActsExactly(dumps, v, u);
    KindsApart(t);
    KindsApart(u);
    hide BeforeParen, Upper, Lower;
  }

  lemma KindsApart(t: string)
    ensures
      var base := BeforeParen(Upper(t));
      && (base in BOOLEAN_TYPES ==> base !in INTEGER_TYPES && base !in STRING_TYPES)
      && (base in INTEGER_TYPES ==> base !in STRING_TYPES)
  {
    var base := BeforeParen(Upper(t));
    hide BeforeParen, Upper;
    assert base in BOOLEAN_TYPES ==> base[0] == 'B' && base[1] == 'O';
    assert base in INTEGER_TYPES ==> (base[0] in {'I', 'S'} || (base[0] == 'B' && base[1] == 'I'));
    assert base in STRING_TYPES ==> base[0] in {'T', 'V', 'C'};
  }

  /** Exactly which coercions raise. */
  lemma CoerceFailsExactly(dumps: Dumps, v: Value, t: string)
    ensures Coerce(dumps, v, t).Err?
       <==> v.NonFinite? && BeforeParen(Upper(t)) in INTEGER_TYPES
  {
    assert "BOOLEAN"[0] == 'B' && "INTEGER"[0] == 'I' && "SMALLINT"[0] == 'S';
    assert "BOOLEAN"[1] == 'O' && "BIGINT"[1] == 'I';
  }

  /** A coerced value is left alone by a second coercion to the same type. */
  lemma CoerceTwice(dumps: Dumps, v: Value, t: string)
    requires Coerce(dumps, v, t).Ok?
    ensures Coerce(dumps, Coerce(dumps, v, t).value, t) == Coerce(dumps, v, t)
  {
  }

  // ---------- build_column_mappings ----------

  function MappingFor(col: ColumnSchema, dest: Option<TableSchema>): ColumnMapping {
    match dest
    case None => ColumnMapping(col.name, col.name, col.dataType, col.dataType, true)
    case Some(d) =>
      var cols := ByName(d.columns);
      if col.name in cols
      then ColumnMapping(col.name, col.name, col.dataType, cols[col.name].dataType, true)
      else ColumnMapping(col.name, col.name, col.dataType, col.dataType, false)
  }

  function Mappings(source: TableSchema, dest: Option<TableSchema>): (ms: seq<ColumnMapping>)
    ensures |ms| == |source.columns|
  {
    seq(|source.columns|, i requires 0 <= i < |source.columns| => MappingFor(source.columns[i], dest))
  }

  method BuildColumnMappings(source: TableSchema, dest: Option<TableSchema>) returns (mappings: seq<ColumnMapping>)
    ensures mappings == Mappings(source, dest)
  {
    mappings := [];
    var destCols := if dest.Some? then ByName(dest.value.columns) else map[];
    for i := 0 to |source.columns|
      invariant mappings == Mappings(source, dest)[..i]
    {
      var col := source.columns[i];
      var included := if dest.Some? then col.name in destCols else true;
      var destType := if col.name in destCols then destCols[col.name].dataType else col.dataType;
      mappings := mappings + [ColumnMapping(col.name, col.name, col.dataType, destType, included)];
    }
  }

  /** A mapping keeps the source column's name and type; an included one has the type of a
      destination column of that name, if there is a destination. */
  lemma MappingTypes(source: TableSchema, dest: Option<TableSchema>, i: nat)
    requires i < |source.columns|
    ensures
      var m, c := Mappings(source, dest)[i], source.columns[i];
      && m.sourceCol == m.destCol == c.name && m.sourceType == c.dataType
      && (dest.None? ==> m.included && m.destType == c.dataType)
      && (dest.Some? && m.included ==>
            exists d :: d in dest.value.columns && d.name == c.name && d.dataType == m.destType)
      && (dest.Some? && !m.included ==> forall d :: d in dest.value.columns ==> d.name != c.name)
  {
    if dest.Some? {
      var cols := dest.value.columns;
      ByNameHolds(cols);
      if !Mappings(source, dest)[i].included {
        forall d | d in cols ensures d.name != source.columns[i].name {
          var k :| 0 <= k < |cols| && cols[k] == d;
        }
      }
    }
  }

  // ---------- apply_mappings ----------

  /** One row, transformed: the included mappings write their coerced values in order. */
  function MapRow(dumps: Dumps, row: Row, ms: seq<ColumnMapping>): Result<Row, CoercionError> {
    if ms == [] then Ok(map[])
    else
      var rest := MapRow(dumps, row, ms[..|ms| - 1]);
      var m := ms[|ms| - 1];
      if !m.included || rest.Err? then rest
      else
        match Coerce(dumps, Get(row, m.sourceCol), m.destType)
        case Err(e) => Err(e)
        case Ok(v) => Ok(rest.value[m.destCol := v])
  }

  /** A batch is transformed row by row; one failing row fails the whole call. */
  function MapRows(dumps: Dumps, rows: seq<Row>, ms: seq<ColumnMapping>): (out: Result<seq<Row>, CoercionError>)
    ensures out.Ok? ==> |out.value| == |rows|
  {
    if rows == [] then Ok([])
    else
      var rest := MapRows(dumps, rows[..|rows| - 1], ms);
      if rest.Err? then rest
      else
        match MapRow(dumps, rows[|rows| - 1], ms)
        case Err(e) => Err(e)
        case Ok(r) => Ok(rest.value + [r])
  }

  /** The included mappings, in order. */
  function Active(ms: seq<ColumnMapping>): seq<ColumnMapping> {
    if ms == [] then []
    else
      var n := |ms| - 1;
      if ms[n].included then Active(ms[..n]) + [ms[n]] else Active(ms[..n])
  }

  lemma {:induction false} ActiveHolds(ms: seq<ColumnMapping>, m: ColumnMapping)
    ensures m in Active(ms) <==> m in ms && m.included
    decreases |ms|
  {
    if ms != [] {
      ActiveHolds(ms[..|ms| - 1], m);
      assert ms == ms[..|ms| - 1] + [ms[|ms| - 1]];
    }
  }

  lemma {:induction false} MapRowActive(dumps: Dumps, row: Row, ms: seq<ColumnMapping>)
    ensures MapRow(dumps, row, Active(ms)) == MapRow(dumps, row, ms)
    decreases |ms|
  {
    if ms != [] {
      var n := |ms| - 1;
      MapRowActive(dumps, row, ms[..n]);
      if ms[n].included {
        var a := Active(ms);
        assert a == Active(ms[..n]) + [ms[n]];
        assert a[..|a| - 1] == Active(ms[..n]);
      }
    }
  }

  method ApplyMappings(dumps: Dumps, rows: seq<Row>, ms: seq<ColumnMapping>)
    returns (out: Result<seq<Row>, CoercionError>)
    ensures out == MapRows(dumps, rows, ms)
  {
    hide Coerce, Active;
    var active := Active(ms);
    var result: seq<Row> := [];
    for i := 0 to |rows|
      invariant MapRows(dumps, rows[..i], ms) == Ok(result)
    {
      assert rows[..i + 1][..i] == rows[..i];
      var newRow: Row := map[];
      for j := 0 to |active|
        invariant MapRow(dumps, rows[i], active[..j]) == Ok(newRow)
      {
        assert active[..j + 1][..j] == active[..j];
        var m := active[j];
        ActiveHolds(ms, m);
        var v := Coerce(dumps, Get(rows[i], m.sourceCol), m.destType);
        if v.Err? {
          MapRowFails(dumps, rows[i], active, j + 1);
          MapRowActive(dumps, rows[i], ms);
          MapRowsFails(dumps, rows, ms, i + 1);
          return Err(v.error);
        }
        newRow := newRow[m.destCol := v.value];
      }
      assert active[..|active|] == active;
      MapRowActive(dumps, rows[i], ms);
      result := result + [newRow];
    }
    assert rows[..|rows|] == rows;
    out := Ok(result);
  }

  lemma {:induction false} MapRowFails(dumps: Dumps, row: Row, ms: seq<ColumnMapping>, j: nat)
    requires j <= |ms| && MapRow(dumps, row, ms[..j]).Err?
    ensures MapRow(dumps, row, ms) == MapRow(dumps, row, ms[..j])
    decreases |ms|
  {
    if j < |ms| {
      assert ms[..|ms| - 1][..j] == ms[..j];
      MapRowFails(dumps, row, ms[..|ms| - 1], j);
    } else {
      assert ms[..j] == ms;
    }
  }

  lemma {:induction false} MapRowsFails(dumps: Dumps, rows: seq<Row>, ms: seq<ColumnMapping>, j: nat)
    requires j <= |rows| && MapRows(dumps, rows[..j], ms).Err?
    ensures MapRows(dumps, rows, ms) == MapRows(dumps, rows[..j], ms)
    decreases |rows|
  {
    if j < |rows| {
      assert rows[..|rows| - 1][..j] == rows[..j];
      MapRowsFails(dumps, rows[..|rows| - 1], ms, j);
    } else {
      assert rows[..j] == rows;
    }
  }

  // ---------- What the transformation guarantees ----------

  /** Destination columns written by the mappings. */
  function Targets(ms: seq<ColumnMapping>): set<string> {
    set m | m in ms && m.included :: m.destCol
  }

  /** Source columns requested from the source. */
  function Wanted(ms: seq<ColumnMapping>): set<string> {
    set m | m in ms && m.included :: m.sourceCol
  }

  /** Every transformed row has the same key set, so the key list taken from the
      first row of a batch serves all of them. */
  lemma {:induction false} MapRowKeys(dumps: Dumps, row: Row, ms: seq<ColumnMapping>)
    requires MapRow(dumps, row, ms).Ok?
    ensures MapRow(dumps, row, ms).value.Keys == Targets(ms)
    decreases |ms|
  {
    if ms != [] {
      var n := |ms| - 1;
      assert ms == ms[..n] + [ms[n]];
      MapRowKeys(dumps, row, ms[..n]);
      assert Targets(ms) == Targets(ms[..n]) + (if ms[n].included then {ms[n].destCol} else {});
    }
  }

  /** Projection pushdown loses nothing: only requested columns are ever read. */
  lemma {:induction false} ProjectionPushdown(dumps: Dumps, row: Row, ms: seq<ColumnMapping>, cols: set<string>)
    requires Wanted(ms) <= cols
    ensures MapRow(dumps, Project(row, cols), ms) == MapRow(dumps, row, ms)
    decreases |ms|
  {
    if ms != [] {
      var n := |ms| - 1;
      assert ms == ms[..n] + [ms[n]];
      assert Wanted(ms[..n]) <= Wanted(ms);
      ProjectionPushdown(dumps, row, ms[..n], cols);
      assert ms[n].included ==> ms[n].sourceCol in Wanted(ms);
    }
  }

  /** Mapping distributes over batch concatenation, failures included. */
  lemma {:induction false} MapRowsConcat(dumps: Dumps, a: seq<Row>, b: seq<Row>, ms: seq<ColumnMapping>)
    ensures MapRows(dumps, a + b, ms)
         == match MapRows(dumps, a, ms)
            case Err(e) => Err(e)
            case Ok(x) => match MapRows(dumps, b, ms) case Err(e) => Err(e) case Ok(y) => Ok(x + y)
    decreases |b|
  {
    if b == [] {
      assert a + b == a;
      assert MapRows(dumps, a, ms).Ok? ==> MapRows(dumps, a, ms).value + [] == MapRows(dumps, a, ms).value;
    } else {
      var n := |b| - 1;
      assert (a + b)[..|a + b| - 1] == a + b[..n];
      MapRowsConcat(dumps, a, b[..n], ms);
      var x, y, r := MapRows(dumps, a, ms), MapRows(dumps, b[..n], ms), MapRow(dumps, b[n], ms);
      if x.Ok? && y.Ok? && r.Ok? {
        assert x.value + (y.value + [r.value]) == x.value + y.value + [r.value];
      }
    }
  }

  /** The mappings keep names and never write one column twice. */
  predicate NamePreserving(ms: seq<ColumnMapping>) {
    && (forall i :: 0 <= i < |ms| ==> ms[i].sourceCol == ms[i].destCol)
    && (forall i, j :: 0 <= i < j < |ms| ==> ms[i].destCol != ms[j].destCol)
  }

  lemma BuiltMappingsPreserveNames(source: TableSchema, dest: Option<TableSchema>)
    requires Distinct(Names(source.columns))
    ensures NamePreserving(Mappings(source, dest))
  {
    var names := Names(source.columns);
    assert forall i :: 0 <= i < |names| ==> Mappings(source, dest)[i].destCol == names[i];
  }

  /** The value a name-preserving mapping stores for each included column. */
  lemma {:induction false} MapRowAt(dumps: Dumps, row: Row, ms: seq<ColumnMapping>, i: nat)
    requires NamePreserving(ms) && MapRow(dumps, row, ms).Ok? && i < |ms| && ms[i].included
    ensures ms[i].destCol in MapRow(dumps, row, ms).value
    ensures Ok(MapRow(dumps, row, ms).value[ms[i].destCol])
         == Coerce(dumps, Get(row, ms[i].sourceCol), ms[i].destType)
    decreases |ms|
  {
    var n := |ms| - 1;
    if i < n {
      assert ms[..n][i] == ms[i];
      MapRowAt(dumps, row, ms[..n], i);
    }
  }

  /** THE CELLS OF A MAPPED BATCH: each included column of each row holds what the source's
      cell must become; there is no other column, and no row is missing or moved. */
  lemma MappedCells(dumps: Dumps, rows: seq<Row>, ms: seq<ColumnMapping>, i: nat, j: nat)
    requires NamePreserving(ms) && MapRows(dumps, rows, ms).Ok? && i < |rows| && j < |ms| && ms[j].included
    ensures
      var out := MapRows(dumps, rows, ms).value;
      && |out| == |rows| && out[i].Keys == Targets(ms) && ms[j].destCol in out[i]
      && Coerced(dumps, BeforeParen(Upper(ms[j].destType)), Get(rows[i], ms[j].sourceCol), out[i][ms[j].destCol])
  {
    MapRowsAt(dumps, rows, ms, i);
    MapRowKeys(dumps, rows[i], ms);
    MapRowAt(dumps, rows[i], ms, j);
    CoerceMeets(dumps, Get(rows[i], ms[j].sourceCol), ms[j].destType);
    hide Coerce, Coerced, MapRow, MapRows, NamePreserving, BeforeParen, Upper, Get;
  }

  lemma {:induction false} MapRowsAt(dumps: Dumps, rows: seq<Row>, ms: seq<ColumnMapping>, i: nat)
    requires i < |rows| && MapRows(dumps, rows, ms).Ok?
    ensures MapRow(dumps, rows[i], ms) == Ok(MapRows(dumps, rows, ms).value[i])
    decreases |rows|
  {
    hide MapRow;
    if i < |rows| - 1 {
      MapRowsAt(dumps, rows[..|rows| - 1], ms, i);
    }
  }

  /** Mapping a mapped row again changes nothing (and cannot fail). */
  lemma MapRowTwice(dumps: Dumps, row: Row, ms: seq<ColumnMapping>)
    requires NamePreserving(ms) && MapRow(dumps, row, ms).Ok?
    ensures MapRow(dumps, MapRow(dumps, row, ms).value, ms) == MapRow(dumps, row, ms)
  {
    var out := MapRow(dumps, row, ms).value;
    forall j | 0 <= j < |ms| && ms[j].included
      ensures Coerce(dumps, Get(out, ms[j].sourceCol), ms[j].destType)
           == Coerce(dumps, Get(row, ms[j].sourceCol), ms[j].destType)
    {
      MapRowAt(dumps, row, ms, j);
      CoerceTwice(dumps, Get(row, ms[j].sourceCol), ms[j].destType);
    }
    SameCells(dumps, row, out, ms);
  }

  /** Rows whose mapped cells coerce alike are mapped alike. */
  lemma {:induction false} SameCells(dumps: Dumps, a: Row, b: Row, ms: seq<ColumnMapping>)
    requires forall j :: 0 <= j < |ms| && ms[j].included ==>
      Coerce(dumps, Get(a, ms[j].sourceCol), ms[j].destType) == Coerce(dumps, Get(b, ms[j].sourceCol), ms[j].destType)
    ensures MapRow(dumps, a, ms) == MapRow(dumps, b, ms)
    decreases |ms|
  {
    if ms != [] {
      var n := |ms| - 1;
      assert forall j :: 0 <= j < n ==> ms[..n][j] == ms[j];
      SameCells(dumps, a, b, ms[..n]);
    }
  }

  // ---------- A whole table, as the destination will see it ----------

  /** Rows of the table up to the first one whose mapping raises. */
  function Mappable(dumps: Dumps, rows: seq<Row>, ms: seq<ColumnMapping>): (good: nat)
    ensures good <= |rows|
    ensures MapRows(dumps, rows[..good], ms).Ok?
    ensures good < |rows| ==> MapRow(dumps, rows[good], ms).Err?
  {
    if rows == [] then 0
    else
      var n := |rows| - 1;
      var g := Mappable(dumps, rows[..n], ms);
      assert rows[..n][..g] == rows[..g];
      if g < n then g
      else if MapRow(dumps, rows[n], ms).Ok? then
        assert rows[..n][..n] == rows[..n] && rows[..n + 1] == rows;
        n + 1
      else n
  }

  /** The table after mapping; rows that cannot be mapped appear as empty rows. */
  function Mapped(dumps: Dumps, rows: seq<Row>, ms: seq<ColumnMapping>): (out: seq<Row>)
    ensures |out| == |rows|
  {
    seq(|rows|, i requires 0 <= i < |rows| =>
      var r := MapRow(dumps, rows[i], ms);
      if r.Ok? then r.value else map[])
  }

  /** Mapping a slice gives the slice of the mapped table, and raises exactly when the
      slice reaches beyond the mappable rows. */
  lemma {:induction false} MapSlice(dumps: Dumps, rows: seq<Row>, ms: seq<ColumnMapping>, lo: nat, hi: nat)
    requires lo <= hi <= |rows| && lo <= Mappable(dumps, rows, ms)
    ensures hi <= Mappable(dumps, rows, ms) ==> MapRows(dumps, rows[lo..hi], ms) == Ok(Mapped(dumps, rows, ms)[lo..hi])
    ensures hi > Mappable(dumps, rows, ms) ==> MapRows(dumps, rows[lo..hi], ms).Err?
    decreases hi - lo
  {
    hide Mappable, MapRow;
    var good := Mappable(dumps, rows, ms);
    if lo < hi {
      MapSlice(dumps, rows, ms, lo, hi - 1);
      assert rows[lo..hi][..hi - lo - 1] == rows[lo..hi - 1];
      assert rows[lo..hi][hi - lo - 1] == rows[hi - 1];
      if hi <= good {
        MappablePrefix(dumps, rows[..good], ms, hi - 1);
        assert rows[..good][hi - 1] == rows[hi - 1];
        var all := Mapped(dumps, rows, ms);
        assert all[lo..hi] == all[lo..hi - 1] + [all[hi - 1]];
        assert MapRow(dumps, rows[hi - 1], ms) == Ok(all[hi - 1]);
      } else if hi - 1 <= good {
        assert hi - 1 == good;
      }
    } else {
      assert rows[lo..hi] == [] && Mapped(dumps, rows, ms)[lo..hi] == [];
    }
  }

  lemma {:induction false} MappablePrefix(dumps: Dumps, rows: seq<Row>, ms: seq<ColumnMapping>, i: nat)
    requires i < |rows| && MapRows(dumps, rows, ms).Ok?
    ensures MapRow(dumps, rows[i], ms).Ok?
    decreases |rows|
  {
    if i < |rows| - 1 {
      MappablePrefix(dumps, rows[..|rows| - 1], ms, i);
    }
  }

  /** Projecting first gives the same mapped batch. */
  lemma {:induction false} ProjectBatch(dumps: Dumps, rows: seq<Row>, projected: seq<Row>, ms: seq<ColumnMapping>,
      cols: set<string>)
    requires Wanted(ms) <= cols && |projected| == |rows|
    requires forall i :: 0 <= i < |rows| ==> projected[i] == Project(rows[i], cols)
    ensures MapRows(dumps, projected, ms) == MapRows(dumps, rows, ms)
    decreases |rows|
  {
    if rows != [] {
      var n := |rows| - 1;
      ProjectBatch(dumps, rows[..n], projected[..n], ms, cols);
      ProjectionPushdown(dumps, rows[n], ms, cols);
    }
  }
}
