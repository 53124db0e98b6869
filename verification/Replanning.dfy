/** Planning again after the destination was created: when the rebuilt plan sends the same
    rows as the first one. */
module Replanning {
  import opened Common
  import opened Schema
  import opened Text
  import opened Mapper
  import opened Validator
  import opened Executor
  import opened SqliteSchema
  import opened Tables

  // ---------- Type names that change when they are read back ----------

  /** The type name a database reports for a column that create_table declared with a type. */
  type Reports = string -> string

  lemma SpecialWord(u: string)
    requires u in BOOLEAN_TYPES || u in INTEGER_TYPES || u in STRING_TYPES
    ensures UpperLetters(u) && Affinity(Lower(u)) == Some(u)
  {
    hide Affinity, Lower, UpperLetters;
    if u in INTEGER_TYPES { NumberTypesStable(u); } else { TextTypesStable(u); }
  }

  /** A type that coercions treat specially is one the affinity table maps to itself. */
  lemma SpecialTypesStable(t: string)
    requires
      var u := BeforeParen(Upper(t));
      u in BOOLEAN_TYPES || u in INTEGER_TYPES || u in STRING_TYPES
    ensures SameKind(t, Normalise(t))
  {
    hide Affinity, Strip, Upper, Lower, UpperLetters, BeforeParen, SameKind;
    var u := BeforeParen(Upper(t));
    SpecialWord(u);
    WordIsStripped(u);
    WordIsPlain(u);
    BeforeParenCases(t);
    assert Normalise(t) == u;
    SameBaseSameKind(t, u);
  }

  lemma SameBaseSameKind(t: string, u: string)
    requires BeforeParen(Upper(t)) == BeforeParen(Upper(u))
    ensures SameKind(t, u)
  {
    hide BeforeParen, Upper;
  }

  /** A coercion to a column's declared type and one to the type SQLite reports for it agree
      exactly if the types are of one kind or the latter leaves the value alone. */
  lemma NormaliseCoercesExactly(dumps: Dumps, v: Value, t: string)
    ensures Coerce(dumps, v, t) == Coerce(dumps, v, Normalise(t)) <==>
      SameKind(t, Normalise(t)) || !ActsOn(Normalise(t), v)
  {
    CoerceAgreesExactly(dumps, v, t, Normalise(t));
    var base := BeforeParen(Upper(t));
    if base in BOOLEAN_TYPES || base in INTEGER_TYPES || base in STRING_TYPES {
      SpecialTypesStable(t);
      hide Normalise, SameKind, ActsOn, Coerce;
    } else {
      hide Normalise, BeforeParen, Upper;
      assert !ActsOn(t, v);
    }
  }

  /** What the MySQL provider makes of a data type that the server reports. */
  function MySqlName(dataType: string): string {
    if Lower(dataType) == "numeric" then "DECIMAL"
    else if Lower(dataType) in ["bool", "boolean"] then "BOOLEAN"
    else if Lower(dataType) in ["enum", "set"] then "VARCHAR"
    else Upper(dataType)
  }

  function MySqlReports(server: string -> string): Reports {
    t => MySqlName(server(t))
  }

  /** Reading the types back puts no column into another known family. */
  predicate Compatible(reports: Reports, source: TableSchema) {
    forall i :: 0 <= i < |source.columns| ==>
      !FamiliesConflict(source.columns[i].dataType, reports(source.columns[i].dataType))
  }

  lemma SqliteCompatible(source: TableSchema)
    ensures Compatible(Normalise, source)
  {
    hide Normalise, FamiliesConflict;
    forall i | 0 <= i < |source.columns|
      ensures !FamiliesConflict(source.columns[i].dataType, Normalise(source.columns[i].dataType))
    {
      NormalisedFamily(source.columns[i].dataType);
    }
  }

  lemma NormalisedFamily(t: string)
    ensures !FamiliesConflict(t, Normalise(t))
  {
    hide Normalise;
    if Family(t) != -1 { FamilyKept(t); }
  }

  // ---------- The plan rebuilt after create_table ----------

  /** The destination's columns are the source's, with the types reported for them. */
  predicate ReadBack(reports: Reports, source: TableSchema, dest: TableSchema) {
    && |dest.columns| == |source.columns|
    && forall i :: 0 <= i < |source.columns| ==>
         && dest.columns[i].name == source.columns[i].name
         && dest.columns[i].dataType == reports(source.columns[i].dataType)
  }

  lemma SqliteReadsBack(source: TableSchema, rowCount: nat)
    requires Distinct(Names(source.columns)) && source.primaryKeys == KeyNames(source.columns)
    ensures ReadBack(Normalise, source, Copy(source, rowCount))
  {
    hide Normalise, Copy;
    RoundTrip(source, rowCount);
  }

  /** Such a table passes validation if the types are compatible, and all columns are mapped,
      with the reported types. */
  lemma ReadBackMappings(reports: Reports, source: TableSchema, dest: TableSchema)
    requires Distinct(Names(source.columns)) && ReadBack(reports, source, dest)
    ensures source.columns != [] && Compatible(reports, source) ==> Validate(source, Some(dest)).Ok?
    ensures forall i :: 0 <= i < |source.columns| ==>
      var c := source.columns[i];
      Mappings(source, Some(dest))[i] == ColumnMapping(c.name, c.name, c.dataType, reports(c.dataType), true)
  {
    var cols := source.columns;
    assert Names(dest.columns) == Names(cols);
    forall i | 0 <= i < |cols|
      ensures cols[i].name in ByName(dest.columns) && ByName(dest.columns)[cols[i].name] == dest.columns[i]
    {
      ByNameDistinct(dest.columns, i);
    }
    SameLookups(cols, dest.columns);
    hide Validate, ByName, Names, FamiliesConflict;
    VerdictExactly(source, Some(dest));
  }

  lemma SameLookups(a: seq<ColumnSchema>, b: seq<ColumnSchema>)
    requires Names(a) == Names(b)
    ensures forall n :: n in ByName(b) ==> n in ByName(a)
  {
    ByNameHolds(a);
    ByNameHolds(b);
    hide ByName;
    forall n | n in ByName(b) ensures n in ByName(a) {
      var i :| 0 <= i < |b| && b[i] == ByName(b)[n];
      assert Names(a)[i] == Names(b)[i];
    }
  }

  /** Two mapping lists that differ in destination types only, and coerce a row's cells alike. */
  ghost predicate CoerceAlike(dumps: Dumps, row: Row, ms: seq<ColumnMapping>, ns: seq<ColumnMapping>) {
    && |ms| == |ns|
    && forall j :: 0 <= j < |ms| ==>
         && ns[j] == ms[j].(destType := ns[j].destType)
         && Coerce(dumps, Get(row, ms[j].sourceCol), ms[j].destType) == Coerce(dumps, Get(row, ms[j].sourceCol),
               ns[j].destType)
  }

  lemma {:induction false} MapRowAlike(dumps: Dumps, row: Row, ms: seq<ColumnMapping>, ns: seq<ColumnMapping>)
    requires CoerceAlike(dumps, row, ms, ns)
    ensures MapRow(dumps, row, ms) == MapRow(dumps, row, ns)
    decreases |ms|
  {
    hide Coerce;
    if ms != [] {
      MapRowAlike(dumps, row, ms[..|ms| - 1], ns[..|ns| - 1]);
    }
  }

  lemma {:induction false} MappableAlike(dumps: Dumps, rows: seq<Row>, ms: seq<ColumnMapping>, ns: seq<ColumnMapping>)
    requires forall i :: 0 <= i < |rows| ==> MapRow(dumps, rows[i], ms) == MapRow(dumps, rows[i], ns)
    ensures Mappable(dumps, rows, ms) == Mappable(dumps, rows, ns)
    ensures Mapped(dumps, rows, ms) == Mapped(dumps, rows, ns)
    decreases |rows|
  {
    hide MapRow, MapRows;
    assert Mapped(dumps, rows, ms) == Mapped(dumps, rows, ns);
    hide Mapped;
    if rows != [] {
      var n := |rows| - 1;
      assert forall i :: 0 <= i < n ==> rows[..n][i] == rows[i];
      MappableAlike(dumps, rows[..n], ms, ns);
    }
  }

  /** A row cannot be mapped exactly if some cell cannot be coerced. */
  lemma {:induction false} MapRowRaisesExactly(dumps: Dumps, row: Row, ms: seq<ColumnMapping>)
    requires forall j :: 0 <= j < |ms| ==> ms[j].included
    ensures MapRow(dumps, row, ms).Err? <==>
      exists j :: 0 <= j < |ms| && Coerce(dumps, Get(row, ms[j].sourceCol), ms[j].destType).Err?
    decreases |ms|
  {
    hide Coerce;
    if ms != [] {
      var n := |ms| - 1;
      MapRowRaisesExactly(dumps, row, ms[..n]);
      assert forall j :: 0 <= j < n ==> ms[..n][j] == ms[j];
    }
  }

  /** The row has a non-finite float in a column of an integer type. */
  predicate Unmappable(reports: Reports, cols: seq<ColumnSchema>, row: Row) {
    exists j :: 0 <= j < |cols|
      && Get(row, cols[j].name).NonFinite? && BeforeParen(Upper(reports(cols[j].dataType))) in INTEGER_TYPES
  }

  /** The cell's value is treated the same by the declared and the reported type. */
  predicate CellKept(reports: Reports, col: ColumnSchema, row: Row) {
    var t, v := col.dataType, Get(row, col.name);
    SameKind(t, reports(t)) || (!ActsOn(t, v) && !ActsOn(reports(t), v))
  }

  /** The row cannot be mapped before or after, or every cell of it is kept. */
  predicate RowKept(reports: Reports, cols: seq<ColumnSchema>, row: Row) {
    || (Unmappable(Declared, cols, row) && Unmappable(reports, cols, row))
    || (forall j :: 0 <= j < |cols| ==> CellKept(reports, cols[j], row))
  }

  function Declared(t: string): string {
    t
  }

  predicate RowsKept(reports: Reports, env: Env, p: TablePlan) {
    forall i :: 0 <= i < |env.source(p.name)| ==> RowKept(reports, p.sourceSchema.columns, env.source(p.name)[i])
  }

  /** p was planned without a destination table, q with the one created from p's schema. */
  ghost predicate Replanned(reports: Reports, p: TablePlan, q: TablePlan, dest: TableSchema) {
    && p.sourceSchema.columns != [] && Distinct(Names(p.sourceSchema.columns))
    && ReadBack(reports, p.sourceSchema, dest) && q.name == p.name
    && p.mappings == Mappings(p.sourceSchema, None) && q.mappings == Mappings(p.sourceSchema, Some(dest))
  }

  /** One mapping per column, to the type that is reported for it. */
  predicate MappedTo(reports: Reports, cols: seq<ColumnSchema>, ms: seq<ColumnMapping>) {
    && |ms| == |cols|
    && forall i :: 0 <= i < |ms| ==>
         ms[i] == ColumnMapping(cols[i].name, cols[i].name, cols[i].dataType, reports(cols[i].dataType), true)
  }

  lemma ReplannedMappings(reports: Reports, p: TablePlan, q: TablePlan, dest: TableSchema)
    requires Replanned(reports, p, q, dest)
    ensures MappedTo(Declared, p.sourceSchema.columns, p.mappings)
    ensures MappedTo(reports, p.sourceSchema.columns, q.mappings)
    ensures Active(p.mappings) != [] && Active(q.mappings) != []
    ensures NamePreserving(p.mappings) && NamePreserving(q.mappings)
  {
    hide ReadBack;
    ReadBackMappings(reports, p.sourceSchema, dest);
    AllActive(p.mappings);
    AllActive(q.mappings);
    BuiltMappingsPreserveNames(p.sourceSchema, None);
    BuiltMappingsPreserveNames(p.sourceSchema, Some(dest));
  }

  lemma UnmappableRaises(dumps: Dumps, reports: Reports, cols: seq<ColumnSchema>, ms: seq<ColumnMapping>, row: Row)
    requires MappedTo(reports, cols, ms)
    ensures MapRow(dumps, row, ms).Err? <==> Unmappable(reports, cols, row)
  {
    MapRowRaisesExactly(dumps, row, ms);
    hide MapRow, Coerce, Get, BeforeParen, Upper;
    forall j | 0 <= j < |cols|
      ensures Coerce(dumps, Get(row, ms[j].sourceCol), ms[j].destType).Err? <==>
        Get(row, cols[j].name).NonFinite? && BeforeParen(Upper(reports(cols[j].dataType))) in INTEGER_TYPES
    {
      CoerceFailsExactly(dumps, Get(row, cols[j].name), reports(cols[j].dataType));
    }
  }

  /** One row, mapped with the declared and with the reported types. */
  lemma RowKeptExactly(dumps: Dumps, reports: Reports, cols: seq<ColumnSchema>, ms: seq<ColumnMapping>,
      ns: seq<ColumnMapping>, row: Row)
    requires MappedTo(Declared, cols, ms) && MappedTo(reports, cols, ns)
    requires NamePreserving(ms) && NamePreserving(ns)
    ensures RowKept(reports, cols, row) <==> MapRow(dumps, row, ms) == MapRow(dumps, row, ns)
  {
    hide MapRow, Coerce, ActsOn, SameKind, Get, Unmappable, CellKept, NamePreserving;
    UnmappableRaises(dumps, Declared, cols, ms, row);
    UnmappableRaises(dumps, reports, cols, ns, row);
    OneError(MapRow(dumps, row, ms), MapRow(dumps, row, ns));
    if forall j :: 0 <= j < |cols| ==> CellKept(reports, cols[j], row) {
      forall j | 0 <= j < |ms|
        ensures ns[j] == ms[j].(destType := ns[j].destType)
        ensures Coerce(dumps, Get(row, ms[j].sourceCol), ms[j].destType)
             == Coerce(dumps, Get(row, ms[j].sourceCol), ns[j].destType)
      {
        CellKeptExactly(dumps, reports, cols[j], row);
      }
      MapRowAlike(dumps, row, ms, ns);
    } else if MapRow(dumps, row, ms).Ok? && MapRow(dumps, row, ms) == MapRow(dumps, row, ns) {
      forall j | 0 <= j < |cols| ensures CellKept(reports, cols[j], row) {
        MapRowAt(dumps, row, ms, j);
        MapRowAt(dumps, row, ns, j);
        CellKeptExactly(dumps, reports, cols[j], row);
      }
    }
  }

  lemma CellKeptExactly(dumps: Dumps, reports: Reports, col: ColumnSchema, row: Row)
    ensures CellKept(reports, col, row) <==>
      Coerce(dumps, Get(row, col.name), col.dataType) == Coerce(dumps, Get(row, col.name), reports(col.dataType))
  {
    hide Coerce, ActsOn, SameKind, Get;
    CoerceAgreesExactly(dumps, Get(row, col.name), col.dataType, reports(col.dataType));
  }

  /** REPLANNING SENDS THE SAME ROWS EXACTLY IF each row either cannot be mapped with the
      declared nor with the reported types, or has only cells that both treat the same. */
  lemma ReplannedFeedExactly(reports: Reports, env: Env, p: TablePlan, q: TablePlan, dest: TableSchema)
    requires Replanned(reports, p, q, dest)
    ensures SameFeed(env, q, p) <==> RowsKept(reports, env, p)
  {
    var rows, ms, ns, cols := env.source(p.name), p.mappings, q.mappings, p.sourceSchema.columns;
    ReplannedMappings(reports, p, q, dest);
    forall i | 0 <= i < |rows|
      ensures RowKept(reports, cols, rows[i]) <==> MapRow(env.dumps, rows[i], ms) == MapRow(env.dumps, rows[i], ns)
    {
      RowKeptExactly(env.dumps, reports, cols, ms, ns, rows[i]);
    }
    hide RowKept, MapRow, Mappable, NamePreserving, Active, ReadBack;
    if RowsKept(reports, env, p) {
      MappableAlike(env.dumps, rows, ms, ns);
    }
    if SameFeed(env, q, p) {
      forall i | 0 <= i < |rows| ensures RowKept(reports, cols, rows[i]) {
        assert Feed(env, p)[i] == Feed(env, q)[i];
        SameMappedRow(env.dumps, rows, ms, ns, i);
      }
    }
  }

  /** A row that can be mapped is not empty, so no other row looks like one that cannot. */
  lemma SameMappedRow(dumps: Dumps, rows: seq<Row>, ms: seq<ColumnMapping>, ns: seq<ColumnMapping>, i: nat)
    requires i < |rows| && Active(ms) != [] && Active(ns) != []
    requires Mapped(dumps, rows, ms)[i] == Mapped(dumps, rows, ns)[i]
    ensures MapRow(dumps, rows[i], ms) == MapRow(dumps, rows[i], ns)
  {
    hide MapRow;
    SomethingMapped(dumps, rows[i], ms);
    SomethingMapped(dumps, rows[i], ns);
    OneError(MapRow(dumps, rows[i], ms), MapRow(dumps, rows[i], ns));
  }

  lemma OneError(a: Result<Row, CoercionError>, b: Result<Row, CoercionError>)
    ensures a.Err? && b.Err? ==> a == b
  {
    if a.Err? && b.Err? { assert a.error == NotAnInteger == b.error; }
  }

  lemma SomethingMapped(dumps: Dumps, row: Row, ms: seq<ColumnMapping>)
    requires Active(ms) != []
    ensures MapRow(dumps, row, ms).Ok? ==> MapRow(dumps, row, ms).value != map[]
  {
    if MapRow(dumps, row, ms).Ok? {
      MapRowKeys(dumps, row, ms);
      ActiveHolds(ms, Active(ms)[0]);
      hide MapRow;
      assert Active(ms)[0].destCol in Targets(ms);
    }
  }

  lemma AllActive(ms: seq<ColumnMapping>)
    requires ms != [] && ms[0].included
    ensures Active(ms) != []
  {
    ActiveHolds(ms, ms[0]);
  }

  // ---------- Which destinations keep the rows ----------

  /** What a source delivers in a column whose type only SQLite's normalisation turns into a
      special one: MySQL's INT, MEDIUMINT and TINYINT columns hold integers. */
  predicate Delivered(col: ColumnSchema, row: Row) {
    || SameKind(col.dataType, Normalise(col.dataType))
    || (col.dataType in ["INT", "MEDIUMINT", "TINYINT"] && (Get(row, col.name).Null? || Get(row, col.name).Int?))
  }

  /** A SQLITE DESTINATION KEEPS THE ROWS: with the cells that are delivered, replanning
      after create_table sends the same rows. */
  lemma SqliteKeepsRows(env: Env, p: TablePlan)
    requires forall i, j :: 0 <= i < |env.source(p.name)| && 0 <= j < |p.sourceSchema.columns| ==>
      Delivered(p.sourceSchema.columns[j], env.source(p.name)[i])
    ensures RowsKept(Normalise, env, p)
  {
    hide Delivered, CellKept, Unmappable;
    forall i | 0 <= i < |env.source(p.name)|
      ensures RowKept(Normalise, p.sourceSchema.columns, env.source(p.name)[i])
    {
      forall j | 0 <= j < |p.sourceSchema.columns|
        ensures CellKept(Normalise, p.sourceSchema.columns[j], env.source(p.name)[i])
      {
        DeliveredIsKept(p.sourceSchema.columns[j], env.source(p.name)[i]);
      }
    }
  }

  lemma DeliveredIsKept(col: ColumnSchema, row: Row)
    ensures Delivered(col, row) ==> CellKept(Normalise, col, row)
  {
    var t, v := col.dataType, Get(row, col.name);
    hide Normalise, SameKind, Get;
    if Delivered(col, row) && !SameKind(t, Normalise(t)) {
      SpecialIsSameKind(t);
      if v.Int? { IntegersStayIntegers(t); }
      hide BeforeParen, Upper;
    }
  }

  lemma SpecialIsSameKind(t: string)
    ensures
      var u := BeforeParen(Upper(t));
      u in BOOLEAN_TYPES || u in INTEGER_TYPES || u in STRING_TYPES ==> SameKind(t, Normalise(t))
  {
    hide Normalise, SameKind, BeforeParen, Upper;
    var u := BeforeParen(Upper(t));
    if u in BOOLEAN_TYPES || u in INTEGER_TYPES || u in STRING_TYPES { SpecialTypesStable(t); }
  }

  lemma IntegersStayIntegers(t: string)
    requires t in ["INT", "MEDIUMINT", "TINYINT"]
    ensures BeforeParen(Upper(Normalise(t))) !in BOOLEAN_TYPES
  {
    hide Affinity, Upper, BeforeParen;
    IntegerKeys(t);
    WordIsPlain("INTEGER");
    WordIsPlain("SMALLINT");
    assert "INTEGER"[0] == 'I' && "SMALLINT"[0] == 'S';
  }

  lemma IntegerKeys(t: string)
    requires t in ["INT", "MEDIUMINT", "TINYINT"]
    ensures Normalise(t) in ["INTEGER", "SMALLINT"] && UpperLetters("INTEGER") && UpperLetters("SMALLINT")
  {
    hide Affinity, Lower, UpperLetters;
    IntWords(t);
    KeyOfWord(t);
    hide KeyOf;
    PlainWords();
  }

  lemma PlainWords()
    ensures UpperLetters("INTEGER") && UpperLetters("SMALLINT")
  {
  }

  lemma IntWords(t: string)
    requires t in ["INT", "MEDIUMINT", "TINYINT"]
    ensures UpperLetters(t) && Affinity(Lower(t)) in [Some("INTEGER"), Some("SMALLINT")]
  {
    hide Affinity;
    var l := Lower(t);
    assert l in ["int", "mediumint", "tinyint"] by {
      assert Lower("INT") == "int" && Lower("MEDIUMINT") == "mediumint" && Lower("TINYINT") == "tinyint";
    }
    hide Lower;
    IntKeys(l);
  }

  lemma IntKeys(key: string)
    requires key in ["int", "mediumint", "tinyint"]
    ensures Affinity(key) in [Some("INTEGER"), Some("SMALLINT")]
  {
  }

  /** A SQLite table whose INTEGER column holds the number 1.5, as its affinity allows. */
  const LOOSE_SOURCE := TableSchema("t", [ColumnSchema("n", "INTEGER", true, false, None, None)], [], 1)

  /** A MYSQL DESTINATION DOES NOT: it stores a column declared INTEGER as int, which is
      reported as INT. The first launch sends 1, a restarted one 1.5. */
  lemma MySqlChangesRows(env: Env, server: string -> string, dest: TableSchema)
    requires server("INTEGER") == "int" && env.source("t") == [map["n" := Float(1.5)]]
    requires ReadBack(MySqlReports(server), LOOSE_SOURCE, dest)
    ensures
      var p := TablePlan("t", LOOSE_SOURCE, None, Mappings(LOOSE_SOURCE, None), 1, false);
      var q := TablePlan("t", LOOSE_SOURCE, Some(dest), Mappings(LOOSE_SOURCE, Some(dest)), 1, false);
      && Validate(LOOSE_SOURCE, Some(dest)).Ok?
      && Feed(env, p) == [map["n" := Int(1)]] && Feed(env, q) == [map["n" := Float(1.5)]]
  {
    var p := TablePlan("t", LOOSE_SOURCE, None, Mappings(LOOSE_SOURCE, None), 1, false);
    var q := TablePlan("t", LOOSE_SOURCE, Some(dest), Mappings(LOOSE_SOURCE, Some(dest)), 1, false);
    var reports := MySqlReports(server);
    hide Validate, Mappings, Mapped, Mappable, Family, MySqlName;
    IntReadsBack();
    assert reports("INTEGER") == "INT";
    IntUnknown();
    ReadBackMappings(reports, LOOSE_SOURCE, dest);
    ReplannedMappings(reports, p, q, dest);
    IntCoercions(env.dumps);
    hide ReadBack, Coerce, NamePreserving;
    OneRow(env, p, Int(1));
    OneRow(env, q, Float(1.5));
  }

  lemma OneRow(env: Env, p: TablePlan, v: Value)
    requires p.name == "t" && env.source("t") == [map["n" := Float(1.5)]]
    requires |p.mappings| == 1 && p.mappings[0].included && p.mappings[0].sourceCol == p.mappings[0].destCol == "n"
    requires Coerce(env.dumps, Float(1.5), p.mappings[0].destType) == Ok(v) && Active(p.mappings) != []
    ensures Feed(env, p) == [map["n" := v]]
  {
    hide Coerce, Active;
    OneCell(env.dumps, env.source("t")[0], p.mappings);
    hide MapRow;
  }

  lemma IntReadsBack()
    ensures MySqlName("int") == "INT"
  {
    assert Lower("int") == "int" && |"int"| == 3;
    assert "int" != "set" by { assert "int"[0] != "set"[0]; }
    assert Upper("int") == "INT";
  }

  lemma IntCoercions(dumps: Dumps)
    ensures Coerce(dumps, Float(1.5), "INTEGER") == Ok(Int(1))
    ensures Coerce(dumps, Float(1.5), "INT") == Ok(Float(1.5))
  {
    hide Upper, BeforeParen;
    assert UpperLetters("INT") && UpperLetters("INTEGER");
    WordIsPlain("INT");
    WordIsPlain("INTEGER");
    assert |"INT"| == 3 && |"INTEGER"| == 7 && "INTEGER"[0] != 'B';
  }

  lemma IntUnknown()
    ensures Family("INT") == -1
  {
    hide Upper, BeforeParen, FamilyFrom;
    assert UpperLetters("INT");
    WordIsPlain("INT");
    IntListedNowhere();
  }

  lemma IntListedNowhere()
    ensures FamilyFrom("INT", 0) == -1
  {
    hide FamilyFrom;
    assert |"INT"| == 3 && "INT"[0] == 'I';
    forall f | 0 <= f < |FAMILIES| ensures "INT" !in FAMILIES[f] {
      assert forall k :: 0 <= k < |FAMILIES[f]| ==> |FAMILIES[f][k]| != 3 || FAMILIES[f][k][0] != 'I';
    }
  }

  lemma OneCell(dumps: Dumps, row: Row, ms: seq<ColumnMapping>)
    requires |ms| == 1 && ms[0].included
    ensures MapRow(dumps, row, ms) ==
      match Coerce(dumps, Get(row, ms[0].sourceCol), ms[0].destType)
      case Err(e) => Err(e)
      case Ok(v) => Ok(map[ms[0].destCol := v])
  {
    hide Coerce;
    assert ms[..0] == [] && MapRow(dumps, row, ms[..0]) == Ok(map[]);
  }
}
