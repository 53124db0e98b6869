/** SQLite type names, CREATE TABLE and reading a schema back
    (app/providers/sqlite_provider.py), and why planning again after the destination was
    created does not change the copy. */
module SqliteSchema {
  import opened Common
  import opened Schema
  import opened Text
  import opened Mapper
  import opened Validator
  import opened ConflictRules

  /** The affinity table. */
  function Affinity(key: string): Option<string> {
    if key in ["integer", "int", "mediumint"] then Some("INTEGER")
    else if key in ["tinyint", "smallint"] then Some("SMALLINT")
    else if key == "bigint" then Some("BIGINT")
    else if key in ["real", "float"] then Some("FLOAT")
    else if key == "double" then Some("DOUBLE")
    else if key in ["numeric", "decimal"] then Some("DECIMAL")
    else if key in ["text", "clob"] then Some("TEXT")
    else if key in ["varchar", "character"] then Some("VARCHAR")
    else if key == "char" then Some("CHAR")
    else if key == "blob" then Some("BLOB")
    else if key == "boolean" then Some("BOOLEAN")
    else if key == "date" then Some("DATE")
    else if key == "datetime" then Some("DATETIME")
    else if key == "timestamp" then Some("TIMESTAMP")
    else if key == "json" then Some("JSON")
    else None
  }

  /** The table key of a declared type: lower case, up to the first parenthesis, stripped. */
  function KeyOf(declared: string): string {
    Strip(BeforeParen(Lower(declared)))
  }

  /** The type name get_table_schema reports for a declared type. */
  function Normalise(declared: string): string {
    match Affinity(KeyOf(declared))
    case Some(t) => t
    case None => if declared != "" then Upper(declared) else "TEXT"
  }

  predicate UpperLetters(s: string) {
    s != "" && forall i :: 0 <= i < |s| ==> 'A' <= s[i] <= 'Z'
  }

  lemma WordIsStripped(u: string)
    requires UpperLetters(u)
    ensures Strip(Lower(u)) == Lower(u)
  {
    var l := Lower(u);
    assert forall i :: 0 <= i < |l| ==> !Space(l[i]);
    assert StripLeft(l) == l && StripRight(l) == l;
  }

  /** A plain upper-case word is its own key, in lower case. */
  lemma KeyOfWord(s: string)
    requires UpperLetters(s)
    ensures KeyOf(s) == Lower(s)
  {
    var l := Lower(s);
    assert forall i :: 0 <= i < |l| ==> l[i] != '(';
    assert BeforeParen(l) == l;
    WordIsStripped(s);
  }

  const NUMBER_TYPES := ["INTEGER", "SMALLINT", "BIGINT", "FLOAT", "DOUBLE", "DECIMAL"]
  const TEXT_TYPES := ["TEXT", "VARCHAR", "CHAR", "BLOB", "BOOLEAN"]
  const TIME_TYPES := ["DATE", "DATETIME", "TIMESTAMP"]

  lemma AffinityValues(key: string)
    requires Affinity(key).Some?
    ensures
      var t := Affinity(key).value;
      t in NUMBER_TYPES || t in TEXT_TYPES || t in TIME_TYPES || t == "JSON"
  {
  }

  lemma NumberTypesStable(t: string)
    requires t in NUMBER_TYPES
    ensures UpperLetters(t) && Affinity(Lower(t)) == Some(t)
  {
    assert Lower("INTEGER") == "integer" && Lower("SMALLINT") == "smallint" && Lower("BIGINT") == "bigint";
    assert Lower("FLOAT") == "float" && Lower("DOUBLE") == "double" && Lower("DECIMAL") == "decimal";
  }

  lemma TextTypesStable(t: string)
    requires t in TEXT_TYPES
    ensures UpperLetters(t) && Affinity(Lower(t)) == Some(t)
  {
    assert Lower("TEXT") == "text" && Lower("VARCHAR") == "varchar" && Lower("CHAR") == "char";
    assert Lower("BLOB") == "blob" && Lower("BOOLEAN") == "boolean";
  }

  lemma TimeTypesStable(t: string)
    requires t in TIME_TYPES
    ensures UpperLetters(t) && Affinity(Lower(t)) == Some(t)
  {
    assert Lower("DATE") == "date" && Lower("DATETIME") == "datetime" && Lower("TIMESTAMP") == "timestamp";
  }

  lemma JsonStable()
    ensures UpperLetters("JSON") && Affinity(Lower("JSON")) == Some("JSON")
  {
    assert Lower("JSON") == "json";
  }

  /** Every type the table yields is a plain word that is mapped to itself. */
  lemma AffinityStable(key: string)
    requires Affinity(key).Some?
    ensures
      var t := Affinity(key).value;
      UpperLetters(t) && Affinity(Lower(t)) == Some(t)
  {
    AffinityValues(key);
    hide Affinity, Lower, UpperLetters;
    var t := Affinity(key).value;
    if t in NUMBER_TYPES {
      NumberTypesStable(t);
    } else if t in TEXT_TYPES {
      TextTypesStable(t);
    } else if t in TIME_TYPES {
      TimeTypesStable(t);
    } else {
      JsonStable();
    }
  }

  const TYPE_KEYS := [
    "integer", "int", "tinyint", "smallint", "mediumint", "bigint", "real", "float", "double", "numeric", "decimal",
    "text", "varchar", "character", "char", "clob", "blob", "boolean", "date", "datetime", "timestamp", "json"]

  /** The table knows these keys; those that are not the name of their own type are aliases. */
  lemma KeysExactly(key: string)
    ensures Affinity(key).Some? <==> key in TYPE_KEYS
  {
  }

  lemma IntegerAliases()
    ensures Affinity("int") == Affinity("mediumint") == Some("INTEGER") && Affinity("tinyint") == Some("SMALLINT")
  {
  }

  lemma OtherAliases()
    ensures Affinity("real") == Some("FLOAT") && Affinity("numeric") == Some("DECIMAL")
    ensures Affinity("clob") == Some("TEXT") && Affinity("character") == Some("VARCHAR")
  {
    assert "real"[0] == 'r' && "numeric"[0] == 'n' && |"clob"| == 4 && |"character"| == 9;
  }

  lemma EmptyKey()
    ensures KeyOf("") == "" && Affinity("").None?
  {
  }

  lemma EmptyType()
    ensures Normalise("") == "TEXT" == Normalise("TEXT")
  {
    hide Affinity, KeyOf, Lower;
    EmptyKey();
    TextTypesStable("TEXT");
    KeyOfWord("TEXT");
  }

  /** NORMALISATION IS IDEMPOTENT, on every ASCII type string. */
  lemma NormaliseTwice(declared: string)
    ensures Normalise(Normalise(declared)) == Normalise(declared)
  {
    hide Affinity, Strip, BeforeParen, Lower, Upper;
    var key := KeyOf(declared);
    if Affinity(key).Some? {
      AffinityStable(key);
      KeyOfWord(Normalise(declared));
    } else if declared == "" {
      EmptyType();
    } else {
      UpperTwice(declared);
    }
  }

  // ---------- Normalisation keeps the type family ----------

  lemma {:induction false} BeforeParenCases(s: string)
    ensures Lower(BeforeParen(Upper(s))) == BeforeParen(Lower(s))
    decreases |s|
  {
    if s != [] && s[0] != '(' {
      var u, l := Upper(s), Lower(s);
      BeforeParenCases(s[1..]);
      assert u[1..] == Upper(s[1..]) && l[1..] == Lower(s[1..]);
      hide Upper, Lower;
      LowerSplit(UpperChar(s[0]), BeforeParen(u[1..]));
    }
  }

  lemma LowerSplit(c: char, s: string)
    ensures Lower([c] + s) == [LowerChar(c)] + Lower(s)
  {
  }

  lemma WordsWithN(u: string)
    requires u in ["NCHAR", "NVARCHAR", "NTEXT"]
    ensures UpperLetters(u) && Affinity(Lower(u)).None?
  {
    var l := Lower(u);
    assert l[0] == 'n' && l[1] != 'u';
  }

  lemma WordsWithT(u: string)
    requires u in ["TIME", "TIMETZ", "TIMESTAMPTZ"]
    ensures UpperLetters(u) && Affinity(Lower(u)).None?
  {
    var l := Lower(u);
    assert l[0] == 't' && l[1] == 'i' && |l| in [4, 6, 11];
  }

  lemma WordsWithB(u: string)
    requires u in ["BOOL", "BIT", "BYTEA", "BINARY"]
    ensures UpperLetters(u) && Affinity(Lower(u)).None?
  {
    var l := Lower(u);
    assert l[0] == 'b' && l[1] != 'l' && |l| < 7;
    if |l| == 6 { assert l[2] == 'n'; }
  }

  lemma OtherWords(u: string)
    requires u in ["VARBINARY", "JSONB"]
    ensures UpperLetters(u) && Affinity(Lower(u)).None?
  {
    var l := Lower(u);
    assert (|l| == 9 && l[0] == 'v') || (|l| == 5 && l[0] == 'j');
  }

  /** A listed word of a known family is its own key; the table maps it to itself, leaves
      it alone, or maps NUMERIC to DECIMAL. */
  lemma FamilyWord(u: string, f: nat)
    requires f < |FAMILIES| && u in FAMILIES[f]
    ensures UpperLetters(u)
    ensures Affinity(Lower(u)) in {None, Some(u)} || (f == 0 && Affinity(Lower(u)) == Some("DECIMAL"))
  {
    hide Affinity, Lower, UpperLetters;
    if u in NUMBER_TYPES {
      NumberTypesStable(u);
    } else if u in TEXT_TYPES {
      TextTypesStable(u);
    } else if u in TIME_TYPES {
      TimeTypesStable(u);
    } else if u == "JSON" {
      JsonStable();
    } else if f == 0 {
      Numeric();
    } else if f == 1 {
      WordsWithN(u);
    } else if f == 2 {
      WordsWithT(u);
    } else if u in ["VARBINARY", "JSONB"] {
      OtherWords(u);
    } else {
      WordsWithB(u);
    }
  }

  lemma Numeric()
    ensures UpperLetters("NUMERIC") && Affinity(Lower("NUMERIC")) == Some("DECIMAL")
  {
    assert Lower("NUMERIC") == "numeric";
  }

  lemma DecimalIsNumber()
    ensures Family("DECIMAL") == 0
  {
    assert Upper("DECIMAL") == "DECIMAL" && BeforeParen("DECIMAL") == "DECIMAL";
    assert "DECIMAL" in FAMILIES[0];
  }

  lemma WordIsPlain(u: string)
    requires UpperLetters(u)
    ensures Upper(u) == u && BeforeParen(u) == u
  {
    hide BeforeParen;
    assert forall i :: 0 <= i < |u| ==> UpperChar(u[i]) == u[i];
    assert forall i :: 0 <= i < |u| ==> u[i] != '(';
  }

  /** Normalisation never moves a type of a known family into another family. */
  lemma FamilyKept(declared: string)
    requires Family(declared) != -1
    ensures Family(Normalise(declared)) == Family(declared)
  {
    var u, f := BeforeParen(Upper(declared)), Family(declared);
    FamilyWord(u, f);
    WordIsPlain(u);
    WordIsStripped(u);
    BeforeParenCases(declared);
    assert KeyOf(declared) == Lower(u);
    DecimalIsNumber();
    hide Affinity, Strip, Lower, FamilyFrom;
    if Affinity(Lower(u)).None? {
      UpperTwice(declared);
    }
  }

  // ---------- CREATE TABLE and PRAGMA table_info ----------

  datatype ColumnDef = ColumnDef(name: string, declared: string, notNull: bool, inlineKey: bool)

  /** A CREATE TABLE statement: column definitions and the composite key clause. */
  datatype Ddl = Ddl(columns: seq<ColumnDef>, compositeKey: seq<string>)

  /** One row of PRAGMA table_info. */
  datatype TableInfo = TableInfo(name: string, declared: string, notNull: bool, default: Option<string>, pk: bool)

  function DefOf(col: ColumnSchema, keys: seq<string>): ColumnDef {
    ColumnDef(col.name, col.dataType, !col.isNullable, col.isPrimaryKey && |keys| == 1)
  }

  function DdlOf(schema: TableSchema): Ddl {
    Ddl(seq(|schema.columns|, i requires 0 <= i < |schema.columns| => DefOf(schema.columns[i], schema.primaryKeys)),
        if |schema.primaryKeys| > 1 then schema.primaryKeys else [])
  }

  method CreateTable(schema: TableSchema) returns (ddl: Ddl)
    ensures ddl == DdlOf(schema)
  {
    var colDefs: seq<ColumnDef> := [];
    for i := 0 to |schema.columns|
      invariant colDefs == DdlOf(schema).columns[..i]
    {
      var col := schema.columns[i];
      colDefs := colDefs + [ColumnDef(col.name, col.dataType, !col.isNullable,
                                      col.isPrimaryKey && |schema.primaryKeys| == 1)];
    }
    ddl := Ddl(colDefs, if |schema.primaryKeys| > 1 then schema.primaryKeys else []);
  }

  /** What SQLite then reports: names and types as declared, key membership from either clause. */
  function InfoOf(ddl: Ddl): (info: seq<TableInfo>)
    ensures |info| == |ddl.columns|
  {
    seq(|ddl.columns|, i requires 0 <= i < |ddl.columns| =>
      var c := ddl.columns[i];
      TableInfo(c.name, c.declared, c.notNull, None, c.inlineKey || c.name in ddl.compositeKey))
  }

  function ColumnOf(row: TableInfo): ColumnSchema {
    ColumnSchema(row.name, Normalise(row.declared), !row.notNull, row.pk, row.default, None)
  }

  function ColumnsOf(info: seq<TableInfo>): (cols: seq<ColumnSchema>)
    ensures |cols| == |info|
  {
    seq(|info|, i requires 0 <= i < |info| => ColumnOf(info[i]))
  }

  function KeyNames(cols: seq<ColumnSchema>): seq<string> {
    if cols == [] then []
    else
      var n := |cols| - 1;
      KeyNames(cols[..n]) + (if cols[n].isPrimaryKey then [cols[n].name] else [])
  }

  function SchemaOf(name: string, info: seq<TableInfo>, rowCount: nat): TableSchema {
    TableSchema(name, ColumnsOf(info), KeyNames(ColumnsOf(info)), rowCount)
  }

  method GetTableSchema(name: string, info: seq<TableInfo>, rowCount: nat) returns (schema: TableSchema)
    ensures schema == SchemaOf(name, info, rowCount)
  {
    hide ColumnOf;
    var columns: seq<ColumnSchema> := [];
    var pks: seq<string> := [];
    for i := 0 to |info|
      invariant columns == ColumnsOf(info)[..i] && pks == KeyNames(columns)
    {
      var col := ColumnOf(info[i]);
      var before := columns;
      columns := columns + [col];
      assert columns[..i] == before;
      if col.isPrimaryKey {
        pks := pks + [col.name];
      }
    }
    assert ColumnsOf(info)[..|info|] == ColumnsOf(info);
    schema := TableSchema(name, columns, pks, rowCount);
  }

  /** The copy of a schema, as SQLite reports it after create_table. */
  function Copy(schema: TableSchema, rowCount: nat): TableSchema {
    SchemaOf(schema.name, InfoOf(DdlOf(schema)), rowCount)
  }

  lemma {:induction false} KeyNamesHold(cols: seq<ColumnSchema>, i: nat)
    requires i < |cols| && Distinct(Names(cols))
    ensures cols[i].name in KeyNames(cols) <==> cols[i].isPrimaryKey
    ensures forall n :: n in KeyNames(cols) ==> n in Names(cols)
    decreases |cols|
  {
    KeyNamesAreNames(cols);
    var n := |cols| - 1;
    assert Names(cols[..n]) == Names(cols)[..n];
    KeyNamesAreNames(cols[..n]);
    assert forall j :: 0 <= j < n ==> Names(cols)[j] != Names(cols)[n];
    if i < n {
      KeyNamesHold(cols[..n], i);
      assert cols[..n][i] == cols[i] && Names(cols)[i] != Names(cols)[n];
    }
  }

  lemma {:induction false} KeyNamesAreNames(cols: seq<ColumnSchema>)
    ensures forall n :: n in KeyNames(cols) ==> n in Names(cols)
    ensures |KeyNames(cols)| == 0 ==> forall i :: 0 <= i < |cols| ==> !cols[i].isPrimaryKey
    decreases |cols|
  {
    if cols != [] {
      var n := |cols| - 1;
      KeyNamesAreNames(cols[..n]);
      assert Names(cols) == Names(cols[..n]) + [cols[n].name];
    }
  }

  /** ROUND TRIP. Creating a table from a schema and reading it back keeps the columns'
      names, order, nullability and key membership, normalises the types, and forgets
      defaults and lengths. */
  lemma RoundTrip(schema: TableSchema, rowCount: nat)
    requires Distinct(Names(schema.columns)) && schema.primaryKeys == KeyNames(schema.columns)
    ensures Copy(schema, rowCount).name == schema.name && |Copy(schema, rowCount).columns| == |schema.columns|
    ensures forall i :: 0 <= i < |schema.columns| ==>
      Copy(schema, rowCount).columns[i] ==
        schema.columns[i].(dataType := Normalise(schema.columns[i].dataType), default := None, maxLength := None)
    ensures Copy(schema, rowCount).primaryKeys == schema.primaryKeys
  {
    var cols, back := schema.columns, Copy(schema, rowCount).columns;
    KeyNamesAreNames(cols);
    forall i | 0 <= i < |cols|
      ensures back[i] == cols[i].(dataType := Normalise(cols[i].dataType), default := None, maxLength := None)
    {
      KeyNamesHold(cols, i);
      hide Normalise;
    }
    SameKeyNames(cols, back);
  }

  lemma {:induction false} SameKeyNames(a: seq<ColumnSchema>, b: seq<ColumnSchema>)
    requires |a| == |b|
    requires forall i :: 0 <= i < |a| ==> a[i].name == b[i].name && a[i].isPrimaryKey == b[i].isPrimaryKey
    ensures KeyNames(a) == KeyNames(b)
    decreases |a|
  {
    if a != [] {
      SameKeyNames(a[..|a| - 1], b[..|b| - 1]);
    }
  }

  /** REPLAN STABILITY. Validating a source against its own copy finds nothing, whatever its
      types; and the new mappings equal those made before the destination existed exactly
      when the source's type names are stable under SQLite's normalisation (as all names
      read from SQLite are). */
  lemma ReplanStable(source: TableSchema, rowCount: nat)
    requires source.columns != [] && Distinct(Names(source.columns)) && source.primaryKeys == KeyNames(source.columns)
    ensures
      var normal := forall i :: 0 <= i < |source.columns| ==>
            Normalise(source.columns[i].dataType) == source.columns[i].dataType;
      && (normal <==> Mappings(source, Some(Copy(source, rowCount))) == Mappings(source, None))
      && Validate(source, Some(Copy(source, rowCount))) == Ok([])
  {
    hide Normalise, Validate, Copy;
    var copy := Copy(source, rowCount);
    var cols := source.columns;
    RoundTrip(source, rowCount);
    assert Names(copy.columns) == Names(cols);
    forall i | 0 <= i < |cols|
      ensures cols[i].name in ByName(copy.columns) && ByName(copy.columns)[cols[i].name] == copy.columns[i]
      ensures Mappings(source, Some(copy))[i] == Mappings(source, None)[i].(destType := Normalise(cols[i].dataType))
    {
      ByNameDistinct(copy.columns, i);
    }
    forall i | 0 <= i < |cols| ensures !FamiliesConflict(cols[i].dataType, copy.columns[i].dataType) {
      if Family(cols[i].dataType) != -1 { FamilyKept(cols[i].dataType); }
    }
    NoFindings(source, copy);
    if forall i :: 0 <= i < |cols| ==> Normalise(cols[i].dataType) == cols[i].dataType {
      assert Mappings(source, Some(copy)) == Mappings(source, None);
    } else {
      var i :| 0 <= i < |cols| && Normalise(cols[i].dataType) != cols[i].dataType;
      assert Mappings(source, Some(copy))[i] != Mappings(source, None)[i];
    }
  }

  /** Two schemas with the same names and compatible types, the second without lengths, agree. */
  lemma NoFindings(source: TableSchema, dest: TableSchema)
    requires source.columns != [] && |source.columns| == |dest.columns| && Distinct(Names(source.columns))
    requires forall i :: 0 <= i < |source.columns| ==>
      && source.columns[i].name == dest.columns[i].name
      && !FamiliesConflict(source.columns[i].dataType, dest.columns[i].dataType)
      && dest.columns[i].maxLength.None?
    ensures Validate(source, Some(dest)) == Ok([])
  {
    hide Gather, Items, ContextOf, FamiliesConflict, Distinct;
    assert Names(source.columns) == Names(dest.columns);
    ItemsInOrder(source, dest);
    var n, items, ctx := |source.columns|, Items(source, dest), ContextOf(source, dest);
    hide Check, Names;
    forall i | 0 <= i < |items| ensures Check(items[i], ctx) == Ok([]) {
      if i < n {
        QuietSource(source, dest, i);
      } else {
        QuietDest(source, dest, i - n);
      }
    }
    GatherQuiet(items, ctx);
  }

  lemma ItemsInOrder(source: TableSchema, dest: TableSchema)
    requires Distinct(Names(dest.columns))
    ensures
      var n, items := |source.columns|, Items(source, dest);
      && |items| == n + |dest.columns|
      && (forall i :: 0 <= i < n ==> items[i] == FromSource(source.columns[i]))
      && (forall i :: n <= i < |items| ==> items[i] == FromDest(dest.columns[i - n]))
  {
    ListedDistinct(dest.columns);
    hide Listed, Names, Distinct;
  }

  lemma QuietSource(source: TableSchema, dest: TableSchema, i: nat)
    requires i < |source.columns| && i < |dest.columns| && Distinct(Names(dest.columns))
    requires source.columns[i].name == dest.columns[i].name && dest.columns[i].maxLength.None?
    ensures !FamiliesConflict(source.columns[i].dataType, dest.columns[i].dataType) ==>
      Check(FromSource(source.columns[i]), ContextOf(source, dest)) == Ok([])
  {
    ByNameDistinct(dest.columns, i);
  }

  lemma QuietDest(source: TableSchema, dest: TableSchema, i: nat)
    requires i < |source.columns| && i < |dest.columns| && Distinct(Names(source.columns))
    requires source.columns[i].name == dest.columns[i].name
    ensures Check(FromDest(dest.columns[i]), ContextOf(source, dest)) == Ok([])
  {
    ByNameDistinct(source.columns, i);
  }

  lemma {:induction false} GatherQuiet(items: seq<Item>, ctx: Context)
    requires forall i :: 0 <= i < |items| ==> Check(items[i], ctx) == Ok([])
    ensures Gather(items, ctx) == Ok([])
    decreases |items|
  {
    hide Check;
    if items != [] {
      GatherQuiet(items[..|items| - 1], ctx);
      var none: seq<Warning> := [];
      assert none + none == none;
    }
  }

  /** Schemas read from SQLite are stable, so replanning after create_table is. */
  lemma ReadSchemasAreStable(name: string, info: seq<TableInfo>, rowCount: nat)
    ensures forall c :: c in SchemaOf(name, info, rowCount).columns ==> Normalise(c.dataType) == c.dataType
  {
    var cols := SchemaOf(name, info, rowCount).columns;
    assert cols == ColumnsOf(info);
    hide Normalise, KeyNames, SchemaOf;
    forall c | c in cols ensures Normalise(c.dataType) == c.dataType {
      var i :| 0 <= i < |cols| && cols[i] == c;
      NormaliseTwice(info[i].declared);
    }
  }

  /** A CREATE TABLE statement names the primary key exactly once if there is one: inline for
      a single column, as a clause with all columns in order for several. */
  lemma KeyDeclaredOnce(schema: TableSchema)
    requires Distinct(Names(schema.columns)) && schema.primaryKeys == KeyNames(schema.columns)
    ensures
      var ddl, keys := DdlOf(schema), schema.primaryKeys;
      && (ddl.compositeKey == if |keys| > 1 then keys else [])
      && (forall i :: 0 <= i < |ddl.columns| ==> (ddl.columns[i].inlineKey <==> keys == [ddl.columns[i].name]))
  {
    forall i | 0 <= i < |schema.columns|
      ensures DdlOf(schema).columns[i].inlineKey <==> schema.primaryKeys == [schema.columns[i].name]
    {
      KeyNamesHold(schema.columns, i);
      if |schema.primaryKeys| == 1 && schema.columns[i].name in schema.primaryKeys {
        assert schema.primaryKeys == [schema.primaryKeys[0]];
      }
    }
  }

  /** Reading a schema keeps what the database reports about each column, in order; the type
      alone is normalised, and the keys are the columns marked as such. */
  lemma ColumnsRead(name: string, info: seq<TableInfo>, rowCount: nat, i: nat)
    requires i < |info|
    ensures
      var s := SchemaOf(name, info, rowCount);
      && s.name == name && s.rowCount == rowCount && |s.columns| == |info|
      && s.columns[i].name == info[i].name && s.columns[i].default == info[i].default
      && s.columns[i].dataType == Normalise(info[i].declared) && s.columns[i].maxLength == None
      && (s.columns[i].isNullable <==> !info[i].notNull) && (s.columns[i].isPrimaryKey <==> info[i].pk)
      && (Distinct(Names(s.columns)) ==> (info[i].name in s.primaryKeys <==> info[i].pk))
  {
    hide Normalise;
    var cols := SchemaOf(name, info, rowCount).columns;
    if Distinct(Names(cols)) { KeyNamesHold(cols, i); }
  }

  // ---------- The constraints INSERT OR IGNORE consults ----------

  /** Two rows agree on a unique key: all its columns are non-NULL and equal. */
  predicate SameKey(key: seq<string>, a: Row, b: Row) {
    forall i :: 0 <= i < |key| ==> Get(a, key[i]) != Null && Get(a, key[i]) == Get(b, key[i])
  }

  predicate HasNull(cols: seq<string>, r: Row) {
    exists i :: 0 <= i < |cols| && Get(r, cols[i]) == Null
  }

  function TableRules(notNull: seq<string>, keys: seq<seq<string>>): Rules<Row> {
    Rules(r => !HasNull(notNull, r),
          (a, b) => exists k :: 0 <= k < |keys| && SameKey(keys[k], a, b))
  }

  /** The rows of T are keyed exactly when each admissible one has a key without NULLs. */
  lemma KeyedExactly(notNull: seq<string>, keys: seq<seq<string>>, T: seq<Row>)
    ensures Keyed(TableRules(notNull, keys), T) <==>
      (forall i :: 0 <= i < |T| && !HasNull(notNull, T[i]) ==> exists k :: 0 <= k < |keys| && !HasNull(keys[k], T[i]))
  {
    forall i, k | 0 <= i < |T| && 0 <= k < |keys| ensures SameKey(keys[k], T[i], T[i]) <==> !HasNull(keys[k], T[i]) {
    }
    var rules := TableRules(notNull, keys);
    forall i | 0 <= i < |T|
      ensures rules.clash(T[i], T[i]) <==> exists k :: 0 <= k < |keys| && !HasNull(keys[k], T[i])
    {
    }
  }

  /** A ROW IS IGNORED exactly if it lacks a required value, or agrees with a stored or an
      earlier row on all columns of some key, none of them NULL. Rows whose keys differ, or
      are NULL somewhere, are all stored. */
  lemma StoredExactly(notNull: seq<string>, keys: seq<seq<string>>, d: seq<Row>, T: seq<Row>, j: nat)
    requires j < |T|
    ensures Fresh(TableRules(notNull, keys), d, T, j) <==>
      && (forall c :: c in notNull ==> Get(T[j], c) != Null)
      && (forall r, k :: (r in d || r in T[..j]) && k in keys ==>
            exists c :: c in k && (Get(r, c) == Null || Get(T[j], c) == Null || Get(r, c) != Get(T[j], c)))
  {
    var rules, new_ := TableRules(notNull, keys), T[j];
    hide Get;
    RequiredValues(notNull, new_);
    forall r ensures rules.clash(r, new_) <==>
      exists k :: k in keys && forall c :: c in k ==> Get(r, c) != Null && Get(r, c) == Get(new_, c)
    {
      ClashExactly(notNull, keys, r, new_);
    }
    SeenRows(rules, d, T, j);
    hide TableRules, Fresh;
  }

  lemma RequiredValues(notNull: seq<string>, r: Row)
    ensures HasNull(notNull, r) <==> exists c :: c in notNull && Get(r, c) == Null
  {
    hide Get;
    if c :| c in notNull && Get(r, c) == Null {
      var i :| 0 <= i < |notNull| && notNull[i] == c;
    }
  }

  lemma ClashExactly(notNull: seq<string>, keys: seq<seq<string>>, a: Row, b: Row)
    ensures TableRules(notNull, keys).clash(a, b) <==>
      exists k :: k in keys && forall c :: c in k ==> Get(a, c) != Null && Get(a, c) == Get(b, c)
  {
    assert TableRules(notNull, keys).clash(a, b) <==> exists i :: 0 <= i < |keys| && SameKey(keys[i], a, b);
    hide TableRules, SameKey, Get;
    if i :| 0 <= i < |keys| && SameKey(keys[i], a, b) {
      SameKeyExactly(keys[i], a, b);
      assert keys[i] in keys;
    }
    if k :| k in keys && forall c :: c in k ==> Get(a, c) != Null && Get(a, c) == Get(b, c) {
      var i :| 0 <= i < |keys| && keys[i] == k;
      SameKeyExactly(keys[i], a, b);
    }
  }

  lemma SameKeyExactly(key: seq<string>, a: Row, b: Row)
    ensures SameKey(key, a, b) <==> forall c :: c in key ==> Get(a, c) != Null && Get(a, c) == Get(b, c)
  {
    hide Get;
    if SameKey(key, a, b) {
      forall c | c in key ensures Get(a, c) != Null && Get(a, c) == Get(b, c) {
        var i :| 0 <= i < |key| && key[i] == c;
      }
    }
  }

  lemma SeenRows<R>(rules: Rules<R>, d: seq<R>, T: seq<R>, j: nat)
    requires j < |T|
    ensures Fresh(rules, d, T, j) <==> rules.admits(T[j]) && forall r :: r in d || r in T[..j] ==> !rules.clash(r, T[j])
  {
    if Fresh(rules, d, T, j) {
      forall r | r in d || r in T[..j] ensures !rules.clash(r, T[j]) {
        if r in d {
          var i :| 0 <= i < |d| && d[i] == r;
        } else {
          var i :| 0 <= i < j && T[..j][i] == r;
        }
      }
    } else if rules.admits(T[j]) {
      if i :| 0 <= i < |d| && rules.clash(d[i], T[j]) {
        assert d[i] in d;
      } else {
        var i :| 0 <= i < j && rules.clash(T[i], T[j]);
        assert T[..j][i] in T[..j];
      }
    }
  }

  /** The constraints create_table declares. */
  function CreatedRules(schema: TableSchema): Rules<Row> {
    TableRules(NotNullNames(schema.columns), if schema.primaryKeys == [] then [] else [schema.primaryKeys])
  }

  function NotNullNames(cols: seq<ColumnSchema>): seq<string> {
    if cols == [] then []
    else
      var n := |cols| - 1;
      NotNullNames(cols[..n]) + (if cols[n].isNullable then [] else [cols[n].name])
  }

  /** The created table wants a value in each NOT NULL column, and takes two rows for the same
      iff there is a primary key and they agree on all its columns, none of them NULL. */
  lemma CreatedExactly(schema: TableSchema, a: Row, b: Row)
    ensures CreatedRules(schema).admits(b) <==>
      forall i :: 0 <= i < |schema.columns| && Get(b, schema.columns[i].name) == Null ==> schema.columns[i].isNullable
    ensures CreatedRules(schema).clash(a, b) <==>
      schema.primaryKeys != [] && forall c :: c in schema.primaryKeys ==> Get(a, c) != Null && Get(a, c) == Get(b, c)
  {
    var notNull, key := NotNullNames(schema.columns), schema.primaryKeys;
    hide Get, NotNullNames;
    RequiredValues(notNull, b);
    var keys := if key == [] then [] else [key];
    ClashExactly(notNull, keys, a, b);
    assert CreatedRules(schema) == TableRules(notNull, keys);
    assert key != [] ==> key in keys;
    hide TableRules;
    forall c ensures c in notNull <==>
      exists i :: 0 <= i < |schema.columns| && !schema.columns[i].isNullable && schema.columns[i].name == c
    {
      RequiredNames(schema.columns, c);
    }
  }

  lemma {:induction false} RequiredNames(cols: seq<ColumnSchema>, c: string)
    ensures c in NotNullNames(cols) <==> exists i :: 0 <= i < |cols| && !cols[i].isNullable && cols[i].name == c
    decreases |cols|
  {
    if cols != [] {
      var n := |cols| - 1;
      RequiredNames(cols[..n], c);
      assert forall i :: 0 <= i < n ==> cols[..n][i] == cols[i];
    }
  }

  /** A created table whose primary key columns are all NOT NULL is keyed for every source;
      one without a primary key never ignores a conflict. */
  lemma CreatedTablesAreKeyed(schema: TableSchema, T: seq<Row>)
    ensures schema.primaryKeys != [] && (forall k :: k in schema.primaryKeys ==> k in NotNullNames(schema.columns))
        ==> Keyed(CreatedRules(schema), T)
    ensures schema.primaryKeys == [] ==> Keyless(CreatedRules(schema))
  {
    var notNull, key := NotNullNames(schema.columns), schema.primaryKeys;
    if key != [] && forall k :: k in key ==> k in notNull {
      KeyedExactly(notNull, [key], T);
      forall i | 0 <= i < |T| && !HasNull(notNull, T[i]) ensures !HasNull([key][0], T[i]) {
        forall j | 0 <= j < |key| ensures Get(T[i], key[j]) != Null {
          assert key[j] in notNull;
          var m :| 0 <= m < |notNull| && notNull[m] == key[j];
        }
      }
    }
  }
}
