/** Building the plan (app/migration/planner.py). */
module Planner {
  import opened Common
  import opened Schema
  import opened Mapper
  import opened Validator
  import opened Executor
  import opened Runs

  /** What the two databases answer about a table. An unanswered existence check is an
      exception that leaves the planner. */
  datatype Databases = Databases(
    sourceSchema: string -> Option<TableSchema>,
    destExists: string -> Option<bool>,
    destSchema: string -> Option<TableSchema>)

  datatype PlanWarning =
    | SourceUnreadable(table: string)
    | DestUnreadable(table: string)
    | SchemaWarning(table: string, warning: Warning)
    | Incompatible(table: string, reason: Fatal)

  datatype MigrationPlan = MigrationPlan(tables: seq<TablePlan>, totalRows: nat, warnings: seq<PlanWarning>)

  datatype PlanError = ExistenceUnknown(table: string)

  const EMPTY_PLAN := MigrationPlan([], 0, [])

  /** The destination schema the planner works with, and the warning reading it may give. */
  function DestSchemaOf(db: Databases, name: string): Option<TableSchema> {
    if db.destExists(name) == Some(true) then db.destSchema(name) else None
  }

  function DestWarnings(db: Databases, name: string): seq<PlanWarning> {
    if db.destExists(name) == Some(true) && db.destSchema(name).None? then [DestUnreadable(name)] else []
  }

  function Tagged(name: string, ws: seq<Warning>): (out: seq<PlanWarning>)
    ensures |out| == |ws|
    ensures forall i :: 0 <= i < |ws| ==> out[i] == SchemaWarning(name, ws[i])
  {
    seq(|ws|, i requires 0 <= i < |ws| => SchemaWarning(name, ws[i]))
  }

  /** What one requested table contributes to the plan. */
  function PlanTable(db: Databases, name: string): Result<MigrationPlan, PlanError> {
    match db.sourceSchema(name)
    case None => Ok(MigrationPlan([], 0, [SourceUnreadable(name)]))
    case Some(src) =>
      if db.destExists(name).None? then Err(ExistenceUnknown(name))
      else
        var dst, warned := DestSchemaOf(db, name), DestWarnings(db, name);
        match Validate(src, dst)
        case Err(reason) =>
          Ok(MigrationPlan([TablePlan(name, src, dst, [], src.rowCount, true)], 0, warned + [Incompatible(name,
                reason)]))
        case Ok(ws) =>
          Ok(MigrationPlan([TablePlan(name, src, dst, Mappings(src, dst), src.rowCount, false)], src.rowCount,
                           warned + Tagged(name, ws)))
  }

  function Append(a: MigrationPlan, b: MigrationPlan): MigrationPlan {
    MigrationPlan(a.tables + b.tables, a.totalRows + b.totalRows, a.warnings + b.warnings)
  }

  function PlanAll(db: Databases, names: seq<string>): Result<MigrationPlan, PlanError> {
    if names == [] then Ok(EMPTY_PLAN)
    else
      var rest := PlanAll(db, names[..|names| - 1]);
      if rest.Err? then rest
      else
        match PlanTable(db, names[|names| - 1])
        case Err(e) => Err(e)
        case Ok(p) => Ok(Append(rest.value, p))
  }

  /** Read the destination schema if the table exists there. */
  method ReadDestination(db: Databases, name: string) returns (schema: Option<TableSchema>, warnings: seq<PlanWarning>)
    ensures schema == DestSchemaOf(db, name) && warnings == DestWarnings(db, name)
  {
    schema, warnings := None, [];
    if db.destExists(name) == Some(true) {
      schema := db.destSchema(name);
      if schema.None? {
        warnings := [DestUnreadable(name)];
      }
    }
  }

  method BuildPlan(db: Databases, tableNames: seq<string>) returns (result: Result<MigrationPlan, PlanError>)
    ensures result == PlanAll(db, tableNames)
  {
    hide Validate, Mappings, Tagged, DestWarnings;
    var tablePlans: seq<TablePlan> := [];
    var totalRows: nat := 0;
    var allWarnings: seq<PlanWarning> := [];
    for i := 0 to |tableNames|
      invariant PlanAll(db, tableNames[..i]) == Ok(MigrationPlan(tablePlans, totalRows, allWarnings))
    {
      var name := tableNames[i];
      assert tableNames[..i + 1][..i] == tableNames[..i];
      var srcSchema := db.sourceSchema(name);
      if srcSchema.None? {
        allWarnings := allWarnings + [SourceUnreadable(name)];
        assert tablePlans == tablePlans + [];
        continue;
      }
      var destExists := db.destExists(name);
      if destExists.None? {
        PlanFails(db, tableNames, i + 1);
        return Err(ExistenceUnknown(name));
      }
      ghost var before := allWarnings;
      var destSchema, readWarnings := ReadDestination(db, name);
      allWarnings := allWarnings + readWarnings;
      var verdict := ValidateSchemaCompatibility(srcSchema.value, destSchema);
      if verdict.Err? {
        allWarnings := allWarnings + [Incompatible(name, verdict.error)];
        assert allWarnings == before + (DestWarnings(db, name) + [Incompatible(name, verdict.error)]);
        tablePlans := tablePlans + [TablePlan(name, srcSchema.value, destSchema, [], srcSchema.value.rowCount, true)];
        continue;
      }
      allWarnings := allWarnings + Tagged(name, verdict.value);
      assert allWarnings == before + (DestWarnings(db, name) + Tagged(name, verdict.value));
      var mappings := BuildColumnMappings(srcSchema.value, destSchema);
      totalRows := totalRows + srcSchema.value.rowCount;
      tablePlans := tablePlans + [TablePlan(name, srcSchema.value, destSchema, mappings, srcSchema.value.rowCount,
            false)];
    }
    assert tableNames[..|tableNames|] == tableNames;
    result := Ok(MigrationPlan(tablePlans, totalRows, allWarnings));
  }

  lemma {:induction false} PlanFails(db: Databases, names: seq<string>, j: nat)
    requires j <= |names| && PlanAll(db, names[..j]).Err?
    ensures PlanAll(db, names) == PlanAll(db, names[..j])
    decreases |names|
  {
    hide PlanTable;
    if j < |names| {
      assert names[..|names| - 1][..j] == names[..j];
      PlanFails(db, names[..|names| - 1], j);
    } else {
      assert names[..j] == names;
    }
  }

  // ---------- What a plan accounts for ----------

  /** The requested tables whose source schema can (not) be read, in order. */
  function Requested(db: Databases, names: seq<string>, readable: bool): seq<string> {
    if names == [] then []
    else
      var n := |names| - 1;
      Requested(db, names[..n], readable) + (if db.sourceSchema(names[n]).Some? == readable then [names[n]] else [])
  }

  /** The tables reported as unreadable, in order. */
  function Dropped(ws: seq<PlanWarning>): seq<string> {
    if ws == [] then []
    else
      var n := |ws| - 1;
      Dropped(ws[..n]) + (if ws[n].SourceUnreadable? then [ws[n].table] else [])
  }

  lemma {:induction false} DroppedConcat(a: seq<PlanWarning>, b: seq<PlanWarning>)
    ensures Dropped(a + b) == Dropped(a) + Dropped(b)
    decreases |b|
  {
    if b == [] {
      assert a + b == a;
    } else {
      assert (a + b)[..|a + b| - 1] == a + b[..|b| - 1];
      DroppedConcat(a, b[..|b| - 1]);
    }
  }

  lemma {:induction false} NothingDropped(ws: seq<PlanWarning>)
    requires forall i :: 0 <= i < |ws| ==> !ws[i].SourceUnreadable?
    ensures Dropped(ws) == []
    decreases |ws|
  {
    if ws != [] { NothingDropped(ws[..|ws| - 1]); }
  }

  lemma {:induction false} PlannedRowsConcat(a: seq<TablePlan>, b: seq<TablePlan>)
    ensures PlannedRows(a + b) == PlannedRows(a) + PlannedRows(b)
    decreases |a|
  {
    if a == [] {
      assert a + b == b;
    } else {
      assert (a + b)[1..] == a[1..] + b;
      PlannedRowsConcat(a[1..], b);
    }
  }

  /** A planned table was validated: copied with the mappings of its schemas if that
      succeeded, its warnings passed on; skipped with a warning and without mappings if
      not. An unreadable destination schema is reported. */
  ghost predicate Justified(db: Databases, p: TablePlan, warnings: seq<PlanWarning>) {
    && db.sourceSchema(p.name) == Some(p.sourceSchema)
    && p.destSchema == DestSchemaOf(db, p.name)
    && p.rowCount == p.sourceSchema.rowCount
    && (db.destExists(p.name) == Some(true) && db.destSchema(p.name).None? ==> DestUnreadable(p.name) in warnings)
    && (!p.skipped ==>
          && p.mappings == Mappings(p.sourceSchema, p.destSchema)
          && Validate(p.sourceSchema, p.destSchema).Ok?
          && forall x :: x in Validate(p.sourceSchema, p.destSchema).value ==> SchemaWarning(p.name, x) in warnings)
    && (p.skipped ==> p.mappings == [] && exists reason :: Validate(p.sourceSchema, p.destSchema) == Err(reason)
                                                     && Incompatible(p.name, reason) in warnings)
  }

  /** The plan lists these tables, reports those dropped, and counts and justifies its own. */
  ghost predicate Accounts(db: Databases, plan: MigrationPlan, tables: seq<string>, dropped: seq<string>) {
    && PlanNames(plan.tables) == tables
    && Dropped(plan.warnings) == dropped
    && plan.totalRows == PlannedRows(plan.tables)
    && forall i :: 0 <= i < |plan.tables| ==> Justified(db, plan.tables[i], plan.warnings)
  }

  lemma PlanTableAccounts(db: Databases, name: string)
    requires PlanTable(db, name).Ok?
    ensures
      if db.sourceSchema(name).Some? then Accounts(db, PlanTable(db, name).value, [name], [])
      else Accounts(db, PlanTable(db, name).value, [], [name])
  {
    hide Validate, Mappings, Justified;
    var plan := PlanTable(db, name).value;
    if db.sourceSchema(name).Some? {
      PlanTableJustified(db, name);
      NothingDropped(plan.warnings);
      assert |plan.tables| == 1 && plan.tables[1..] == [];
      assert PlanNames(plan.tables) == [name];
      assert Dropped(plan.warnings) == [];
      assert PlannedRows(plan.tables) == plan.totalRows;
    } else {
      assert plan.warnings[..0] == [] && PlanNames(plan.tables) == [];
      assert Dropped(plan.warnings[..0]) + [name] == [name];
    }
  }

  lemma PlanTableJustified(db: Databases, name: string)
    requires PlanTable(db, name).Ok? && db.sourceSchema(name).Some?
    ensures
      var plan := PlanTable(db, name).value;
      |plan.tables| == 1 && Justified(db, plan.tables[0], plan.warnings)
  {
    hide Validate, Mappings;
    var plan := PlanTable(db, name).value;
    var p, warned := plan.tables[0], DestWarnings(db, name);
    assert warned <= plan.warnings;
    assert forall i :: 0 <= i < |warned| ==> plan.warnings[i] == warned[i];
    if p.skipped {
      assert plan.warnings[|plan.warnings| - 1] == Incompatible(name, Validate(p.sourceSchema, p.destSchema).error);
    } else {
      var ws := Validate(p.sourceSchema, p.destSchema).value;
      forall x | x in ws ensures SchemaWarning(name, x) in plan.warnings {
        var i :| 0 <= i < |ws| && ws[i] == x;
        assert plan.warnings[|warned| + i] == SchemaWarning(name, x);
      }
    }
  }

  lemma AppendAccounts(db: Databases, a: MigrationPlan, b: MigrationPlan, ta: seq<string>, da: seq<string>,
      tb: seq<string>, dropsB: seq<string>)
    requires Accounts(db, a, ta, da) && Accounts(db, b, tb, dropsB)
    ensures Accounts(db, Append(a, b), ta + tb, da + dropsB)
  {
    hide Justified;
    var plan := Append(a, b);
    DroppedConcat(a.warnings, b.warnings);
    PlannedRowsConcat(a.tables, b.tables);
    hide Dropped, PlannedRows;
    assert PlanNames(plan.tables) == PlanNames(a.tables) + PlanNames(b.tables);
    forall i | 0 <= i < |plan.tables| ensures Justified(db, plan.tables[i], plan.warnings) {
      if i < |a.tables| {
        JustifiedLater(db, a.tables[i], a.warnings, plan.warnings);
      } else {
        JustifiedLater(db, b.tables[i - |a.tables|], b.warnings, plan.warnings);
      }
    }
  }

  /** PLAN ACCOUNTING. The planned tables are the readable requested ones, in order; the
      others are each reported dropped, in order; the total counts exactly the tables that
      will be copied; and each planned table is justified. */
  lemma {:induction false} PlanAccounts(db: Databases, names: seq<string>)
    requires PlanAll(db, names).Ok?
    ensures Accounts(db, PlanAll(db, names).value, Requested(db, names, true), Requested(db, names, false))
    decreases |names|
  {
    if names != [] {
      var n := |names| - 1;
      PlanAccounts(db, names[..n]);
      PlanTableAccounts(db, names[n]);
      hide PlanTable, Accounts;
      AppendAccounts(db, PlanAll(db, names[..n]).value, PlanTable(db, names[n]).value,
                     Requested(db, names[..n], true), Requested(db, names[..n], false),
                     if db.sourceSchema(names[n]).Some? then [names[n]] else [],
                     if db.sourceSchema(names[n]).Some? then [] else [names[n]]);
    }
  }

  lemma JustifiedLater(db: Databases, p: TablePlan, ws: seq<PlanWarning>, ws': seq<PlanWarning>)
    requires Justified(db, p, ws) && forall x :: x in ws ==> x in ws'
    ensures Justified(db, p, ws')
  {
    hide Validate, Mappings;
  }

  /** Every requested table is either readable or not: nothing is lost between the lists. */
  lemma {:induction false} RequestedCovers(db: Databases, names: seq<string>)
    ensures |Requested(db, names, true)| + |Requested(db, names, false)| == |names|
    ensures forall x :: x in names ==> x in Requested(db, names, true) || x in Requested(db, names, false)
    decreases |names|
  {
    if names != [] {
      var n := |names| - 1;
      RequestedCovers(db, names[..n]);
      assert names == names[..n] + [names[n]];
    }
  }

  /** What gives rise to a warning of the plan. */
  predicate Owed(db: Databases, x: PlanWarning) {
    var name := x.table;
    var dest := if db.destExists(name) == Some(true) then db.destSchema(name) else None;
    match db.sourceSchema(name)
    case None => x == SourceUnreadable(name)
    case Some(source) =>
      match x
      case SourceUnreadable(_) => false
      case DestUnreadable(_) => db.destExists(name) == Some(true) && dest.None?
      case Incompatible(_, reason) => Validate(source, dest) == Err(reason)
      case SchemaWarning(_, warning) => Validate(source, dest).Ok? && warning in Validate(source, dest).value
  }

  /** EXACT PLAN WARNINGS. The plan warns of an unreadable source, an unreadable destination,
      an incompatibility or a finding of the validator iff that is so for a requested table. */
  lemma {:induction false} PlanWarningsExactly(db: Databases, names: seq<string>, x: PlanWarning)
    requires PlanAll(db, names).Ok?
    ensures x in PlanAll(db, names).value.warnings <==> x.table in names && Owed(db, x)
    decreases |names|
  {
    if names != [] {
      var n := |names| - 1;
      PlanWarningsExactly(db, names[..n], x);
      TableWarningsExactly(db, names[n], x);
      hide PlanTable, Owed;
      assert names == names[..n] + [names[n]];
    }
  }

  lemma TableWarningsExactly(db: Databases, name: string, x: PlanWarning)
    requires PlanTable(db, name).Ok?
    ensures x in PlanTable(db, name).value.warnings <==> x.table == name && Owed(db, x)
  {
    hide Validate, Mappings;
    if db.sourceSchema(name).Some? {
      var dest := DestSchemaOf(db, name);
      var verdict := Validate(db.sourceSchema(name).value, dest);
      if verdict.Ok? {
        TaggedHolds(name, verdict.value, x);
      }
    }
  }

  lemma TaggedHolds(name: string, ws: seq<Warning>, x: PlanWarning)
    ensures x in Tagged(name, ws) <==> x.SchemaWarning? && x.table == name && x.warning in ws
  {
    var out := Tagged(name, ws);
    if x in out {
      var i :| 0 <= i < |out| && out[i] == x;
      assert ws[i] in ws;
    }
    if x.SchemaWarning? && x.table == name && x.warning in ws {
      var i :| 0 <= i < |ws| && ws[i] == x.warning;
      assert out[i] == x;
    }
  }

  /** Whether a requested table stops the planner. */
  predicate Stops(db: Databases, name: string) {
    db.sourceSchema(name).Some? && db.destExists(name).None?
  }

  predicate FirstStop(db: Databases, names: seq<string>, i: int) {
    0 <= i < |names| && Stops(db, names[i]) && forall j :: 0 <= j < i ==> !Stops(db, names[j])
  }

  /** THE PLANNER RAISES EXACTLY THEN: there is no plan iff the destination does not say whether
      some readable requested table exists, and the exception is that of the first one. */
  lemma {:induction false} PlanRaisesExactly(db: Databases, names: seq<string>)
    ensures PlanAll(db, names).Err? <==> exists i :: 0 <= i < |names| && Stops(db, names[i])
    ensures forall i :: FirstStop(db, names, i) ==> PlanAll(db, names) == Err(ExistenceUnknown(names[i]))
    decreases |names|
  {
    hide Validate, Mappings;
    if names != [] {
      var n := |names| - 1;
      var rest := names[..n];
      PlanRaisesExactly(db, rest);
      assert forall i :: 0 <= i < n ==> rest[i] == names[i];
      assert forall i :: FirstStop(db, names, i) && i < n ==> FirstStop(db, rest, i);
      assert PlanTable(db, names[n]).Err? <==> Stops(db, names[n]);
    }
  }
}
