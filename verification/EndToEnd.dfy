/** A whole job: plan the requested tables, run the plan, and what a COMPLETED record then
    means for every requested table and every row. */
module EndToEnd {
  import opened Common
  import opened ConflictRules
  import opened Schema
  import opened Destination
  import opened Executor
  import opened Counting
  import opened Runs
  import opened Tables
  import opened Restarts
  import opened Planner
  import opened Progress
  import JobStatus
  import Lifecycle

  /** What the worker's finalising step reads from the executor's results. */
  function OutcomeOf(res: Results, w: World): Lifecycle.Outcome {
    Lifecycle.Outcome(|res.completed|, res.failed, w.total)
  }

  /** Reading a schema also counted the rows. */
  ghost predicate ExactCounts(db: Databases, env: Env) {
    forall name :: db.sourceSchema(name).Some? ==> db.sourceSchema(name).value.rowCount == |env.source(name)|
  }

  /** With no failed table, every planned table that was not skipped is in `completed`. */
  lemma {:induction false} NoFailuresCompletes(plans: seq<TablePlan>, completed: seq<string>, skipped: seq<string>)
    requires Splits(plans, completed, skipped, [])
    ensures forall p :: p in plans ==> p.name in (if p.skipped then skipped else completed)
    decreases |plans|
  {
    if plans != [] {
      var n := |plans| - 1;
      var p := plans[n];
      assert plans == plans[..n] + [p];
      if p.skipped {
        NoFailuresCompletes(plans[..n], completed, skipped[..|skipped| - 1]);
      } else {
        NoFailuresCompletes(plans[..n], completed[..|completed| - 1], skipped);
      }
    }
  }

  /** REQUESTED-TABLE ACCOUNTING. The worker's figures fit the record it was started from,
      and a job without failed tables (hence COMPLETED) has completed, skipped or dropped
      with a warning each requested table. */
  lemma JobAccounts(db: Databases, env: Env, names: seq<string>, s: Store)
    requires PlanAll(db, names).Ok?
    ensures
      var plan := PlanAll(db, names).value;
      var (w, res) := RunSpec(env, plan.tables, FreshWorld(s), 0, NO_RESULTS);
      var record := Lifecycle.Created(|names|, plan.totalRows);
      && |res.completed| + |res.skipped| + |res.failed| <= |names|
      && OutcomeOf(res, w).completed + |OutcomeOf(res, w).failed| <= record.totalTables
      && (!res.aborted && res.failed == [] ==>
            && (forall p :: p in plan.tables ==> p.name in (if p.skipped then res.skipped else res.completed))
            && (forall x :: x in names ==> x in res.completed || x in res.skipped || x in Dropped(plan.warnings)))
  {
    var plan := PlanAll(db, names).value;
    hide PlanAll, RunSpec, Splits, Dropped, OutcomeOf, Lifecycle.Created;
    PlanFits(db, names);
    RunAccountsFromStart(env, plan.tables, FreshWorld(s));
    var (w, res) := RunSpec(env, plan.tables, FreshWorld(s), 0, NO_RESULTS);
    var split := plan.tables[..res.reached - (if res.aborted then 1 else 0)];
    SplitsAddUp(split, res.completed, res.skipped, res.failed);
    OutcomeFits(res, w, |names|, plan.totalRows);
    if !res.aborted && res.failed == [] {
      assert split == plan.tables;
      NothingForgotten(db, names, res.completed, res.skipped);
    }
  }

  lemma SplitsAddUp(plans: seq<TablePlan>, completed: seq<string>, skipped: seq<string>, failed: seq<string>)
    requires Splits(plans, completed, skipped, failed)
    ensures |completed| + |skipped| + |failed| == |plans|
  {
    SplitsCovers(plans, completed, skipped, failed);
  }

  /** Lists that split a plan without failures account for every requested table. */
  lemma NothingForgotten(db: Databases, names: seq<string>, completed: seq<string>, skipped: seq<string>)
    requires PlanAll(db, names).Ok? && Splits(PlanAll(db, names).value.tables, completed, skipped, [])
    ensures
      var plan := PlanAll(db, names).value;
      && (forall p :: p in plan.tables ==> p.name in (if p.skipped then skipped else completed))
      && (forall x :: x in names ==> x in completed || x in skipped || x in Dropped(plan.warnings))
  {
    hide PlanAll, Splits, Justified, Requested, Dropped, PlannedRows, PlanNames;
    var plan := PlanAll(db, names).value;
    PlanAccounts(db, names);
    RequestedCovers(db, names);
    NoFailuresCompletes(plan.tables, completed, skipped);
    forall x | x in names ensures x in completed || x in skipped || x in Dropped(plan.warnings) {
      if x in Requested(db, names, true) {
        PlannedUnder(plan.tables, x);
      }
    }
  }

  lemma PlanFits(db: Databases, names: seq<string>)
    requires PlanAll(db, names).Ok?
    ensures |PlanAll(db, names).value.tables| <= |names|
  {
    hide PlanAll, Requested;
    PlanAccounts(db, names);
    RequestedCovers(db, names);
    assert |PlanNames(PlanAll(db, names).value.tables)| <= |names|;
  }

  lemma OutcomeFits(res: Results, w: World, tables: nat, rows: nat)
    requires |res.completed| + |res.failed| <= tables
    ensures OutcomeOf(res, w).completed + |OutcomeOf(res, w).failed| <= Lifecycle.Created(tables, rows).totalTables
  {
  }

  lemma PlannedUnder(plans: seq<TablePlan>, x: string)
    requires x in PlanNames(plans)
    ensures exists p :: p in plans && p.name == x
  {
    var i :| 0 <= i < |PlanNames(plans)| && PlanNames(plans)[i] == x;
    assert plans[i] in plans;
  }

  /** The accounting of a run from its start. */
  lemma RunAccountsFromStart(env: Env, plans: seq<TablePlan>, w: World)
    ensures
      var res := RunSpec(env, plans, w, 0, NO_RESULTS).1;
      && res.reached <= |plans| && (res.aborted ==> res.reached > 0)
      && Splits(plans[..res.reached - (if res.aborted then 1 else 0)], res.completed, res.skipped, res.failed)
      && (!res.aborted && res.failed == [] ==> res.reached == |plans|)
  {
    assert plans[..0] == [] && Splits([], [], [], []);
    hide RunSpec, Splits;
    RunAccounts(env, plans, w, 0, NO_RESULTS);
    RunStops(env, plans, w, 0, NO_RESULTS);
  }

  /** CONSERVATION BETWEEN PLANNER AND EXECUTOR. The rows migrated never exceed the planned
      total; a job with data and without failures migrates exactly that many, so its
      progress is 100 whenever there was anything to copy. */
  lemma JobTotals(db: Databases, env: Env, names: seq<string>, s: Store)
    requires PlanAll(db, names).Ok? && ExactCounts(db, env)
    ensures
      var plan := PlanAll(db, names).value;
      var (w, res) := RunSpec(env, plan.tables, FreshWorld(s), 0, NO_RESULTS);
      && ReportsOk(w) && w.total <= plan.totalRows
      && (!env.settings.includeData ==> w.total == 0)
      && (env.settings.includeData && env.settings.batchSize > 0 && !res.aborted && res.failed == [] ==>
            w.total == plan.totalRows && (plan.totalRows > 0 ==> CalculateProgress(w.total, plan.totalRows) == 100))
  {
    var plan := PlanAll(db, names).value;
    PlanAccounts(db, names);
    hide PlanAll, RunSpec;
    forall j | 0 <= j < |plan.tables| ensures plan.tables[j].rowCount == |env.source(plan.tables[j].name)| {
      assert Justified(db, plan.tables[j], plan.warnings);
    }
    assert plan.tables[0..] == plan.tables;
    RunTotals(env, plan.tables, FreshWorld(s), 0, NO_RESULTS);
    if plan.totalRows > 0 {
      ProgressExactly(plan.totalRows, plan.totalRows);
    }
  }

  /** THE RECORD SHOWS THE RUN. A worker whose run came to its end can close the record; if
      nobody else commits meanwhile, the record then shows the tables completed and the rows
      migrated by that run, fails iff some table failed and names those; and where every
      table was copied, its rows are the planned ones and every later query answers 100 percent. */
  lemma JobRecordShows(db: Databases, env: Env, names: seq<string>, s: Store, st: Lifecycle.State, id: nat)
    requires PlanAll(db, names).Ok? && id in st.acts && st.acts[id].Working?
    requires st.row.totalTables == |names| && st.row.totalRows == PlanAll(db, names).value.totalRows
    ensures
      var plan := PlanAll(db, names).value;
      var (w, res) := RunSpec(env, plan.tables, FreshWorld(s), 0, NO_RESULTS);
      var after := Lifecycle.CloseAlone(st, id, OutcomeOf(res, w));
      var row := after.row;
      !res.aborted ==>
        && after.acts == Lifecycle.Without(st.acts, id)
        && row.completedTables == |res.completed| && row.processedRows == w.total
        && row.currentTable == None && row.completedAt == Some(st.now)
        && row.startedAt == st.row.startedAt && row.taskId == st.row.taskId
        && row.totalTables == |names| && row.totalRows == plan.totalRows
        && row.status == (if res.failed == [] then Lifecycle.COMPLETED else Lifecycle.FAILED)
        && row.error == (if res.failed == [] then st.row.error
                         else Some("Tables failed: " + Lifecycle.Joined(res.failed)))
        && (ExactCounts(db, env) && env.settings.includeData && env.settings.batchSize > 0 && res.failed == [] ==>
              && row.processedRows == row.totalRows
              && (row.totalRows > 0 ==> forall now :: JobStatus.GetStatus(row, now).progress == 100))
  {
    var plan := PlanAll(db, names).value;
    JobAccounts(db, env, names, s);
    var (w, res) := RunSpec(env, plan.tables, FreshWorld(s), 0, NO_RESULTS);
    hide PlanAll, RunSpec, Splits, Dropped, ReportsOk, ExactCounts, CalculateProgress, Lifecycle.CloseAlone;
    Lifecycle.CloseShows(st, id, OutcomeOf(res, w));
    if ExactCounts(db, env) {
      JobTotals(db, env, names, s);
    }
  }

  /** The planner gives a table requested twice the same entry both times. */
  lemma {:induction false} PlansAreConsistent(db: Databases, names: seq<string>, i: nat)
    requires PlanAll(db, names).Ok? && i < |PlanAll(db, names).value.tables|
    ensures
      var p := PlanAll(db, names).value.tables[i];
      PlanTable(db, p.name).Ok? && PlanTable(db, p.name).value.tables == [p]
    decreases |names|
  {
    var n := |names| - 1;
    var rest := PlanAll(db, names[..n]).value.tables;
    hide Validator.Validate, Mapper.Mappings;
    if i < |rest| {
      PlansAreConsistent(db, names[..n], i);
    }
  }

  /** A COMPLETED JOB COPIED EVERYTHING. With truncation off and data included, the
      committed rows of each planned, compatible, keyed table are its former rows plus its
      whole mapped source, ignoring conflicts, whatever failed and was retried on the way. */
  lemma CompletedJobCopies(db: Databases, env: Env, names: seq<string>, tables: map<string, seq<Row>>, p: TablePlan)
    requires PlanAll(db, names).Ok? && p in PlanAll(db, names).value.tables && !p.skipped
    requires !env.settings.truncate && env.settings.includeData && env.settings.batchSize > 0
    ensures
      var (w, res) := RunSpec(env, PlanAll(db, names).value.tables, FreshWorld(Store(tables, tables)), 0, NO_RESULTS);
      KeyedTable(env, p) && !res.aborted && res.failed == [] ==>
        && Good(env, p) == |Feed(env, p)|
        && Rows(w.store.durable, p.name) == Insert(env.catalog.rules(p.name), Rows(tables, p.name), Feed(env, p))
  {
    var plans := PlanAll(db, names).value.tables;
    JobAccounts(db, env, names, Store(tables, tables));
    hide PlanAll, PlanTable, KeyedTable, Feed, Good, GoodFeed, Insert, PrefixOf, Arrived;
    var at :| 0 <= at < |plans| && plans[at] == p;
    PlansAreConsistent(db, names, at);
    forall j | 0 <= j < |plans| && plans[j].name == p.name ensures plans[j] == p {
      PlansAreConsistent(db, names, j);
      assert [plans[j]][0] == [p][0];
    }
    assert Consistent(env, plans, p);
    var l := Launch(plans, env.settings, env.fate);
    assert With(env, l) == env;
    hide RunSpec, Consistent;
    if KeyedTable(env, p) {
      UntruncatedLaunch(env, l, tables, p);
    }
  }

  /** NO SHARED COLUMN. If the source shares no column with an existing, compatible
      destination, the plan has no active mapping, the raw rows are sent and refused: the
      copy stores nothing, and completes only if the source is empty. */
  lemma NothingInCommon(env: Env, p: TablePlan, w: World)
    requires p.destSchema.Some? && p.mappings == Mapper.Mappings(p.sourceSchema, p.destSchema)
    requires forall c :: c in p.sourceSchema.columns ==> c.name !in Names(p.destSchema.value.columns)
    requires env.catalog.columns(p.name) == (set c | c in p.destSchema.value.columns :: c.name)
    requires Uniform(env.source(p.name)) && env.settings.batchSize > 0
    requires env.source(p.name) != [] ==>
      exists c :: c in p.sourceSchema.columns && c.name in env.source(p.name)[0].Keys
    ensures Mapper.Active(p.mappings) == [] && Feed(env, p) == env.source(p.name)
    ensures
      var (w', verdict) := CopySpec(env, p.name, Feed(env, p), Good(env, p), w, 0, 0);
      env.source(p.name) != [] ==> w'.store == w.store && !verdict.Completed?
  {
    var dest := p.destSchema.value.columns;
    if Mapper.Active(p.mappings) != [] {
      ActiveIsShared(p.sourceSchema, p.destSchema.value, Mapper.Active(p.mappings)[0]);
    }
    var T := env.source(p.name);
    if T != [] {
      var c :| c in p.sourceSchema.columns && c.name in T[0].Keys;
      forall d | d in dest ensures d.name != c.name {
        NamedColumn(dest, d);
      }
      RawRowsRefused(env, p.name, T, Good(env, p), w, 0, 0);
    }
  }

  /** The source's columns that the destination has as well. */
  predicate SharesColumn(source: TableSchema, dest: TableSchema) {
    exists c :: c in source.columns && c.name in Names(dest.columns)
  }

  /** VALIDATED TABLES ARE COPIED EXACTLY IF THEY SHARE A COLUMN. When every call succeeds, the
      table is there and the rows can be mapped, the copy of a non-empty source into an
      existing destination completes iff source and destination share some column; the
      validator does not ask for one. */
  lemma CopyCompletesExactly(env: Env, p: TablePlan, w: World)
    requires p.destSchema.Some? && p.mappings == Mapper.Mappings(p.sourceSchema, p.destSchema)
    requires env.catalog.columns(p.name) == (set c | c in p.destSchema.value.columns :: c.name)
    requires p.name in w.store.live && env.settings.batchSize > 0 && forall n: nat :: env.fate(n) == Fine
    requires env.source(p.name) != [] && Uniform(env.source(p.name)) && Good(env, p) == |env.source(p.name)|
    requires exists c :: c in p.sourceSchema.columns && c.name in env.source(p.name)[0].Keys
    ensures CopySpec(env, p.name, Feed(env, p), Good(env, p), w, 0, 0).1.Completed?
       <==> SharesColumn(p.sourceSchema, p.destSchema.value)
  {
    hide CopySpec, Mapper.Mappings, Uniform;
    if SharesColumn(p.sourceSchema, p.destSchema.value) {
      FedRowsFit(env, p);
      FaultFreeCompletes(env, p.name, Feed(env, p), w, 0);
    } else {
      NothingInCommon(env, p, w);
    }
  }

  /** Rows mapped to shared columns name at least one column, all of them the destination's. */
  lemma FedRowsFit(env: Env, p: TablePlan)
    requires p.destSchema.Some? && p.mappings == Mapper.Mappings(p.sourceSchema, p.destSchema)
    requires env.catalog.columns(p.name) == (set c | c in p.destSchema.value.columns :: c.name)
    requires SharesColumn(p.sourceSchema, p.destSchema.value) && Good(env, p) == |env.source(p.name)|
    ensures forall i :: 0 <= i < |Feed(env, p)| ==> {} < Feed(env, p)[i].Keys <= env.catalog.columns(p.name)
  {
    var ms, rows, dest := p.mappings, env.source(p.name), p.destSchema.value;
    SharedIsActive(p.sourceSchema, dest);
    forall i | 0 <= i < |rows| ensures {} < Feed(env, p)[i].Keys <= env.catalog.columns(p.name) {
      assert rows[..|rows|] == rows;
      Mapper.MappablePrefix(env.dumps, rows, ms, i);
      Mapper.MapRowKeys(env.dumps, rows[i], ms);
      TargetsFit(p.sourceSchema, dest);
      hide Mapper.Mappings, Mapper.MapRow, Mapper.Mappable, Mapper.Targets;
      assert Feed(env, p)[i].Keys == Mapper.Targets(ms);
    }
  }

  lemma SharedIsActive(source: TableSchema, dest: TableSchema)
    requires SharesColumn(source, dest)
    ensures Mapper.Active(Mapper.Mappings(source, Some(dest))) != []
    ensures Mapper.Targets(Mapper.Mappings(source, Some(dest))) != {}
  {
    var ms := Mapper.Mappings(source, Some(dest));
    var c :| c in source.columns && c.name in Names(dest.columns);
    var i :| 0 <= i < |source.columns| && source.columns[i] == c;
    var j :| 0 <= j < |dest.columns| && Names(dest.columns)[j] == c.name;
    ByNameHolds(dest.columns);
    assert dest.columns[j].name in ByName(dest.columns);
    assert ms[i].included && ms[i] in ms && ms[i].destCol in Mapper.Targets(ms);
    Mapper.ActiveHolds(ms, ms[i]);
  }

  lemma TargetsFit(source: TableSchema, dest: TableSchema)
    ensures Mapper.Targets(Mapper.Mappings(source, Some(dest))) <= (set c | c in dest.columns :: c.name)
  {
    var ms := Mapper.Mappings(source, Some(dest));
    forall t | t in Mapper.Targets(ms) ensures exists c :: c in dest.columns && c.name == t {
      var m :| m in ms && m.included && m.destCol == t;
      var i :| 0 <= i < |ms| && ms[i] == m;
      ByNameHolds(dest.columns);
      assert ByName(dest.columns)[t] in dest.columns;
    }
  }

  /** A source with one column and a destination with another: the validator only warns. */
  const LONE_SOURCE := TableSchema("t", [ColumnSchema("a", "TEXT", true, false, None, None)], [], 1)
  const LONE_DEST := TableSchema("t", [ColumnSchema("b", "TEXT", true, false, None, None)], [], 0)

  /** The pair passes validation, and no copy of it completes although every call succeeds. */
  lemma ValidatedButRefused(env: Env, w: World)
    requires env.source("t") == [map["a" := Str("1")]] && env.catalog.columns("t") == {"b"}
    requires "t" in w.store.live && env.settings.batchSize > 0 && forall n: nat :: env.fate(n) == Fine
    ensures
      var p := TablePlan("t", LONE_SOURCE, Some(LONE_DEST), Mapper.Mappings(LONE_SOURCE, Some(LONE_DEST)), 1, false);
      && Validator.Validate(LONE_SOURCE, Some(LONE_DEST))
           == Ok([Validator.NotInDestination("a"), Validator.WillBeDefaulted("b")])
      && !CopySpec(env, "t", Feed(env, p), Good(env, p), w, 0, 0).1.Completed?
  {
    var p := TablePlan("t", LONE_SOURCE, Some(LONE_DEST), Mapper.Mappings(LONE_SOURCE, Some(LONE_DEST)), 1, false);
    LonePairPasses();
    assert LONE_SOURCE.columns[0] in LONE_SOURCE.columns;
    assert "a" in env.source("t")[0].Keys;
    assert Names(LONE_DEST.columns) == ["b"] && "a" != "b";
    hide CopySpec, Mapper.Mappings, Validator.Validate, Feed, Good;
    NothingInCommon(env, p, w);
  }

  lemma LonePairPasses()
    ensures Validator.Validate(LONE_SOURCE, Some(LONE_DEST))
         == Ok([Validator.NotInDestination("a"), Validator.WillBeDefaulted("b")])
  {
    var items, ctx := Validator.Items(LONE_SOURCE, LONE_DEST), Validator.ContextOf(LONE_SOURCE, LONE_DEST);
    var a, b := LONE_SOURCE.columns[0], LONE_DEST.columns[0];
    assert a.name != b.name;
    assert LONE_SOURCE.columns == [] + [a] && LONE_DEST.columns == [] + [b];
    assert ByName([b]) == map[b.name := b] && ByName([a]) == map[a.name := a];
    assert Validator.KeyOrder([b]) == [] + ["b"];
    assert items == [Validator.FromSource(a), Validator.FromDest(b)];
    assert ctx == Validator.Context(map["a" := a], map["b" := b]);
    hide ByName, Validator.KeyOrder, Validator.Items, Validator.ContextOf;
    assert Validator.Check(items[0], ctx) == Ok([Validator.NotInDestination("a")]);
    assert Validator.Check(items[1], ctx) == Ok([Validator.WillBeDefaulted("b")]);
    var one := items[..1];
    assert one[0] == items[0];
    Validator.GatherNothing(one, ctx);
    Validator.GatherNext(one, 0, ctx);
    var none: seq<Validator.Warning> := [];
    assert one[..0] == [] && Validator.Gather(one[..0], ctx) == Ok(none);
    assert one[..1] == one && none + [Validator.NotInDestination("a")] == [Validator.NotInDestination("a")];
    assert Validator.Gather(one, ctx) == Ok([Validator.NotInDestination("a")]);
    Validator.GatherNext(items, 1, ctx);
    assert items[..2] == items;
    assert Validator.Validate(LONE_SOURCE, Some(LONE_DEST)) == Validator.Gather(items, ctx);
    var both := [Validator.NotInDestination("a")] + [Validator.WillBeDefaulted("b")];
    assert both == [Validator.NotInDestination("a"), Validator.WillBeDefaulted("b")];
  }

  lemma ActiveIsShared(source: TableSchema, dest: TableSchema, m: ColumnMapping)
    requires m in Mapper.Active(Mapper.Mappings(source, Some(dest)))
    ensures exists c :: c in source.columns && c.name == m.sourceCol == m.destCol && c.name in Names(dest.columns)
  {
    var ms := Mapper.Mappings(source, Some(dest));
    Mapper.ActiveHolds(ms, m);
    var i :| 0 <= i < |ms| && ms[i] == m;
    var c := source.columns[i];
    ByNameHolds(dest.columns);
    assert c in source.columns && c.name in ByName(dest.columns);
    NamedColumn(dest.columns, ByName(dest.columns)[c.name]);
  }

  lemma NamedColumn(cols: seq<ColumnSchema>, c: ColumnSchema)
    requires c in cols
    ensures c.name in Names(cols)
  {
    var i :| 0 <= i < |cols| && cols[i] == c;
    assert Names(cols)[i] == c.name;
  }
}
