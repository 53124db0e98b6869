/** A job that is started again plans again, against the tables that earlier launches left. */
module JobRestarts {
  import opened Common
  import opened ConflictRules
  import opened Schema
  import opened Mapper
  import opened Validator
  import opened Destination
  import opened Executor
  import opened Tables
  import opened Runs
  import opened Restarts
  import opened Planner
  import opened Replanning

  // ---------- One table, planned again ----------

  /** Two readings of a destination table that differ in nothing a plan depends on; its row
      count may have changed. */
  predicate SameColumns(a: Option<TableSchema>, b: Option<TableSchema>) {
    (a.None? && b.None?) || (a.Some? && b.Some? && a.value.columns == b.value.columns)
  }

  /** These databases give p's table the schema p was planned from. At the destination they
      find what p's planner found; or, if it found no table, the one that an earlier launch
      created, whose reported types make no difference to the source's rows. */
  ghost predicate SameTable(reports: Reports, env: Env, db: Databases, p: TablePlan) {
    && db.sourceSchema(p.name) == Some(p.sourceSchema)
    && var found := DestSchemaOf(db, p.name);
       || SameColumns(found, p.destSchema)
       || (p.destSchema.None? && found.Some? && ReadBack(reports, p.sourceSchema, found.value)
           && RowsKept(reports, env, p))
  }

  lemma SameColumnsAlike(source: TableSchema, a: Option<TableSchema>, b: Option<TableSchema>)
    requires SameColumns(a, b)
    ensures Mappings(source, a) == Mappings(source, b)
    ensures Validate(source, a) == Validate(source, b)
  {
  }

  /** What the rebuilt plan says about p's table. */
  lemma EntryAlike(reports: Reports, env: Env, db: Databases, p: TablePlan, q: TablePlan, warnings: seq<PlanWarning>)
    requires SameTable(reports, env, db, p) && p.mappings == Mappings(p.sourceSchema, p.destSchema)
    requires Distinct(Names(p.sourceSchema.columns))
    requires q.name == p.name && Justified(db, q, warnings)
    ensures !q.skipped ==> SameFeed(env, q, p)
    ensures Validate(p.sourceSchema, p.destSchema).Ok? && Compatible(reports, p.sourceSchema) ==> !q.skipped
  {
    var src, found := p.sourceSchema, DestSchemaOf(db, p.name);
    if SameColumns(found, p.destSchema) {
      SameColumnsAlike(src, found, p.destSchema);
      hide Mappings, Validate, Mapped, Mappable, RowsKept, ReadBack, Compatible;
    } else {
      ReadBackMappings(reports, src, found.value);
      EmptyRefused(src);
      hide Mappings, Validate, Mapped, Mappable, RowsKept, ReadBack, SameFeed, Compatible;
      if !q.skipped {
        ReplannedFeedExactly(reports, env, p, q, found.value);
      }
    }
  }

  lemma EmptyRefused(source: TableSchema)
    ensures source.columns == [] ==> forall d :: Validate(source, d).Err?
    ensures source.columns != [] ==> Validate(source, None).Ok?
  {
  }

  /** Planning again sends the same rows: before or after a launch created the table, or over
      a table that was there all along, however many rows it gained meanwhile. */
  lemma ReplannedAlike(reports: Reports, env: Env, db: Databases, names: seq<string>, p: TablePlan)
    requires PlanAll(db, names).Ok? && SameTable(reports, env, db, p)
    requires p.mappings == Mappings(p.sourceSchema, p.destSchema) && Distinct(Names(p.sourceSchema.columns))
    ensures Consistent(env, PlanAll(db, names).value.tables, p)
    ensures Validate(p.sourceSchema, p.destSchema).Ok? && Compatible(reports, p.sourceSchema) ==>
      forall q :: q in PlanAll(db, names).value.tables && q.name == p.name ==> !q.skipped
  {
    var plan := PlanAll(db, names).value;
    PlanAccounts(db, names);
    hide PlanAll, Validate, Mappings, Dropped, PlannedRows, SameTable, SameFeed, Justified, Compatible;
    forall j | 0 <= j < |plan.tables| && plan.tables[j].name == p.name
      ensures !plan.tables[j].skipped ==> SameFeed(env, plan.tables[j], p)
      ensures Validate(p.sourceSchema, p.destSchema).Ok? && Compatible(reports, p.sourceSchema) ==>
        !plan.tables[j].skipped
    {
      assert Justified(db, plan.tables[j], plan.warnings);
      EntryAlike(reports, env, db, p, plan.tables[j], plan.warnings);
    }
  }

  // ---------- The whole job ----------

  /** The source's schemas, the destination's tables before the job with the schemas read
      from them, and the types the destination reports for those that are created. */
  datatype Site = Site(
    sourceSchema: string -> Option<TableSchema>,
    tables: map<string, seq<Row>>,
    schemas: string -> Option<TableSchema>,
    reports: Reports)

  function CreatedSchema(reports: Reports, source: TableSchema, rowCount: nat): TableSchema {
    TableSchema(
      source.name,
      seq(|source.columns|, i requires 0 <= i < |source.columns| =>
        source.columns[i].(dataType := reports(source.columns[i].dataType), default := None, maxLength := None)),
      source.primaryKeys,
      rowCount)
  }

  /** The schema read from a destination table: the one it had before the job, or the one it
      was created with. */
  function FoundSchema(site: Site, now: map<string, seq<Row>>, name: string): Option<TableSchema> {
    match if name in site.tables then site.schemas(name) else site.sourceSchema(name)
    case None => None
    case Some(s) =>
      if name in site.tables then Some(s.(rowCount := |Rows(now, name)|))
      else Some(CreatedSchema(site.reports, s, |Rows(now, name)|))
  }

  /** What a planner finds when the destination holds the tables `now`. */
  function Found(site: Site, now: map<string, seq<Row>>): Databases {
    Databases(site.sourceSchema, name => Some(name in now), name => FoundSchema(site, now, name))
  }

  /** One start of the job. */
  datatype Start = Start(settings: Settings, fate: nat -> Fate)

  /** The worker plans against the tables it finds. */
  function StartLaunch(site: Site, names: seq<string>, start: Start, now: map<string, seq<Row>>): Launch {
    PlanSucceeds(site, names, now);
    Launch(PlanAll(Found(site, now), names).value.tables, start.settings, start.fate)
  }

  /** Existence checks are answered, so planning never fails as a whole. */
  lemma {:induction false} PlanSucceeds(site: Site, names: seq<string>, now: map<string, seq<Row>>)
    ensures PlanAll(Found(site, now), names).Ok?
    decreases |names|
  {
    hide Validate, Mappings;
    if names != [] { PlanSucceeds(site, names[..|names| - 1], now); }
  }

  /** The launches of a job that is started so many times. */
  function JobLaunches(env: Env, site: Site, names: seq<string>, starts: seq<Start>): (launches: seq<Launch>)
    ensures |launches| == |starts|
  {
    if starts == [] then []
    else
      var n := |starts| - 1;
      var before := JobLaunches(env, site, names, starts[..n]);
      before + [StartLaunch(site, names, starts[n], AfterLaunches(env, before, site.tables))]
  }

  /** The tables found by the last start. */
  function FoundByLast(env: Env, site: Site, names: seq<string>, starts: seq<Start>): map<string, seq<Row>>
    requires starts != []
  {
    AfterLaunches(env, JobLaunches(env, site, names, starts[..|starts| - 1]), site.tables)
  }

  lemma {:induction false} TablesStay(env: Env, launches: seq<Launch>, tables: map<string, seq<Row>>)
    ensures tables.Keys <= AfterLaunches(env, launches, tables).Keys
    decreases |launches|
  {
    hide RunSpec;
    if launches != [] {
      var n := |launches| - 1;
      TablesStay(env, launches[..n], tables);
      var before := AfterLaunches(env, launches[..n], tables);
      RunKeepsTables(With(env, launches[n]), launches[n].plans, FreshWorld(Store(before, before)), 0, NO_RESULTS);
    }
  }

  /** p is an entry, to be copied, of the plan the first start makes. */
  ghost predicate FirstPlanned(site: Site, names: seq<string>, p: TablePlan) {
    PlanSucceeds(site, names, site.tables);
    p in PlanAll(Found(site, site.tables), names).value.tables && !p.skipped
  }

  /** Every later planner finds the same table, or the created one. */
  lemma FoundAgain(env: Env, site: Site, names: seq<string>, p: TablePlan, now: map<string, seq<Row>>)
    requires FirstPlanned(site, names, p) && site.tables.Keys <= now.Keys
    requires p.name !in site.tables ==> RowsKept(site.reports, env, p)
    ensures SameTable(site.reports, env, Found(site, now), p)
    ensures p.mappings == Mappings(p.sourceSchema, p.destSchema) && Validate(p.sourceSchema, p.destSchema).Ok?
  {
    hide FirstPlanned, Validate, Mappings, RowsKept, FoundSchema, ReadBack;
    FirstEntry(site, names, p);
    var found := FoundSchema(site, now, p.name);
    if p.name in site.tables {
      StillThere(site, site.tables, now, p.name);
    } else if p.name in now {
      CreatedReadsBack(site, now, p.name);
    }
  }

  /** The first plan's entry follows from what the databases held. */
  lemma FirstEntry(site: Site, names: seq<string>, p: TablePlan)
    requires FirstPlanned(site, names, p)
    ensures site.sourceSchema(p.name) == Some(p.sourceSchema)
    ensures p.destSchema == (if p.name in site.tables then FoundSchema(site, site.tables, p.name) else None)
    ensures p.mappings == Mappings(p.sourceSchema, p.destSchema) && Validate(p.sourceSchema, p.destSchema).Ok?
  {
    PlanSucceeds(site, names, site.tables);
    PlanAccounts(Found(site, site.tables), names);
    var plan := PlanAll(Found(site, site.tables), names).value;
    hide PlanAll, Validate, Mappings, Dropped, PlannedRows, FoundSchema;
    var i :| 0 <= i < |plan.tables| && plan.tables[i] == p;
    assert Justified(Found(site, site.tables), p, plan.warnings);
  }

  lemma StillThere(site: Site, before: map<string, seq<Row>>, now: map<string, seq<Row>>, name: string)
    requires name in site.tables
    ensures SameColumns(FoundSchema(site, now, name), FoundSchema(site, before, name))
  {
  }

  lemma CreatedReadsBack(site: Site, now: map<string, seq<Row>>, name: string)
    requires name !in site.tables && site.sourceSchema(name).Some?
    ensures
      var found := FoundSchema(site, now, name);
      found.Some? && ReadBack(site.reports, site.sourceSchema(name).value, found.value)
  {
  }

  lemma {:induction false} LaunchesConsistent(env: Env, site: Site, names: seq<string>, starts: seq<Start>,
      p: TablePlan)
    requires FirstPlanned(site, names, p) && Distinct(Names(p.sourceSchema.columns))
    requires p.name !in site.tables ==> RowsKept(site.reports, env, p)
    ensures forall l :: l in JobLaunches(env, site, names, starts) ==> Consistent(env, l.plans, p)
    decreases |starts|
  {
    hide AfterLaunches, Consistent, FirstPlanned, RowsKept, Found;
    if starts != [] {
      var n := |starts| - 1;
      LaunchesConsistent(env, site, names, starts[..n], p);
      var before := JobLaunches(env, site, names, starts[..n]);
      var now := AfterLaunches(env, before, site.tables);
      TablesStay(env, before, site.tables);
      FoundAgain(env, site, names, p, now);
      PlanSucceeds(site, names, now);
      ReplannedAlike(site.reports, env, Found(site, now), names, p);
    }
  }

  lemma {:induction false} LaunchSettings(env: Env, site: Site, names: seq<string>, starts: seq<Start>)
    requires forall s :: s in starts ==> !s.settings.truncate
    ensures forall l :: l in JobLaunches(env, site, names, starts) ==> !l.settings.truncate
    decreases |starts|
  {
    hide AfterLaunches, PlanAll, Found;
    if starts != [] { LaunchSettings(env, site, names, starts[..|starts| - 1]); }
  }

  /** RESTARTED JOBS CONVERGE. A job is started any number of times without truncation, each
      start plans anew against the tables that the earlier ones left, and each may fail, be
      aborted or killed. If the last one completes a keyed table of the first plan, the table
      holds its former rows plus the whole source, as after one faultless launch. (If the
      job created it, the destination must report types that keep the source's rows.) */
  lemma RestartedJobConverges(env: Env, site: Site, names: seq<string>, starts: seq<Start>, p: TablePlan)
    requires starts != [] && forall s :: s in starts ==> !s.settings.truncate
    requires FirstPlanned(site, names, p) && Distinct(Names(p.sourceSchema.columns))
    ensures
      var launches := JobLaunches(env, site, names, starts);
      var last := launches[|launches| - 1];
      && KeyedTable(env, p) && (p.name !in site.tables ==> RowsKept(site.reports, env, p))
      && last.settings.includeData && last.settings.batchSize > 0
      && p.name in RunOnce(env, last, FoundByLast(env, site, names, starts)).1.completed
      ==> Rows(AfterLaunches(env, launches, site.tables), p.name)
            == Insert(env.catalog.rules(p.name), Rows(site.tables, p.name), Feed(env, p))
  {
    hide RunOnce, AfterLaunches, FirstPlanned, KeyedTable, RowsKept, Consistent, Found, Feed, Insert;
    var launches, n := JobLaunches(env, site, names, starts), |starts| - 1;
    assert launches[..n] == JobLaunches(env, site, names, starts[..n]);
    LaunchSettings(env, site, names, starts);
    if KeyedTable(env, p) && (p.name !in site.tables ==> RowsKept(site.reports, env, p)) {
      LaunchesConsistent(env, site, names, starts, p);
      RestartConverges(env, launches, site.tables, p);
    }
  }

  /** Over SQLite, with the cells that sources deliver, nothing needs to be assumed of the
      reported types; and no restart skips the table. */
  lemma SqliteJobConverges(env: Env, site: Site, names: seq<string>, starts: seq<Start>, p: TablePlan)
    requires starts != [] && forall s :: s in starts ==> !s.settings.truncate
    requires FirstPlanned(site, names, p) && Distinct(Names(p.sourceSchema.columns))
    requires forall t :: site.reports(t) == SqliteSchema.Normalise(t)
    ensures
      var launches := JobLaunches(env, site, names, starts);
      var last := launches[|launches| - 1];
      && KeyedTable(env, p) && AllDelivered(env, p)
      && last.settings.includeData && last.settings.batchSize > 0
      && p.name in RunOnce(env, last, FoundByLast(env, site, names, starts)).1.completed
      ==> Rows(AfterLaunches(env, launches, site.tables), p.name)
            == Insert(env.catalog.rules(p.name), Rows(site.tables, p.name), Feed(env, p))
  {
    hide RunOnce, AfterLaunches, FirstPlanned, KeyedTable, Feed, Insert, JobLaunches, FoundByLast;
    if AllDelivered(env, p) {
      SqliteKeepsRows(env, p);
      ReportsAlike(env, site, p);
    }
    RestartedJobConverges(env, site, names, starts, p);
  }

  ghost predicate AllDelivered(env: Env, p: TablePlan) {
    forall i, j :: 0 <= i < |env.source(p.name)| && 0 <= j < |p.sourceSchema.columns| ==>
      Delivered(p.sourceSchema.columns[j], env.source(p.name)[i])
  }

  lemma ReportsAlike(env: Env, site: Site, p: TablePlan)
    requires RowsKept(SqliteSchema.Normalise, env, p) && forall t :: site.reports(t) == SqliteSchema.Normalise(t)
    ensures RowsKept(site.reports, env, p)
  {
    hide SqliteSchema.Normalise, SameKind, ActsOn;
  }
}
