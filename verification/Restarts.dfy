/** Jobs that are started again: after a failure, a lost process or a redelivered task. */
module Restarts {
  import opened Common
  import opened ConflictRules
  import opened Schema
  import opened Destination
  import opened Executor
  import opened Copying
  import opened Runs
  import opened Tables

  // ---------- Restarts ----------

  /** One start of the job: the worker plans anew, the settings may differ, and so does
      its luck. */
  datatype Launch = Launch(plans: seq<TablePlan>, settings: Settings, fate: nat -> Fate)

  function With(env: Env, l: Launch): Env {
    env.(settings := l.settings, fate := l.fate)
  }

  /** One launch: connect to the committed tables, run, disconnect. */
  function RunOnce(env: Env, l: Launch, tables: map<string, seq<Row>>): (World, Results) {
    RunSpec(With(env, l), l.plans, FreshWorld(Store(tables, tables)), 0, NO_RESULTS)
  }

  /** The committed tables after all launches, however each of them ended. */
  function AfterLaunches(env: Env, launches: seq<Launch>, tables: map<string, seq<Row>>): map<string, seq<Row>> {
    if launches == [] then tables
    else
      var n := |launches| - 1;
      RunOnce(env, launches[n], AfterLaunches(env, launches[..n], tables)).0.store.durable
  }

  /** What a worker does with its connections: open them, run, close them. */
  method LaunchJob(env: Env, l: Launch, tables: map<string, seq<Row>>)
    returns (committed: map<string, seq<Row>>, results: Results)
    ensures committed == RunOnce(env, l, tables).0.store.durable && results == RunOnce(env, l, tables).1
  {
    hide RunSpec;
    var destination := new SQLiteProvider(env.catalog, tables);
    var executor := new MigrationExecutor(With(env, l), l.plans, destination);
    var total;
    results, total := executor.Run();
    assert executor.Now() == RunOnce(env, l, tables).0;
    assert destination.State() == executor.Now().store;
    destination.Disconnect();
    committed := destination.durable;
  }

  /** One launch after the other, each on what the last one left committed. */
  method LaunchJobs(env: Env, launches: seq<Launch>, tables: map<string, seq<Row>>)
    returns (committed: map<string, seq<Row>>)
    ensures committed == AfterLaunches(env, launches, tables)
  {
    hide RunOnce;
    committed := tables;
    for i := 0 to |launches|
      invariant committed == AfterLaunches(env, launches[..i], tables)
    {
      var results;
      assert launches[..i + 1][..i] == launches[..i];
      committed, results := LaunchJob(env, launches[i], committed);
    }
    assert launches[..|launches|] == launches;
  }

  /** The database delivers rows of one shape, and the mapped rows carry keys. */
  ghost predicate KeyedTable(env: Env, p: TablePlan) {
    Uniform(env.source(p.name)) && Keyed(env.catalog.rules(p.name), GoodFeed(env, p))
  }

  lemma KeyedTableFeeds(env: Env, p: TablePlan)
    requires KeyedTable(env, p)
    ensures WellKeyed(env.catalog.rules(p.name), GoodFeed(env, p))
  {
    FeedUniform(env, p);
  }

  /** Both views hold the old rows and at least the first `lo` rows of the source. */
  ghost predicate Holding(env: Env, p: TablePlan, initial: seq<Row>, lo: nat, s: Store) {
    var rules, G := env.catalog.rules(p.name), GoodFeed(env, p);
    && lo <= |G|
    && PrefixOf(rules, initial, G, lo, |G|, Rows(s.live, p.name))
    && PrefixOf(rules, initial, G, lo, |G|, Rows(s.durable, p.name))
  }

  /** One more pass over a table, without truncation, loses nothing and may add the rest. */
  lemma PassKeeps(env: Env, p: TablePlan, initial: seq<Row>, lo: nat, w: World)
    requires !env.settings.truncate && WellKeyed(env.catalog.rules(p.name), GoodFeed(env, p))
    requires Holding(env, p, initial, lo, w.store)
    ensures
      var (w', verdict) := MigrateTableSpec(env, p, w);
      && Holding(env, p, initial, lo, w'.store)
      && (verdict.Completed? && env.settings.includeData && env.settings.batchSize > 0 ==>
            Good(env, p) == |Feed(env, p)| && Holding(env, p, initial, |GoodFeed(env, p)|, w'.store))
  {
    var (w1, verdict) := PrepareSpec(env, p.name, w);
    CreateKeeps(env, p.name, w);
    hide PrepareSpec, PrefixOf;
    assert Holding(env, p, initial, lo, w1.store);
    if verdict.Completed? && env.settings.includeData {
      PassCopies(env, p, initial, lo, w1);
    }
  }

  lemma CreateKeeps(env: Env, t: string, w: World)
    requires !env.settings.truncate
    ensures
      var s, s' := w.store, PrepareSpec(env, t, w).0.store;
      && Rows(s'.live, t) == Rows(s.live, t)
      && (Rows(s'.durable, t) == Rows(s.durable, t) || Rows(s'.durable, t) == Rows(s.live, t))
  {
  }

  lemma PassCopies(env: Env, p: TablePlan, initial: seq<Row>, lo: nat, w: World)
    requires WellKeyed(env.catalog.rules(p.name), GoodFeed(env, p)) && Holding(env, p, initial, lo, w.store)
    ensures
      var (w', verdict) := CopySpec(env, p.name, Feed(env, p), Good(env, p), w, 0, 0);
      && Holding(env, p, initial, lo, w'.store)
      && (verdict.Completed? && env.settings.batchSize > 0 ==>
            Good(env, p) == |Feed(env, p)| && Holding(env, p, initial, |GoodFeed(env, p)|, w'.store))
  {
    var t, T, good, G := p.name, Feed(env, p), Good(env, p), GoodFeed(env, p);
    var rules, base, alt := env.catalog.rules(t), Rows(w.store.live, t), Rows(w.store.durable, t);
    StartsAtZero(env, t, G, w);
    hide CopySpec, Insert, PrefixOf, Keyed, Uniform, Feed, Good;
    CopyKeeps(env, t, T, good, base, alt, w, 0, 0, w.total);
    var (w', verdict) := CopySpec(env, t, T, good, w, 0, 0);
    var at := w'.total - w.total;
    PrefixWiden(rules, base, G, at, Min(at + env.settings.batchSize, |G|), Rows(w'.store.live, t));
    PrefixWiden(rules, base, G, at, Min(at + env.settings.batchSize, |G|), Rows(w'.store.durable, t));
    PrefixOnPrefix(rules, initial, G, lo, base, Rows(w'.store.live, t));
    PrefixOnPrefix(rules, initial, G, lo, base, Rows(w'.store.durable, t));
    if verdict.Completed? && env.settings.batchSize > 0 {
      assert G == T;
      WholePrefix(rules, initial, G, Rows(w'.store.live, t));
      WholePrefix(rules, initial, G, Rows(w'.store.durable, t));
    }
  }

  lemma FramedHolds(env: Env, p: TablePlan, initial: seq<Row>, lo: nat, s: Store, s': Store)
    requires Framed(s, s', p.name) && Holding(env, p, initial, lo, s)
    ensures Holding(env, p, initial, lo, s')
  {
    hide PrefixOf;
    assert Rows(s'.live, p.name) == Rows(s.live, p.name);
    assert Rows(s'.durable, p.name) == Rows(s.durable, p.name) || Rows(s'.durable, p.name) == Rows(s.live, p.name);
  }

  /** A completed table holds its whole source. */
  ghost predicate DoneIfListed(env: Env, p: TablePlan, initial: seq<Row>, s: Store, res: Results) {
    p.name in res.completed && env.settings.includeData && env.settings.batchSize > 0 ==>
      Good(env, p) == |Feed(env, p)| && Holding(env, p, initial, |GoodFeed(env, p)|, s)
  }

  /** A whole run without truncation, for a table requested once or several times. */
  lemma {:induction false} RunHolds(env: Env, plans: seq<TablePlan>, w: World, i: nat, res: Results, p: TablePlan,
      initial: seq<Row>)
    requires i <= |plans| && !env.settings.truncate && Consistent(env, plans, p)
    requires WellKeyed(env.catalog.rules(p.name), GoodFeed(env, p))
    requires Holding(env, p, initial, 0, w.store) && DoneIfListed(env, p, initial, w.store, res)
    ensures
      var (w', res') := RunSpec(env, plans, w, i, res);
      Holding(env, p, initial, 0, w'.store) && DoneIfListed(env, p, initial, w'.store, res')
    decreases |plans| - i
  {
    hide MigrateTableSpec, WellKeyed, Holding, GoodFeed, Feed, Good, SameFeed;
    if i < |plans| {
      var q, here := plans[i], res.(reached := i + 1);
      var (w1, verdict) := MigrateTableSpec(env, q, w);
      if q.skipped {
        SkipHolds(env, p, initial, w.store, res, here.(skipped := res.skipped + [q.name]));
        RunHolds(env, plans, w, i + 1, here.(skipped := res.skipped + [q.name]), p, initial);
      } else {
        TurnHolds(env, q, w, res, p, initial);
        if verdict.Completed? {
          RunHolds(env, plans, w1, i + 1, here.(completed := res.completed + [q.name]), p, initial);
        } else if verdict.Failed? && env.settings.continueOnError {
          RunHolds(env, plans, w1, i + 1, here.(failed := res.failed + [q.name]), p, initial);
        }
      }
    }
  }

  lemma SkipHolds(env: Env, p: TablePlan, initial: seq<Row>, s: Store, res: Results, res': Results)
    requires DoneIfListed(env, p, initial, s, res) && res'.completed == res.completed
    ensures DoneIfListed(env, p, initial, s, res')
  {
  }

  /** One table's turn in such a run. */
  lemma TurnHolds(env: Env, q: TablePlan, w: World, res: Results, p: TablePlan, initial: seq<Row>)
    requires !env.settings.truncate && (q.name == p.name ==> SameFeed(env, q, p))
    requires WellKeyed(env.catalog.rules(p.name), GoodFeed(env, p))
    requires Holding(env, p, initial, 0, w.store) && DoneIfListed(env, p, initial, w.store, res)
    ensures
      var (w', verdict) := MigrateTableSpec(env, q, w);
      && Holding(env, p, initial, 0, w'.store)
      && DoneIfListed(env, p, initial, w'.store, res)
      && (verdict.Completed? ==>
            forall res': Results :: res'.completed == res.completed + [q.name] ==>
                  DoneIfListed(env, p, initial, w'.store, res'))
  {
    hide MigrateTableSpec, WellKeyed, Holding, GoodFeed, Feed, Good, Framed, SameFeed;
    var full := |GoodFeed(env, p)|;
    if q.name == p.name {
      SamePass(env, q, p, w);
      PassKeeps(env, p, initial, 0, w);
      if Holding(env, p, initial, full, w.store) {
        PassKeeps(env, p, initial, full, w);
      }
    } else {
      MigrateFrames(env, q, w, p.name);
      FramedHolds(env, p, initial, 0, w.store, MigrateTableSpec(env, q, w).0.store);
      if Holding(env, p, initial, full, w.store) {
        FramedHolds(env, p, initial, full, w.store, MigrateTableSpec(env, q, w).0.store);
      }
    }
  }

  /** What the copies of p's table add to in a launch. */
  function LaunchBase(env: Env, l: Launch, tables: map<string, seq<Row>>, p: TablePlan): seq<Row> {
    FinalBase(With(env, l), l.plans, FreshWorld(Store(tables, tables)), 0, p.name, Rows(tables, p.name))
  }

  /** The launch copies data and completes p's table: without truncation once is enough,
      with truncation no turn to the table may fail. */
  predicate Completes(env: Env, l: Launch, tables: map<string, seq<Row>>, p: TablePlan) {
    var res := RunOnce(env, l, tables).1;
    && l.settings.includeData && l.settings.batchSize > 0 && res.reached <= |l.plans|
    && (if l.settings.truncate
        then Turns(l.plans[..res.reached], p.name) > 0 && NoTurnFailed(l.plans, res, p.name)
        else p.name in res.completed)
  }

  /** A launch feeds what its environment is set up to feed. */
  lemma WithFeeds(env: Env, l: Launch, p: TablePlan)
    ensures Feed(With(env, l), p) == Feed(env, p) && Good(With(env, l), p) == Good(env, p)
    ensures GoodFeed(With(env, l), p) == GoodFeed(env, p)
    ensures Consistent(env, l.plans, p) ==> Consistent(With(env, l), l.plans, p)
    ensures Good(env, p) == |Feed(env, p)| ==> GoodFeed(env, p) == Feed(env, p)
  {
    if Consistent(env, l.plans, p) {
      forall j | 0 <= j < |l.plans| && l.plans[j].name == p.name && !l.plans[j].skipped
        ensures SameFeed(With(env, l), l.plans[j], p)
      {
        assert SameFeed(env, l.plans[j], p);
      }
    }
  }

  /** WHAT A LAUNCH LEAVES COMMITTED. A prefix of the source over the initial or emptied
      rows; all of it over exactly the launch's base if the launch completes the table. (If
      there was nothing to copy, a truncation may never have been committed.) Without
      truncation that base is the initial rows. */
  lemma LaunchOutcome(env: Env, l: Launch, tables: map<string, seq<Row>>, p: TablePlan)
    requires Consistent(env, l.plans, p) && KeyedTable(env, p)
    ensures
      var now := Rows(RunOnce(env, l, tables).0.store.durable, p.name);
      && Arrived(With(env, l), p, Rows(tables, p.name), now)
      && (Completes(env, l, tables, p) ==> Good(env, p) == |Feed(env, p)|)
      && (Completes(env, l, tables, p) && (l.settings.truncate ==> Feed(env, p) != []) ==>
            now == Insert(env.catalog.rules(p.name), LaunchBase(env, l, tables, p), Feed(env, p)))
      && (!l.settings.truncate ==> LaunchBase(env, l, tables, p) == Rows(tables, p.name))
  {
    var env', w := With(env, l), FreshWorld(Store(tables, tables));
    WithFeeds(env, l, p);
    KeyedTableFeeds(env, p);
    hide RunSpec, FinalBase, WellKeyed, Insert, PrefixOf, KeyedTable, Feed, Good, GoodFeed, Arrived, Consistent, Turns;
    RunOutcome(env', l.plans, w, p, Rows(tables, p.name));
    hide Standing, Partial;
    if !l.settings.truncate {
      UntruncatedBase(env', l.plans, w, 0, p.name, Rows(tables, p.name));
      UntruncatedLaunch(env, l, tables, p);
    }
  }

  lemma UntruncatedLaunch(env: Env, l: Launch, tables: map<string, seq<Row>>, p: TablePlan)
    requires Consistent(env, l.plans, p) && !l.settings.truncate && KeyedTable(env, p)
    ensures
      var initial, rules := Rows(tables, p.name), env.catalog.rules(p.name);
      var (w', res') := RunOnce(env, l, tables);
      && PrefixOf(rules, initial, GoodFeed(env, p), 0, |GoodFeed(env, p)|, Rows(w'.store.durable, p.name))
      && (p.name in res'.completed && l.settings.includeData && l.settings.batchSize > 0 ==>
            Rows(w'.store.durable, p.name) == Insert(rules, initial, Feed(env, p)) && Good(env, p) == |Feed(env, p)|)
  {
    hide RunSpec, WellKeyed, Insert, PrefixOf, KeyedTable, Consistent;
    var initial, G, rules := Rows(tables, p.name), GoodFeed(env, p), env.catalog.rules(p.name);
    var env', w := With(env, l), FreshWorld(Store(tables, tables));
    WithFeeds(env, l, p);
    KeyedTableFeeds(env, p);
    hide Feed, Good, GoodFeed;
    ZeroPrefix(rules, initial, G);
    RunHolds(env', l.plans, w, 0, NO_RESULTS, p, initial);
    var (w', res') := RunOnce(env, l, tables);
    WholePrefix(rules, initial, G, Rows(w'.store.durable, p.name));
  }

  /** RESTART CONVERGENCE. With truncation off and a keyed table: after any launches, each
      failed, aborted or killed anywhere, the table's committed rows are a prefix of the
      source inserted over the original rows; and if the last launch completed the table,
      they are the original rows plus the whole source, as after one faultless run. */
  lemma {:induction false} RestartConverges(env: Env, launches: seq<Launch>, tables: map<string, seq<Row>>,
      p: TablePlan)
    requires KeyedTable(env, p)
    requires forall l :: l in launches ==> !l.settings.truncate && Consistent(env, l.plans, p)
    ensures
      var initial, rules := Rows(tables, p.name), env.catalog.rules(p.name);
      var now := Rows(AfterLaunches(env, launches, tables), p.name);
      && PrefixOf(rules, initial, GoodFeed(env, p), 0, |GoodFeed(env, p)|, now)
      && (launches != [] ==>
            var n := |launches| - 1;
            var last := launches[n];
            p.name in RunOnce(env, last, AfterLaunches(env, launches[..n], tables)).1.completed
            && last.settings.includeData && last.settings.batchSize > 0
            ==> now == Insert(rules, initial, Feed(env, p)))
    decreases |launches|
  {
    var rules, G, initial := env.catalog.rules(p.name), GoodFeed(env, p), Rows(tables, p.name);
    if launches == [] {
      ZeroPrefix(rules, initial, G);
    } else {
      hide RunOnce, Insert, PrefixOf, Keyed, Feed, Good, Consistent;
      var n := |launches| - 1;
      var before := AfterLaunches(env, launches[..n], tables);
      RestartConverges(env, launches[..n], tables, p);
      UntruncatedLaunch(env, launches[n], before, p);
      var now := Rows(RunOnce(env, launches[n], before).0.store.durable, p.name);
      PrefixOnPrefix(rules, initial, G, 0, Rows(before, p.name), now);
      assert Good(env, p) == |Feed(env, p)| ==> G == Feed(env, p);
    }
  }

  /** FAULT TRANSPARENCY. Two launches that complete a table leave the same rows in it
      whenever their bases agree, whatever failed on the way, however often each retried,
      and for any batch sizes. Without truncation their bases always agree. */
  lemma FaultTransparency(env: Env, a: Launch, b: Launch, tables: map<string, seq<Row>>, p: TablePlan)
    requires KeyedTable(env, p) && Consistent(env, a.plans, p) && Consistent(env, b.plans, p)
    ensures
      && Completes(env, a, tables, p) && Completes(env, b, tables, p)
      && (a.settings.truncate || b.settings.truncate ==> Feed(env, p) != [])
      && LaunchBase(env, a, tables, p) == LaunchBase(env, b, tables, p)
      ==> Rows(RunOnce(env, a, tables).0.store.durable, p.name) == Rows(RunOnce(env, b, tables).0.store.durable, p.name)
    ensures !a.settings.truncate && !b.settings.truncate ==>
      LaunchBase(env, a, tables, p) == LaunchBase(env, b, tables, p)
  {
    hide RunOnce, KeyedTable, Insert, PrefixOf, Arrived, Feed, Good, GoodFeed, Consistent, Completes, LaunchBase;
    LaunchOutcome(env, a, tables, p);
    LaunchOutcome(env, b, tables, p);
  }
}
