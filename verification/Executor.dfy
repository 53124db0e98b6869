/** The table-by-table, batch-by-batch copy with its two retry loops
    (app/migration/executor.py). Each class method is proved equal to a function of the
    environment and the state before the call; Copying and Runs prove what those
    functions guarantee. */
module Executor {
  import opened Common
  import opened Schema
  import opened Mapper
  import opened Destination

  datatype Settings = Settings(
    batchSize: nat,
    includeSchema: bool,
    includeData: bool,
    truncate: bool,
    maxRetries: nat,
    continueOnError: bool)

  datatype TablePlan = TablePlan(
    name: string,
    sourceSchema: TableSchema,
    destSchema: Option<TableSchema>,
    mappings: seq<ColumnMapping>,
    rowCount: nat,
    skipped: bool)

  /** Everything outside the executor: the source's rows (the same on every fetch), the
      destination's constraints, and the fate of the n-th call made to the environment. */
  datatype Env = Env(
    settings: Settings,
    source: string -> seq<Row>,
    catalog: Catalog,
    fate: nat -> Fate,
    dumps: Dumps)

  datatype Report = Report(table: string, rowsInTable: nat, total: nat)

  /** What a crash right after a call would leave, and the rows counted by then. */
  datatype Snapshot = Snapshot(store: Store, total: nat)

  /** The destination, the position in the list of fates, the executor's running total,
      and a trace of what happened. */
  datatype World = World(
    store: Store,
    clock: nat,
    total: nat,
    fetches: nat,
    inserts: nat,
    backoff: nat,
    reports: seq<Report>,
    delivered: seq<seq<Row>>,
    history: seq<Snapshot>)

  /** Completed and Failed are `return True` and `return False`; Aborted is an exception
      that leaves the executor, or the death of the process. */
  datatype Verdict = Completed | Failed | Aborted

  datatype Results = Results(
    completed: seq<string>,
    skipped: seq<string>,
    failed: seq<string>,
    reached: nat,
    aborted: bool)

  /** One call to the environment happened and left this store. */
  function Tick(w: World, store: Store): World {
    w.(store := store, clock := w.clock + 1, history := w.history + [Snapshot(store, w.total)])
  }

  // ---------- The rows a table plan sends ----------

  function SourceColumns(ms: seq<ColumnMapping>): (cols: seq<string>)
    ensures |cols| == |ms|
  {
    seq(|ms|, i requires 0 <= i < |ms| => ms[i].sourceCol)
  }

  /** The whole source table as the destination receives it. */
  function Feed(env: Env, p: TablePlan): (T: seq<Row>)
    ensures |T| == |env.source(p.name)|
  {
    if Active(p.mappings) == [] then env.source(p.name)
    else Mapped(env.dumps, env.source(p.name), p.mappings)
  }

  /** How many of those rows come before the first one whose mapping raises. */
  function Good(env: Env, p: TablePlan): (good: nat)
    ensures good <= |env.source(p.name)|
  {
    if Active(p.mappings) == [] then |env.source(p.name)|
    else Mappable(env.dumps, env.source(p.name), p.mappings)
  }

  // ---------- Specification of the three loops ----------

  /** One insertion attempt settles the batch, or there will be another one. */
  datatype Attempt = Over(verdict: Verdict) | Again

  function AttemptSpec(env: Env, t: string, rows: seq<Row>, w: World, attempt: nat): (World, Attempt) {
    var (store, reply) := InsertOp(env.catalog, w.store, t, rows, env.fate(w.clock));
    var w1 := Tick(w, store).(inserts := w.inserts + 1);
    match reply
    case Returned => (w1, Over(Completed))
    case Lost => (w1, Over(Aborted))
    case Raised =>
      if attempt < env.settings.maxRetries
      then (w1.(backoff := w1.backoff + Pow2(attempt)), Again)
      else (w1, Over(Failed))
  }

  function InsertWithRetrySpec(env: Env, t: string, rows: seq<Row>, w: World, attempt: nat): (World, Verdict)
    requires attempt <= env.settings.maxRetries
    decreases env.settings.maxRetries - attempt
  {
    var (w1, next) := AttemptSpec(env, t, rows, w, attempt);
    if next.Over? then (w1, next.verdict)
    else
      assert attempt < env.settings.maxRetries;
      InsertWithRetrySpec(env, t, rows, w1, attempt + 1)
  }

  function AfterFetch(w: World): World {
    Tick(w, w.store).(fetches := w.fetches + 1)
  }

  /** A batch was inserted: count it, then call on_progress. */
  function AfterBatch(t: string, rows: seq<Row>, done: nat, w: World): World {
    var counted := w.(total := w.total + |rows|, delivered := w.delivered + [rows]);
    Tick(counted, counted.store).(reports := counted.reports + [Report(t, done, counted.total)])
  }

  /** One turn of the copy loop ends it, or goes on with a new offset and retry count. */
  datatype Turn = Stop(verdict: Verdict) | Next(offset: nat, retry: nat)

  /** One turn of the copy loop over the rows T, of which the first `good` can be mapped. */
  function TurnSpec(env: Env, t: string, T: seq<Row>, good: nat, w: World, offset: nat, retry: nat): (res: (World,
      Turn))
    requires offset <= good <= |T| && retry <= env.settings.maxRetries
    ensures res.1.Next? ==>
      && offset <= res.1.offset <= good && res.1.retry <= env.settings.maxRetries
      && (res.1.offset == offset ==> res.1.retry == retry + 1)
  {
    var w1 := AfterFetch(w);
    match env.fate(w.clock)
    case Dies(_, _) => (w1, Stop(Aborted))
    case Raises(_, _) =>
      if retry < env.settings.maxRetries
      then (w1.(backoff := w1.backoff + Pow2(retry + 1)), Next(offset, retry + 1))
      else (w1, Stop(Failed))
    case Fine =>
      var end := Min(offset + env.settings.batchSize, |T|);
      if end == offset then (w1, Stop(Completed))
      else if end > good then (w1, Stop(Aborted))
      else
        var (w2, verdict) := InsertWithRetrySpec(env, t, T[offset..end], w1, 0);
        if !verdict.Completed? then (w2, Stop(verdict))
        else
          var w3 := AfterBatch(t, T[offset..end], end, w2);
          (w3, if env.fate(w2.clock).Fine? then Next(end, 0) else Stop(Aborted))
  }

  /** A turn that inserts a batch: everything else only fetches. */
  predicate InsertsBatch(env: Env, T: seq<Row>, good: nat, w: World, offset: nat) {
    env.fate(w.clock).Fine? && offset < Min(offset + env.settings.batchSize, |T|) <= good
  }

  /** The two shapes of a turn. */
  lemma TurnShape(env: Env, t: string, T: seq<Row>, good: nat, w: World, offset: nat, retry: nat)
    requires offset <= good <= |T| && retry <= env.settings.maxRetries
    ensures
      var (w', turn) := TurnSpec(env, t, T, good, w, offset, retry);
      var end := Min(offset + env.settings.batchSize, |T|);
      if InsertsBatch(env, T, good, w, offset) then
        var (w2, verdict) := InsertWithRetrySpec(env, t, T[offset..end], AfterFetch(w), 0);
        && w' == (if verdict.Completed? then AfterBatch(t, T[offset..end], end, w2) else w2)
        && (turn.Next? ==> verdict.Completed? && turn == Next(end, 0))
        && (turn.Stop? ==> !turn.verdict.Completed?)
      else if turn.Next? then
        w' == AfterFetch(w).(backoff := w.backoff + Pow2(retry + 1)) && turn == Next(offset, retry + 1)
      else
        w' == AfterFetch(w) && (turn.verdict.Completed? ==> end == offset)
  {
  }

  /** The copy loop from the given offset and retry count to its end. */
  function CopySpec(env: Env, t: string, T: seq<Row>, good: nat, w: World, offset: nat, retry: nat): (World, Verdict)
    requires offset <= good <= |T| && retry <= env.settings.maxRetries
    decreases |T| - offset, env.settings.maxRetries - retry
  {
    match TurnSpec(env, t, T, good, w, offset, retry)
    case (w', Stop(verdict)) => (w', verdict)
    case (w', Next(offset', retry')) => CopySpec(env, t, T, good, w', offset', retry')
  }

  /** Steps 1 and 2 of a table: create it, then perhaps empty it. */
  function PrepareSpec(env: Env, t: string, w: World): (World, Verdict) {
    var (w1, verdict) :=
      if !env.settings.includeSchema then (w, Completed)
      else
        var (store, reply) := CreateOp(w.store, t, env.fate(w.clock));
        (Tick(w, store), match reply case Returned => Completed case Raised => Failed case Lost => Aborted);
    if !verdict.Completed? || !env.settings.truncate then (w1, verdict)
    else
      var (store, reply) := TruncateOp(w1.store, t, env.fate(w1.clock));
      (Tick(w1, store), if reply.Lost? then Aborted else Completed)
  }

  function MigrateTableSpec(env: Env, p: TablePlan, w: World): (World, Verdict) {
    var (w1, verdict) := PrepareSpec(env, p.name, w);
    if !verdict.Completed? || !env.settings.includeData then (w1, verdict)
    else CopySpec(env, p.name, Feed(env, p), Good(env, p), w1, 0, 0)
  }

  /** The main loop from plan number i on. */
  function RunSpec(env: Env, plans: seq<TablePlan>, w: World, i: nat, res: Results): (World, Results)
    requires i <= |plans|
    decreases |plans| - i
  {
    if i == |plans| then (w, res)
    else
      var p := plans[i];
      var here := res.(reached := i + 1);
      if p.skipped then RunSpec(env, plans, w, i + 1, here.(skipped := res.skipped + [p.name]))
      else
        var (w1, verdict) := MigrateTableSpec(env, p, w);
        match verdict
        case Completed => RunSpec(env, plans, w1, i + 1, here.(completed := res.completed + [p.name]))
        case Aborted => (w1, here.(aborted := true))
        case Failed =>
          var res1 := here.(failed := res.failed + [p.name]);
          if env.settings.continueOnError then RunSpec(env, plans, w1, i + 1, res1) else (w1, res1)
  }

  const NO_RESULTS := Results([], [], [], 0, false)

  function FreshWorld(s: Store): World {
    World(s, 0, 0, 0, 0, 0, [], [], [])
  }

  // ---------- The batch the code computes is a slice of the feed ----------

  lemma FeedUniform(env: Env, p: TablePlan)
    requires Uniform(env.source(p.name))
    ensures Uniform(Feed(env, p)[..Good(env, p)])
  {
    if Active(p.mappings) != [] {
      var rows, ms, good := env.source(p.name), p.mappings, Good(env, p);
      forall i | 0 <= i < good ensures Feed(env, p)[i].Keys == Targets(ms) {
        MappablePrefix(env.dumps, rows[..good], ms, i);
        MapRowKeys(env.dumps, rows[i], ms);
      }
    }
  }

  lemma UniformSlice(T: seq<Row>, good: nat, lo: nat, hi: nat)
    requires lo <= hi <= good <= |T| && Uniform(T[..good])
    ensures Records(T[lo..hi]) == T[lo..hi]
  {
    assert forall i :: lo <= i < hi ==> T[lo..hi][i - lo] == T[..good][i];
    if lo < hi {
      forall i | 0 <= i < hi - lo ensures T[lo..hi][i].Keys == T[lo..hi][0].Keys {
        assert T[..good][lo + i].Keys == T[..good][0].Keys && T[..good][lo].Keys == T[..good][0].Keys;
      }
    }
    RecordsLoseNothingExactly(T[lo..hi]);
  }

  lemma WantedAreRequested(ms: seq<ColumnMapping>)
    ensures Wanted(ms) <= ColumnSet(SourceColumns(Active(ms)))
  {
    forall m | m in ms && m.included ensures m.sourceCol in SourceColumns(Active(ms)) {
      ActiveHolds(ms, m);
      var i :| 0 <= i < |Active(ms)| && Active(ms)[i] == m;
      assert SourceColumns(Active(ms))[i] == m.sourceCol;
    }
  }

  /** Fetching the requested columns and mapping the batch yields exactly the slice of
      the feed, or raises exactly when the slice leaves the mappable rows. */
  lemma BatchIsSlice(env: Env, p: TablePlan, offset: nat, batch: seq<Row>)
    requires Active(p.mappings) != [] && offset <= Good(env, p)
    requires batch == FetchBatch(env.source(p.name), offset, env.settings.batchSize,
                                 Some(SourceColumns(Active(p.mappings))))
    ensures
      var end := Min(offset + env.settings.batchSize, |env.source(p.name)|);
      && |batch| == end - offset
      && (end <= Good(env, p) ==> MapRows(env.dumps, batch, p.mappings) == Ok(Feed(env, p)[offset..end]))
      && (end > Good(env, p) ==> MapRows(env.dumps, batch, p.mappings).Err?)
  {
    var rows, ms := env.source(p.name), p.mappings;
    var cols := ColumnSet(SourceColumns(Active(ms)));
    var end := Min(offset + env.settings.batchSize, |rows|);
    hide MapRow, MapRows, Mappable, Wanted;
    WantedAreRequested(ms);
    ProjectBatch(env.dumps, rows[offset..end], batch, ms, cols);
    MapSlice(env.dumps, rows, ms, offset, end);
  }

  // ---------- The executor ----------

  class MigrationExecutor {
    const env: Env
    const plan: seq<TablePlan>
    const destination: SQLiteProvider
    var totalRowsProcessed: nat
    var clock: nat
    ghost var fetches: nat
    ghost var inserts: nat
    ghost var backoff: nat
    ghost var reports: seq<Report>
    ghost var delivered: seq<seq<Row>>
    ghost var history: seq<Snapshot>

    constructor (env: Env, plan: seq<TablePlan>, destination: SQLiteProvider)
      requires destination.catalog == env.catalog
      ensures Valid() && this.env == env && this.plan == plan && this.destination == destination
      ensures Now() == FreshWorld(destination.State())
    {
      this.env, this.plan, this.destination := env, plan, destination;
      totalRowsProcessed, clock := 0, 0;
      fetches, inserts, backoff, reports, delivered, history := 0, 0, 0, [], [], [];
    }

    ghost predicate Valid() {
      destination.catalog == env.catalog
    }

    ghost function Now(): World
      reads this, destination
    {
      World(destination.State(), clock, totalRowsProcessed, fetches, inserts, backoff, reports, delivered, history)
    }

    /** Record that a call to the environment ended. */
    method Advance()
      modifies this`clock, this`history
      ensures Now() == Tick(old(Now()), destination.State())
    {
      history := history + [Snapshot(destination.State(), totalRowsProcessed)];
      clock := clock + 1;
    }

    /** The body of the retry loop. */
    method InsertAttempt(t: string, rows: seq<Row>, attempt: nat) returns (next: Attempt)
      requires Valid()
      modifies this, destination
      ensures (Now(), next) == AttemptSpec(env, t, rows, old(Now()), attempt)
    {
      var reply := destination.InsertBatch(t, rows, env.fate(clock));
      Advance();
      inserts := inserts + 1;
      if reply.Returned? {
        return Over(Completed);
      }
      if reply.Lost? {
        return Over(Aborted);
      }
      if attempt < env.settings.maxRetries {
        backoff := backoff + Pow2(attempt);
        return Again;
      }
      next := Over(Failed);
    }

    method InsertWithRetry(t: string, rows: seq<Row>) returns (verdict: Verdict)
      requires Valid()
      modifies this, destination
      ensures (Now(), verdict) == InsertWithRetrySpec(env, t, rows, old(Now()), 0)
    {
      ghost var w := Now();
      var attempt := 0;
      while attempt < env.settings.maxRetries + 1
        invariant attempt <= env.settings.maxRetries
        invariant InsertWithRetrySpec(env, t, rows, w, 0) == InsertWithRetrySpec(env, t, rows, Now(), attempt)
      {
        var next := InsertAttempt(t, rows, attempt);
        if next.Over? {
          return next.verdict;
        }
        attempt := attempt + 1;
      }
      verdict := Failed;
    }

    method MigrateTable(p: TablePlan) returns (verdict: Verdict)
      requires Valid()
      modifies this, destination
      ensures (Now(), verdict) == MigrateTableSpec(env, p, old(Now()))
    {
      verdict := Prepare(p.name);
      if !verdict.Completed? || !env.settings.includeData {
        return;
      }
      verdict := CopyData(p);
    }

    method Prepare(t: string) returns (verdict: Verdict)
      requires Valid()
      modifies this, destination
      ensures (Now(), verdict) == PrepareSpec(env, t, old(Now()))
    {
      if env.settings.includeSchema {
        var reply := destination.CreateTable(t, env.fate(clock));
        Advance();
        if !reply.Returned? {
          return if reply.Raised? then Failed else Aborted;
        }
      }
      if env.settings.truncate {
        var reply := destination.TruncateTable(t, env.fate(clock));
        Advance();
        if reply.Lost? {
          return Aborted;
        }
      }
      verdict := Completed;
    }

    /** Fetch the projected batch at `offset` and apply the column mappings to it. */
    method NextBatch(p: TablePlan, offset: nat, activeMappings: seq<ColumnMapping>)
      returns (count: nat, transformed: Option<seq<Row>>)
      requires activeMappings == Active(p.mappings) && offset <= Good(env, p)
      ensures
        var end := Min(offset + env.settings.batchSize, |Feed(env, p)|);
        && count == end - offset
        && transformed == if end <= Good(env, p) then Some(Feed(env, p)[offset..end]) else None
    {
      var columns := if activeMappings != [] then Some(SourceColumns(activeMappings)) else None;
      var batch := FetchBatch(env.source(p.name), offset, env.settings.batchSize, columns);
      count := |batch|;
      if activeMappings == [] {
        return count, Some(batch);
      }
      BatchIsSlice(env, p, offset, batch);
      var mapped := ApplyMappings(env.dumps, batch, p.mappings);
      transformed := if mapped.Ok? then Some(mapped.value) else None;
    }

    /** Count a delivered batch and report it through on_progress. */
    method ReportBatch(t: string, rows: seq<Row>, rowsForTable: nat) returns (fate: Fate)
      requires Valid()
      modifies this
      ensures Now() == AfterBatch(t, rows, rowsForTable, old(Now())) && fate == env.fate(old(clock))
    {
      totalRowsProcessed := totalRowsProcessed + |rows|;
      delivered := delivered + [rows];
      fate := env.fate(clock);
      Advance();
      reports := reports + [Report(t, rowsForTable, totalRowsProcessed)];
    }

    /** The body of the copy loop: fetch, transform, insert, count and report. */
    method CopyTurn(p: TablePlan, activeMappings: seq<ColumnMapping>, offset: nat, retryCount: nat)
      returns (turn: Turn)
      requires Valid() && activeMappings == Active(p.mappings)
      requires offset <= Good(env, p) && retryCount <= env.settings.maxRetries
      modifies this, destination
      ensures (Now(), turn) == TurnSpec(env, p.name, Feed(env, p), Good(env, p), old(Now()), offset, retryCount)
    {
      hide InsertWithRetrySpec, Feed, Good;
      var fate := env.fate(clock);
      Advance();
      fetches := fetches + 1;
      if fate.Dies? {
        return Stop(Aborted);
      }
      if fate.Raises? {
        if retryCount < env.settings.maxRetries {
          backoff := backoff + Pow2(retryCount + 1);
          return Next(offset, retryCount + 1);
        }
        return Stop(Failed);
      }
      var count, transformed := NextBatch(p, offset, activeMappings);
      if count == 0 {
        return Stop(Completed);
      }
      if transformed.None? {
        return Stop(Aborted);
      }
      var verdict := InsertWithRetry(p.name, transformed.value);
      if !verdict.Completed? {
        return Stop(verdict);
      }
      var reported := ReportBatch(p.name, transformed.value, offset + count);
      turn := if reported.Fine? then Next(offset + count, 0) else Stop(Aborted);
    }

    method CopyData(p: TablePlan) returns (verdict: Verdict)
      requires Valid()
      modifies this, destination
      ensures (Now(), verdict) == CopySpec(env, p.name, Feed(env, p), Good(env, p), old(Now()), 0, 0)
    {
      ghost var T, good, w := Feed(env, p), Good(env, p), Now();
      var activeMappings := Active(p.mappings);
      var offset: nat, retryCount: nat := 0, 0;
      while true
        invariant offset <= good && retryCount <= env.settings.maxRetries
        invariant CopySpec(env, p.name, T, good, w, 0, 0)
               == CopySpec(env, p.name, T, good, Now(), offset, retryCount)
        decreases |T| - offset, env.settings.maxRetries - retryCount
      {
        var turn := CopyTurn(p, activeMappings, offset, retryCount);
        if turn.Stop? {
          return turn.verdict;
        }
        offset, retryCount := turn.offset, turn.retry;
      }
      verdict := Completed;
    }

    method Run() returns (results: Results, totalRowsMigrated: nat)
      requires Valid()
      modifies this, destination
      ensures (Now(), results) == RunSpec(env, plan, old(Now()), 0, NO_RESULTS)
      ensures totalRowsMigrated == totalRowsProcessed
    {
      ghost var w := Now();
      results := NO_RESULTS;
      for i := 0 to |plan|
        invariant RunSpec(env, plan, w, 0, NO_RESULTS) == RunSpec(env, plan, Now(), i, results)
      {
        var p := plan[i];
        results := results.(reached := i + 1);
        if p.skipped {
          results := results.(skipped := results.skipped + [p.name]);
          continue;
        }
        var verdict := MigrateTable(p);
        if verdict.Completed? {
          results := results.(completed := results.completed + [p.name]);
        } else if verdict.Aborted? {
          results := results.(aborted := true);
          return results, totalRowsProcessed;
        } else {
          results := results.(failed := results.failed + [p.name]);
          if !env.settings.continueOnError {
            return results, totalRowsProcessed;
          }
        }
      }
      totalRowsMigrated := totalRowsProcessed;
    }
  }
}
