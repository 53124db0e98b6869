/** The persisted job record and everything that reads and writes it concurrently: the API
    handlers (app/services/migration_service.py) and the workers
    (app/workers/migration_tasks.py). Every handler and every worker step loads the record
    in one transaction step and commits in a later one; any interleaving is possible. */
module Lifecycle {
  import opened Common

  datatype Status = PENDING | RUNNING | COMPLETED | FAILED | CANCELLED

  datatype Record = Record(
    status: Status,
    totalTables: nat,
    completedTables: nat,
    totalRows: nat,
    processedRows: nat,
    currentTable: Option<string>,
    startedAt: Option<int>,
    completedAt: Option<int>,
    taskId: Option<nat>,
    error: Option<string>)

  function Created(totalTables: nat, totalRows: nat): Record {
    Record(PENDING, totalTables, 0, totalRows, 0, None, None, None, None, None)
  }

  /** What the executor handed to the worker: tables completed, tables failed, rows. */
  datatype Outcome = Outcome(completed: nat, failed: seq<string>, total: nat)

  // ---------- The assignments each step makes to the record it loaded ----------

  function Started(seen: Record, task: nat, now: int): Record {
    seen.(taskId := Some(task), status := RUNNING, startedAt := Some(now))
  }

  function Cancelled(seen: Record, now: int): Record {
    seen.(status := CANCELLED, completedAt := Some(now))
  }

  function Marked(seen: Record, now: int): Record {
    seen.(status := RUNNING, startedAt := Some(now))
  }

  function Progressed(seen: Record, total: nat, table: string): Record {
    seen.(processedRows := total, currentTable := Some(table))
  }

  function Finalised(seen: Record, outcome: Outcome, now: int): Record {
    seen.(status := if outcome.failed != [] then FAILED else COMPLETED,
          completedTables := outcome.completed,
          processedRows := outcome.total,
          completedAt := Some(now),
          currentTable := None,
          error := if outcome.failed != [] then Some("Tables failed: " + Joined(outcome.failed)) else seen.error)
  }

  function MarkedFailed(seen: Record, error: string, now: int): Record {
    seen.(status := FAILED, error := Some(error[..Min(2000, |error|)]), completedAt := Some(now))
  }

  function Joined(names: seq<string>): string {
    if names == [] then "" else if |names| == 1 then names[0] else names[0] + ", " + Joined(names[1..])
  }

  /** Joining lists: the separator stands between the names, and nowhere else. */
  lemma {:induction false} JoinedParts(a: seq<string>, b: seq<string>)
    requires a != [] && b != []
    ensures Joined(a + b) == Joined(a) + ", " + Joined(b)
    ensures |a| == 1 ==> Joined(a) == a[0]
    decreases |a|
  {
    assert (a + b)[1..] == a[1..] + b;
    if |a| > 1 {
      JoinedParts(a[1..], b);
      assert Joined(a + b) == a[0] + ", " + (Joined(a[1..]) + ", " + Joined(b));
      assert Joined(a) + ", " + Joined(b) == a[0] + ", " + (Joined(a[1..]) + ", " + Joined(b));
    } else {
      assert a[1..] == [];
    }
  }

  /** A commit writes only the columns whose value differs from the one loaded. */
  function Flush(row: Record, seen: Record, upd: Record): Record {
    Record(
      if upd.status != seen.status then upd.status else row.status,
      if upd.totalTables != seen.totalTables then upd.totalTables else row.totalTables,
      if upd.completedTables != seen.completedTables then upd.completedTables else row.completedTables,
      if upd.totalRows != seen.totalRows then upd.totalRows else row.totalRows,
      if upd.processedRows != seen.processedRows then upd.processedRows else row.processedRows,
      if upd.currentTable != seen.currentTable then upd.currentTable else row.currentTable,
      if upd.startedAt != seen.startedAt then upd.startedAt else row.startedAt,
      if upd.completedAt != seen.completedAt then upd.completedAt else row.completedAt,
      if upd.taskId != seen.taskId then upd.taskId else row.taskId,
      if upd.error != seen.error then upd.error else row.error)
  }

  /** A column after a commit that assigned a value to it: that value, or, if it is the one
      loaded, what the row holds by now. */
  function Column<T(==)>(value: T, loaded: T, before: T): T {
    if value == loaded then before else value
  }

  /** An object loaded from the table by one session: its attributes are assigned in place,
      and a commit sends the changed ones to the row. */
  class MigrationObject {
    var attributes: Record
    const loaded: Record

    constructor (row: Record)
      ensures loaded == row && attributes == row
    {
      loaded, attributes := row, row;
    }

    method Commit(row: Record) returns (row': Record)
      ensures row' == Flush(row, loaded, attributes)
    {
      row' := row;
      if attributes.status != loaded.status { row' := row'.(status := attributes.status); }
      if attributes.totalTables != loaded.totalTables { row' := row'.(totalTables := attributes.totalTables); }
      if attributes.completedTables != loaded.completedTables {
        row' := row'.(completedTables := attributes.completedTables);
      }
      if attributes.totalRows != loaded.totalRows { row' := row'.(totalRows := attributes.totalRows); }
      if attributes.processedRows != loaded.processedRows { row' := row'.(processedRows := attributes.processedRows); }
      if attributes.currentTable != loaded.currentTable { row' := row'.(currentTable := attributes.currentTable); }
      if attributes.startedAt != loaded.startedAt { row' := row'.(startedAt := attributes.startedAt); }
      if attributes.completedAt != loaded.completedAt { row' := row'.(completedAt := attributes.completedAt); }
      if attributes.taskId != loaded.taskId { row' := row'.(taskId := attributes.taskId); }
      if attributes.error != loaded.error { row' := row'.(error := attributes.error); }
    }
  }

  // ---------- Interleavings ----------

  /** Something in progress: an API handler between its load and its commit, a message in
      the queue, or a worker at one of its steps. `seen` is the record it has loaded. */
  datatype Activity =
    | Starting(seen: Record)
    | Dispatched(seen: Record, task: nat)
    | Cancelling(seen: Record)
    | Queued(task: nat)
    | Opened(task: nat, seen: Record)
    | Working(task: nat)
    | Reporting(task: nat, seen: Record, total: nat, table: string)
    | Closing(task: nat, seen: Record, outcome: Outcome)
    | Failing(task: nat, error: string, times: nat)
    | FailSeen(task: nat, seen: Record, error: string, times: nat)

  datatype State = State(row: Record, acts: map<nat, Activity>, now: int)

  /** One step of anybody. `id` names an activity; a step that is not enabled does nothing,
      so every list of events is a run. */
  datatype Event =
    | StartRequested(id: nat)                 // load the record, check its status
    | Dispatch(id: nat, message: nat, task: nat)   // run_migration_task.delay
    | StartCommits(id: nat)
    | CancelRequested(id: nat)
    | CancelCommits(id: nat)
    | WorkerOpens(id: nat)                    // begin the task, load the record
    | WorkerMarks(id: nat)                    // commit "running"
    | ProgressLoads(id: nat, total: nat, table: string)
    | ProgressCommits(id: nat)
    | CloseLoads(id: nat, outcome: Outcome)
    | CloseCommits(id: nat)
    | WorkerFails(id: nat, error: string, times: nat)  // an exception: _mark_failed runs once or twice
    | FailLoads(id: nat)
    | FailCommits(id: nat)
    | Vanish(id: nat)                         // a process dies, a task is revoked
    | Redeliver(id: nat, message: nat)        // an unacknowledged task is delivered again
    | TimePasses(seconds: nat)

  predicate IsWorker(a: Activity) {
    a.Queued? || a.Opened? || a.Working? || a.Reporting? || a.Closing? || a.Failing? || a.FailSeen?
  }

  /** A worker at a point where an exception makes it call _mark_failed. */
  predicate Fallible(a: Activity) {
    a.Opened? || a.Working? || a.Reporting? || a.Closing?
  }

  function Without(acts: map<nat, Activity>, id: nat): map<nat, Activity> {
    map k | k in acts && k != id :: acts[k]
  }

  function Step(s: State, e: Event): State {
    match e
    case StartRequested(id) =>
      if id !in s.acts && s.row.status in [PENDING, FAILED] then s.(acts := s.acts[id := Starting(s.row)]) else s
    case Dispatch(id, message, task) =>
      if id in s.acts && s.acts[id].Starting? && message !in s.acts
      then s.(acts := s.acts[id := Dispatched(s.acts[id].seen, task)][message := Queued(task)]) else s
    case StartCommits(id) =>
      if id in s.acts && s.acts[id].Dispatched?
      then State(Flush(s.row, s.acts[id].seen, Started(s.acts[id].seen, s.acts[id].task, s.now)),
                 Without(s.acts, id), s.now) else s
    case CancelRequested(id) =>
      if id !in s.acts && s.row.status == RUNNING then s.(acts := s.acts[id := Cancelling(s.row)]) else s
    case CancelCommits(id) =>
      if id in s.acts && s.acts[id].Cancelling?
      then State(Flush(s.row, s.acts[id].seen, Cancelled(s.acts[id].seen, s.now)), Without(s.acts, id), s.now) else s
    case WorkerOpens(id) =>
      if id in s.acts && s.acts[id].Queued? then s.(acts := s.acts[id := Opened(s.acts[id].task, s.row)]) else s
    case WorkerMarks(id) =>
      if id in s.acts && s.acts[id].Opened?
      then State(Flush(s.row, s.acts[id].seen, Marked(s.acts[id].seen, s.now)),
                 s.acts[id := Working(s.acts[id].task)], s.now) else s
    case ProgressLoads(id, total, table) =>
      if id in s.acts && s.acts[id].Working?
      then s.(acts := s.acts[id := Reporting(s.acts[id].task, s.row, total, table)]) else s
    case ProgressCommits(id) =>
      if id in s.acts && s.acts[id].Reporting?
      then State(Flush(s.row, s.acts[id].seen, Progressed(s.acts[id].seen, s.acts[id].total, s.acts[id].table)),
                 s.acts[id := Working(s.acts[id].task)], s.now) else s
    case CloseLoads(id, outcome) =>
      if id in s.acts && s.acts[id].Working? && outcome.completed + |outcome.failed| <= s.row.totalTables
      then s.(acts := s.acts[id := Closing(s.acts[id].task, s.row, outcome)]) else s
    case CloseCommits(id) =>
      if id in s.acts && s.acts[id].Closing?
      then State(Flush(s.row, s.acts[id].seen, Finalised(s.acts[id].seen, s.acts[id].outcome, s.now)),
                 Without(s.acts, id), s.now) else s
    case WorkerFails(id, error, times) =>
      if id in s.acts && Fallible(s.acts[id]) && 1 <= times <= 2
      then s.(acts := s.acts[id := Failing(s.acts[id].task, error, times)]) else s
    case FailLoads(id) =>
      if id in s.acts && s.acts[id].Failing?
      then s.(acts := s.acts[id := FailSeen(s.acts[id].task, s.row, s.acts[id].error, s.acts[id].times)]) else s
    case FailCommits(id) =>
      if id in s.acts && s.acts[id].FailSeen? then
        var a := s.acts[id];
        State(Flush(s.row, a.seen, MarkedFailed(a.seen, a.error, s.now)),
              if a.times <= 1 then Without(s.acts, id) else s.acts[id := Failing(a.task, a.error, a.times - 1)], s.now)
      else s
    case Vanish(id) => s.(acts := Without(s.acts, id))
    case Redeliver(id, message) =>
      if id in s.acts && IsWorker(s.acts[id]) && message !in s.acts
      then s.(acts := s.acts[message := Queued(s.acts[id].task)]) else s
    case TimePasses(seconds) => s.(now := s.now + seconds)
  }

  function Run(s: State, events: seq<Event>): State {
    if events == [] then s else Step(Run(s, events[..|events| - 1]), events[|events| - 1])
  }

  function Initial(totalTables: nat, totalRows: nat, now: int): State {
    State(Created(totalTables, totalRows), map[], now)
  }

  lemma Run1(s: State, a: Event)
    ensures Run(s, [a]) == Step(s, a)
  {
    assert [a][..0] == [];
    assert Run(s, [a]) == Step(Run(s, [a][..0]), a);
  }

  lemma RunMore(s: State, events: seq<Event>, e: Event)
    ensures Run(s, events + [e]) == Step(Run(s, events), e)
  {
    assert (events + [e])[..|events + [e]| - 1] == events;
  }

  lemma RunNone(s: State)
    ensures Run(s, []) == s
  {
  }

  lemma Then(s: State, before: seq<Event>, e: Event) returns (events: seq<Event>)
    ensures events == before + [e] && Run(s, events) == Step(Run(s, before), e)
  {
    events := before + [e];
    RunMore(s, before, e);
  }

  // ---------- What each handler does if nobody else commits meanwhile ----------

  /** START, undisturbed: refused unless the job is PENDING or FAILED; else it is RUNNING from
      now on under the new task, one message is queued, and nothing else changes. */
  lemma StartShows(s: State, id: nat, message: nat, task: nat)
    requires id !in s.acts && message !in s.acts && id != message
    ensures
      var s' := Step(Step(Step(s, StartRequested(id)), Dispatch(id, message, task)), StartCommits(id));
      if s.row.status == PENDING || s.row.status == FAILED then
        && s'.row == s.row.(status := RUNNING, startedAt := Some(s.now), taskId := Some(task))
        && s'.acts == s.acts[message := Queued(task)] && s'.now == s.now
      else s' == s
  {
    assert Without(s.acts[id := Dispatched(s.row, task)][message := Queued(task)], id)
        == s.acts[message := Queued(task)];
  }

  /** CANCEL, undisturbed: refused unless the job is RUNNING; else it is CANCELLED now. */
  lemma CancelShows(s: State, id: nat)
    requires id !in s.acts
    ensures
      var s' := Step(Step(s, CancelRequested(id)), CancelCommits(id));
      if s.row.status == RUNNING then
        s'.row == s.row.(status := CANCELLED, completedAt := Some(s.now)) && s'.acts == s.acts && s'.now == s.now
      else s' == s
  {
    assert Without(s.acts[id := Cancelling(s.row)], id) == s.acts;
  }

  /** A PROGRESS REPORT, undisturbed, whatever the job's status is by now. */
  lemma ProgressShows(s: State, id: nat, total: nat, table: string)
    requires id in s.acts && s.acts[id].Working?
    ensures
      Step(Step(s, ProgressLoads(id, total, table)), ProgressCommits(id))
      == s.(row := s.row.(processedRows := total, currentTable := Some(table)))
  {
    assert s.acts[id := Reporting(s.acts[id].task, s.row, total, table)][id := Working(s.acts[id].task)] == s.acts;
  }

  /** The final step of a worker, with nothing committed in between. */
  function CloseAlone(s: State, id: nat, outcome: Outcome): State {
    Step(Step(s, CloseLoads(id, outcome)), CloseCommits(id))
  }

  /** THE FINAL STEP, undisturbed: whatever the status was, the job is COMPLETED or FAILED now,
      with the outcome's figures, and the error names the failed tables if there are any. */
  lemma CloseShows(s: State, id: nat, outcome: Outcome)
    requires id in s.acts && s.acts[id].Working?
    requires outcome.completed + |outcome.failed| <= s.row.totalTables
    ensures
      var s', fine := CloseAlone(s, id, outcome), outcome.failed == [];
      && s'.row.status == (if fine then COMPLETED else FAILED)
      && s'.row.error == (if fine then s.row.error else Some("Tables failed: " + Joined(outcome.failed)))
      && s'.row.completedTables == outcome.completed && s'.row.processedRows == outcome.total
      && s'.row.currentTable == None && s'.row.completedAt == Some(s.now)
      && s'.row.totalTables == s.row.totalTables && s'.row.totalRows == s.row.totalRows
      && s'.row.startedAt == s.row.startedAt && s'.row.taskId == s.row.taskId
      && s'.acts == Without(s.acts, id) && s'.now == s.now
  {
    hide Joined;
    var loaded := Step(s, CloseLoads(id, outcome));
    assert loaded.acts[id] == Closing(s.acts[id].task, s.row, outcome);
    assert Without(loaded.acts, id) == Without(s.acts, id);
  }

  /** One run of _mark_failed. */
  function MarkOnce(s: State, id: nat): State {
    Step(Step(s, FailLoads(id)), FailCommits(id))
  }

  /** A FAILURE, undisturbed: from any point of a worker's work, whether the failure is marked
      once or twice, the job ends FAILED with the first 2000 characters of the error. */
  lemma FailureShows(s: State, id: nat, error: string)
    requires id in s.acts && Fallible(s.acts[id])
    ensures
      var once := MarkOnce(Step(s, WorkerFails(id, error, 1)), id);
      var twice := MarkOnce(MarkOnce(Step(s, WorkerFails(id, error, 2)), id), id);
      var shown := if |error| <= 2000 then error else error[..2000];
      && once.row == s.row.(status := FAILED, error := Some(shown), completedAt := Some(s.now))
      && once.acts == Without(s.acts, id) && once.now == s.now && twice == once
  {
    assert error[..|error|] == error;
    var first, second := Step(s, WorkerFails(id, error, 1)), MarkOnce(Step(s, WorkerFails(id, error, 2)), id);
    MarkedOnce(Step(s, WorkerFails(id, error, 2)), id);
    MarkedOnce(first, id);
    MarkedOnce(second, id);
    assert second.acts[id] == first.acts[id];
    assert Without(first.acts, id) == Without(s.acts, id) == Without(second.acts, id);
  }

  lemma MarkedOnce(s: State, id: nat)
    requires id in s.acts && s.acts[id].Failing? && s.acts[id].times >= 1
    ensures
      var a, s' := s.acts[id], MarkOnce(s, id);
      && s'.row == MarkedFailed(s.row, a.error, s.now) && s'.now == s.now
      && s'.acts == if a.times == 1 then Without(s.acts, id)
                    else s.acts[id := Failing(a.task, a.error, a.times - 1)]
  {
    var a := s.acts[id];
    var seen := s.acts[id := FailSeen(a.task, s.row, a.error, a.times)];
    assert Without(seen, id) == Without(s.acts, id);
    assert seen[id := Failing(a.task, a.error, a.times - 1)] == s.acts[id := Failing(a.task, a.error, a.times - 1)];
  }

  /** A started job with one working worker, number 1. */
  lemma Launched(tables: nat, rows: nat) returns (events: seq<Event>)
    requires tables >= 1
    ensures Run(Initial(tables, rows, 0), events) == State(Started(Created(tables, rows), 7, 0),
          map[1 := Working(7)], 0)
  {
    hide Run;
    var s := Initial(tables, rows, 0);
    RunNone(s);
    events := Then(s, [], StartRequested(0));
    events := Then(s, events, Dispatch(0, 1, 7));
    events := Then(s, events, StartCommits(0));
    assert Run(s, events).acts == map[1 := Queued(7)];
    events := Then(s, events, WorkerOpens(1));
    events := Then(s, events, WorkerMarks(1));
    assert Run(s, events).acts == map[1 := Working(7)];
  }

  // ---------- Invariants ----------

  predicate RecordOk(r: Record) {
    && (r.status.PENDING? ==> r == Created(r.totalTables, r.totalRows))
    && (r.status.RUNNING? ==> r.startedAt.Some?)
    && (r.status.COMPLETED? || r.status.FAILED? || r.status.CANCELLED? ==> r.completedAt.Some?)
    && r.completedTables <= r.totalTables
  }

  /** What was loaded earlier is never taken back. */
  predicate Earlier(seen: Record, r: Record) {
    && seen.totalTables == r.totalTables && seen.totalRows == r.totalRows
    && seen.completedTables <= seen.totalTables
    && (seen.startedAt.Some? ==> r.startedAt.Some?)
    && (seen.completedAt.Some? ==> r.completedAt.Some?)
    && (!seen.status.PENDING? ==> !r.status.PENDING?)
  }

  predicate ActivityOk(a: Activity, r: Record) {
    match a
    case Starting(seen) => Earlier(seen, r) && seen.status in [PENDING, FAILED] && RecordOk(seen)
    case Dispatched(seen, _) => Earlier(seen, r) && seen.status in [PENDING, FAILED] && RecordOk(seen)
    case Cancelling(seen) => Earlier(seen, r) && seen.status == RUNNING
    case Queued(_) => true
    case Opened(_, seen) => Earlier(seen, r)
    case Working(_) => !r.status.PENDING?
    case Reporting(_, seen, _, _) => Earlier(seen, r) && !r.status.PENDING?
    case Closing(_, seen, outcome) => Earlier(seen, r) && !r.status.PENDING? && outcome.completed <= r.totalTables
    case Failing(_, _, times) => times >= 1
    case FailSeen(_, seen, _, times) => Earlier(seen, r) && times >= 1
  }

  predicate Inv(s: State) {
    RecordOk(s.row) && forall id :: id in s.acts ==> ActivityOk(s.acts[id], s.row)
  }

  lemma EarlierOnward(a: Activity, r: Record, r': Record)
    requires ActivityOk(a, r) && Earlier(r, r')
    ensures ActivityOk(a, r')
  {
  }

  /** A commit of any of the record's writers keeps the record's invariant. */
  lemma CommitKeeps(a: Activity, r: Record, upd: Record, now: int)
    requires RecordOk(r) && ActivityOk(a, r)
    requires
      || (a.Dispatched? && upd == Started(a.seen, a.task, now))
      || (a.Cancelling? && upd == Cancelled(a.seen, now))
      || (a.Opened? && upd == Marked(a.seen, now))
      || (a.Reporting? && upd == Progressed(a.seen, a.total, a.table))
      || (a.Closing? && upd == Finalised(a.seen, a.outcome, now))
      || (a.FailSeen? && upd == MarkedFailed(a.seen, a.error, now))
    ensures RecordOk(Flush(r, a.seen, upd)) && Earlier(r, Flush(r, a.seen, upd))
    ensures a.Opened? ==> !Flush(r, a.seen, upd).status.PENDING?
  {
  }

  /** The update a commit event sends, if it is enabled. */
  function Update(s: State, e: Event): Option<(Activity, Record)> {
    if !(e.StartCommits? || e.CancelCommits? || e.WorkerMarks? || e.ProgressCommits? || e.CloseCommits?
          || e.FailCommits?)
       || e.id !in s.acts then None
    else
      var a := s.acts[e.id];
      if e.StartCommits? && a.Dispatched? then Some((a, Started(a.seen, a.task, s.now)))
      else if e.CancelCommits? && a.Cancelling? then Some((a, Cancelled(a.seen, s.now)))
      else if e.WorkerMarks? && a.Opened? then Some((a, Marked(a.seen, s.now)))
      else if e.ProgressCommits? && a.Reporting? then Some((a, Progressed(a.seen, a.total, a.table)))
      else if e.CloseCommits? && a.Closing? then Some((a, Finalised(a.seen, a.outcome, s.now)))
      else if e.FailCommits? && a.FailSeen? then Some((a, MarkedFailed(a.seen, a.error, s.now)))
      else None
  }

  /** Only commits write the record. */
  lemma StepWrites(s: State, e: Event)
    ensures
      match Update(s, e)
      case None => Step(s, e).row == s.row
      case Some((a, upd)) => Step(s, e).row == Flush(s.row, a.seen, upd)
  {
  }

  /** The activities after a step: the old ones, or freshly begun ones. */
  lemma StepActs(s: State, e: Event, id: nat)
    requires Inv(s) && id in Step(s, e).acts
    ensures (id in s.acts && Step(s, e).acts[id] == s.acts[id]) || ActivityOk(Step(s, e).acts[id], s.row)
         || (e.WorkerMarks? && Update(s, e).Some? && Step(s, e).acts[id].Working?)
  {
  }

  lemma StepKeeps(s: State, e: Event)
    requires Inv(s)
    ensures Inv(Step(s, e)) && Earlier(s.row, Step(s, e).row)
  {
    var s' := Step(s, e);
    StepWrites(s, e);
    var u := Update(s, e);
    if u.Some? {
      CommitKeeps(u.value.0, s.row, u.value.1, s.now);
    }
    assert RecordOk(s'.row) && Earlier(s.row, s'.row);
    forall id | id in s'.acts ensures ActivityOk(s'.acts[id], s'.row) {
      StepActs(s, e, id);
      if ActivityOk(s'.acts[id], s.row) {
        EarlierOnward(s'.acts[id], s.row, s'.row);
      }
    }
  }

  /** LIFECYCLE INVARIANT, over every interleaving of any number of handlers and workers.
      That completed_tables fits total_tables rests on the guard of CloseLoads: the outcome
      of the executor fits the requested tables, which EndToEnd.JobAccounts proves. */
  lemma {:induction false} AlwaysOk(totalTables: nat, totalRows: nat, now: int, events: seq<Event>)
    ensures
      var s := Run(Initial(totalTables, totalRows, now), events);
      Inv(s) && s.row.totalTables == totalTables && s.row.totalRows == totalRows
    decreases |events|
  {
    if events != [] {
      AlwaysOk(totalTables, totalRows, now, events[..|events| - 1]);
      StepKeeps(Run(Initial(totalTables, totalRows, now), events[..|events| - 1]), events[|events| - 1]);
    }
  }

  // ---------- The running system ----------

  /** The job's row in the database, and everything in progress. The methods whose names
      begin with Commit are the write transactions of the handlers and of the worker: load
      an object as it was when it was read, assign its attributes, commit. */
  class Deployment {
    var row: Record
    var acts: map<nat, Activity>
    var now: int

    constructor (totalTables: nat, totalRows: nat, now: int)
      ensures Current() == Initial(totalTables, totalRows, now) && Inv(Current())
      ensures row.status == PENDING && row.totalTables == totalTables && row.totalRows == totalRows
      ensures row.completedTables == row.processedRows == 0 && row.startedAt == row.completedAt == None
      ensures row.currentTable == row.error == None && row.taskId == None && acts == map[]
    {
      row, acts, this.now := Created(totalTables, totalRows), map[], now;
    }

    function Current(): State
      reads this
    {
      State(row, acts, now)
    }

    /** start_migration: the job is RUNNING afterwards, whatever was committed since the
        load; progress, the completion time and the error of an earlier attempt stay. */
    method CommitStart(seen: Record, task: nat)
      requires RecordOk(row) && ActivityOk(Dispatched(seen, task), row)
      modifies this`row
      ensures row == Flush(old(row), seen, Started(seen, task, now))
      ensures row.status == RUNNING && row.startedAt.Some?
      ensures row == old(row).(status := row.status, startedAt := row.startedAt, taskId := row.taskId)
      ensures row.startedAt == Column(Some(now), seen.startedAt, old(row).startedAt)
      ensures row.taskId == Column(Some(task), seen.taskId, old(row).taskId)
    {
      var record := new MigrationObject(seen);
      record.attributes := record.attributes.(taskId := Some(task));
      record.attributes := record.attributes.(status := RUNNING);
      record.attributes := record.attributes.(startedAt := Some(now));
      row := record.Commit(row);
    }

    /** cancel_migration: the job is CANCELLED afterwards, also if a worker finished it
        since the load; whatever progress was committed stays. */
    method CommitCancel(seen: Record)
      requires RecordOk(row) && ActivityOk(Cancelling(seen), row)
      modifies this`row
      ensures row == Flush(old(row), seen, Cancelled(seen, now))
      ensures row.status == CANCELLED && row.completedAt.Some?
      ensures row == old(row).(status := row.status, completedAt := row.completedAt)
      ensures row.completedAt == Column(Some(now), seen.completedAt, old(row).completedAt)
    {
      var record := new MigrationObject(seen);
      record.attributes := record.attributes.(status := CANCELLED);
      record.attributes := record.attributes.(completedAt := Some(now));
      row := record.Commit(row);
    }

    /** The worker marks the job running: a status committed since the load survives
        exactly if the worker had already loaded RUNNING; nothing else is cleared. */
    method CommitRunning(task: nat, seen: Record)
      requires RecordOk(row) && ActivityOk(Opened(task, seen), row)
      modifies this`row
      ensures row == Flush(old(row), seen, Marked(seen, now))
      ensures row.status == (if seen.status == RUNNING then old(row).status else RUNNING)
      ensures row == old(row).(status := row.status, startedAt := row.startedAt) && row.startedAt.Some?
      ensures row.startedAt == Column(Some(now), seen.startedAt, old(row).startedAt)
    {
      var record := new MigrationObject(seen);
      record.attributes := record.attributes.(status := RUNNING);
      record.attributes := record.attributes.(startedAt := Some(now));
      row := record.Commit(row);
    }

    /** on_progress: neither the status nor a time is ever touched, so a progress report
        undoes no cancellation. */
    method CommitProgress(task: nat, seen: Record, total: nat, table: string)
      requires RecordOk(row) && ActivityOk(Reporting(task, seen, total, table), row)
      modifies this`row
      ensures row == Flush(old(row), seen, Progressed(seen, total, table))
      ensures row.processedRows == Column(total, seen.processedRows, old(row).processedRows)
      ensures row.currentTable == Column(Some(table), seen.currentTable, old(row).currentTable)
      ensures row == old(row).(processedRows := row.processedRows, currentTable := row.currentTable)
    {
      var record := new MigrationObject(seen);
      record.attributes := record.attributes.(processedRows := total);
      record.attributes := record.attributes.(currentTable := Some(table));
      row := record.Commit(row);
    }

    /** The finalising step: it overwrites whatever status was committed meanwhile, unless
        it loaded the very status it sets; an earlier error stays if no table failed. */
    method CommitResult(task: nat, seen: Record, outcome: Outcome)
      requires RecordOk(row) && ActivityOk(Closing(task, seen, outcome), row)
      modifies this`row
      ensures row == Flush(old(row), seen, Finalised(seen, outcome, now))
      ensures
        var verdict := if outcome.failed != [] then FAILED else COMPLETED;
        row.status == (if seen.status == verdict then old(row).status else verdict)
      ensures row.completedTables == Column(outcome.completed, seen.completedTables, old(row).completedTables)
      ensures row.processedRows == Column(outcome.total, seen.processedRows, old(row).processedRows)
      ensures row.currentTable == Column(None, seen.currentTable, old(row).currentTable)
      ensures row.completedAt == Column(Some(now), seen.completedAt, old(row).completedAt)
      ensures outcome.failed == [] ==> row.error == old(row).error
      ensures outcome.failed != [] ==>
        row.error == Column(Some("Tables failed: " + Joined(outcome.failed)), seen.error, old(row).error)
      ensures row.totalTables == old(row).totalTables && row.totalRows == old(row).totalRows
      ensures row.startedAt == old(row).startedAt && row.taskId == old(row).taskId && row.completedAt.Some?
    {
      var record := new MigrationObject(seen);
      record.attributes := record.attributes.(status := if outcome.failed != [] then FAILED else COMPLETED);
      record.attributes := record.attributes.(completedTables := outcome.completed);
      record.attributes := record.attributes.(processedRows := outcome.total);
      record.attributes := record.attributes.(completedAt := Some(now));
      record.attributes := record.attributes.(currentTable := None);
      if outcome.failed != [] {
        record.attributes := record.attributes.(error := Some("Tables failed: " + Joined(outcome.failed)));
      }
      row := record.Commit(row);
    }

    /** _mark_failed: FAILED unless FAILED was loaded; the progress made stays visible. */
    method CommitFailure(task: nat, seen: Record, error: string, times: nat)
      requires RecordOk(row) && ActivityOk(FailSeen(task, seen, error, times), row)
      modifies this`row
      ensures row == Flush(old(row), seen, MarkedFailed(seen, error, now))
      ensures row.status == (if seen.status == FAILED then old(row).status else FAILED)
      ensures row == old(row).(status := row.status, error := row.error, completedAt := row.completedAt)
      ensures row.completedAt == Column(Some(now), seen.completedAt, old(row).completedAt) && row.completedAt.Some?
      ensures row.error == Column(Some(if |error| <= 2000 then error else error[..2000]), seen.error, old(row).error)
    {
      assert error[..|error|] == error;
      var record := new MigrationObject(seen);
      record.attributes := record.attributes.(status := FAILED);
      record.attributes := record.attributes.(error := Some(error[..Min(2000, |error|)]));
      record.attributes := record.attributes.(completedAt := Some(now));
      row := record.Commit(row);
    }

    /** The steps that read the row, receive, deliver or lose something, or let time pass. */
    method Begin(e: Event)
      requires Update(Current(), e).None?
      modifies this`acts, this`now
      ensures Current() == Step(old(Current()), e)
    {
      match e
      case StartRequested(id) =>
        if id !in acts && row.status in [PENDING, FAILED] {
          acts := acts[id := Starting(row)];
        }
      case Dispatch(id, message, task) =>
        if id in acts && acts[id].Starting? && message !in acts {
          acts := acts[id := Dispatched(acts[id].seen, task)][message := Queued(task)];
        }
      case CancelRequested(id) =>
        if id !in acts && row.status == RUNNING {
          acts := acts[id := Cancelling(row)];
        }
      case WorkerOpens(id) =>
        if id in acts && acts[id].Queued? {
          acts := acts[id := Opened(acts[id].task, row)];
        }
      case ProgressLoads(id, total, table) =>
        if id in acts && acts[id].Working? {
          acts := acts[id := Reporting(acts[id].task, row, total, table)];
        }
      case CloseLoads(id, outcome) =>
        if id in acts && acts[id].Working? && outcome.completed + |outcome.failed| <= row.totalTables {
          acts := acts[id := Closing(acts[id].task, row, outcome)];
        }
      case WorkerFails(id, error, times) =>
        if id in acts && Fallible(acts[id]) && 1 <= times <= 2 {
          acts := acts[id := Failing(acts[id].task, error, times)];
        }
      case FailLoads(id) =>
        if id in acts && acts[id].Failing? {
          acts := acts[id := FailSeen(acts[id].task, row, acts[id].error, acts[id].times)];
        }
      case Vanish(id) =>
        acts := Without(acts, id);
      case Redeliver(id, message) =>
        if id in acts && IsWorker(acts[id]) && message !in acts {
          acts := acts[message := Queued(acts[id].task)];
        }
      case TimePasses(seconds) =>
        now := now + seconds;
      case _ =>
    }

    /** The write transactions. */
    method Write(e: Event)
      requires Inv(Current()) && Update(Current(), e).Some?
      modifies this`row, this`acts
      ensures Current() == Step(old(Current()), e)
    {
      hide Flush, Earlier;
      var a := acts[e.id];
      assert ActivityOk(a, row);
      match e
      case StartCommits(id) =>
        CommitStart(a.seen, a.task);
        acts := Without(acts, id);
      case CancelCommits(id) =>
        CommitCancel(a.seen);
        acts := Without(acts, id);
      case WorkerMarks(id) =>
        CommitRunning(a.task, a.seen);
        acts := acts[id := Working(a.task)];
      case ProgressCommits(id) =>
        CommitProgress(a.task, a.seen, a.total, a.table);
        acts := acts[id := Working(a.task)];
      case CloseCommits(id) =>
        CommitResult(a.task, a.seen, a.outcome);
        acts := Without(acts, id);
      case FailCommits(id) =>
        CommitFailure(a.task, a.seen, a.error, a.times);
        acts := if a.times <= 1 then Without(acts, id) else acts[id := Failing(a.task, a.error, a.times - 1)];
    }

    /** One step of anybody; a step that is not enabled does nothing. */
    method Perform(e: Event)
      requires Inv(Current())
      modifies this
      ensures Current() == Step(old(Current()), e) && Inv(Current()) && Earlier(old(row), row)
    {
      hide Step, Inv, Update, Earlier;
      StepKeeps(Current(), e);
      if Update(Current(), e).Some? {
        Write(e);
      } else {
        Begin(e);
      }
    }

    /** Any interleaving, step by step. */
    method Serve(events: seq<Event>)
      requires Inv(Current())
      modifies this
      ensures Current() == Run(old(Current()), events) && Inv(Current())
    {
      hide Step, Inv;
      ghost var s := Current();
      for i := 0 to |events|
        invariant Current() == Run(s, events[..i]) && Inv(Current())
      {
        assert events[..i + 1][..i] == events[..i];
        Perform(events[i]);
      }
      assert events[..|events|] == events;
    }
  }
}
