/** What a status query answers about the job record (app/services/migration_service.py). */
module JobStatus {
  import opened Common
  import opened Lifecycle
  import opened Progress

  datatype StatusResponse = StatusResponse(status: Status, progress: int, processed: nat, speed: int, eta: int)

  /** The seconds get_status counts: to the recorded end if there is one, else to now. */
  function Elapsed(r: Record, now: int): real {
    if r.startedAt.None? then 0.0
    else ((if r.completedAt.Some? then r.completedAt.value else now) - r.startedAt.value) as real
  }

  function GetStatus(r: Record, now: int): StatusResponse {
    var elapsed := Elapsed(r, now);
    StatusResponse(r.status, CalculateProgress(r.processedRows, r.totalRows), r.processedRows,
                   CalculateSpeed(r.processedRows, elapsed),
                   EstimateTimeRemaining(r.processedRows, r.totalRows, elapsed))
  }

  /** Every status answer is in range, whatever the record and the clock say. */
  lemma StatusInRange(r: Record, now: int)
    ensures
      var answer := GetStatus(r, now);
      0 <= answer.progress <= 100 && answer.speed >= 0 && answer.eta >= 0
  {
    if r.totalRows > 0 { ProgressExactly(r.processedRows, r.totalRows); }
    var elapsed := Elapsed(r, now);
    SpeedNonNegative(r.processedRows, elapsed);
    EtaNonNegative(r.processedRows, r.totalRows, elapsed);
  }

  /** r is x to the nearest integer, the even one if x lies half-way. */
  predicate Nearest(r: int, x: real) {
    r as real - 0.5 <= x <= r as real + 0.5 && (x == r as real - 0.5 || x == r as real + 0.5 ==> r % 2 == 0)
  }

  /** EXACT STATUS. The answer shows the record's status and rows; the percentage done, to half
      a point below 100, and 100 from 99.5 percent on; the rows per second since the start, to
      the nearest integer; and the least whole number of seconds the rest takes at that rate. */
  lemma StatusExactly(r: Record, now: int)
    ensures
      var answer := GetStatus(r, now);
      var done, all := r.processedRows, r.totalRows;
      && answer.status == r.status && answer.processed == done
      && (all == 0 ==> answer.progress == 0)
      && (all > 0 ==> (answer.progress == 100 <==> 100.0 * done as real >= 99.5 * all as real))
      && (all > 0 && answer.progress < 100 ==>
            (answer.progress as real - 0.5) * all as real <= 100.0 * done as real
            && 100.0 * done as real <= (answer.progress as real + 0.5) * all as real)
      && (r.startedAt.None? ==> answer.speed == 0 && answer.eta == 0)
      && (r.startedAt.Some? ==>
            var end := if r.completedAt.Some? then r.completedAt.value else now;
            var seconds := end - r.startedAt.value;
            && (seconds <= 0 ==> answer.speed == 0 && answer.eta == 0)
            && (seconds > 0 ==> Nearest(answer.speed, done as real / seconds as real))
            && (seconds > 0 && done > 0 && all > 0 ==>
                  var needed := Max(0, all - done) as real * seconds as real;
                  answer.eta as real * done as real >= needed > (answer.eta - 1) as real * done as real)
            && (done == 0 || all == 0 ==> answer.eta == 0))
  {
    hide CalculateProgress, CalculateSpeed, EstimateTimeRemaining, Elapsed, Nearest;
    if r.totalRows > 0 { ProgressExactly(r.processedRows, r.totalRows); }
    assert r.totalRows == 0 ==> CalculateProgress(r.processedRows, r.totalRows) == 0 by { NoRows(r.processedRows); }
    ElapsedSeconds(r, now);
    SpeedShown(r.processedRows, Elapsed(r, now));
    EtaShown(r.processedRows, r.totalRows, Elapsed(r, now));
  }

  lemma NoRows(done: nat)
    ensures CalculateProgress(done, 0) == 0
  {
  }

  lemma SpeedShown(done: nat, seconds: real)
    ensures seconds <= 0.0 ==> CalculateSpeed(done, seconds) == 0
    ensures seconds > 0.0 ==> Nearest(CalculateSpeed(done, seconds), done as real / seconds)
  {
  }

  lemma EtaShown(done: nat, all: nat, seconds: real)
    ensures seconds <= 0.0 || done == 0 || all == 0 ==> EstimateTimeRemaining(done, all, seconds) == 0
    ensures seconds > 0.0 && done > 0 && all > 0 ==>
      var eta, needed := EstimateTimeRemaining(done, all, seconds), Max(0, all - done) as real * seconds;
      eta as real * done as real >= needed > (eta - 1) as real * done as real
  {
    if seconds > 0.0 && done > 0 && all > 0 { EtaIsLeast(done, all, seconds); }
  }

  lemma ElapsedSeconds(r: Record, now: int)
    ensures r.startedAt.None? ==> Elapsed(r, now) == 0.0
    ensures r.startedAt.Some? ==>
      Elapsed(r, now) == ((if r.completedAt.Some? then r.completedAt.value else now) - r.startedAt.value) as real
  {
  }

  /** The recorded end is not after the recorded start, or there is no start. */
  predicate Hidden(r: Record) {
    r.startedAt.None? || (r.completedAt.Some? && r.completedAt.value <= r.startedAt.value)
  }

  /** SPEED IS HIDDEN EXACTLY THEN: a record shows no speed however many rows it processed
      and whenever it is asked iff its recorded end is not after its start; then it shows no
      remaining time either (as it never does with at most one row to copy). */
  lemma SpeedHiddenExactly(r: Record)
    ensures Hidden(r) <==> forall rows: nat, now :: GetStatus(r.(processedRows := rows), now).speed == 0
    ensures Hidden(r) || r.totalRows <= 1 <==>
          forall rows: nat, now :: GetStatus(r.(processedRows := rows), now).eta == 0
  {
    hide CalculateProgress, CalculateSpeed, EstimateTimeRemaining;
    if !Hidden(r) {
      var now := r.startedAt.value + 1;
      var elapsed := (if r.completedAt.Some? then r.completedAt.value else now) - r.startedAt.value;
      OneRowASecond(elapsed);
      assert GetStatus(r.(processedRows := elapsed), now).speed == 1;
      if r.totalRows > 1 {
        EtaZeroExactly(1, r.totalRows, elapsed as real);
        assert GetStatus(r.(processedRows := 1), now).eta != 0;
      }
    }
    forall rows: nat, now ensures Hidden(r) ==> GetStatus(r.(processedRows := rows), now).speed == 0
                          ensures Hidden(r) || r.totalRows <= 1 ==> GetStatus(r.(processedRows := rows), now).eta == 0
    {
      NothingShown(r.(processedRows := rows), now);
    }
  }

  lemma NothingShown(r: Record, now: int)
    ensures Hidden(r) ==> GetStatus(r, now).speed == 0
    ensures Hidden(r) || r.totalRows <= 1 ==> GetStatus(r, now).eta == 0
  {
    var elapsed := Elapsed(r, now);
    if !Hidden(r) && r.totalRows == 1 && r.processedRows > 0 && elapsed > 0.0 {
      EtaZeroExactly(r.processedRows, 1, elapsed);
    }
  }

  // ---------- Restarted jobs ----------

  function Loaded(a: Activity): Option<Record> {
    match a
    case Starting(seen) => Some(seen)
    case Dispatched(seen, _) => Some(seen)
    case Cancelling(seen) => Some(seen)
    case Opened(_, seen) => Some(seen)
    case Reporting(_, seen, _, _) => Some(seen)
    case Closing(_, seen, _) => Some(seen)
    case FailSeen(_, seen, _, _) => Some(seen)
    case _ => None
  }

  predicate NotAfter(time: Option<int>, limit: Option<int>) {
    time.Some? ==> limit.Some? && time.value <= limit.value
  }

  /** No recorded time lies in the future, and start times only move forward. */
  predicate Clocked(s: State) {
    && NotAfter(s.row.startedAt, Some(s.now)) && NotAfter(s.row.completedAt, Some(s.now))
    && forall id :: id in s.acts && Loaded(s.acts[id]).Some? ==>
         NotAfter(Loaded(s.acts[id]).value.startedAt, s.row.startedAt)
  }

  lemma StepClocked(s: State, e: Event)
    requires Clocked(s)
    ensures Clocked(Step(s, e))
  {
    var s' := Step(s, e);
    StepWrites(s, e);
    assert NotAfter(s.row.startedAt, s'.row.startedAt);
    forall id | id in s'.acts && Loaded(s'.acts[id]).Some?
      ensures NotAfter(Loaded(s'.acts[id]).value.startedAt, s'.row.startedAt)
    {
      assert Loaded(s'.acts[id]) == Some(s.row) || (id in s.acts && Loaded(s'.acts[id]) == Loaded(s.acts[id]));
    }
  }

  lemma {:induction false} AlwaysClocked(totalTables: nat, totalRows: nat, now: int, events: seq<Event>)
    ensures Clocked(Run(Initial(totalTables, totalRows, now), events))
    decreases |events|
  {
    if events != [] {
      AlwaysClocked(totalTables, totalRows, now, events[..|events| - 1]);
      StepClocked(Run(Initial(totalTables, totalRows, now), events[..|events| - 1]), events[|events| - 1]);
    }
  }

  /** EVERY RESTART HIDES THE SPEED, in every run: the start request of a failed job does
      not clear the completion time of the attempt before. */
  lemma EveryRestartHides(totalTables: nat, totalRows: nat, now: int, events: seq<Event>, id: nat)
    ensures
      var s := Run(Initial(totalTables, totalRows, now), events);
      id in s.acts && s.acts[id].Dispatched? && s.acts[id].seen.status == FAILED ==>
        var r := Step(s, StartCommits(id)).row;
        r.status == RUNNING && r.completedAt.Some? && Hidden(r)
  {
    AlwaysOk(totalTables, totalRows, now, events);
    AlwaysClocked(totalTables, totalRows, now, events);
  }

  /** And it stays hidden until somebody records a new end. */
  lemma HiddenStays(s: State, e: Event)
    requires Clocked(s) && s.row.startedAt.Some? && Hidden(s.row)
    requires !e.CancelCommits? && !e.CloseCommits? && !e.FailCommits?
    ensures Hidden(Step(s, e).row)
  {
    StepWrites(s, e);
  }

  /** Such a restart happens, for every job: start it, let its worker fail, start it again. */
  lemma RestartHidesSpeed(totalTables: nat, totalRows: nat)
    requires totalTables >= 1
    ensures
      exists events ::
        var r := Run(Initial(totalTables, totalRows, 0), events).row;
        r.status == RUNNING && r.startedAt.Some? && r.completedAt.Some? && Hidden(r)
  {
    hide Run, Step, Hidden;
    var s := Initial(totalTables, totalRows, 0);
    var e := FailedOnce(totalTables, totalRows);
    var s1 := Run(s, e);
    e := Then(s, e, StartRequested(0));
    e := Then(s, e, Dispatch(0, 2, 8));
    StartsAgain(s1);
    var s2 := Run(s, e);
    assert s2 == Step(Step(s1, StartRequested(0)), Dispatch(0, 2, 8));
    EveryRestartHides(totalTables, totalRows, 0, e, 0);
    AlwaysOk(totalTables, totalRows, 0, e);
    StepKeeps(s2, StartCommits(0));
    e := Then(s, e, StartCommits(0));
    assert Run(s, e).row.startedAt.Some?;
  }

  lemma StartsAgain(s: State)
    requires s.row.status == FAILED && s.acts == map[]
    ensures
      var s' := Step(Step(s, StartRequested(0)), Dispatch(0, 2, 8));
      0 in s'.acts && s'.acts[0].Dispatched? && s'.acts[0].seen.status == FAILED
  {
  }

  lemma FailedOnce(totalTables: nat, totalRows: nat) returns (e: seq<Event>)
    requires totalTables >= 1
    ensures
      var s := Run(Initial(totalTables, totalRows, 0), e);
      s.row.status == FAILED && s.acts == map[]
  {
    hide Run, Step, Initial;
    var s := Initial(totalTables, totalRows, 0);
    e := Launched(totalTables, totalRows);
    WorkerFailing(Run(s, e));
    e := Then(s, e, WorkerFails(1, "lost connection", 1));
    e := Then(s, e, FailLoads(1));
    e := Then(s, e, FailCommits(1));
  }

  lemma WorkerFailing(s: State)
    requires s.acts == map[1 := Working(7)] && s.row.status == RUNNING
    ensures
      var s' := Step(Step(Step(s, WorkerFails(1, "lost connection", 1)), FailLoads(1)), FailCommits(1));
      s'.row.status == FAILED && s'.acts == map[]
  {
  }
}
