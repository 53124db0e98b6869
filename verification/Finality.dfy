/** Which states of the job are final, and which the interleavings can reach. */
module Finality {
  import opened Common
  import opened Lifecycle

  // ---------- When a terminal status is final ----------

  predicate Terminal(status: Status) {
    status == COMPLETED || status == CANCELLED
  }

  /** No further cancel request arrives (one in progress may still commit). */
  predicate NobodyCancels(events: seq<Event>) {
    forall i :: 0 <= i < |events| ==> !events[i].CancelRequested?
  }

  lemma QuietStep(s: State, e: Event)
    requires s.acts == map[] && Terminal(s.row.status)
    ensures Step(s, e).row == s.row && Step(s, e).acts == map[]
  {
  }

  lemma {:induction false} QuietForever(s: State, events: seq<Event>)
    requires s.acts == map[] && Terminal(s.row.status)
    ensures Run(s, events).row == s.row && Run(s, events).acts == map[]
    decreases |events|
  {
    if events != [] {
      QuietForever(s, events[..|events| - 1]);
      QuietStep(Run(s, events[..|events| - 1]), events[|events| - 1]);
    }
  }

  /** A worker that is about to call _mark_failed overwrites any status but FAILED. */
  lemma FailingWrites(s: State, id: nat)
    requires s.row.status != FAILED && id in s.acts && s.acts[id].Failing?
    ensures Step(Step(s, FailLoads(id)), FailCommits(id)).row != s.row
  {
  }

  /** So does a worker before that, once it fails. */
  lemma ActiveWrites(s: State, id: nat)
    requires s.row.status != FAILED && id in s.acts
    requires s.acts[id].Opened? || s.acts[id].Working? || s.acts[id].Reporting? || s.acts[id].Closing?
    ensures Step(Step(Step(s, WorkerFails(id, "", 1)), FailLoads(id)), FailCommits(id)).row != s.row
  {
    hide Flush;
    FailingWrites(Step(s, WorkerFails(id, "", 1)), id);
  }

  /** A worker at any step can still fail, and then overwrites any status but FAILED. */
  lemma WorkerCanFail(s: State, id: nat) returns (events: seq<Event>)
    requires Inv(s) && s.row.status != FAILED && id in s.acts && IsWorker(s.acts[id])
    ensures Run(s, events).row != s.row && NobodyCancels(events)
  {
    hide Run, Flush;
    var a := s.acts[id];
    if a.FailSeen? && a.times == 1 {
      events := LastFailure(s, id);
    } else if a.FailSeen? {
      Run1(s, FailCommits(id));
      events := [FailCommits(id)];
      var s1 := Step(s, FailCommits(id));
      if s1.row == s.row {
        FailingWrites(s1, id);
        events := ThenFails(s, events, id);
      }
    } else if a.Failing? {
      RunNone(s);
      FailingWrites(s, id);
      events := ThenFails(s, [], id);
    } else {
      RunNone(s);
      events := [];
      if a.Queued? {
        Run1(s, WorkerOpens(id));
        events := [WorkerOpens(id)];
      }
      ActiveWrites(Run(s, events), id);
      RunMore(s, events, WorkerFails(id, "", 1));
      events := ThenFails(s, events + [WorkerFails(id, "", 1)], id);
    }
  }

  lemma ThenFails(s: State, before: seq<Event>, id: nat) returns (events: seq<Event>)
    ensures Run(s, events) == Step(Step(Run(s, before), FailLoads(id)), FailCommits(id))
    ensures NobodyCancels(before) ==> NobodyCancels(events)
  {
    events := Then(s, before, FailLoads(id));
    events := Then(s, events, FailCommits(id));
  }

  /** The last pending _mark_failed of a worker writes a completion time of its own. */
  lemma LastFailure(s: State, id: nat) returns (events: seq<Event>)
    requires id in s.acts && s.acts[id].FailSeen?
    ensures Run(s, events).row != s.row && NobodyCancels(events)
  {
    var a := s.acts[id];
    var wait := Later(s, a.seen);
    events := [TimePasses(wait)];
    Run1(s, TimePasses(wait));
    RunMore(s, events, FailCommits(id));
    events := events + [FailCommits(id)];
  }

  /** A number of seconds after which the clock differs from the times recorded. */
  function Later(s: State, seen: Record): (d: nat)
    ensures Some(s.now + d) !in [seen.completedAt, s.row.completedAt, seen.startedAt, s.row.startedAt]
  {
    Max(Max(Until(seen.completedAt, s.now), Until(s.row.completedAt, s.now)),
        Max(Until(seen.startedAt, s.now), Until(s.row.startedAt, s.now)))
  }

  function Until(time: Option<int>, now: int): nat {
    if time.Some? then Max(0, time.value - now + 1) else 0
  }

  /** A start or cancel request in progress can still overwrite the record. */
  lemma HandlerCanWrite(s: State, id: nat, message: nat) returns (events: seq<Event>)
    requires Inv(s) && s.row.status != FAILED && id in s.acts && !IsWorker(s.acts[id]) && message !in s.acts
    ensures Run(s, events).row != s.row && NobodyCancels(events)
  {
    hide Run, Flush, Inv, Later;
    RunNone(s);
    var a := s.acts[id];
    if a.Cancelling? {
      var wait := Later(s, a.seen);
      CancelWrites(s, id);
      events := Then(s, [], TimePasses(wait));
      events := Then(s, events, CancelCommits(id));
    } else if a.Starting? {
      events := Then(s, [], Dispatch(id, message, 0));
      events := DispatchedCanWrite(s, events, id);
    } else {
      events := DispatchedCanWrite(s, [], id);
    }
  }

  lemma CancelWrites(s: State, id: nat)
    requires id in s.acts && s.acts[id].Cancelling?
    ensures Step(Step(s, TimePasses(Later(s, s.acts[id].seen))), CancelCommits(id)).row != s.row
  {
  }

  lemma DispatchedCanWrite(s: State, before: seq<Event>, id: nat) returns (events: seq<Event>)
    requires id in Run(s, before).acts && Run(s, before).acts[id].Dispatched? && NobodyCancels(before)
    ensures Run(s, events).row != Run(s, before).row && NobodyCancels(events)
  {
    hide Run, Step, Later;
    StartWrites(s, before, id);
    var s1 := Run(s, before);
    events := Then(s, before, TimePasses(Later(s1, s1.acts[id].seen)));
    events := Then(s, events, StartCommits(id));
  }

  lemma StartWrites(s: State, before: seq<Event>, id: nat)
    requires id in Run(s, before).acts && Run(s, before).acts[id].Dispatched?
    ensures
      var s1 := Run(s, before);
      Step(Step(s1, TimePasses(Later(s1, s1.acts[id].seen))), StartCommits(id)).row != s1.row
  {
  }

  lemma {:induction false} UpperBound(ids: set<nat>) returns (b: nat)
    ensures forall k :: k in ids ==> k < b
    decreases |ids|
  {
    if ids == {} {
      b := 0;
    } else {
      var k :| k in ids;
      var rest := ids - {k};
      var c := UpperBound(rest);
      b := if k < c then c else k + 1;
      assert forall x :: x in ids ==> x == k || x in rest;
    }
  }

  /** WHEN A TERMINAL STATUS IS FINAL. A completed or cancelled record never changes again,
      whatever anybody does, exactly when no worker, message or handler is outstanding. */
  lemma FinalExactly(s: State)
    requires Inv(s) && Terminal(s.row.status)
    ensures s.acts == map[] <==> forall events :: Run(s, events).row == s.row
  {
    if s.acts == map[] {
      forall events ensures Run(s, events).row == s.row { QuietForever(s, events); }
    } else {
      var events := SomebodyWrites(s);
      assert Run(s, events).row != s.row;
    }
  }

  /** Whoever is outstanding can still change the record. */
  lemma SomebodyWrites(s: State) returns (events: seq<Event>)
    requires Inv(s) && s.row.status != FAILED && s.acts != map[]
    ensures Run(s, events).row != s.row && NobodyCancels(events)
  {
    var id :| id in s.acts;
    if IsWorker(s.acts[id]) {
      events := WorkerCanFail(s, id);
    } else {
      var message := UpperBound(s.acts.Keys);
      events := HandlerCanWrite(s, id, message);
    }
  }

  // ---------- What the interleavings allow ----------

  /** CANCELLED is not final by itself: a worker that was not stopped in time completes the
      job afterwards. (FinalExactly says when this cannot happen.) */
  lemma CancelledCanComplete(tables: nat, rows: nat)
    requires tables >= 1
    ensures
      exists cancelled, more ::
        && Run(Initial(tables, rows, 0), cancelled).row.status == CANCELLED
        && Run(Run(Initial(tables, rows, 0), cancelled), more).row.status == COMPLETED
  {
    hide Run, Flush, Started;
    var s := Initial(tables, rows, 0);
    var e := Launched(tables, rows);
    var s1 := Run(s, e);
    assert s1.row.status == RUNNING && s1.row.totalTables == tables by { LaunchedRow(tables, rows); }
    e := Then(s, e, CancelRequested(2));
    e := Then(s, e, CancelCommits(2));
    Overwritten(s1.row, Cancelled(s1.row, 0));
    var s2 := Run(s, e);
    assert s2.row.status == CANCELLED && 1 in s2.acts && s2.acts[1] == Working(7);
    RunNone(s2);
    var o := Outcome(tables, [], rows);
    var more := Then(s2, [], CloseLoads(1, o));
    more := Then(s2, more, CloseCommits(1));
    Overwritten(s2.row, Finalised(s2.row, o, 0));
  }

  lemma LaunchedRow(tables: nat, rows: nat)
    ensures Started(Created(tables, rows), 7, 0).status == RUNNING
          && Started(Created(tables, rows), 7, 0).totalTables == tables
  {
  }

  /** Nobody else wrote since the load: the commit installs the whole update. */
  lemma Overwritten(seen: Record, upd: Record)
    ensures Flush(seen, seen, upd) == upd
  {
  }

  /** The start request commits after its worker already finished: the job is RUNNING, its
      completion recorded, and nobody is working on it. */
  lemma CanBeStuckRunning(tables: nat, rows: nat)
    requires tables >= 1
    ensures
      exists events ::
        var s := Run(Initial(tables, rows, 0), events);
        s.acts == map[] && s.row.status == RUNNING && s.row.completedAt.Some?
  {
    var before, e := FinishedFirst(tables, rows);
    var s := Initial(tables, rows, 0);
    hide Run;
    e := Then(s, e, StartCommits(0));
    assert Run(s, e).acts == map[];
  }

  lemma FinishedFirst(tables: nat, rows: nat) returns (s': State, e: seq<Event>)
    requires tables >= 1
    ensures Run(Initial(tables, rows, 0), e) == s'
    ensures s'.row.status == COMPLETED && s'.row.completedAt.Some?
    ensures s'.acts == map[0 := Dispatched(Created(tables, rows), 7)]
  {
    hide Run, Flush;
    var s := Initial(tables, rows, 0);
    RunNone(s);
    e := Then(s, [], StartRequested(0));
    e := Then(s, e, Dispatch(0, 1, 7));
    e := Then(s, e, WorkerOpens(1));
    e := Then(s, e, WorkerMarks(1));
    Overwritten(s.row, Marked(s.row, 0));
    var s1 := Run(s, e);
    assert s1.row == Marked(s.row, 0) && s1.acts[1] == Working(7);
    var o := Outcome(tables, [], rows);
    e := Then(s, e, CloseLoads(1, o));
    e := Then(s, e, CloseCommits(1));
    Overwritten(s1.row, Finalised(s1.row, o, 0));
    assert Run(s, e).acts == map[0 := Dispatched(s.row, 7)];
    s' := Run(s, e);
  }

  /** WHEN A RUNNING JOB IS STUCK. A RUNNING record stays as it is, whatever happens short of
      a new cancel request, exactly when no worker, message or handler is outstanding. */
  lemma StuckExactly(s: State)
    requires Inv(s) && s.row.status == RUNNING
    ensures s.acts == map[] <==> forall events :: NobodyCancels(events) ==> Run(s, events).row == s.row
  {
    if s.acts == map[] {
      forall events | NobodyCancels(events) ensures Run(s, events).row == s.row { StuckUntilCancelled(s, events); }
    } else {
      var events := SomebodyWrites(s);
      assert NobodyCancels(events) && Run(s, events).row != s.row;
    }
  }

  lemma {:induction false} StuckUntilCancelled(s: State, events: seq<Event>)
    requires s.acts == map[] && s.row.status == RUNNING && NobodyCancels(events)
    ensures Run(s, events).row == s.row && Run(s, events).acts == map[]
    decreases |events|
  {
    if events != [] {
      StuckUntilCancelled(s, events[..|events| - 1]);
      StuckStep(Run(s, events[..|events| - 1]), events[|events| - 1]);
    }
  }

  lemma StuckStep(s: State, e: Event)
    requires s.acts == map[] && s.row.status == RUNNING && !e.CancelRequested?
    ensures Step(s, e).row == s.row && Step(s, e).acts == map[]
  {
  }

  // ---------- Which runs leave no job stuck ----------

  /** A worker that will end with a status other than RUNNING if it is not lost: it has not
      made its last load of the record, or made it and did not see the status it sets. */
  predicate WillFinish(a: Activity) {
    || a.Queued? || a.Opened? || a.Working? || a.Reporting? || a.Failing?
    || (a.Closing? && a.seen.status != (if a.outcome.failed != [] then FAILED else COMPLETED))
    || (a.FailSeen? && (a.seen.status != FAILED || a.times >= 2))
  }

  predicate Attended(s: State) {
    s.row.status == RUNNING ==> exists id :: id in s.acts && WillFinish(s.acts[id])
  }

  /** The commit of a start request whose worker is no longer there to finish the job. */
  predicate LateStart(s: State, e: Event) {
    && e.StartCommits? && e.id in s.acts && s.acts[e.id].Dispatched?
    && forall id :: id in s.acts ==> !WillFinish(s.acts[id])
  }

  /** The loss of the only process or message that would have finished the job. */
  predicate LosesLast(s: State, e: Event) {
    e.Vanish? && s.row.status == RUNNING && forall id :: id in s.acts && WillFinish(s.acts[id]) ==> id == e.id
  }

  /** THE ONLY WAYS TO GET STUCK: a start request that commits after every worker that could
      finish the job made its last load, and the loss of the last such worker. */
  lemma AttendedExactly(s: State, e: Event)
    requires Inv(s) && Attended(s)
    ensures Attended(Step(s, e)) <==> !LateStart(s, e) && !LosesLast(s, e)
  {
    var s' := Step(s, e);
    if LateStart(s, e) {
      StartLeaves(s, e.id);
    } else if e.Vanish? {
      LossLeaves(s, e.id);
    } else if s'.row.status == RUNNING {
      if s.row.status == RUNNING {
        var id :| id in s.acts && WillFinish(s.acts[id]);
        StaysAttended(s, e, id);
      } else {
        StatusAfter(s, e);
        if e.WorkerMarks? {
          assert WillFinish(s'.acts[e.id]);
        } else {
          var id :| id in s.acts && WillFinish(s.acts[id]);
          assert s'.acts[id] == s.acts[id];
        }
      }
    }
  }

  lemma LossLeaves(s: State, id: nat)
    requires Attended(s)
    ensures Attended(Step(s, Vanish(id))) <==> !LosesLast(s, Vanish(id))
  {
    var s' := Step(s, Vanish(id));
    forall k | k in s.acts && k != id ensures k in s'.acts && s'.acts[k] == s.acts[k] {
    }
  }

  /** A worker whose task was delivered again beforehand is not the last one. */
  lemma RedeliveryAttends(s: State, id: nat, message: nat)
    requires id in s.acts && IsWorker(s.acts[id]) && message !in s.acts
    ensures !LosesLast(Step(s, Redeliver(id, message)), Vanish(id))
  {
    var s' := Step(s, Redeliver(id, message));
    assert message in s'.acts && WillFinish(s'.acts[message]) && message != id;
  }

  lemma StartLeaves(s: State, id: nat)
    requires Inv(s) && LateStart(s, StartCommits(id))
    ensures !Attended(Step(s, StartCommits(id)))
  {
  }

  /** A record that was not RUNNING becomes so only by the two commits that say so. */
  lemma StatusAfter(s: State, e: Event)
    requires Inv(s) && s.row.status != RUNNING && Step(s, e).row.status == RUNNING
    ensures e.id in s.acts && ((e.StartCommits? && s.acts[e.id].Dispatched?) || (e.WorkerMarks?
          && s.acts[e.id].Opened?))
  {
  }

  /** The worker that will finish goes on, or has just finished. */
  lemma StaysAttended(s: State, e: Event, id: nat)
    requires Inv(s) && s.row.status == RUNNING && id in s.acts && WillFinish(s.acts[id]) && !e.Vanish?
    ensures Step(s, e).row.status != RUNNING || (id in Step(s, e).acts && WillFinish(Step(s, e).acts[id]))
  {
  }

  /** A run without such late starts and such losses leaves no job stuck; lost workers do no
      harm as long as another one, or their redelivered task, is there. */
  lemma {:induction false} NeverStuck(tables: nat, rows: nat, now: int, events: seq<Event>)
    requires forall i :: 0 <= i < |events| ==>
      var s := Run(Initial(tables, rows, now), events[..i]);
      !LateStart(s, events[i]) && !LosesLast(s, events[i])
    ensures
      var s := Run(Initial(tables, rows, now), events);
      Attended(s) && (s.row.status == RUNNING ==> s.acts != map[])
    decreases |events|
  {
    if events != [] {
      var n := |events| - 1;
      var s, some := Initial(tables, rows, now), events[..n];
      forall i | 0 <= i < n ensures !LateStart(Run(s, some[..i]), some[i]) && !LosesLast(Run(s, some[..i]), some[i]) {
        assert some[..i] == events[..i];
      }
      NeverStuck(tables, rows, now, some);
      AlwaysOk(tables, rows, now, some);
      AttendedExactly(Run(s, some), events[n]);
    }
  }

  // ---------- Who completed the job ----------

  /** The commit of a final step whose executor reported no failed table. */
  predicate CleanClose(s: State, e: Event) {
    e.CloseCommits? && e.id in s.acts && s.acts[e.id].Closing? && s.acts[e.id].outcome.failed == []
  }

  /** A COMPLETED RECORD WAS WRITTEN BY A CLEAN FINISH: over all interleavings, some worker
      committed the outcome of a run without failed tables. */
  lemma {:induction false} CompletedByCleanClose(tables: nat, rows: nat, now: int, events: seq<Event>) returns (i: nat)
    requires Run(Initial(tables, rows, now), events).row.status == COMPLETED
    ensures i < |events| && CleanClose(Run(Initial(tables, rows, now), events[..i]), events[i])
    decreases |events|
  {
    var n := |events| - 1;
    assert events != [];
    var s := Run(Initial(tables, rows, now), events[..n]);
    if s.row.status == COMPLETED {
      i := CompletedByCleanClose(tables, rows, now, events[..n]);
      assert events[..n][..i] == events[..i];
    } else {
      AlwaysOk(tables, rows, now, events[..n]);
      CompletedStep(s, events[n]);
      i := n;
    }
  }

  lemma CompletedStep(s: State, e: Event)
    requires Inv(s) && s.row.status != COMPLETED && Step(s, e).row.status == COMPLETED
    ensures CleanClose(s, e)
  {
  }
}
