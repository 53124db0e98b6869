/** How the copy of one table ends: which call to the environment decided it, and that
    every call before that one was survived (app/migration/executor.py). */
module Endings {
  import opened Common
  import opened Schema
  import opened Destination
  import opened Executor

  /** One snapshot per call; the last one holds the current total. */
  predicate Logged(w: World) {
    |w.history| == w.clock && w.total == TotalBefore(w, w.clock)
  }

  /** The total when call k was made. */
  function TotalBefore(w: World, k: nat): int
    requires k <= |w.history|
  {
    if k == 0 then 0 else w.history[k - 1].total
  }

  /** Call k was on_progress: the total had just grown. */
  predicate IsReport(w: World, k: nat)
    requires k < |w.history|
  {
    w.history[k].total != TotalBefore(w, k)
  }

  /** Nobody died in call k, and a callback did not raise. */
  predicate Survived(env: Env, w: World, k: nat)
    requires k < |w.history|
  {
    !env.fate(k).Dies? && (IsReport(w, k) ==> env.fate(k).Fine?)
  }

  /** Call k raised, or was an insertion that the table refuses. */
  predicate Unsuccessful(env: Env, s: Store, t: string, rows: seq<Row>, k: nat) {
    env.fate(k).Raises? || (env.fate(k).Fine? && rows != [] && !Accepts(env.catalog, s, t, rows))
  }

  /** The attempts for one batch: all but the last were unsuccessful; the last one decides. */
  lemma {:induction false} RetryEnds(env: Env, t: string, rows: seq<Row>, w: World, attempt: nat)
    requires attempt <= env.settings.maxRetries && rows != [] && Logged(w)
    ensures
      var (w', verdict) := InsertWithRetrySpec(env, t, rows, w, attempt);
      var n := w'.clock - 1;
      && Logged(w') && w.history <= w'.history && n >= w.clock && w'.total == w.total
      && (t in w'.store.live <==> t in w.store.live)
      && (forall k :: w.clock <= k <= n ==> !IsReport(w', k))
      && (forall k :: w.clock <= k < n ==> Unsuccessful(env, w'.store, t, rows, k))
      && (verdict.Completed? <==> env.fate(n).Fine? && Accepts(env.catalog, w'.store, t, rows))
      && (verdict.Aborted? <==> env.fate(n).Dies?)
      && (verdict.Failed? ==> n - w.clock == env.settings.maxRetries - attempt)
    decreases env.settings.maxRetries - attempt
  {
    var (w1, next) := AttemptSpec(env, t, rows, w, attempt);
    hide ConflictRules.Insert, Records, Landed, Pow2;
    if next.Again? {
      RetryEnds(env, t, rows, w1, attempt + 1);
    }
  }

  /** The batch due at an offset. */
  function Due(env: Env, T: seq<Row>, offset: nat): seq<Row>
    requires offset <= |T|
  {
    T[offset..Min(offset + env.settings.batchSize, |T|)]
  }

  /** The calls before number n were survived. */
  predicate SurvivedUpTo(env: Env, w: World, from: nat, n: nat)
    requires n < |w.history|
  {
    forall k :: from <= k < n ==> Survived(env, w, k)
  }

  /** Call n ended the copy, at this offset, with this verdict. */
  predicate EndedBy(env: Env, t: string, T: seq<Row>, good: nat, w: World, n: nat, at: nat, verdict: Verdict)
    requires n < |w.history| && at <= |T|
  {
    match verdict
    case Completed => !IsReport(w, n) && env.fate(n).Fine? && Due(env, T, at) == []
    case Failed =>
      && !IsReport(w, n) && Unsuccessful(env, w.store, t, Due(env, T, at), n)
      && (env.fate(n).Fine? ==> |Due(env, T, at)| <= good - at)
    case Aborted =>
      || env.fate(n).Dies?
      || (IsReport(w, n) && env.fate(n).Raises?)
      || (!IsReport(w, n) && env.fate(n).Fine? && |Due(env, T, at)| > good - at)
  }

  /** One turn, call by call. */
  lemma TurnEnds(env: Env, t: string, T: seq<Row>, good: nat, w: World, offset: nat, retry: nat)
    requires offset <= good <= |T| && retry <= env.settings.maxRetries && Logged(w)
    ensures
      var (w', turn) := TurnSpec(env, t, T, good, w, offset, retry);
      var n, at := w'.clock - 1, offset + w'.total - w.total;
      && Logged(w') && w.history <= w'.history && n >= w.clock && offset <= at <= good
      && (t in w'.store.live <==> t in w.store.live)
      && SurvivedUpTo(env, w', w.clock, n)
      && (turn.Next? ==> at == turn.offset && Survived(env, w', n))
      && (turn.Next? && turn.offset == offset ==> n == w.clock && env.fate(n).Raises?)
      && (turn.Next? && turn.offset != offset ==> turn.retry == 0)
      && (turn.Stop? ==> EndedBy(env, t, T, good, w', n, at, turn.verdict))
      && (turn == Stop(Failed) ==>
            if n == w.clock && env.fate(n).Raises? then retry == env.settings.maxRetries
            else
              && n - env.settings.maxRetries > w.clock
              && forall k :: n - env.settings.maxRetries <= k <= n ==>
                   Unsuccessful(env, w'.store, t, Due(env, T, at), k))
  {
    hide InsertWithRetrySpec, Accepts, Pow2, IsReport;
    var end := Min(offset + env.settings.batchSize, |T|);
    var w1 := AfterFetch(w);
    NoReport(w, w1, w.clock);
    if InsertsBatch(env, T, good, w, offset) {
      RetryEnds(env, t, T[offset..end], w1, 0);
      var (w2, verdict) := InsertWithRetrySpec(env, t, T[offset..end], w1, 0);
      var w' := TurnSpec(env, t, T, good, w, offset, retry).0;
      forall k | w.clock <= k < w2.clock ensures !IsReport(w2, k) && !IsReport(w', k) {
        if k == w.clock { SameCall(w1, w2, k); }
        SameCall(w2, w', k);
      }
      forall k | w.clock <= k < w2.clock - 1 ensures Survived(env, w', k) {
        assert k > w.clock ==> Unsuccessful(env, w2.store, t, T[offset..end], k);
      }
      if verdict.Completed? {
        ReportCall(w2, w', w2.clock);
      }
    } else {
      NoReport(w, TurnSpec(env, t, T, good, w, offset, retry).0, w.clock);
    }
  }

  /** A call that leaves the total alone is not on_progress. */
  lemma NoReport(w: World, w': World, k: nat)
    requires Logged(w) && Logged(w') && k == w.clock && w'.clock == k + 1
    requires w.history <= w'.history && w'.total == w.total
    ensures !IsReport(w', k)
  {
  }

  /** A call after which the total is higher is on_progress. */
  lemma ReportCall(w: World, w': World, k: nat)
    requires Logged(w) && Logged(w') && k == w.clock && w'.clock == k + 1
    requires w.history <= w'.history && w'.total != w.total
    ensures IsReport(w', k)
  {
  }

  /** What is recorded about a call stays. */
  lemma SameCall(w: World, w': World, k: nat)
    requires k < |w.history| && w.history <= w'.history
    ensures IsReport(w', k) <==> IsReport(w, k)
  {
    assert w'.history[k] == w.history[k];
    if k > 0 { assert w'.history[k - 1] == w.history[k - 1]; }
  }

  /** HOW A COPY ENDS. One of the calls ends it, and nothing earlier did: no call before it
      killed the process and no earlier on_progress raised. The copy completed iff that call
      is a fetch that found nothing left; it is aborted iff that call killed the process, is
      an on_progress that raised, or is a fetch of a row that cannot be mapped; it failed iff
      that call and the r calls before it raised or were refused, with nothing in between. */
  lemma {:induction false} CopyEnds(env: Env, t: string, T: seq<Row>, good: nat, w: World, offset: nat, retry: nat)
    requires offset <= good <= |T| && retry <= env.settings.maxRetries && Logged(w)
    ensures
      var (w', verdict) := CopySpec(env, t, T, good, w, offset, retry);
      var n, r, at := w'.clock - 1, env.settings.maxRetries, offset + w'.total - w.total;
      && Logged(w') && w.history <= w'.history && n >= w.clock && offset <= at <= good
      && (t in w'.store.live <==> t in w.store.live)
      && SurvivedUpTo(env, w', w.clock, n)
      && EndedBy(env, t, T, good, w', n, at, verdict)
      && (verdict.Failed? ==>
            && n - r >= w.clock - retry
            && forall k :: w.clock <= k && n - r <= k <= n ==> Unsuccessful(env, w'.store, t, Due(env, T, at), k))
    decreases |T| - offset, env.settings.maxRetries - retry
  {
    hide TurnSpec, IsReport, Survived, EndedBy, Due, Accepts;
    var (end, verdict) := CopySpec(env, t, T, good, w, offset, retry);
    TurnEnds(env, t, T, good, w, offset, retry);
    var (w1, turn) := TurnSpec(env, t, T, good, w, offset, retry);
    if turn.Next? {
      CopyEnds(env, t, T, good, w1, turn.offset, turn.retry);
      forall k | w.clock <= k < w1.clock ensures Survived(env, end, k) {
        SurvivedStill(env, w1, end, k);
      }
    }
  }

  /** A call cannot end a copy in two ways. */
  lemma OneEnding(env: Env, t: string, T: seq<Row>, good: nat, w: World, n: nat, at: nat, v: Verdict, v': Verdict)
    requires n < |w.history| && at <= good <= |T|
    requires EndedBy(env, t, T, good, w, n, at, v) && EndedBy(env, t, T, good, w, n, at, v')
    ensures v == v'
  {
  }

  lemma SurvivedStill(env: Env, w: World, w': World, k: nat)
    requires k < |w.history| && w.history <= w'.history && Survived(env, w, k)
    ensures Survived(env, w', k)
  {
    SameCall(w, w', k);
  }

  /** One of the r + 1 calls from number n on does not raise. */
  predicate Recovers(env: Env, n: nat) {
    exists k :: n <= k <= n + env.settings.maxRetries && env.fate(k).Fine?
  }

  /** TRANSIENT FAULTS ARE TOLERATED. As long as no r + 1 consecutive calls raise and nothing
      kills the process, a copy of mappable rows into a table that has their columns
      completes, however many calls raise altogether, unless on_progress raises. */
  lemma TransientFaults(env: Env, t: string, T: seq<Row>, w: World)
    requires Logged(w) && env.settings.batchSize > 0 && t in w.store.live
    requires forall i :: 0 <= i < |T| ==> {} < T[i].Keys <= env.catalog.columns(t)
    requires forall n: nat :: !env.fate(n).Dies? && Recovers(env, n)
    ensures
      var (w', verdict) := CopySpec(env, t, T, |T|, w, 0, 0);
      || verdict.Completed?
      || (verdict.Aborted? && 0 < w'.clock == |w'.history|
          && IsReport(w', w'.clock - 1) && env.fate(w'.clock - 1).Raises?)
  {
    hide CopySpec, IsReport, Recovers;
    var (w', verdict) := CopySpec(env, t, T, |T|, w, 0, 0);
    match verdict
    case Completed =>
    case Aborted => AbortedHow(env, t, T, w);
    case Failed => NeverFails(env, t, T, w);
  }

  /** Where nothing dies and every row can be mapped, only on_progress aborts a copy. */
  lemma AbortedHow(env: Env, t: string, T: seq<Row>, w: World)
    requires Logged(w) && forall n: nat :: !env.fate(n).Dies?
    ensures
      var (w', verdict) := CopySpec(env, t, T, |T|, w, 0, 0);
      verdict.Aborted? ==>
        0 < w'.clock == |w'.history| && IsReport(w', w'.clock - 1) && env.fate(w'.clock - 1).Raises?
  {
    CopyEnds(env, t, T, |T|, w, 0, 0);
    hide CopySpec, IsReport, Survived, Unsuccessful;
  }

  /** Where every row is accepted, a copy fails only by r + 1 calls that raise in a row. */
  lemma NeverFails(env: Env, t: string, T: seq<Row>, w: World)
    requires Logged(w) && t in w.store.live
    requires forall i :: 0 <= i < |T| ==> {} < T[i].Keys <= env.catalog.columns(t)
    requires forall n: nat :: Recovers(env, n)
    ensures !CopySpec(env, t, T, |T|, w, 0, 0).1.Failed?
  {
    hide CopySpec, Recovers, Unsuccessful, EndedBy, SurvivedUpTo, Due;
    CopyEnds(env, t, T, |T|, w, 0, 0);
    var (w', verdict) := CopySpec(env, t, T, |T|, w, 0, 0);
    if verdict.Failed? {
      var n, at := w'.clock - 1, w'.total - w.total;
      var k := FineCall(env, n - env.settings.maxRetries);
      DueIsAccepted(env, w'.store, t, T, at, k);
    }
  }

  lemma FineCall(env: Env, n: nat) returns (k: nat)
    requires Recovers(env, n)
    ensures n <= k <= n + env.settings.maxRetries && env.fate(k).Fine?
  {
    k :| n <= k <= n + env.settings.maxRetries && env.fate(k).Fine?;
  }

  lemma DueIsAccepted(env: Env, s: Store, t: string, T: seq<Row>, at: nat, k: nat)
    requires at <= |T| && t in s.live && env.fate(k).Fine?
    requires forall i :: 0 <= i < |T| ==> {} < T[i].Keys <= env.catalog.columns(t)
    ensures !Unsuccessful(env, s, t, Due(env, T, at), k)
  {
    if Due(env, T, at) != [] { assert Due(env, T, at)[0] == T[at]; }
  }
}
