/** How often the copy calls out, how long it sleeps, and what it counts. */
module Counting {
  import opened Common
  import opened Schema
  import opened Destination
  import opened Executor

  /** Number of batches of size b that n rows make. */
  function Batches(n: nat, b: nat): nat {
    if n == 0 || b == 0 then 0 else 1 + Batches(if n <= b then 0 else n - b, b)
  }

  /** It is the ceiling of n / b. */
  lemma {:induction false} BatchesIsCeiling(n: nat, b: nat)
    requires b > 0
    ensures (Batches(n, b) - 1) * b < n <= Batches(n, b) * b || Batches(n, b) == n == 0
    decreases n
  {
    if n > b {
      BatchesIsCeiling(n - b, b);
    } else if n > 0 {
      assert Batches(n, b) == 1;
    }
  }

  lemma {:induction false} Pow2Positive(n: nat)
    ensures Pow2(n) >= 1
    decreases n
  {
    if n > 0 { Pow2Positive(n - 1); }
  }

  lemma {:induction false} RetryBounds(env: Env, t: string, rows: seq<Row>, w: World, attempt: nat)
    requires attempt <= env.settings.maxRetries
    ensures
      var (w', verdict) := InsertWithRetrySpec(env, t, rows, w, attempt);
      var r := env.settings.maxRetries;
      && w'.inserts <= w.inserts + r + 1 - attempt
      && w'.backoff <= w.backoff + Pow2(r) - Pow2(attempt)
      && w'.fetches == w.fetches && w'.total == w.total && w'.reports == w.reports && w'.delivered == w.delivered
    decreases env.settings.maxRetries - attempt
  {
    var (store, reply) := InsertOp(env.catalog, w.store, t, rows, env.fate(w.clock));
    var w1 := Tick(w, store).(inserts := w.inserts + 1);
    PowersGrow(attempt, env.settings.maxRetries);
    if reply.Raised? && attempt < env.settings.maxRetries {
      RetryBounds(env, t, rows, w1.(backoff := w1.backoff + Pow2(attempt)), attempt + 1);
    }
  }

  /** Giving up on a batch took every attempt and every pause between them. */
  lemma {:induction false} RetryExhausts(env: Env, t: string, rows: seq<Row>, w: World, attempt: nat)
    requires attempt <= env.settings.maxRetries
    ensures
      var (w', verdict) := InsertWithRetrySpec(env, t, rows, w, attempt);
      var r := env.settings.maxRetries;
      verdict.Failed? ==>
        w'.inserts == w.inserts + r + 1 - attempt && w'.backoff == w.backoff + Pow2(r) - Pow2(attempt)
    decreases env.settings.maxRetries - attempt
  {
    var (store, reply) := InsertOp(env.catalog, w.store, t, rows, env.fate(w.clock));
    var w1 := Tick(w, store).(inserts := w.inserts + 1);
    hide InsertOp;
    if reply.Raised? && attempt < env.settings.maxRetries {
      RetryExhausts(env, t, rows, w1.(backoff := w1.backoff + Pow2(attempt)), attempt + 1);
    }
  }

  /** If no fetch ever succeeds, the table fails after r + 1 - retry fetches, all pauses
      between them, and no change. */
  lemma {:induction false} FetchesExhaust(env: Env, t: string, T: seq<Row>, good: nat, w: World, offset: nat,
      retry: nat)
    requires offset <= good <= |T| && retry <= env.settings.maxRetries
    requires forall n: nat :: env.fate(n).Raises?
    ensures
      var (w', verdict) := CopySpec(env, t, T, good, w, offset, retry);
      var r := env.settings.maxRetries;
      && verdict.Failed? && w'.store == w.store && w'.total == w.total
      && w'.fetches == w.fetches + r + 1 - retry
      && w'.backoff == w.backoff + Pow2(r + 1) - Pow2(retry + 1)
    decreases env.settings.maxRetries - retry
  {
    var (w1, turn) := TurnSpec(env, t, T, good, w, offset, retry);
    assert env.fate(w.clock).Raises?;
    assert Pow2(retry + 2) == 2 * Pow2(retry + 1);
    hide InsertWithRetrySpec, Pow2;
    if turn.Next? {
      FetchesExhaust(env, t, T, good, w1, turn.offset, turn.retry);
    }
  }

  lemma {:induction false} PowersGrow(a: nat, b: nat)
    requires a <= b
    ensures 1 <= Pow2(a) <= Pow2(b)
    decreases b - a
  {
    if a == b { Pow2Positive(a); } else { PowersGrow(a, b - 1); }
  }

  /** m * x, by repeated addition. */
  function Times(m: nat, x: int): (p: int)
    ensures x >= 0 ==> p >= 0
  {
    if m == 0 then 0 else x + Times(m - 1, x)
  }

  lemma {:induction false} TimesIsProduct(m: nat, x: int)
    ensures Times(m, x) == m * x
    decreases m
  {
    if m > 0 { TimesIsProduct(m - 1, x); }
  }

  /** What one turn may spend, and where it goes next. */
  lemma TurnSpends(env: Env, t: string, T: seq<Row>, good: nat, w: World, offset: nat, retry: nat)
    requires offset <= good <= |T| && retry <= env.settings.maxRetries
    ensures
      var (w', turn) := TurnSpec(env, t, T, good, w, offset, retry);
      var r, end := env.settings.maxRetries, Min(offset + env.settings.batchSize, |T|);
      && w'.fetches == w.fetches + 1
      && w'.inserts <= w.inserts + (if end == offset then 0 else r + 1)
      && (if turn.Next? && turn.offset == offset
          then turn.retry == retry + 1 && w'.inserts == w.inserts && w'.backoff == w.backoff + Pow2(retry + 1)
          else w'.backoff <= w.backoff + (if end == offset then 0 else Pow2(r) - 1))
      && (turn.Next? && turn.offset != offset ==> turn == Next(end, 0))
  {
    hide InsertWithRetrySpec, TurnSpec;
    PowersGrow(0, env.settings.maxRetries);
    TurnShape(env, t, T, good, w, offset, retry);
    if InsertsBatch(env, T, good, w, offset) {
      RetryBounds(env, t, T[offset..Min(offset + env.settings.batchSize, |T|)], AfterFetch(w), 0);
    }
  }

  /** Batches still to come at an offset. */
  function Left(env: Env, T: seq<Row>, offset: nat): nat
    requires offset <= |T|
  {
    Batches(|T| - offset, env.settings.batchSize)
  }

  lemma LeftStep(env: Env, T: seq<Row>, offset: nat)
    requires offset <= |T|
    ensures
      var end := Min(offset + env.settings.batchSize, |T|);
      end > offset ==> Left(env, T, offset) == Left(env, T, end) + 1
  {
  }

  lemma {:induction false} CopyFetches(env: Env, t: string, T: seq<Row>, good: nat, w: World, offset: nat, retry: nat)
    requires offset <= good <= |T| && retry <= env.settings.maxRetries
    ensures
      var (w', verdict) := CopySpec(env, t, T, good, w, offset, retry);
      var r := env.settings.maxRetries;
      var m := Left(env, T, offset);
      w'.fetches <= w.fetches + Times(m + 1, r + 1) - retry
    decreases |T| - offset, env.settings.maxRetries - retry
  {
    hide Pow2, TurnSpec, Left;
    LeftStep(env, T, offset);
    TurnSpends(env, t, T, good, w, offset, retry);
    var (w1, turn) := TurnSpec(env, t, T, good, w, offset, retry);
    if turn.Next? {
      CopyFetches(env, t, T, good, w1, turn.offset, turn.retry);
    }
  }

  lemma {:induction false} CopyInserts(env: Env, t: string, T: seq<Row>, good: nat, w: World, offset: nat, retry: nat)
    requires offset <= good <= |T| && retry <= env.settings.maxRetries
    ensures
      var (w', verdict) := CopySpec(env, t, T, good, w, offset, retry);
      var r := env.settings.maxRetries;
      var m := Left(env, T, offset);
      w'.inserts <= w.inserts + Times(m, r + 1)
    decreases |T| - offset, env.settings.maxRetries - retry
  {
    hide Pow2, TurnSpec, Left;
    LeftStep(env, T, offset);
    TurnSpends(env, t, T, good, w, offset, retry);
    var (w1, turn) := TurnSpec(env, t, T, good, w, offset, retry);
    if turn.Next? {
      CopyInserts(env, t, T, good, w1, turn.offset, turn.retry);
    }
  }

  /** Seconds slept at most over m batches and the final fetch. */
  function SleepBudget(m: nat, r: nat): int {
    Times(m + 1, Pow2(r + 1) - 2) + Times(m, Pow2(r) - 1)
  }

  lemma SleepBudgetStep(m: nat, r: nat, retry: nat)
    requires retry <= r
    ensures Pow2(retry + 1 + 1) == 2 * Pow2(retry + 1) >= 4 && Pow2(0 + 1) == 2
    ensures SleepBudget(m, r) >= Pow2(retry + 1) - 2
    ensures SleepBudget(m + 1, r) >= SleepBudget(m, r) + Pow2(retry + 1) - 2 + Pow2(r) - 1
  {
    PowersGrow(0, r);
    PowersGrow(retry + 1, r + 1);
  }

  lemma {:induction false} CopyBackoff(env: Env, t: string, T: seq<Row>, good: nat, w: World, offset: nat, retry: nat)
    requires offset <= good <= |T| && retry <= env.settings.maxRetries
    ensures
      var (w', verdict) := CopySpec(env, t, T, good, w, offset, retry);
      var m := Left(env, T, offset);
      w'.backoff <= w.backoff + SleepBudget(m, env.settings.maxRetries) - (Pow2(retry + 1) - 2)
    decreases |T| - offset, env.settings.maxRetries - retry
  {
    var r, end := env.settings.maxRetries, Min(offset + env.settings.batchSize, |T|);
    hide Pow2, TurnSpec, SleepBudget, Left;
    LeftStep(env, T, offset);
    SleepBudgetStep(Left(env, T, offset), r, retry);
    SleepBudgetStep(Left(env, T, end), r, retry);
    TurnSpends(env, t, T, good, w, offset, retry);
    var (w1, turn) := TurnSpec(env, t, T, good, w, offset, retry);
    if turn.Next? {
      CopyBackoff(env, t, T, good, w1, turn.offset, turn.retry);
    }
  }

  /** TERMINATION WITH BOUNDS. For n rows in m = ceil(n / b) batches and r retries, the loop
      makes at most (m + 1)(r + 1) fetches and m(r + 1) insertions, and sleeps at most
      (m + 1)(2^(r+1) - 2) + m(2^r - 1) seconds in all. */
  lemma CopyBounds(env: Env, t: string, T: seq<Row>, good: nat, w: World)
    requires good <= |T|
    ensures
      var (w', verdict) := CopySpec(env, t, T, good, w, 0, 0);
      var r := env.settings.maxRetries;
      var m := Batches(|T|, env.settings.batchSize);
      && w'.fetches - w.fetches <= (m + 1) * (r + 1)
      && w'.inserts - w.inserts <= m * (r + 1)
      && w'.backoff - w.backoff <= (m + 1) * (Pow2(r + 1) - 2) + m * (Pow2(r) - 1)
  {
    var r := env.settings.maxRetries;
    var m := Batches(|T|, env.settings.batchSize);
    CopyFetches(env, t, T, good, w, 0, 0);
    CopyInserts(env, t, T, good, w, 0, 0);
    CopyBackoff(env, t, T, good, w, 0, 0);
    assert Pow2(0 + 1) == 2;
    hide CopySpec, Batches;
    TimesIsProduct(m + 1, r + 1);
    TimesIsProduct(m, r + 1);
    TimesIsProduct(m + 1, Pow2(r + 1) - 2);
    TimesIsProduct(m, Pow2(r) - 1);
  }

  // ---------- Counters ----------

  /** The totals reported so far increase strictly, and the last one is the total. */
  ghost predicate ReportsOk(w: World) {
    && (forall i, j :: 0 <= i < j < |w.reports| ==> w.reports[i].total < w.reports[j].total)
    && (if w.reports == [] then w.total == 0 else w.reports[|w.reports| - 1].total == w.total)
    && (forall i :: 0 <= i < |w.reports| ==> 0 < w.reports[i].total <= w.total)
  }

  /** chunk_list: range(0, len, size) raises for step 0 and is empty for a negative step. */
  function ChunkList<T>(lst: seq<T>, size: int): Result<seq<seq<T>>, string> {
    if size == 0 then Err("range() arg 3 must not be zero")
    else if size < 0 then Ok([])
    else Ok(seq(Batches(|lst|, size), k requires 0 <= k < Batches(|lst|, size) =>
              (SlicesFit(|lst|, size, k); lst[k * size..Min(k * size + size, |lst|)])))
  }

  lemma SlicesFit(n: nat, size: nat, k: nat)
    requires size > 0 && k < Batches(n, size)
    ensures 0 <= k * size < n
  {
    BatchesIsCeiling(n, size);
    assert k * size <= (Batches(n, size) - 1) * size;
  }

  /** The batches of a fault-free walk in steps of b. */
  function Chunks<T>(s: seq<T>, b: nat): seq<seq<T>>
    decreases |s|
  {
    if s == [] || b == 0 then []
    else if |s| <= b then [s]
    else [s[..b]] + Chunks(s[b..], b)
  }

  /** One step of the walk, seen from an offset. */
  lemma ChunksStep<T>(s: seq<T>, offset: nat, b: nat)
    requires offset < |s| && b > 0
    ensures
      var end := Min(offset + b, |s|);
      Chunks(s[offset..], b) == [s[offset..end]] + Chunks(s[end..], b)
  {
    var rest := s[offset..];
    if |rest| > b {
      assert rest[..b] == s[offset..offset + b] && rest[b..] == s[offset + b..];
    } else {
      assert rest == s[offset..|s|] && s[|s|..] == [];
    }
  }

  /** The k-th batch of the walk starts k batches on. */
  lemma {:induction false} ChunkAt<T>(s: seq<T>, b: nat, offset: nat, k: nat)
    requires b > 0 && offset + Times(k, b) < |s|
    ensures k < |Chunks(s[offset..], b)|
    ensures
      var at := offset + Times(k, b);
      Chunks(s[offset..], b)[k] == s[at..Min(at + b, |s|)]
    decreases k
  {
    hide Chunks;
    ChunksStep(s, offset, b);
    if k > 0 {
      ChunkAt(s, b, offset + b, k - 1);
    }
  }

  lemma {:induction false} ChunkCount<T>(s: seq<T>, b: nat)
    requires b > 0
    ensures |Chunks(s, b)| == Batches(|s|, b)
    decreases |s|
  {
    if |s| > b {
      ChunkCount(s[b..], b);
    }
  }

  /** The list comprehension computes the walk. */
  lemma ChunkListIsWalk<T>(s: seq<T>, b: nat)
    requires b > 0
    ensures ChunkList(s, b) == Ok(Chunks(s, b))
  {
    hide Chunks, Batches, Times;
    ChunkCount(s, b);
    var chunks := ChunkList(s, b).value;
    forall k | 0 <= k < |chunks| ensures chunks[k] == Chunks(s, b)[k] {
      SlicesFit(|s|, b, k);
      TimesIsProduct(k, b);
      assert s[0..] == s;
      ChunkAt(s, b, 0, k);
    }
    assert chunks == Chunks(s, b);
  }

  /** stream_table: advances by the batch size, not by the rows received. */
  method StreamTable(rows: seq<Row>, batchSize: nat, columns: Option<seq<string>>) returns (batches: seq<seq<Row>>)
    ensures batches == Chunks(FetchBatch(rows, 0, |rows|, columns), batchSize)
  {
    hide FetchBatch, Chunks;
    batches := [];
    ghost var all := FetchBatch(rows, 0, |rows|, columns);
    var offset := 0;
    assert all[0..] == all;
    while true
      invariant 0 <= offset
      invariant Chunks(all, batchSize) == batches + Chunks(all[Min(offset, |all|)..], batchSize)
      decreases |rows| - offset
    {
      var batch := FetchBatch(rows, offset, batchSize, columns);
      FetchIsSlice(rows, offset, batchSize, columns);
      if batch == [] {
        assert all[Min(offset, |all|)..] == [] || batchSize == 0;
        NoChunks(all[Min(offset, |all|)..], batchSize);
        break;
      }
      ChunksStep(all, offset, batchSize);
      batches := batches + [batch];
      offset := offset + batchSize;
    }
  }

  /** A batch is a slice of the whole projected table. */
  lemma FetchIsSlice(rows: seq<Row>, offset: nat, limit: nat, columns: Option<seq<string>>)
    ensures
      var all := FetchBatch(rows, 0, |rows|, columns);
      && |all| == |rows|
      && FetchBatch(rows, offset, limit, columns) == all[Min(offset, |all|)..Min(offset + limit, |all|)]
  {
    assert rows[0..|rows|] == rows;
  }

  function Concat<T>(parts: seq<seq<T>>): seq<T> {
    if parts == [] then [] else parts[0] + Concat(parts[1..])
  }

  lemma {:induction false} ChunksConcat<T>(s: seq<T>, b: nat)
    requires b > 0
    ensures Concat(Chunks(s, b)) == s
    decreases |s|
  {
    if |s| > b {
      ChunksConcat(s[b..], b);
      assert Chunks(s, b)[1..] == Chunks(s[b..], b);
    } else if s != [] {
      assert Chunks(s, b)[1..] == [];
    }
  }

  /** COUNTERS. Whatever fails and is retried: no row is counted twice; a completed copy
      counted every row and delivered exactly the batches of the plain walk, and could
      map every row. */
  lemma {:induction false} CopyCounts(env: Env, t: string, T: seq<Row>, good: nat, w: World, offset: nat, retry: nat)
    requires offset <= good <= |T| && retry <= env.settings.maxRetries
    requires ReportsOk(w)
    ensures
      var (w', verdict) := CopySpec(env, t, T, good, w, offset, retry);
      && w.total <= w'.total <= w.total + good - offset
      && ReportsOk(w')
      && (verdict.Completed? && env.settings.batchSize > 0 ==>
            && good == |T|
            && w'.total == w.total + |T| - offset
            && w'.delivered == w.delivered + Chunks(T[offset..], env.settings.batchSize))
    decreases |T| - offset, env.settings.maxRetries - retry
  {
    hide InsertWithRetrySpec, TurnSpec, ReportsOk, Chunks;
    var b := env.settings.batchSize;
    var (w1, turn) := TurnSpec(env, t, T, good, w, offset, retry);
    TurnCounts(env, t, T, good, w, offset, retry);
    if turn.Next? {
      CopyCounts(env, t, T, good, w1, turn.offset, turn.retry);
      if turn.offset > offset {
        ChunksStep(T, offset, b);
      }
    } else if offset == |T| {
      NoChunks(T[offset..], b);
    }
  }

  /** REPORTS. Each report of a copy names its table, and its two row counts advance together. */
  lemma {:induction false} CopyReports(env: Env, t: string, T: seq<Row>, good: nat, w: World, offset: nat, retry: nat)
    requires offset <= good <= |T| && retry <= env.settings.maxRetries
    ensures
      var (w', verdict) := CopySpec(env, t, T, good, w, offset, retry);
      && w.reports <= w'.reports
      && (forall i :: |w.reports| <= i < |w'.reports| ==> ReportOk(t, T, w.total - offset, w'.reports[i]))
    decreases |T| - offset, env.settings.maxRetries - retry
  {
    hide InsertWithRetrySpec, TurnSpec, ReportOk;
    var (w1, turn) := TurnSpec(env, t, T, good, w, offset, retry);
    TurnReports(env, t, T, good, w, offset, retry);
    if turn.Next? {
      CopyReports(env, t, T, good, w1, turn.offset, turn.retry);
    }
  }

  /** The report is about table t and counts at most its rows; `before` rows came from other tables. */
  ghost predicate ReportOk(t: string, T: seq<Row>, before: int, r: Report) {
    r.table == t && r.rowsInTable <= |T| && r.total == before + r.rowsInTable
  }

  lemma TurnReports(env: Env, t: string, T: seq<Row>, good: nat, w: World, offset: nat, retry: nat)
    requires offset <= good <= |T| && retry <= env.settings.maxRetries
    ensures
      var (w', turn) := TurnSpec(env, t, T, good, w, offset, retry);
      && (w'.reports == w.reports
          || exists r :: w'.reports == w.reports + [r] && ReportOk(t, T, w.total - offset, r))
      && (turn.Next? ==> w'.total - turn.offset == w.total - offset)
  {
    hide InsertWithRetrySpec, TurnSpec;
    TurnShape(env, t, T, good, w, offset, retry);
    if InsertsBatch(env, T, good, w, offset) {
      RetryBounds(env, t, T[offset..Min(offset + env.settings.batchSize, |T|)], AfterFetch(w), 0);
    }
  }

  lemma NoChunks<T>(s: seq<T>, b: nat)
    requires s == [] || b == 0
    ensures Chunks(s, b) == []
  {
  }

  lemma TurnCounts(env: Env, t: string, T: seq<Row>, good: nat, w: World, offset: nat, retry: nat)
    requires offset <= good <= |T| && retry <= env.settings.maxRetries
    requires ReportsOk(w)
    ensures
      var (w', turn) := TurnSpec(env, t, T, good, w, offset, retry);
      var end := Min(offset + env.settings.batchSize, |T|);
      && ReportsOk(w')
      && w.total <= w'.total <= w.total + good - offset
      && (turn.Next? && turn.offset != offset ==>
            turn.offset == end && w'.total == w.total + end - offset && w'.delivered == w.delivered + [T[offset..end]])
      && ((turn.Next? && turn.offset == offset) || (turn.Stop? && turn.verdict.Completed?) ==>
            w'.total == w.total && w'.delivered == w.delivered)
      && ((turn.Stop? && turn.verdict.Completed?) ==> end == offset)
  {
    hide InsertWithRetrySpec, TurnSpec;
    var end := Min(offset + env.settings.batchSize, |T|);
    TurnShape(env, t, T, good, w, offset, retry);
    if InsertsBatch(env, T, good, w, offset) {
      RetryBounds(env, t, T[offset..end], AfterFetch(w), 0);
    }
  }

  lemma FaultFreeInsert(env: Env, t: string, rows: seq<Row>, w: World)
    requires rows != [] && env.fate(w.clock) == Fine && Accepts(env.catalog, w.store, t, rows)
    ensures
      var (w', verdict) := InsertWithRetrySpec(env, t, rows, w, 0);
      verdict.Completed? && t in w'.store.live
  {
  }

  /** A copy in which nothing goes wrong completes. */
  lemma {:induction false} FaultFreeCompletes(env: Env, t: string, T: seq<Row>, w: World, offset: nat)
    requires offset <= |T| && forall n: nat :: env.fate(n) == Fine
    requires t in w.store.live
    requires forall i :: 0 <= i < |T| ==> {} < T[i].Keys <= env.catalog.columns(t)
    ensures CopySpec(env, t, T, |T|, w, offset, 0).1 == Completed
    decreases |T| - offset
  {
    hide InsertWithRetrySpec, AttemptSpec;
    var (w1, turn) := TurnSpec(env, t, T, |T|, w, offset, 0);
    var end := Min(offset + env.settings.batchSize, |T|);
    if offset < end {
      assert T[offset..end][0] == T[offset];
      FaultFreeInsert(env, t, T[offset..end], AfterFetch(w));
      TurnShape(env, t, T, |T|, w, offset, 0);
      var (w2, verdict) := InsertWithRetrySpec(env, t, T[offset..end], AfterFetch(w), 0);
      assert verdict.Completed?;
      assert env.fate(w2.clock) == Fine;
      assert turn == Next(end, 0);
      FaultFreeCompletes(env, t, T, w1, end);
    }
  }

  // ---------- What is delivered is committed ----------

  /** One attempt decides, or the next one does. */
  lemma RetryStep(env: Env, t: string, rows: seq<Row>, w: World, attempt: nat)
    requires attempt <= env.settings.maxRetries
    ensures
      var (w1, next) := AttemptSpec(env, t, rows, w, attempt);
      && (next.Over? ==> InsertWithRetrySpec(env, t, rows, w, attempt) == (w1, next.verdict))
      && (next.Again? ==>
            attempt < env.settings.maxRetries
            && InsertWithRetrySpec(env, t, rows, w, attempt) == InsertWithRetrySpec(env, t, rows, w1, attempt + 1))
  {
    hide InsertOp;
  }

  lemma {:induction false} RetryCommits(env: Env, t: string, rows: seq<Row>, w: World, attempt: nat)
    requires attempt <= env.settings.maxRetries && rows != []
    ensures
      var (w', verdict) := InsertWithRetrySpec(env, t, rows, w, attempt);
      verdict.Completed? ==> w'.store.durable == w'.store.live
    decreases env.settings.maxRetries - attempt
  {
    RetryStep(env, t, rows, w, attempt);
    AttemptCommits(env, t, rows, w, attempt);
    hide AttemptSpec, InsertWithRetrySpec;
    var (w1, next) := AttemptSpec(env, t, rows, w, attempt);
    if next.Again? {
      RetryCommits(env, t, rows, w1, attempt + 1);
    }
  }

  lemma AttemptCommits(env: Env, t: string, rows: seq<Row>, w: World, attempt: nat)
    requires rows != []
    ensures
      var (w1, next) := AttemptSpec(env, t, rows, w, attempt);
      next == Over(Completed) ==> w1.store.durable == w1.store.live
  {
  }

  /** A completed copy leaves nothing pending, unless it had nothing to deliver. */
  lemma {:induction false} CopyCommits(env: Env, t: string, T: seq<Row>, good: nat, w: World, offset: nat, retry: nat)
    requires offset <= good <= |T| && retry <= env.settings.maxRetries && env.settings.batchSize > 0
    ensures
      var (w', verdict) := CopySpec(env, t, T, good, w, offset, retry);
      verdict.Completed? ==>
        w'.store.durable == w'.store.live || (offset == |T| && w'.store == w.store)
    decreases |T| - offset, env.settings.maxRetries - retry
  {
    hide InsertWithRetrySpec, TurnSpec;
    var (w1, turn) := TurnSpec(env, t, T, good, w, offset, retry);
    TurnShape(env, t, T, good, w, offset, retry);
    if InsertsBatch(env, T, good, w, offset) {
      RetryCommits(env, t, T[offset..Min(offset + env.settings.batchSize, |T|)], AfterFetch(w), 0);
    }
    if turn.Next? {
      CopyCommits(env, t, T, good, w1, turn.offset, turn.retry);
    }
  }
}
