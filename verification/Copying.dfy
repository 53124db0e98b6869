/** What one table's copy guarantees at every step, whatever the environment does. */
module Copying {
  import opened Common
  import opened ConflictRules
  import opened Schema
  import opened Destination
  import opened Executor

  /** Both views of table t hold the base rows plus some prefix of G that reaches at
      least `lo` and at most `hi`. Before the first delivered batch the committed view
      may instead still be `alt`, from before an uncommitted truncation. */
  ghost predicate Holds(rules: Rules<Row>, base: seq<Row>, alt: seq<Row>, G: seq<Row>, lo: int, hi: int, s: Store,
      t: string) {
    && PrefixOf(rules, base, G, lo, hi, Rows(s.live, t))
    && (PrefixOf(rules, base, G, lo, hi, Rows(s.durable, t)) || (lo == 0 && Rows(s.durable, t) == alt))
  }

  /** The prefix invariant at one snapshot: the position `lo` is the number of rows of
      this table counted so far. */
  ghost predicate SnapshotOk(env: Env, t: string, base: seq<Row>, alt: seq<Row>, G: seq<Row>, start: nat,
      snap: Snapshot) {
    var lo := snap.total - start;
    && 0 <= lo <= |G|
    && Holds(env.catalog.rules(t), base, alt, G, lo, Min(lo + env.settings.batchSize, |G|), snap.store, t)
  }

  /** The history grew, and every new snapshot satisfies the prefix invariant. */
  ghost predicate Grew(env: Env, t: string, base: seq<Row>, alt: seq<Row>, G: seq<Row>, start: nat, w: World,
      w': World) {
    && w.history <= w'.history
    && forall i :: |w.history| <= i < |w'.history| ==> SnapshotOk(env, t, base, alt, G, start, w'.history[i])
  }

  /** The rows that can be mapped carry keys and share one shape. */
  ghost predicate WellKeyed(rules: Rules<Row>, G: seq<Row>) {
    Keyed(rules, G) && Uniform(G)
  }

  lemma PrefixIntro<R>(rules: Rules<R>, base: seq<R>, G: seq<R>, k: nat, lo: int, hi: int)
    requires k <= |G| && lo <= k <= hi
    ensures PrefixOf(rules, base, G, lo, hi, Insert(rules, base, G[..k]))
  {
  }

  /** Part of a batch arriving on top of a prefix gives a prefix again. */
  lemma PartArrives<R>(rules: Rules<R>, base: seq<R>, G: seq<R>, lo: nat, m: nat, end: nat, x: seq<R>)
    requires lo <= m <= end <= |G| && Keyed(rules, G) && PrefixOf(rules, base, G, lo, end, x)
    ensures PrefixOf(rules, base, G, lo, end, Insert(rules, x, G[lo..m]))
    ensures m == end ==> Insert(rules, x, G[lo..m]) == Insert(rules, base, G[..end])
  {
    var k :| 0 <= k <= |G| && lo <= k <= end && x == Insert(rules, base, G[..k]);
    Replay(rules, base, G, lo, k, m);
    PrefixIntro(rules, base, G, Max(k, m), lo, end);
  }

  /** What one insertion attempt of the batch G[lo..end] does to the store. */
  lemma InsertOpShape(cat: Catalog, G: seq<Row>, lo: nat, end: nat, s: Store, t: string, fate: Fate)
    requires lo < end <= |G| && Uniform(G)
    ensures
      var m := lo + Landed(end - lo, fate);
      InsertOp(cat, s, t, G[lo..end], fate) ==
        if Accepts(cat, s, t, G[lo..end])
        then (Settle(s, s.live[t := Insert(cat.rules(t), s.live[t], G[lo..m])], fate), ReplyOf(fate))
        else Refused(s, fate)
  {
    hide Insert;
    assert G[..|G|] == G;
    UniformSlice(G, |G|, lo, end);
    var m := lo + Landed(end - lo, fate);
    assert G[lo..end][..m - lo] == G[lo..m];
  }

  /** One insertion attempt of the batch G[lo..end], whatever its fate. */
  lemma InsertOpKeeps(cat: Catalog, base: seq<Row>, alt: seq<Row>, G: seq<Row>, lo: nat, end: nat, s: Store,
      t: string, fate: Fate)
    requires lo < end <= |G| && WellKeyed(cat.rules(t), G)
    requires Holds(cat.rules(t), base, alt, G, lo, end, s, t)
    ensures
      var (s', reply) := InsertOp(cat, s, t, G[lo..end], fate);
      && Holds(cat.rules(t), base, alt, G, lo, end, s', t)
      && (reply.Returned? ==> Rows(s'.live, t) == Rows(s'.durable, t) == Insert(cat.rules(t), base, G[..end]))
  {
    hide InsertOp, Insert, PrefixOf, Keyed, Uniform;
    InsertOpShape(cat, G, lo, end, s, t, fate);
    if Accepts(cat, s, t, G[lo..end]) {
      PartArrives(cat.rules(t), base, G, lo, lo + Landed(end - lo, fate), end, s.live[t]);
    }
  }

  lemma GrewOnward(env: Env, t: string, base: seq<Row>, alt: seq<Row>, G: seq<Row>, start: nat, w: World, w1: World,
      w2: World)
    requires Grew(env, t, base, alt, G, start, w, w1) && Grew(env, t, base, alt, G, start, w1, w2)
    ensures Grew(env, t, base, alt, G, start, w, w2)
  {
    assert forall i :: 0 <= i < |w1.history| ==> w1.history[i] == w2.history[i];
  }

  lemma AttemptKeeps(env: Env, t: string, base: seq<Row>, alt: seq<Row>, G: seq<Row>, lo: nat, end: nat, w: World,
      attempt: nat, start: nat)
    requires WellKeyed(env.catalog.rules(t), G)
    requires lo < end == Min(lo + env.settings.batchSize, |G|) && w.total == start + lo
    requires Holds(env.catalog.rules(t), base, alt, G, lo, end, w.store, t)
    ensures
      var (w', next) := AttemptSpec(env, t, G[lo..end], w, attempt);
      && w'.total == w.total
      && Grew(env, t, base, alt, G, start, w, w')
      && Holds(env.catalog.rules(t), base, alt, G, lo, end, w'.store, t)
      && (next == Over(Completed) ==>
            Rows(w'.store.live, t) == Rows(w'.store.durable, t) == Insert(env.catalog.rules(t), base, G[..end]))
  {
    hide InsertOp, Insert, PrefixOf, Keyed, Uniform;
    InsertOpKeeps(env.catalog, base, alt, G, lo, end, w.store, t, env.fate(w.clock));
  }

  lemma {:induction false} RetryKeeps(env: Env, t: string, base: seq<Row>, alt: seq<Row>, G: seq<Row>, lo: nat,
      end: nat, w: World, attempt: nat, start: nat)
    requires attempt <= env.settings.maxRetries && WellKeyed(env.catalog.rules(t), G)
    requires lo < end == Min(lo + env.settings.batchSize, |G|) && w.total == start + lo
    requires Holds(env.catalog.rules(t), base, alt, G, lo, end, w.store, t)
    ensures
      var (w', verdict) := InsertWithRetrySpec(env, t, G[lo..end], w, attempt);
      && w'.total == w.total
      && Grew(env, t, base, alt, G, start, w, w')
      && Holds(env.catalog.rules(t), base, alt, G, lo, end, w'.store, t)
      && (verdict.Completed? ==>
            Rows(w'.store.live, t) == Rows(w'.store.durable, t) == Insert(env.catalog.rules(t), base, G[..end]))
    decreases env.settings.maxRetries - attempt
  {
    var (w1, next) := AttemptSpec(env, t, G[lo..end], w, attempt);
    AttemptKeeps(env, t, base, alt, G, lo, end, w, attempt, start);
    if next.Again? {
      assert attempt < env.settings.maxRetries;
      hide AttemptSpec, Holds, Grew, WellKeyed, Insert;
      RetryKeeps(env, t, base, alt, G, lo, end, w1, attempt + 1, start);
      GrewOnward(env, t, base, alt, G, start, w, w1, InsertWithRetrySpec(env, t, G[lo..end], w1, attempt + 1).0);
    }
  }

  /** Counting and reporting a delivered batch. */
  lemma ReportKeeps(env: Env, t: string, base: seq<Row>, alt: seq<Row>, G: seq<Row>, w: World, rows: seq<Row>,
      end: nat, start: nat)
    requires end <= |G| && w.total + |rows| == start + end
    requires Rows(w.store.live, t) == Rows(w.store.durable, t) == Insert(env.catalog.rules(t), base, G[..end])
    ensures
      var w' := AfterBatch(t, rows, end, w);
      Grew(env, t, base, alt, G, start, w, w') && SnapshotOk(env, t, base, alt, G, start, Snapshot(w'.store, w'.total))
  {
    PrefixIntro(env.catalog.rules(t), base, G, end, end, Min(end + env.settings.batchSize, |G|));
  }

  /** Inserting, counting and reporting one batch. */
  lemma BatchKeeps(env: Env, t: string, base: seq<Row>, alt: seq<Row>, G: seq<Row>, offset: nat, end: nat, w: World,
      start: nat)
    requires WellKeyed(env.catalog.rules(t), G) && w.total == start + offset
    requires offset < end == Min(offset + env.settings.batchSize, |G|)
    requires SnapshotOk(env, t, base, alt, G, start, Snapshot(w.store, w.total))
    ensures
      var (w2, verdict) := InsertWithRetrySpec(env, t, G[offset..end], w, 0);
      var w3 := if verdict.Completed? then AfterBatch(t, G[offset..end], end, w2) else w2;
      && Grew(env, t, base, alt, G, start, w, w3)
      && SnapshotOk(env, t, base, alt, G, start, Snapshot(w3.store, w3.total))
      && w3.total == start + (if verdict.Completed? then end else offset)
  {
    hide InsertWithRetrySpec, Insert, PrefixOf, WellKeyed, Grew;
    RetryKeeps(env, t, base, alt, G, offset, end, w, 0, start);
    var (w2, verdict) := InsertWithRetrySpec(env, t, G[offset..end], w, 0);
    if verdict.Completed? {
      ReportKeeps(env, t, base, alt, G, w2, G[offset..end], end, start);
      GrewOnward(env, t, base, alt, G, start, w, w2, AfterBatch(t, G[offset..end], end, w2));
    }
  }

  lemma TurnKeeps(env: Env, t: string, T: seq<Row>, good: nat, base: seq<Row>, alt: seq<Row>, w: World, offset: nat,
      retry: nat, start: nat)
    requires offset <= good <= |T| && retry <= env.settings.maxRetries
    requires WellKeyed(env.catalog.rules(t), T[..good]) && w.total == start + offset
    requires SnapshotOk(env, t, base, alt, T[..good], start, Snapshot(w.store, w.total))
    ensures
      var (w', turn) := TurnSpec(env, t, T, good, w, offset, retry);
      && Grew(env, t, base, alt, T[..good], start, w, w')
      && SnapshotOk(env, t, base, alt, T[..good], start, Snapshot(w'.store, w'.total))
      && (turn.Next? ==> w'.total == start + turn.offset)
      && (turn.Stop? && turn.verdict.Completed? ==>
            w'.total == w.total && w'.store == w.store && (env.settings.batchSize == 0 || offset == |T|))
  {
    var G := T[..good];
    var w1 := AfterFetch(w);
    TurnShape(env, t, T, good, w, offset, retry);
    assert Grew(env, t, base, alt, G, start, w, w1);
    var end := Min(offset + env.settings.batchSize, |T|);
    if env.fate(w.clock).Fine? && offset < end <= good {
      assert G[offset..end] == T[offset..end];
      BatchKeeps(env, t, base, alt, G, offset, end, w1, start);
      var (w2, verdict) := InsertWithRetrySpec(env, t, T[offset..end], w1, 0);
      var w3 := if verdict.Completed? then AfterBatch(t, T[offset..end], end, w2) else w2;
      GrewOnward(env, t, base, alt, G, start, w, w1, w3);
    }
  }

  /** PREFIX INVARIANT: at every step of the copy loop, whatever the environment does,
      the table holds the base rows plus a prefix of the source that covers the counted
      rows and at most one batch more. A completed copy delivered every row. */
  lemma {:induction false} CopyKeeps(env: Env, t: string, T: seq<Row>, good: nat, base: seq<Row>, alt: seq<Row>,
      w: World, offset: nat, retry: nat, start: nat)
    requires offset <= good <= |T| && retry <= env.settings.maxRetries
    requires WellKeyed(env.catalog.rules(t), T[..good]) && w.total == start + offset
    requires SnapshotOk(env, t, base, alt, T[..good], start, Snapshot(w.store, w.total))
    ensures
      var (w', verdict) := CopySpec(env, t, T, good, w, offset, retry);
      && Grew(env, t, base, alt, T[..good], start, w, w')
      && SnapshotOk(env, t, base, alt, T[..good], start, Snapshot(w'.store, w'.total))
      && (verdict.Completed? && env.settings.batchSize > 0 ==>
            && good == |T| && w'.total == start + |T|
            && Rows(w'.store.live, t) == Insert(env.catalog.rules(t), base, T)
            && (Rows(w'.store.durable, t) == Insert(env.catalog.rules(t), base, T)
                || (T == [] && Rows(w'.store.durable, t) == alt)))
      && (verdict.Completed? && env.settings.batchSize == 0 ==> w'.total == w.total && w'.store == w.store)
    decreases |T| - offset, env.settings.maxRetries - retry
  {
    hide TurnSpec, WellKeyed;
    TurnKeeps(env, t, T, good, base, alt, w, offset, retry, start);
    var (w1, turn) := TurnSpec(env, t, T, good, w, offset, retry);
    if turn.Next? {
      hide Insert, PrefixOf, Grew;
      CopyKeeps(env, t, T, good, base, alt, w1, turn.offset, turn.retry, start);
      GrewOnward(env, t, base, alt, T[..good], start, w, w1, CopySpec(env, t, T, good, w1, turn.offset, turn.retry).0);
      if env.settings.batchSize == 0 { ZeroBatchStays(env, t, T, good, w, offset, retry); }
    } else if turn.verdict.Completed? && env.settings.batchSize > 0 {
      assert T[..good] == T && T[..|T|] == T;
    }
  }

  lemma ZeroBatchStays(env: Env, t: string, T: seq<Row>, good: nat, w: World, offset: nat, retry: nat)
    requires offset <= good <= |T| && retry <= env.settings.maxRetries && env.settings.batchSize == 0
    ensures TurnSpec(env, t, T, good, w, offset, retry).0.store == w.store
    ensures TurnSpec(env, t, T, good, w, offset, retry).0.total == w.total
  {
  }
}
