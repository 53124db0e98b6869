/** One table, from creation to the last batch: what its migration leaves in it at every
    step, and that it touches no other table. */
module Tables {
  import opened Common
  import opened ConflictRules
  import opened Schema
  import opened Destination
  import opened Executor
  import opened Copying

  // ---------- Frames ----------

  function Entry(tables: map<string, seq<Row>>, t: string): Option<seq<Row>> {
    if t in tables then Some(tables[t]) else None
  }

  /** Work on other tables leaves table u alone; at most its pending rows get committed. */
  ghost predicate Framed(s: Store, s': Store, u: string) {
    && Entry(s'.live, u) == Entry(s.live, u)
    && (Entry(s'.durable, u) == Entry(s.durable, u) || Entry(s'.durable, u) == Entry(s.live, u))
  }

  lemma {:induction false} RetryFrames(env: Env, t: string, rows: seq<Row>, w: World, attempt: nat, u: string)
    requires attempt <= env.settings.maxRetries && u != t
    ensures Framed(w.store, InsertWithRetrySpec(env, t, rows, w, attempt).0.store, u)
    decreases env.settings.maxRetries - attempt
  {
    var (w1, next) := AttemptSpec(env, t, rows, w, attempt);
    AttemptFrames(env, t, rows, w, attempt, u);
    hide AttemptSpec;
    if next.Again? {
      AttemptAgain(env, t, rows, w, attempt);
      RetryFrames(env, t, rows, w1, attempt + 1, u);
    }
  }

  lemma AttemptFrames(env: Env, t: string, rows: seq<Row>, w: World, attempt: nat, u: string)
    requires u != t
    ensures Framed(w.store, AttemptSpec(env, t, rows, w, attempt).0.store, u)
  {
  }

  lemma AttemptAgain(env: Env, t: string, rows: seq<Row>, w: World, attempt: nat)
    ensures AttemptSpec(env, t, rows, w, attempt).1.Again? ==> attempt < env.settings.maxRetries
  {
  }

  lemma TurnFrames(env: Env, t: string, T: seq<Row>, good: nat, w: World, offset: nat, retry: nat, u: string)
    requires offset <= good <= |T| && retry <= env.settings.maxRetries && u != t
    ensures Framed(w.store, TurnSpec(env, t, T, good, w, offset, retry).0.store, u)
  {
    hide InsertWithRetrySpec, TurnSpec;
    TurnShape(env, t, T, good, w, offset, retry);
    if InsertsBatch(env, T, good, w, offset) {
      RetryFrames(env, t, T[offset..Min(offset + env.settings.batchSize, |T|)], AfterFetch(w), 0, u);
    }
  }

  lemma {:induction false} CopyFrames(env: Env, t: string, T: seq<Row>, good: nat, w: World, offset: nat, retry: nat,
      u: string)
    requires offset <= good <= |T| && retry <= env.settings.maxRetries && u != t
    ensures Framed(w.store, CopySpec(env, t, T, good, w, offset, retry).0.store, u)
    decreases |T| - offset, env.settings.maxRetries - retry
  {
    hide TurnSpec;
    var (w1, turn) := TurnSpec(env, t, T, good, w, offset, retry);
    TurnFrames(env, t, T, good, w, offset, retry, u);
    if turn.Next? {
      CopyFrames(env, t, T, good, w1, turn.offset, turn.retry, u);
    }
  }

  lemma MigrateFrames(env: Env, p: TablePlan, w: World, u: string)
    requires u != p.name
    ensures Framed(w.store, MigrateTableSpec(env, p, w).0.store, u)
  {
    PrepareFrames(env, p.name, w, u);
    var (w1, verdict) := PrepareSpec(env, p.name, w);
    hide PrepareSpec, CopySpec, Feed, Good;
    if verdict.Completed? && env.settings.includeData {
      CopyFrames(env, p.name, Feed(env, p), Good(env, p), w1, 0, 0, u);
    }
  }

  lemma PrepareFrames(env: Env, t: string, w: World, u: string)
    requires u != t
    ensures Framed(w.store, PrepareSpec(env, t, w).0.store, u)
  {
  }

  // ---------- One table, from creation to the last batch ----------

  /** The rows of a plan that can be mapped, as the destination receives them. */
  function GoodFeed(env: Env, p: TablePlan): seq<Row> {
    Feed(env, p)[..Good(env, p)]
  }

  /** What the copy may start from: the old rows, or nothing if truncation was asked for. */
  predicate BaseOk(env: Env, initial: seq<Row>, base: seq<Row>) {
    base == initial || (env.settings.truncate && base == [])
  }

  /** The prefix invariant of a table at one snapshot of a run of its plan. */
  ghost predicate StepOk(env: Env, p: TablePlan, initial: seq<Row>, start: nat, snap: Snapshot) {
    exists base :: BaseOk(env, initial, base) && SnapshotOk(env, p.name, base, initial, GoodFeed(env, p), start, snap)
  }

  /** Some prefix of the source arrived over the old or emptied table. */
  ghost predicate Partial(env: Env, p: TablePlan, initial: seq<Row>, s: Store) {
    exists base :: BaseOk(env, initial, base)
      && Holds(env.catalog.rules(p.name), base, initial, GoodFeed(env, p), 0, |GoodFeed(env, p)|, s, p.name)
  }

  /** The whole source arrived over the old or emptied table, and is committed. */
  ghost predicate Finished(env: Env, p: TablePlan, initial: seq<Row>, s: Store) {
    exists base :: BaseOk(env, initial, base)
      && Rows(s.live, p.name) == Insert(env.catalog.rules(p.name), base, Feed(env, p))
      && (Rows(s.durable, p.name) == Rows(s.live, p.name) || (Feed(env, p) == [] && Rows(s.durable, p.name) == initial))
  }

  /** No row was sent: the table is as it was, or was emptied. */
  ghost predicate Unfed(env: Env, p: TablePlan, initial: seq<Row>, s: Store) {
    BaseOk(env, initial, Rows(s.live, p.name)) && BaseOk(env, initial, Rows(s.durable, p.name))
  }

  ghost predicate CleanAt(s: Store, t: string, initial: seq<Row>) {
    Rows(s.live, t) == initial && Rows(s.durable, t) == initial
  }

  lemma PrepareKeeps(env: Env, t: string, initial: seq<Row>, w: World)
    requires CleanAt(w.store, t, initial)
    ensures
      var (w', verdict) := PrepareSpec(env, t, w);
      && w'.total == w.total && w.history <= w'.history
      && BaseOk(env, initial, Rows(w'.store.live, t)) && BaseOk(env, initial, Rows(w'.store.durable, t))
      && (Rows(w'.store.durable, t) == Rows(w'.store.live, t) || Rows(w'.store.durable, t) == initial)
      && (forall i :: |w.history| <= i < |w'.history| ==>
            var snap := w'.history[i];
            && snap.total == w.total
            && BaseOk(env, initial, Rows(snap.store.live, t))
            && (Rows(snap.store.durable, t) == Rows(snap.store.live, t) || Rows(snap.store.durable, t) == initial))
  {
  }

  /** Truncation is asked for, attempted on an existing table, and takes effect, be it in a
      call that then fails. */
  predicate Empties(env: Env, t: string, w: World) {
    && env.settings.truncate
    && (if env.settings.includeSchema
        then env.fate(w.clock).Fine? && Landed(1, env.fate(w.clock + 1)) > 0
        else t in w.store.live && Landed(1, env.fate(w.clock)) > 0)
  }

  /** The rows that steps 1 and 2 leave for the copy to add to. */
  function BaseOf(env: Env, t: string, w: World): seq<Row> {
    if Empties(env, t, w) then [] else Rows(w.store.live, t)
  }

  /** CREATE AND TRUNCATE. A failed creation ends the table before truncation; a failed
      truncation is only a warning. However the two steps end, the rows are gone exactly if
      a truncation took effect; and what is committed was visible before or is now. */
  lemma PrepareExactly(env: Env, t: string, w: World)
    ensures
      var (w', verdict) := PrepareSpec(env, t, w);
      var live, durable := Rows(w'.store.live, t), Rows(w'.store.durable, t);
      && live == BaseOf(env, t, w)
      && (durable == live || durable == Rows(w.store.live, t) || durable == Rows(w.store.durable, t))
      && (verdict.Completed? && env.settings.includeSchema ==> t in w'.store.live)
      && (verdict.Failed? <==> env.settings.includeSchema && env.fate(w.clock).Raises?)
      && (verdict.Failed? ==> w'.clock == w.clock + 1 && !Empties(env, t, w))
      && (verdict.Aborted? <==>
            || (env.settings.includeSchema && env.fate(w.clock).Dies?)
            || (env.settings.truncate && (env.settings.includeSchema ==> env.fate(w.clock).Fine?)
                && env.fate(w.clock + if env.settings.includeSchema then 1 else 0).Dies?))
      && (verdict.Completed? && !env.settings.truncate && env.settings.includeSchema ==>
            w'.store.durable == w'.store.live)
  {
  }

  /** The exact contents of a completed keyed table, visible and committed. */
  lemma CompletedExactly(env: Env, p: TablePlan, w: World)
    requires WellKeyed(env.catalog.rules(p.name), GoodFeed(env, p))
    requires env.settings.includeData && env.settings.batchSize > 0
    ensures
      var (w', verdict) := MigrateTableSpec(env, p, w);
      var live, durable := Rows(w'.store.live, p.name), Rows(w'.store.durable, p.name);
      verdict.Completed? ==>
        && Good(env, p) == |Feed(env, p)|
        && live == Insert(env.catalog.rules(p.name), BaseOf(env, p.name, w), Feed(env, p))
        && (durable == live || (Feed(env, p) == [] &&
              (durable == Rows(w.store.live, p.name) || durable == Rows(w.store.durable, p.name))))
  {
    PrepareExactly(env, p.name, w);
    hide PrepareSpec, CopySpec, Insert, PrefixOf, WellKeyed, Feed, Good, BaseOf;
    var (w1, verdict) := PrepareSpec(env, p.name, w);
    if verdict.Completed? {
      var base, alt := Rows(w1.store.live, p.name), Rows(w1.store.durable, p.name);
      StartsAtZero(env, p.name, GoodFeed(env, p), w1);
      CopyKeeps(env, p.name, Feed(env, p), Good(env, p), base, alt, w1, 0, 0, w1.total);
      if Feed(env, p) == [] { NothingArrives(env.catalog.rules(p.name), base); }
    }
  }

  lemma NothingArrives<R>(rules: Rules<R>, base: seq<R>)
    ensures Insert(rules, base, []) == base
  {
  }

  /** Before any row arrived, the invariant holds for the table's own contents. */
  lemma UnfedIsPrefix(env: Env, p: TablePlan, initial: seq<Row>, s: Store, total: nat)
    requires BaseOk(env, initial, Rows(s.live, p.name))
    requires Rows(s.durable, p.name) == Rows(s.live, p.name) || Rows(s.durable, p.name) == initial
    ensures SnapshotOk(env, p.name, Rows(s.live, p.name), initial, GoodFeed(env, p), total, Snapshot(s, total))
    ensures StepOk(env, p, initial, total, Snapshot(s, total))
  {
    var base, G := Rows(s.live, p.name), GoodFeed(env, p);
    assert G[..0] == [];
    PrefixIntro(env.catalog.rules(p.name), base, G, 0, 0, Min(env.settings.batchSize, |G|));
    assert Insert(env.catalog.rules(p.name), base, []) == base;
  }

  lemma SnapshotIsPartial(env: Env, p: TablePlan, base: seq<Row>, initial: seq<Row>, start: nat, s: Store, total: nat)
    requires BaseOk(env, initial, base)
    requires SnapshotOk(env, p.name, base, initial, GoodFeed(env, p), start, Snapshot(s, total))
    ensures Partial(env, p, initial, s)
  {
    var G, lo := GoodFeed(env, p), total - start;
    PrefixWiden(env.catalog.rules(p.name), base, G, lo, Min(lo + env.settings.batchSize, |G|), Rows(s.live, p.name));
    PrefixWiden(env.catalog.rules(p.name), base, G, lo, Min(lo + env.settings.batchSize, |G|), Rows(s.durable, p.name));
  }

  lemma PrefixWiden<R>(rules: Rules<R>, base: seq<R>, G: seq<R>, lo: int, hi: int, rows: seq<R>)
    requires 0 <= lo && hi <= |G|
    ensures PrefixOf(rules, base, G, lo, hi, rows) ==> PrefixOf(rules, base, G, 0, |G|, rows)
  {
  }

  /** ONE TABLE. At every step of `_migrate_table`, also when it fails or is killed there,
      the table holds a prefix of the source over its old (or emptied) rows; when it
      returns True with data included, all of the source arrived and all could be mapped. */
  lemma TableOutcome(env: Env, p: TablePlan, initial: seq<Row>, w: World)
    requires CleanAt(w.store, p.name, initial)
    requires WellKeyed(env.catalog.rules(p.name), GoodFeed(env, p))
    ensures
      var (w', verdict) := MigrateTableSpec(env, p, w);
      && w.history <= w'.history
      && (forall i :: |w.history| <= i < |w'.history| ==> StepOk(env, p, initial, w.total, w'.history[i]))
      && Partial(env, p, initial, w'.store)
      && (verdict.Completed? && env.settings.includeData && env.settings.batchSize > 0 ==>
            Finished(env, p, initial, w'.store) && Good(env, p) == |Feed(env, p)|)
      && (!env.settings.includeData || (verdict.Completed? && env.settings.batchSize == 0) ==>
            Unfed(env, p, initial, w'.store))
  {
    var t := p.name;
    PrepareKeeps(env, t, initial, w);
    var (w1, verdict1) := PrepareSpec(env, t, w);
    hide PrepareSpec;
    var base := Rows(w1.store.live, t);
    UnfedIsPrefix(env, p, initial, w1.store, w.total);
    SnapshotIsPartial(env, p, base, initial, w.total, w1.store, w.total);
    forall i | |w.history| <= i < |w1.history| ensures StepOk(env, p, initial, w.total, w1.history[i]) {
      UnfedIsPrefix(env, p, initial, w1.history[i].store, w.total);
    }
    hide StepOk, Partial, SnapshotOk, Feed, Good, WellKeyed;
    if verdict1.Completed? && env.settings.includeData {
      CopyStage(env, p, initial, w, w1);
    }
  }

  /** Step 3 of a table, given what steps 1 and 2 left. */
  lemma CopyStage(env: Env, p: TablePlan, initial: seq<Row>, w: World, w1: World)
    requires WellKeyed(env.catalog.rules(p.name), GoodFeed(env, p))
    requires BaseOk(env, initial, Rows(w1.store.live, p.name)) && w1.total == w.total && w.history <= w1.history
    requires SnapshotOk(env, p.name, Rows(w1.store.live, p.name), initial, GoodFeed(env, p), w.total,
          Snapshot(w1.store, w.total))
    requires forall i :: |w.history| <= i < |w1.history| ==> StepOk(env, p, initial, w.total, w1.history[i])
    ensures
      var (w', verdict) := CopySpec(env, p.name, Feed(env, p), Good(env, p), w1, 0, 0);
      && w.history <= w'.history
      && (forall i :: |w.history| <= i < |w'.history| ==> StepOk(env, p, initial, w.total, w'.history[i]))
      && Partial(env, p, initial, w'.store)
      && (verdict.Completed? && env.settings.batchSize > 0 ==>
            Finished(env, p, initial, w'.store) && Good(env, p) == |Feed(env, p)|)
      && (verdict.Completed? && env.settings.batchSize == 0 ==> w'.store == w1.store)
  {
    hide CopySpec, SnapshotOk, WellKeyed, Feed, Good;
    var T, good, base := Feed(env, p), Good(env, p), Rows(w1.store.live, p.name);
    CopyKeeps(env, p.name, T, good, base, initial, w1, 0, 0, w.total);
    var (w', verdict) := CopySpec(env, p.name, T, good, w1, 0, 0);
    forall i | |w.history| <= i < |w'.history| ensures StepOk(env, p, initial, w.total, w'.history[i]) {
      if i < |w1.history| {
        assert w'.history[i] == w1.history[i];
      } else {
        assert SnapshotOk(env, p.name, base, initial, GoodFeed(env, p), w.total, w'.history[i]);
      }
    }
    SnapshotIsPartial(env, p, base, initial, w.total, w'.store, w'.total);
  }

  /** COUNTER VERSUS GROWTH. A completed copy counts |T| rows however often it retried;
      the table grew by the rows that were not ignored, hence by at most the count, and by
      exactly the count iff T has no conflict with the table or within itself. */
  lemma CountVersusGrowth(env: Env, t: string, T: seq<Row>, good: nat, w: World)
    requires good <= |T| && WellKeyed(env.catalog.rules(t), T[..good])
    requires env.settings.batchSize > 0
    ensures
      var (w', verdict) := CopySpec(env, t, T, good, w, 0, 0);
      var rules, d := env.catalog.rules(t), Rows(w.store.live, t);
      var counted, grown := w'.total - w.total, |Rows(w'.store.live, t)| - |d|;
      verdict.Completed? ==>
        && counted == |T| == grown + Ignored(rules, d, T)
        && (counted == grown <==> forall j :: 0 <= j < |T| ==> Fresh(rules, d, T, j))
  {
    var d, G := Rows(w.store.live, t), T[..good];
    var rules := env.catalog.rules(t);
    assert G[..0] == [] && Insert(rules, d, []) == d;
    PrefixIntro(rules, d, G, 0, 0, Min(env.settings.batchSize, |G|));
    assert SnapshotOk(env, t, d, Rows(w.store.durable, t), G, w.total, Snapshot(w.store, w.total));
    hide SnapshotOk, CopySpec, WellKeyed, Fresh, Ignored;
    CopyKeeps(env, t, T, good, d, Rows(w.store.durable, t), w, 0, 0, w.total);
    GrowthPlusIgnored(rules, d, T);
    NothingIgnoredExactly(rules, d, T);
  }

  // ---------- Prefixes of prefixes ----------

  lemma ZeroPrefix<R>(rules: Rules<R>, base: seq<R>, G: seq<R>)
    ensures PrefixOf(rules, base, G, 0, |G|, base)
    ensures Insert(rules, base, []) == base
  {
    assert G[..0] == [];
    PrefixIntro(rules, base, G, 0, 0, |G|);
  }

  /** A prefix on top of a prefix is a prefix; the whole on top of a prefix is the whole. */
  lemma PrefixOnPrefix<R>(rules: Rules<R>, base: seq<R>, G: seq<R>, lo: nat, x: seq<R>, y: seq<R>)
    requires Keyed(rules, G) && PrefixOf(rules, base, G, lo, |G|, x)
    ensures PrefixOf(rules, x, G, 0, |G|, y) ==> PrefixOf(rules, base, G, lo, |G|, y)
    ensures Insert(rules, x, G) == Insert(rules, base, G)
  {
    var j :| 0 <= j <= |G| && lo <= j <= |G| && x == Insert(rules, base, G[..j]);
    if PrefixOf(rules, x, G, 0, |G|, y) {
      var k :| 0 <= k <= |G| && y == Insert(rules, x, G[..k]);
      assert G[0..k] == G[..k];
      Replay(rules, base, G, 0, j, k);
      PrefixIntro(rules, base, G, Max(j, k), lo, |G|);
    }
    Replay(rules, base, G, 0, j, |G|);
    assert G[0..|G|] == G && G[..|G|] == G;
  }

  lemma WholePrefix<R>(rules: Rules<R>, base: seq<R>, G: seq<R>, rows: seq<R>)
    ensures PrefixOf(rules, base, G, |G|, |G|, rows) <==> rows == Insert(rules, base, G)
  {
    assert G[..|G|] == G;
    PrefixIntro(rules, base, G, |G|, |G|, |G|);
  }

  /** The two plans send the same rows, and the same number of them can be mapped. */
  predicate SameFeed(env: Env, q: TablePlan, p: TablePlan) {
    Feed(env, q) == Feed(env, p) && Good(env, q) == Good(env, p)
  }

  /** Only the name and the rows sent decide what migrating a table does. */
  lemma SamePass(env: Env, q: TablePlan, p: TablePlan, w: World)
    requires q.name == p.name && SameFeed(env, q, p)
    ensures MigrateTableSpec(env, q, w) == MigrateTableSpec(env, p, w)
  {
    hide PrepareSpec, CopySpec, Feed, Good;
  }

  lemma StartsAtZero(env: Env, t: string, G: seq<Row>, w: World)
    ensures SnapshotOk(env, t, Rows(w.store.live, t), Rows(w.store.durable, t), G, w.total, Snapshot(w.store, w.total))
  {
    assert G[..0] == [];
    PrefixIntro(env.catalog.rules(t), Rows(w.store.live, t), G, 0, 0, Min(env.settings.batchSize, |G|));
  }

  lemma FramedClean(s: Store, s': Store, t: string, initial: seq<Row>)
    requires Framed(s, s', t) && CleanAt(s, t, initial)
    ensures CleanAt(s', t, initial)
  {
  }

  lemma CleanIsPartial(env: Env, p: TablePlan, initial: seq<Row>, s: Store)
    requires CleanAt(s, p.name, initial)
    ensures Partial(env, p, initial, s) && Unfed(env, p, initial, s)
  {
    UnfedIsPrefix(env, p, initial, s, 0);
    SnapshotIsPartial(env, p, initial, initial, 0, s, 0);
  }

  /** Later work on other tables, commits included, keeps what was reached for this one. */
  lemma FramedKeeps(env: Env, p: TablePlan, initial: seq<Row>, s: Store, s': Store)
    requires Framed(s, s', p.name)
    ensures Partial(env, p, initial, s) ==> Partial(env, p, initial, s')
    ensures Finished(env, p, initial, s) ==> Finished(env, p, initial, s')
    ensures Unfed(env, p, initial, s) ==> Unfed(env, p, initial, s')
  {
    assert Rows(s'.live, p.name) == Rows(s.live, p.name);
    assert Rows(s'.durable, p.name) == Rows(s.durable, p.name) || Rows(s'.durable, p.name) == Rows(s.live, p.name);
    if Partial(env, p, initial, s) {
      var base :| BaseOk(env, initial, base)
        && Holds(env.catalog.rules(p.name), base, initial, GoodFeed(env, p), 0, |GoodFeed(env, p)|, s, p.name);
      hide PrefixOf;
      assert Holds(env.catalog.rules(p.name), base, initial, GoodFeed(env, p), 0, |GoodFeed(env, p)|, s', p.name);
    }
    if Finished(env, p, initial, s) {
      var base :| BaseOk(env, initial, base)
        && Rows(s.live, p.name) == Insert(env.catalog.rules(p.name), base, Feed(env, p))
        && (Rows(s.durable, p.name) == Rows(s.live, p.name) || (Feed(env, p) == []
              && Rows(s.durable, p.name) == initial));
      assert Rows(s'.durable, p.name) == Rows(s'.live, p.name) || (Feed(env, p) == []
            && Rows(s'.durable, p.name) == initial);
    }
  }

  // ---------- Several passes over one table ----------

  /** Some prefix of the source arrived over the initial or emptied rows. */
  ghost predicate Arrived(env: Env, p: TablePlan, initial: seq<Row>, rows: seq<Row>) {
    exists base :: BaseOk(env, initial, base)
      && PrefixOf(env.catalog.rules(p.name), base, GoodFeed(env, p), 0, |GoodFeed(env, p)|, rows)
  }

  lemma BaseArrived(env: Env, p: TablePlan, initial: seq<Row>, base: seq<Row>)
    requires BaseOk(env, initial, base)
    ensures Arrived(env, p, initial, base)
  {
    ZeroPrefix(env.catalog.rules(p.name), base, GoodFeed(env, p));
  }

  /** A prefix over rows that arrived is a prefix that arrived. */
  lemma ArrivedOnward(env: Env, p: TablePlan, initial: seq<Row>, x: seq<Row>, y: seq<Row>)
    requires Keyed(env.catalog.rules(p.name), GoodFeed(env, p)) && Arrived(env, p, initial, x)
    requires PrefixOf(env.catalog.rules(p.name), x, GoodFeed(env, p), 0, |GoodFeed(env, p)|, y)
    ensures Arrived(env, p, initial, y)
  {
    var rules, G := env.catalog.rules(p.name), GoodFeed(env, p);
    var base :| BaseOk(env, initial, base) && PrefixOf(rules, base, G, 0, |G|, x);
    PrefixOnPrefix(rules, base, G, 0, x, y);
  }

  /** The copy of a pass, from rows in which a prefix has arrived. */
  lemma CopyArrives(env: Env, p: TablePlan, initial: seq<Row>, w: World)
    requires WellKeyed(env.catalog.rules(p.name), GoodFeed(env, p))
    requires Arrived(env, p, initial, Rows(w.store.live, p.name))
          && Arrived(env, p, initial, Rows(w.store.durable, p.name))
    ensures
      var w' := CopySpec(env, p.name, Feed(env, p), Good(env, p), w, 0, 0).0;
      && Arrived(env, p, initial, Rows(w'.store.live, p.name))
      && Arrived(env, p, initial, Rows(w'.store.durable, p.name))
  {
    var t, G := p.name, GoodFeed(env, p);
    hide PrepareSpec, CopySpec, Arrived, Feed, Good, Empties, Uniform, PrefixOf, Keyed, Insert;
    var x, y := Rows(w.store.live, t), Rows(w.store.durable, t);
    StartsAtZero(env, t, G, w);
    CopyKeeps(env, t, Feed(env, p), Good(env, p), x, y, w, 0, 0, w.total);
    var w2 := CopySpec(env, t, Feed(env, p), Good(env, p), w, 0, 0).0;
    var at := w2.total - w.total;
    PrefixWiden(env.catalog.rules(t), x, G, at, Min(at + env.settings.batchSize, |G|), Rows(w2.store.live, t));
    PrefixWiden(env.catalog.rules(t), x, G, at, Min(at + env.settings.batchSize, |G|), Rows(w2.store.durable, t));
    ArrivedOnward(env, p, initial, x, Rows(w2.store.live, t));
    if Rows(w2.store.durable, t) != y {
      ArrivedOnward(env, p, initial, x, Rows(w2.store.durable, t));
    }
  }

  /** One more pass over the table, whatever it holds already. */
  lemma PassArrives(env: Env, p: TablePlan, initial: seq<Row>, w: World)
    requires WellKeyed(env.catalog.rules(p.name), GoodFeed(env, p))
    requires Arrived(env, p, initial, Rows(w.store.live, p.name))
          && Arrived(env, p, initial, Rows(w.store.durable, p.name))
    ensures
      var (w', verdict) := MigrateTableSpec(env, p, w);
      && Arrived(env, p, initial, Rows(w'.store.live, p.name))
      && Arrived(env, p, initial, Rows(w'.store.durable, p.name))
      && (!env.settings.includeData && Unfed(env, p, initial, w.store) ==> Unfed(env, p, initial, w'.store))
  {
    var t, G := p.name, GoodFeed(env, p);
    PrepareExactly(env, t, w);
    if Empties(env, t, w) { BaseArrived(env, p, initial, []); }
    hide PrepareSpec, CopySpec, Arrived, Feed, Good, Empties, Uniform, PrefixOf, Keyed, Insert;
    var (w1, verdict) := PrepareSpec(env, t, w);
    var x, y := Rows(w1.store.live, t), Rows(w1.store.durable, t);
    assert Arrived(env, p, initial, x) && Arrived(env, p, initial, y);
    if verdict.Completed? && env.settings.includeData {
      CopyArrives(env, p, initial, w1);
    }
  }

  // ---------- Tables are never dropped ----------

  /** Every table that was there still is. */
  predicate KeepsTables(s: Store, s': Store) {
    s.durable.Keys <= s.live.Keys ==>
      s'.durable.Keys <= s'.live.Keys && s.live.Keys <= s'.live.Keys && s.durable.Keys <= s'.durable.Keys
  }

  lemma AttemptKeepsTables(env: Env, t: string, rows: seq<Row>, w: World, attempt: nat)
    ensures KeepsTables(w.store, AttemptSpec(env, t, rows, w, attempt).0.store)
  {
    hide Insert, Records;
  }

  lemma {:induction false} RetryKeepsTables(env: Env, t: string, rows: seq<Row>, w: World, attempt: nat)
    requires attempt <= env.settings.maxRetries
    ensures KeepsTables(w.store, InsertWithRetrySpec(env, t, rows, w, attempt).0.store)
    decreases env.settings.maxRetries - attempt
  {
    AttemptKeepsTables(env, t, rows, w, attempt);
    AttemptAgain(env, t, rows, w, attempt);
    hide AttemptSpec;
    var (w1, next) := AttemptSpec(env, t, rows, w, attempt);
    if next.Again? {
      RetryKeepsTables(env, t, rows, w1, attempt + 1);
    }
  }

  lemma {:induction false} CopyKeepsTables(env: Env, t: string, T: seq<Row>, good: nat, w: World, offset: nat,
      retry: nat)
    requires offset <= good <= |T| && retry <= env.settings.maxRetries
    ensures KeepsTables(w.store, CopySpec(env, t, T, good, w, offset, retry).0.store)
    decreases |T| - offset, env.settings.maxRetries - retry
  {
    hide InsertWithRetrySpec, TurnSpec;
    var (w1, turn) := TurnSpec(env, t, T, good, w, offset, retry);
    TurnShape(env, t, T, good, w, offset, retry);
    if InsertsBatch(env, T, good, w, offset) {
      RetryKeepsTables(env, t, T[offset..Min(offset + env.settings.batchSize, |T|)], AfterFetch(w), 0);
    }
    if turn.Next? {
      CopyKeepsTables(env, t, T, good, w1, turn.offset, turn.retry);
    }
  }

  lemma MigrateKeepsTables(env: Env, p: TablePlan, w: World)
    ensures KeepsTables(w.store, MigrateTableSpec(env, p, w).0.store)
  {
    PrepareKeepsTables(env, p.name, w);
    hide PrepareSpec, CopySpec, Feed, Good;
    var (w1, verdict) := PrepareSpec(env, p.name, w);
    if verdict.Completed? && env.settings.includeData {
      CopyKeepsTables(env, p.name, Feed(env, p), Good(env, p), w1, 0, 0);
    }
  }

  lemma PrepareKeepsTables(env: Env, t: string, w: World)
    ensures KeepsTables(w.store, PrepareSpec(env, t, w).0.store)
  {
  }

  // ---------- Tables that share no column with the source ----------

  /** When no mapping is active the raw rows are sent; a destination lacking one of their
      columns refuses every one of them, so nothing is stored and the table never
      completes unless the source is empty. */
  lemma {:induction false} RawRowsRefused(env: Env, t: string, T: seq<Row>, good: nat, w: World, offset: nat,
      retry: nat)
    requires offset <= good <= |T| && retry <= env.settings.maxRetries && env.settings.batchSize > 0
    requires Uniform(T) && T != [] && !(T[0].Keys <= env.catalog.columns(t))
    ensures
      var (w', verdict) := CopySpec(env, t, T, good, w, offset, retry);
      w'.store == w.store && (verdict.Completed? ==> offset == |T|)
    decreases |T| - offset, env.settings.maxRetries - retry
  {
    hide TurnSpec;
    var (w1, turn) := TurnSpec(env, t, T, good, w, offset, retry);
    TurnRefused(env, t, T, good, w, offset, retry);
    if turn.Next? {
      RawRowsRefused(env, t, T, good, w1, turn.offset, turn.retry);
    }
  }

  lemma TurnRefused(env: Env, t: string, T: seq<Row>, good: nat, w: World, offset: nat, retry: nat)
    requires offset <= good <= |T| && retry <= env.settings.maxRetries && env.settings.batchSize > 0
    requires Uniform(T) && T != [] && !(T[0].Keys <= env.catalog.columns(t))
    ensures
      var (w', turn) := TurnSpec(env, t, T, good, w, offset, retry);
      && w'.store == w.store
      && (turn.Next? ==> turn.offset == offset)
      && (turn.Stop? && turn.verdict.Completed? ==> offset == |T|)
  {
    hide InsertWithRetrySpec, TurnSpec, Uniform;
    TurnShape(env, t, T, good, w, offset, retry);
    if InsertsBatch(env, T, good, w, offset) {
      var rows := T[offset..Min(offset + env.settings.batchSize, |T|)];
      assert rows[0] == T[offset];
      SameShape(T, offset);
      RetryRefused(env, t, rows, AfterFetch(w), 0);
    }
  }

  lemma SameShape(T: seq<Row>, i: nat)
    requires Uniform(T) && i < |T|
    ensures T[i].Keys == T[0].Keys
  {
  }

  lemma {:induction false} RetryRefused(env: Env, t: string, rows: seq<Row>, w: World, attempt: nat)
    requires attempt <= env.settings.maxRetries && rows != [] && !(rows[0].Keys <= env.catalog.columns(t))
    ensures
      var (w', verdict) := InsertWithRetrySpec(env, t, rows, w, attempt);
      w'.store == w.store && !verdict.Completed?
    decreases env.settings.maxRetries - attempt
  {
    var (w1, next) := AttemptSpec(env, t, rows, w, attempt);
    if next.Again? {
      AttemptAgain(env, t, rows, w, attempt);
      RetryRefused(env, t, rows, w1, attempt + 1);
    }
  }
}
