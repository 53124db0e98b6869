/** Tables without any unique constraint: every row at least once, and how often at most. */
module KeylessTables {
  import opened Common
  import opened ConflictRules
  import opened Schema
  import opened Destination
  import opened Executor
  import opened Counting
  import opened Tables
  import opened Runs
  import opened Restarts

  // ---------- One copy ----------

  /** A failing call applied nothing. */
  ghost predicate FailuresApplyNothing(env: Env) {
    forall n: nat :: env.fate(n).Raises? ==> env.fate(n).applied == 0
  }

  lemma {:induction false} AdmittedConcat<R>(rules: Rules<R>, a: seq<R>, b: seq<R>)
    ensures Admitted(rules, a + b) == Admitted(rules, a) + Admitted(rules, b)
    decreases |b|
  {
    if b == [] {
      assert a + b == a;
    } else {
      assert (a + b)[..|a + b| - 1] == a + b[..|b| - 1];
      AdmittedConcat(rules, a, b[..|b| - 1]);
    }
  }

  /** What one insertion attempt adds to a table without keys. */
  lemma InsertOpKeyless(cat: Catalog, s: Store, t: string, rows: seq<Row>, fate: Fate)
    requires Keyless(cat.rules(t)) && rows != [] && Records(rows) == rows
    ensures
      var (s', reply) := InsertOp(cat, s, t, rows, fate);
      var x, x' := Rows(s.live, t), Rows(s'.live, t);
      && (reply.Returned? ==> x' == x + Admitted(cat.rules(t), rows))
      && x <= x'
      && (reply.Raised? && fate.Raises? && fate.applied == 0 ==> x' == x)
      && (reply.Raised? && fate.Fine? ==> x' == x)
      && (reply.Raised? ==> !fate.Dies?)
  {
    var rules, x := cat.rules(t), Rows(s.live, t);
    KeylessAppends(rules, x, rows[..Landed(|rows|, fate)]);
    assert rows[..|rows|] == rows;
  }

  /** The table gained at least these rows, counting repetitions. */
  ghost predicate Gained<R>(x: seq<R>, x': seq<R>, sent: seq<R>) {
    multiset(x') >= multiset(x) + multiset(sent)
  }

  lemma GainedLater<R>(x: seq<R>, x1: seq<R>, x2: seq<R>, sent: seq<R>)
    requires x <= x1
    ensures x1 + sent == x2 || Gained(x1, x2, sent) ==> Gained(x, x2, sent)
  {
    assert x1 == x + x1[|x|..];
  }

  lemma {:induction false} RetryKeyless(env: Env, t: string, rows: seq<Row>, w: World, attempt: nat)
    requires attempt <= env.settings.maxRetries && Keyless(env.catalog.rules(t))
    requires rows != [] && Records(rows) == rows
    ensures
      var (w', verdict) := InsertWithRetrySpec(env, t, rows, w, attempt);
      var x, x' := Rows(w.store.live, t), Rows(w'.store.live, t);
      var sent := Admitted(env.catalog.rules(t), rows);
      && (verdict.Completed? ==> Gained(x, x', sent) && w'.store.durable == w'.store.live)
      && (verdict.Completed? && FailuresApplyNothing(env) ==> x' == x + sent)
    decreases env.settings.maxRetries - attempt
  {
    var sent := Admitted(env.catalog.rules(t), rows);
    var (w1, next) := AttemptSpec(env, t, rows, w, attempt);
    var x, x1 := Rows(w.store.live, t), Rows(w1.store.live, t);
    AttemptKeyless(env, t, rows, w, attempt);
    RetryCommits(env, t, rows, w, attempt);
    RetryStep(env, t, rows, w, attempt);
    hide AttemptSpec, InsertWithRetrySpec, Admitted, Records, Keyless, Rows, Gained, FailuresApplyNothing;
    if next.Again? {
      RetryKeyless(env, t, rows, w1, attempt + 1);
      GainedLater(x, x1, Rows(InsertWithRetrySpec(env, t, rows, w1, attempt + 1).0.store.live, t), sent);
    } else if next.verdict.Completed? {
      GainedLater(x, x, x1, sent);
    }
  }

  lemma AttemptKeyless(env: Env, t: string, rows: seq<Row>, w: World, attempt: nat)
    requires Keyless(env.catalog.rules(t)) && rows != [] && Records(rows) == rows
    ensures
      var (w1, next) := AttemptSpec(env, t, rows, w, attempt);
      var x, x1 := Rows(w.store.live, t), Rows(w1.store.live, t);
      && x <= x1
      && (next.Over? && next.verdict.Completed? ==> x1 == x + Admitted(env.catalog.rules(t), rows))
      && (next.Again? ==> attempt < env.settings.maxRetries && (FailuresApplyNothing(env) ==> x1 == x))
  {
    hide InsertOp, Admitted, Records, Keyless;
    var fate := env.fate(w.clock);
    InsertOpKeyless(env.catalog, w.store, t, rows, fate);
  }

  /** AT LEAST ONCE. Without keys, a completed copy stores every admissible row on top of
      what was there and commits them, perhaps more than once; exactly once if failing calls
      apply nothing. */
  lemma {:induction false} KeylessCopy(env: Env, t: string, T: seq<Row>, good: nat, w: World, offset: nat, retry: nat)
    requires offset <= good <= |T| && retry <= env.settings.maxRetries && env.settings.batchSize > 0
    requires Keyless(env.catalog.rules(t)) && Uniform(T[..good])
    ensures
      var (w', verdict) := CopySpec(env, t, T, good, w, offset, retry);
      var x, x' := Rows(w.store.live, t), Rows(w'.store.live, t);
      var sent := Admitted(env.catalog.rules(t), T[offset..]);
      && (verdict.Completed? ==> Gained(x, x', sent))
      && (verdict.Completed? && FailuresApplyNothing(env) ==> x' == x + sent)
      && (verdict.Completed? ==> Rows(w'.store.durable, t) == x' || (offset == |T| && w'.store == w.store))
    decreases |T| - offset, env.settings.maxRetries - retry
  {
    CopyCommits(env, t, T, good, w, offset, retry);
    hide InsertWithRetrySpec, TurnSpec, Admitted, Keyless, FailuresApplyNothing, Uniform, Gained;
    var (w1, turn) := TurnSpec(env, t, T, good, w, offset, retry);
    TurnKeyless(env, t, T, good, w, offset, retry);
    GainedNothing(Rows(w.store.live, t));
    if turn.Next? {
      KeylessCopy(env, t, T, good, w1, turn.offset, turn.retry);
      var rules, w2 := env.catalog.rules(t), CopySpec(env, t, T, good, w1, turn.offset, turn.retry).0;
      hide CopySpec, Rows;
      Accumulate(Rows(w.store.live, t), Rows(w1.store.live, t), Rows(w2.store.live, t),
                 Admitted(rules, T[offset..turn.offset]), Admitted(rules, T[turn.offset..]));
    }
  }

  lemma Accumulate<R>(x: seq<R>, x1: seq<R>, x2: seq<R>, a: seq<R>, b: seq<R>)
    ensures Gained(x, x1, a) && Gained(x1, x2, b) ==> Gained(x, x2, a + b)
    ensures x1 == x + a && x2 == x1 + b ==> x2 == x + (a + b)
  {
  }

  lemma TurnKeyless(env: Env, t: string, T: seq<Row>, good: nat, w: World, offset: nat, retry: nat)
    requires offset <= good <= |T| && retry <= env.settings.maxRetries && env.settings.batchSize > 0
    requires Keyless(env.catalog.rules(t)) && Uniform(T[..good])
    ensures
      var (w', turn) := TurnSpec(env, t, T, good, w, offset, retry);
      var rules, x, x' := env.catalog.rules(t), Rows(w.store.live, t), Rows(w'.store.live, t);
      && ((turn.Stop? && turn.verdict.Completed?) ==> Admitted(rules, T[offset..]) == [] && x' == x)
      && (turn.Next? ==>
            var now := Admitted(rules, T[offset..turn.offset]);
            && Admitted(rules, T[offset..]) == now + Admitted(rules, T[turn.offset..])
            && Gained(x, x', now)
            && (FailuresApplyNothing(env) ==> x' == x + now))
  {
    hide InsertWithRetrySpec, TurnSpec, Keyless, FailuresApplyNothing, Uniform, Records, Admitted, Gained;
    var rules := env.catalog.rules(t);
    var (w1, turn) := TurnSpec(env, t, T, good, w, offset, retry);
    TurnShape(env, t, T, good, w, offset, retry);
    if InsertsBatch(env, T, good, w, offset) {
      var end := Min(offset + env.settings.batchSize, |T|);
      UniformSlice(T, good, offset, end);
      RetryKeyless(env, t, T[offset..end], AfterFetch(w), 0);
    }
    GainedNothing(Rows(w.store.live, t));
    AdmittedSplit(rules, T, offset, if turn.Next? then turn.offset else offset);
  }

  lemma GainedNothing<R>(x: seq<R>)
    ensures Gained(x, x, [])
  {
  }

  lemma AdmittedSplit<R>(rules: Rules<R>, T: seq<R>, lo: nat, hi: nat)
    requires lo <= hi <= |T|
    ensures Admitted(rules, T[lo..]) == Admitted(rules, T[lo..hi]) + Admitted(rules, T[hi..])
    ensures lo == hi ==> Admitted(rules, T[lo..hi]) == []
    ensures lo == |T| ==> Admitted(rules, T[lo..]) == []
  {
    AdmittedConcat(rules, T[lo..hi], T[hi..]);
    assert T[lo..hi] + T[hi..] == T[lo..];
  }

  // ---------- How often a row can be stored ----------

  function Copies<R>(m: multiset<R>, k: nat): multiset<R> {
    if k == 0 then multiset{} else Copies(m, k - 1) + m
  }

  lemma {:induction false} CopiesOfSum<R>(a: multiset<R>, b: multiset<R>, k: nat)
    ensures Copies(a + b, k) == Copies(a, k) + Copies(b, k)
    decreases k
  {
    if k > 0 { CopiesOfSum(a, b, k - 1); }
  }

  /** Table t only grew, by no more than the extra rows; nothing committed was lost. */
  ghost predicate Grows(t: string, s: Store, s': Store, extra: multiset<Row>) {
    Rows(s.durable, t) <= Rows(s.live, t) ==>
      && Rows(s.durable, t) <= Rows(s'.durable, t) <= Rows(s'.live, t)
      && Rows(s.live, t) <= Rows(s'.live, t)
      && multiset(Rows(s'.live, t)) <= multiset(Rows(s.live, t)) + extra
  }

  lemma GrowsOnward(t: string, s: Store, s1: Store, s2: Store, a: multiset<Row>, b: multiset<Row>)
    requires Grows(t, s, s1, a) && Grows(t, s1, s2, b)
    ensures Grows(t, s, s2, a + b)
  {
  }

  lemma GrowsMore(t: string, s: Store, s': Store, a: multiset<Row>, b: multiset<Row>)
    requires Grows(t, s, s', a) && a <= b
    ensures Grows(t, s, s', b)
  {
  }

  lemma GrowsNot(t: string, s: Store)
    ensures Grows(t, s, s, multiset{})
  {
  }

  lemma InsertOpLands(cat: Catalog, s: Store, t: string, rows: seq<Row>, fate: Fate) returns (m: nat)
    requires Keyless(cat.rules(t)) && rows != [] && Records(rows) == rows
    ensures
      var s' := InsertOp(cat, s, t, rows, fate).0;
      && m <= |rows| && Rows(s'.live, t) == Rows(s.live, t) + Admitted(cat.rules(t), rows[..m])
      && (Rows(s'.durable, t) == Rows(s.durable, t) || Rows(s'.durable, t) == Rows(s'.live, t))
  {
    if Accepts(cat, s, t, rows) {
      m := Landed(|rows|, fate);
      KeylessAppends(cat.rules(t), s.live[t], rows[..m]);
    } else {
      m := 0;
      assert rows[..0] == [];
    }
  }

  lemma AttemptGrows(env: Env, t: string, rows: seq<Row>, w: World, attempt: nat)
    requires Keyless(env.catalog.rules(t)) && rows != [] && Records(rows) == rows
    ensures Grows(t, w.store, AttemptSpec(env, t, rows, w, attempt).0.store,
          multiset(Admitted(env.catalog.rules(t), rows)))
  {
    hide InsertOp, Keyless, Records, Admitted, Rows;
    var rules := env.catalog.rules(t);
    var m := InsertOpLands(env.catalog, w.store, t, rows, env.fate(w.clock));
    AdmittedConcat(rules, rows[..m], rows[m..]);
    assert rows[..m] + rows[m..] == rows;
    var s' := InsertOp(env.catalog, w.store, t, rows, env.fate(w.clock)).0;
    assert AttemptSpec(env, t, rows, w, attempt).0.store == s';
    hide AttemptSpec;
    Appended(t, w.store, s', Admitted(rules, rows[..m]), Admitted(rules, rows[m..]));
  }

  lemma Appended(t: string, s: Store, s': Store, a: seq<Row>, b: seq<Row>)
    requires Rows(s'.live, t) == Rows(s.live, t) + a
    requires Rows(s'.durable, t) == Rows(s.durable, t) || Rows(s'.durable, t) == Rows(s'.live, t)
    ensures Grows(t, s, s', multiset(a + b))
  {
    hide Rows;
    assert multiset(a + b) == multiset(a) + multiset(b);
  }

  lemma {:induction false} RetryGrows(env: Env, t: string, rows: seq<Row>, w: World, attempt: nat)
    requires attempt <= env.settings.maxRetries
    requires Keyless(env.catalog.rules(t)) && rows != [] && Records(rows) == rows
    ensures Grows(t, w.store, InsertWithRetrySpec(env, t, rows, w, attempt).0.store,
                  Copies(multiset(Admitted(env.catalog.rules(t), rows)), env.settings.maxRetries + 1 - attempt))
    decreases env.settings.maxRetries - attempt
  {
    hide AttemptSpec, InsertWithRetrySpec, Grows, Copies, Keyless, Records, Admitted, Rows;
    var a, k := multiset(Admitted(env.catalog.rules(t), rows)), env.settings.maxRetries - attempt;
    var (w1, next) := AttemptSpec(env, t, rows, w, attempt);
    AttemptGrows(env, t, rows, w, attempt);
    RetryStep(env, t, rows, w, attempt);
    OneCopyMore(a, k);
    if next.Again? {
      RetryGrows(env, t, rows, w1, attempt + 1);
      var w2 := InsertWithRetrySpec(env, t, rows, w1, attempt + 1).0;
      assert env.settings.maxRetries + 1 - (attempt + 1) == k;
      GrowsOnward(t, w.store, w1.store, w2.store, a, Copies(a, k));
    } else {
      GrowsMore(t, w.store, w1.store, a, Copies(a, k + 1));
    }
  }

  lemma OneCopyMore<R>(a: multiset<R>, k: nat)
    ensures Copies(a, k + 1) == a + Copies(a, k) && a <= Copies(a, k + 1)
  {
  }

  /** The rows of T from lo to hi, each as often as one copy may store it. */
  function Exposed(env: Env, t: string, T: seq<Row>, lo: nat, hi: nat): multiset<Row>
    requires lo <= hi <= |T|
  {
    Copies(multiset(Admitted(env.catalog.rules(t), T[lo..hi])), env.settings.maxRetries + 1)
  }

  lemma ExposedSplit(env: Env, t: string, T: seq<Row>, lo: nat, mid: nat, hi: nat)
    requires lo <= mid <= hi <= |T|
    ensures Exposed(env, t, T, lo, hi) == Exposed(env, t, T, lo, mid) + Exposed(env, t, T, mid, hi)
  {
    var rules := env.catalog.rules(t);
    assert T[lo..hi] == T[lo..mid] + T[mid..hi];
    AdmittedConcat(rules, T[lo..mid], T[mid..hi]);
    CopiesOfSum(multiset(Admitted(rules, T[lo..mid])), multiset(Admitted(rules, T[mid..hi])),
          env.settings.maxRetries + 1);
  }

  lemma TurnGrows(env: Env, t: string, T: seq<Row>, good: nat, w: World, offset: nat, retry: nat)
    requires offset <= good <= |T| && retry <= env.settings.maxRetries
    requires Keyless(env.catalog.rules(t)) && Uniform(T[..good])
    ensures
      var (w', turn) := TurnSpec(env, t, T, good, w, offset, retry);
      Grows(t, w.store, w'.store, Exposed(env, t, T, offset, if turn.Next? then turn.offset else good))
  {
    hide InsertWithRetrySpec, TurnSpec, Keyless, Uniform, Records, Admitted, Grows, Exposed;
    var (w', turn) := TurnSpec(env, t, T, good, w, offset, retry);
    TurnShape(env, t, T, good, w, offset, retry);
    var upto := if turn.Next? then turn.offset else good;
    GrowsNot(t, w.store);
    if InsertsBatch(env, T, good, w, offset) {
      var end := Min(offset + env.settings.batchSize, |T|);
      UniformSlice(T, good, offset, end);
      RetryGrows(env, t, T[offset..end], AfterFetch(w), 0);
      BatchExposed(env, t, T, offset, end);
      ExposedSplit(env, t, T, offset, end, upto);
      GrowsMore(t, w.store, w'.store, Exposed(env, t, T, offset, end), Exposed(env, t, T, offset, upto));
    } else {
      GrowsMore(t, w.store, w'.store, multiset{}, Exposed(env, t, T, offset, upto));
    }
  }

  lemma BatchExposed(env: Env, t: string, T: seq<Row>, lo: nat, hi: nat)
    requires lo <= hi <= |T|
    ensures Exposed(env, t, T, lo, hi)
         == Copies(multiset(Admitted(env.catalog.rules(t), T[lo..hi])), env.settings.maxRetries + 1 - 0)
  {
  }

  lemma {:induction false} CopyGrows(env: Env, t: string, T: seq<Row>, good: nat, w: World, offset: nat, retry: nat)
    requires offset <= good <= |T| && retry <= env.settings.maxRetries
    requires Keyless(env.catalog.rules(t)) && Uniform(T[..good])
    ensures Grows(t, w.store, CopySpec(env, t, T, good, w, offset, retry).0.store, Exposed(env, t, T, offset, good))
    decreases |T| - offset, env.settings.maxRetries - retry
  {
    hide TurnSpec, Keyless, Uniform, Grows, Exposed;
    var (w1, turn) := TurnSpec(env, t, T, good, w, offset, retry);
    TurnGrows(env, t, T, good, w, offset, retry);
    if turn.Next? {
      CopyGrows(env, t, T, good, w1, turn.offset, turn.retry);
      GrowsOnward(t, w.store, w1.store, CopySpec(env, t, T, good, w1, turn.offset, turn.retry).0.store,
                  Exposed(env, t, T, offset, turn.offset), Exposed(env, t, T, turn.offset, good));
      ExposedSplit(env, t, T, offset, turn.offset, good);
    }
  }

  // ---------- Runs and restarts ----------

  /** The rows of p's source, each as often as one turn to its table may store it. */
  function PassCap(env: Env, p: TablePlan): multiset<Row> {
    Exposed(env, p.name, Feed(env, p), 0, Good(env, p))
  }

  ghost predicate KeylessTable(env: Env, p: TablePlan) {
    Uniform(env.source(p.name)) && Keyless(env.catalog.rules(p.name))
  }

  /** One turn, without truncation. */
  lemma PassStores(env: Env, p: TablePlan, w: World)
    requires KeylessTable(env, p) && !env.settings.truncate
    ensures
      var (w', verdict) := MigrateTableSpec(env, p, w);
      && Grows(p.name, w.store, w'.store, PassCap(env, p))
      && (verdict.Completed? && env.settings.includeData && env.settings.batchSize > 0
          && Rows(w.store.durable, p.name) <= Rows(w.store.live, p.name) ==>
            Gained(Rows(w.store.durable, p.name), Rows(w'.store.durable, p.name),
                   Admitted(env.catalog.rules(p.name), Feed(env, p))))
  {
    var t, T, good := p.name, Feed(env, p), Good(env, p);
    FeedUniform(env, p);
    PrepareGrows(env, t, w);
    hide PrepareSpec, CopySpec, Feed, Good, Exposed, Admitted, Uniform, Keyless, Rows, Grows;
    var (w1, verdict) := PrepareSpec(env, t, w);
    if verdict.Completed? && env.settings.includeData {
      var w2 := CopySpec(env, t, T, good, w1, 0, 0).0;
      CopyGrows(env, t, T, good, w1, 0, 0);
      GrowsOnward(t, w.store, w1.store, w2.store, multiset{}, PassCap(env, p));
      if env.settings.batchSize > 0 {
        CopyStores(env, t, T, good, w1);
        var x, y, z := Rows(w.store.durable, t), Rows(w1.store.durable, t), Rows(w2.store.durable, t);
        if x <= Rows(w.store.live, t) && CopySpec(env, t, T, good, w1, 0, 0).1.Completed? {
          GainedFrom(x, y, z, Admitted(env.catalog.rules(t), T));
        }
      }
    } else {
      GrowsMore(t, w.store, w1.store, multiset{}, PassCap(env, p));
    }
  }

  lemma PrepareGrows(env: Env, t: string, w: World)
    requires !env.settings.truncate
    ensures
      var s, s' := w.store, PrepareSpec(env, t, w).0.store;
      && Grows(t, s, s', multiset{})
      && (Rows(s.durable, t) <= Rows(s.live, t) ==>
            Rows(s'.durable, t) <= Rows(s'.live, t) && Rows(s.durable, t) <= Rows(s'.durable, t))
  {
    CreateKeeps(env, t, w);
    hide PrepareSpec;
  }

  lemma CopyStores(env: Env, t: string, T: seq<Row>, good: nat, w: World)
    requires good <= |T| && env.settings.batchSize > 0
    requires Keyless(env.catalog.rules(t)) && Uniform(T[..good])
    ensures
      var (w', verdict) := CopySpec(env, t, T, good, w, 0, 0);
      verdict.Completed? && Rows(w.store.durable, t) <= Rows(w.store.live, t) ==>
        Gained(Rows(w.store.durable, t), Rows(w'.store.durable, t), Admitted(env.catalog.rules(t), T))
  {
    hide CopySpec, Uniform, Keyless;
    KeylessCopy(env, t, T, good, w, 0, 0);
    assert T[0..] == T;
    var (w', verdict) := CopySpec(env, t, T, good, w, 0, 0);
    var x, y, a := Rows(w.store.durable, t), Rows(w.store.live, t), Admitted(env.catalog.rules(t), T);
    if verdict.Completed? && x <= y && Rows(w'.store.durable, t) == Rows(w'.store.live, t) {
      hide Admitted;
      GainedFrom(x, y, Rows(w'.store.live, t), a);
    }
  }

  lemma GainedFrom<R>(x: seq<R>, y: seq<R>, z: seq<R>, sent: seq<R>)
    requires x <= y && Gained(y, z, sent)
    ensures Gained(x, z, sent)
  {
    assert y == x + y[|x|..];
  }

  /** After some turns to p's table, one of them a completed copy if `done`. */
  ghost predicate Stored(env: Env, p: TablePlan, s0: Store, s: Store, turns: nat, done: bool) {
    && Grows(p.name, s0, s, Copies(PassCap(env, p), turns))
    && Rows(s.durable, p.name) <= Rows(s.live, p.name)
    && (done && env.settings.includeData && env.settings.batchSize > 0 ==>
          Gained(Rows(s0.durable, p.name), Rows(s.durable, p.name), Admitted(env.catalog.rules(p.name), Feed(env, p))))
  }

  lemma TurnStores(env: Env, p: TablePlan, q: TablePlan, s0: Store, w: World, turns: nat, done: bool)
    requires KeylessTable(env, p) && !env.settings.truncate && q.name == p.name && SameFeed(env, q, p)
    requires Rows(s0.durable, p.name) <= Rows(s0.live, p.name) && Stored(env, p, s0, w.store, turns, done)
    ensures
      var (w', verdict) := MigrateTableSpec(env, q, w);
      Stored(env, p, s0, w'.store, turns + 1, done || verdict.Completed?)
  {
    SamePass(env, q, p, w);
    PassStores(env, p, w);
    var (w', verdict) := MigrateTableSpec(env, q, w);
    var t, cap := p.name, PassCap(env, p);
    OneCopyMore(cap, turns);
    hide MigrateTableSpec, PassCap, Copies, Admitted, Feed, KeylessTable;
    GrowsOnward(t, s0, w.store, w'.store, Copies(cap, turns), cap);
    var x, y, z := Rows(s0.durable, t), Rows(w.store.durable, t), Rows(w'.store.durable, t);
    var a := Admitted(env.catalog.rules(t), Feed(env, p));
    assert x <= y <= z;
    hide Rows, Grows;
    if env.settings.includeData && env.settings.batchSize > 0 {
      if done { GainedStays(x, y, z, a); }
      if verdict.Completed? { GainedFrom(x, y, z, a); }
    }
  }

  lemma GainedStays<R>(x: seq<R>, y: seq<R>, z: seq<R>, sent: seq<R>)
    requires Gained(x, y, sent) && y <= z
    ensures Gained(x, z, sent)
  {
    assert z == y + z[|y|..];
  }

  lemma OtherStores(env: Env, p: TablePlan, q: TablePlan, s0: Store, w: World, turns: nat, done: bool)
    requires q.name != p.name && Rows(s0.durable, p.name) <= Rows(s0.live, p.name)
    requires Stored(env, p, s0, w.store, turns, done)
    ensures Stored(env, p, s0, MigrateTableSpec(env, q, w).0.store, turns, done)
  {
    hide MigrateTableSpec, PassCap, Copies, Admitted, Feed, Gained;
    var s, s', t := w.store, MigrateTableSpec(env, q, w).0.store, p.name;
    MigrateFrames(env, q, w, t);
    assert Rows(s'.live, t) == Rows(s.live, t);
    assert Rows(s'.durable, t) == Rows(s.durable, t) || Rows(s'.durable, t) == Rows(s.live, t);
    var x, y, z := Rows(s0.durable, t), Rows(s.durable, t), Rows(s'.durable, t);
    if done && env.settings.includeData && env.settings.batchSize > 0 {
      GainedStays(x, y, z, Admitted(env.catalog.rules(t), Feed(env, p)));
    }
  }

  /** One turn of the run, to p's table or to another. */
  lemma PlanStores(env: Env, plans: seq<TablePlan>, i: nat, p: TablePlan, s0: Store, w: World, done: bool)
    requires i < |plans| && !plans[i].skipped && Consistent(env, plans, p)
    requires KeylessTable(env, p) && !env.settings.truncate
    requires Rows(s0.durable, p.name) <= Rows(s0.live, p.name)
    requires Stored(env, p, s0, w.store, Turns(plans[..i], p.name), done)
    ensures
      var (w', verdict) := MigrateTableSpec(env, plans[i], w);
      Stored(env, p, s0, w'.store, Turns(plans[..i + 1], p.name),
             done || (plans[i].name == p.name && verdict.Completed?))
  {
    hide MigrateTableSpec, Stored, KeylessTable, SameFeed, Turns, Rows;
    OneMoreTurn(plans, i, p.name);
    if plans[i].name == p.name {
      TurnStores(env, p, plans[i], s0, w, Turns(plans[..i], p.name), done);
    } else {
      OtherStores(env, p, plans[i], s0, w, Turns(plans[..i], p.name), done);
    }
  }

  lemma {:induction false} RunStores(env: Env, plans: seq<TablePlan>, w: World, i: nat, res: Results, p: TablePlan,
        s0: Store)
    requires i <= |plans| && res.reached == i && Consistent(env, plans, p)
    requires KeylessTable(env, p) && !env.settings.truncate
    requires Rows(s0.durable, p.name) <= Rows(s0.live, p.name)
    requires Stored(env, p, s0, w.store, Turns(plans[..i], p.name), p.name in res.completed)
    ensures
      var (w', res') := RunSpec(env, plans, w, i, res);
      && res'.reached <= |plans|
      && Stored(env, p, s0, w'.store, Turns(plans[..res'.reached], p.name), p.name in res'.completed)
    decreases |plans| - i
  {
    hide MigrateTableSpec, Stored, KeylessTable, SameFeed, Turns, Rows;
    if i < |plans| {
      var q, here := plans[i], res.(reached := i + 1);
      OneMoreTurn(plans, i, p.name);
      if q.skipped {
        RunStores(env, plans, w, i + 1, here.(skipped := res.skipped + [q.name]), p, s0);
      } else {
        var (w1, verdict) := MigrateTableSpec(env, q, w);
        PlanStores(env, plans, i, p, s0, w, p.name in res.completed);
        hide Consistent;
        if verdict.Completed? {
          RunStores(env, plans, w1, i + 1, here.(completed := res.completed + [q.name]), p, s0);
        } else if verdict.Failed? && env.settings.continueOnError {
          RunStores(env, plans, w1, i + 1, here.(failed := res.failed + [q.name]), p, s0);
        }
      }
    }
  }

  lemma {:induction false} CopiesGrow<R>(m: multiset<R>, k: nat, n: nat)
    requires k <= n
    ensures Copies(m, k) <= Copies(m, n)
    decreases n
  {
    if k < n { CopiesGrow(m, k, n - 1); }
  }

  lemma {:induction false} TurnsGrow(plans: seq<TablePlan>, k: nat, t: string)
    requires k <= |plans|
    ensures Turns(plans[..k], t) <= Turns(plans, t)
    decreases |plans|
  {
    if k < |plans| {
      TurnsGrow(plans[..|plans| - 1], k, t);
      assert plans[..|plans| - 1][..k] == plans[..k];
    } else {
      assert plans[..k] == plans;
    }
  }

  /** What one launch leaves committed in a table without keys. */
  lemma LaunchStores(env: Env, l: Launch, tables: map<string, seq<Row>>, p: TablePlan)
    requires Consistent(env, l.plans, p) && !l.settings.truncate && KeylessTable(env, p)
    ensures
      var before, now := Rows(tables, p.name), Rows(RunOnce(env, l, tables).0.store.durable, p.name);
      && before <= now
      && multiset(now) <= multiset(before) + LaunchCap(env, l, p)
      && (p.name in RunOnce(env, l, tables).1.completed && l.settings.includeData && l.settings.batchSize > 0 ==>
            Gained(before, now, Admitted(env.catalog.rules(p.name), Feed(env, p))))
  {
    var env', w, t := With(env, l), FreshWorld(Store(tables, tables)), p.name;
    WithFeeds(env, l, p);
    assert KeylessTable(env', p);
    FreshStored(env', p, tables);
    assert l.plans[..0] == [];
    hide RunSpec, KeylessTable, Consistent, Feed, Good, GoodFeed, PassCap, Admitted, Gained, Copies, Stored;
    RunStores(env', l.plans, w, 0, NO_RESULTS, p, w.store);
    var (w', res) := RunOnce(env, l, tables);
    TurnsGrow(l.plans, res.reached, t);
    CopiesGrow(PassCap(env', p), Turns(l.plans[..res.reached], t), Turns(l.plans, t));
    StoredMeans(env', p, tables, w'.store, Turns(l.plans[..res.reached], t), p.name in res.completed);
  }

  lemma FreshStored(env: Env, p: TablePlan, tables: map<string, seq<Row>>)
    ensures Stored(env, p, Store(tables, tables), Store(tables, tables), 0, false)
  {
    hide PassCap;
  }

  lemma StoredMeans(env: Env, p: TablePlan, tables: map<string, seq<Row>>, s: Store, turns: nat, done: bool)
    requires Stored(env, p, Store(tables, tables), s, turns, done)
    ensures
      var before, now := Rows(tables, p.name), Rows(s.durable, p.name);
      && before <= now && multiset(now) <= multiset(before) + Copies(PassCap(env, p), turns)
      && (done && env.settings.includeData && env.settings.batchSize > 0 ==>
            Gained(before, now, Admitted(env.catalog.rules(p.name), Feed(env, p))))
  {
    hide PassCap, Copies, Gained, Admitted, Feed;
    var live, now := Rows(s.live, p.name), Rows(s.durable, p.name);
    assert live == now + live[|now|..];
  }

  /** Each row of the source, retries and turns counted, as often as one launch may store it. */
  function LaunchCap(env: Env, l: Launch, p: TablePlan): multiset<Row> {
    Copies(PassCap(With(env, l), p), Turns(l.plans, p.name))
  }

  function LaunchCaps(env: Env, launches: seq<Launch>, p: TablePlan): multiset<Row> {
    if launches == [] then multiset{}
    else LaunchCaps(env, launches[..|launches| - 1], p) + LaunchCap(env, launches[|launches| - 1], p)
  }

  /** AT LEAST ONCE, AT MOST SO OFTEN. Without keys and without truncation, whatever fails
      and however often the job is started again: no stored row is lost; each row of the
      source is added at most once for every insertion that may have been attempted (r + 1
      per turn to the table, turns added up over the launches); and if the last launch
      completed the table, it added each admissible row at least once. */
  lemma {:induction false} KeylessRestarts(env: Env, launches: seq<Launch>, tables: map<string, seq<Row>>, p: TablePlan)
    requires KeylessTable(env, p)
    requires forall l :: l in launches ==> !l.settings.truncate && Consistent(env, l.plans, p)
    ensures
      var initial, now := Rows(tables, p.name), Rows(AfterLaunches(env, launches, tables), p.name);
      && initial <= now
      && multiset(now) <= multiset(initial) + LaunchCaps(env, launches, p)
      && (launches != [] ==>
            var n := |launches| - 1;
            var last, before := launches[n], AfterLaunches(env, launches[..n], tables);
            p.name in RunOnce(env, last, before).1.completed && last.settings.includeData
                  && last.settings.batchSize > 0 ==>
              Gained(Rows(before, p.name), now, Admitted(env.catalog.rules(p.name), Feed(env, p))))
    decreases |launches|
  {
    if launches != [] {
      hide RunOnce, KeylessTable, Consistent, Admitted, Feed, LaunchCap, Gained;
      var n := |launches| - 1;
      KeylessRestarts(env, launches[..n], tables, p);
      LaunchStores(env, launches[n], AfterLaunches(env, launches[..n], tables), p);
    }
  }
}
