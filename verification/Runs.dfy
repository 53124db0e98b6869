/** Whole runs: which tables a run may touch, what it leaves in each of them, and how its
    results account for the plan. */
module Runs {
  import opened Common
  import opened ConflictRules
  import opened Schema
  import opened Destination
  import opened Executor
  import opened Copying
  import opened Counting
  import opened Tables

  // ---------- The whole run ----------

  function PlanNames(plans: seq<TablePlan>): (names: seq<string>)
    ensures |names| == |plans|
  {
    seq(|plans|, i requires 0 <= i < |plans| => plans[i].name)
  }

  /** A run leaves every table alone that it does not migrate. */
  lemma {:induction false} RunFrames(env: Env, plans: seq<TablePlan>, w: World, i: nat, res: Results, u: string)
    requires i <= |plans|
    requires forall j :: i <= j < |plans| && plans[j].name == u ==> plans[j].skipped
    ensures Framed(w.store, RunSpec(env, plans, w, i, res).0.store, u)
    decreases |plans| - i
  {
    hide MigrateTableSpec;
    if i < |plans| {
      var p := plans[i];
      var here := res.(reached := i + 1);
      if p.skipped {
        RunFrames(env, plans, w, i + 1, here.(skipped := res.skipped + [p.name]), u);
      } else {
        var (w1, verdict) := MigrateTableSpec(env, p, w);
        MigrateFrames(env, p, w, u);
        if verdict.Completed? {
          RunFrames(env, plans, w1, i + 1, here.(completed := res.completed + [p.name]), u);
        } else if verdict.Failed? && env.settings.continueOnError {
          RunFrames(env, plans, w1, i + 1, here.(failed := res.failed + [p.name]), u);
        }
      }
    }
  }

  // ---------- The whole run, table by table ----------

  /** How often a plan turns to a table. */
  function Turns(plans: seq<TablePlan>, t: string): nat {
    if plans == [] then 0
    else
      var n := |plans| - 1;
      Turns(plans[..n], t) + (if plans[n].name == t && !plans[n].skipped then 1 else 0)
  }

  /** No turn of the table failed, and the run was not aborted in one. */
  predicate NoTurnFailed(plans: seq<TablePlan>, res: Results, t: string) {
    && t !in res.failed
    && !(res.aborted && 0 < res.reached <= |plans| && plans[res.reached - 1].name == t)
  }

  /** Every turn to p's table sends the rows that p sends. */
  ghost predicate Consistent(env: Env, plans: seq<TablePlan>, p: TablePlan) {
    forall j :: 0 <= j < |plans| && plans[j].name == p.name && !plans[j].skipped ==> SameFeed(env, plans[j], p)
  }

  /** What the copies of table t add to: the base given, until a truncation takes effect. */
  function FinalBase(env: Env, plans: seq<TablePlan>, w: World, i: nat, t: string, base: seq<Row>): seq<Row>
    requires i <= |plans|
    decreases |plans| - i
  {
    if i == |plans| then base
    else if plans[i].skipped then FinalBase(env, plans, w, i + 1, t, base)
    else
      var (w1, verdict) := MigrateTableSpec(env, plans[i], w);
      var base1 := NextBase(env, plans[i], w, t, base);
      if verdict.Completed? || (verdict.Failed? && env.settings.continueOnError)
      then FinalBase(env, plans, w1, i + 1, t, base1)
      else base1
  }

  function NextBase(env: Env, q: TablePlan, w: World, t: string, base: seq<Row>): seq<Row> {
    if q.name == t && Empties(env, t, w) then [] else base
  }

  lemma {:induction false} UntruncatedBase(env: Env, plans: seq<TablePlan>, w: World, i: nat, t: string, base: seq<Row>)
    requires i <= |plans| && !env.settings.truncate
    ensures FinalBase(env, plans, w, i, t, base) == base
    decreases |plans| - i
  {
    hide MigrateTableSpec;
    if i < |plans| {
      UntruncatedBase(env, plans, w, i + 1, t, base);
      UntruncatedBase(env, plans, MigrateTableSpec(env, plans[i], w).0, i + 1, t, base);
    }
  }

  /** What a run may have left in p's table after a number of turns to it, `good` if none of
      them failed. The initial rows are there until the first turn; after one turn both
      views hold a prefix of the source over one base; after more turns each view does. */
  ghost predicate Standing(env: Env, p: TablePlan, initial: seq<Row>, base: seq<Row>, s: Store, turns: nat,
        good: bool) {
    var live, durable := Rows(s.live, p.name), Rows(s.durable, p.name);
    && BaseOk(env, initial, base)
    && Arrived(env, p, initial, live) && Arrived(env, p, initial, durable)
    && (turns == 0 ==> CleanAt(s, p.name, initial) && base == initial)
    && (turns == 1 ==> Partial(env, p, initial, s))
    && (!env.settings.includeData ==> Unfed(env, p, initial, s))
    && (turns > 0 && good && env.settings.includeData && env.settings.batchSize > 0 ==>
          && Good(env, p) == |Feed(env, p)|
          && live == Insert(env.catalog.rules(p.name), base, Feed(env, p))
          && (Feed(env, p) != [] ==> durable == live))
  }

  /** A turn to p's table. */
  lemma TurnStands(env: Env, p: TablePlan, q: TablePlan, initial: seq<Row>, base: seq<Row>, w: World, turns: nat,
        good: bool)
    requires q.name == p.name && SameFeed(env, q, p)
    requires WellKeyed(env.catalog.rules(p.name), GoodFeed(env, p))
    requires Standing(env, p, initial, base, w.store, turns, good)
    ensures
      var (w', verdict) := MigrateTableSpec(env, q, w);
      Standing(env, p, initial, NextBase(env, q, w, p.name, base), w'.store, turns + 1, good && verdict.Completed?)
  {
    hide MigrateTableSpec, Arrived, Partial, Feed, Good, WellKeyed, StepOk, Finished, Empties;
    var (w', verdict) := MigrateTableSpec(env, q, w);
    SamePass(env, q, p, w);
    PassArrives(env, p, initial, w);
    if turns == 0 {
      TableOutcome(env, p, initial, w);
    }
    assert NextBase(env, q, w, p.name, base) != base ==> env.settings.truncate by { NeedsTruncation(env, p.name, w); }
    if good && verdict.Completed? && env.settings.includeData && env.settings.batchSize > 0 {
      CompletedExactly(env, p, w);
      if turns > 0 && !Empties(env, p.name, w) {
        InsertTwice(env, p, base);
      }
    }
  }

  lemma NeedsTruncation(env: Env, t: string, w: World)
    ensures Empties(env, t, w) ==> env.settings.truncate
  {
  }

  lemma InsertTwice(env: Env, p: TablePlan, base: seq<Row>)
    requires WellKeyed(env.catalog.rules(p.name), GoodFeed(env, p)) && Good(env, p) == |Feed(env, p)|
    ensures
      var rules, T := env.catalog.rules(p.name), Feed(env, p);
      Insert(rules, Insert(rules, base, T), T) == Insert(rules, base, T)
  {
    var rules, T := env.catalog.rules(p.name), Feed(env, p);
    assert GoodFeed(env, p) == T && T[0..|T|] == T && T[..|T|] == T;
    Replay(rules, base, T, 0, |T|, |T|);
  }

  /** A turn to another table. */
  lemma OtherStands(env: Env, p: TablePlan, q: TablePlan, initial: seq<Row>, base: seq<Row>, w: World, turns: nat,
        good: bool)
    requires q.name != p.name && Standing(env, p, initial, base, w.store, turns, good)
    ensures Standing(env, p, initial, base, MigrateTableSpec(env, q, w).0.store, turns, good)
  {
    hide MigrateTableSpec, Arrived, Partial, Feed, Good, Finished, Unfed, CleanAt;
    var s, s' := w.store, MigrateTableSpec(env, q, w).0.store;
    MigrateFrames(env, q, w, p.name);
    FramedKeeps(env, p, initial, s, s');
    if turns == 0 { FramedClean(s, s', p.name, initial); }
    assert Rows(s'.live, p.name) == Rows(s.live, p.name);
    assert Rows(s'.durable, p.name) == Rows(s.durable, p.name) || Rows(s'.durable, p.name) == Rows(s.live, p.name);
  }

  lemma {:induction false} RunStands(env: Env, plans: seq<TablePlan>, w: World, i: nat, res: Results, p: TablePlan,
      initial: seq<Row>, base: seq<Row>)
    requires i <= |plans| && res.reached == i && !res.aborted && Consistent(env, plans, p)
    requires WellKeyed(env.catalog.rules(p.name), GoodFeed(env, p))
    requires Standing(env, p, initial, base, w.store, Turns(plans[..i], p.name), p.name !in res.failed)
    ensures
      var (w', res') := RunSpec(env, plans, w, i, res);
      && i <= res'.reached <= |plans|
      && Standing(env, p, initial, FinalBase(env, plans, w, i, p.name, base), w'.store,
                  Turns(plans[..res'.reached], p.name), NoTurnFailed(plans, res', p.name))
    decreases |plans| - i
  {
    hide MigrateTableSpec, Standing, WellKeyed, SameFeed, Empties, Turns, NextBase;
    if i < |plans| {
      var q, here := plans[i], res.(reached := i + 1);
      OneMoreTurn(plans, i, p.name);
      if q.skipped {
        RunStands(env, plans, w, i + 1, here.(skipped := res.skipped + [q.name]), p, initial, base);
      } else {
        var (w1, verdict) := MigrateTableSpec(env, q, w);
        var base1 := NextBase(env, q, w, p.name, base);
        PlanStands(env, plans, i, p, initial, base, w, p.name !in res.failed);
        hide Consistent;
        if verdict.Completed? {
          RunStands(env, plans, w1, i + 1, here.(completed := res.completed + [q.name]), p, initial, base1);
        } else if verdict.Failed? && env.settings.continueOnError {
          RunStands(env, plans, w1, i + 1, here.(failed := res.failed + [q.name]), p, initial, base1);
        }
      }
    }
  }

  lemma OneMoreTurn(plans: seq<TablePlan>, i: nat, t: string)
    requires i < |plans|
    ensures Turns(plans[..i + 1], t) == Turns(plans[..i], t) + (if plans[i].name == t
          && !plans[i].skipped then 1 else 0)
  {
    assert plans[..i + 1][..i] == plans[..i];
  }

  /** One turn of the run, to p's table or to another. */
  lemma PlanStands(env: Env, plans: seq<TablePlan>, i: nat, p: TablePlan, initial: seq<Row>, base: seq<Row>, w: World,
      good: bool)
    requires i < |plans| && !plans[i].skipped && Consistent(env, plans, p)
    requires WellKeyed(env.catalog.rules(p.name), GoodFeed(env, p))
    requires Standing(env, p, initial, base, w.store, Turns(plans[..i], p.name), good)
    ensures
      var (w', verdict) := MigrateTableSpec(env, plans[i], w);
      Standing(env, p, initial, NextBase(env, plans[i], w, p.name, base), w'.store, Turns(plans[..i + 1], p.name),
               good && (plans[i].name == p.name ==> verdict.Completed?))
  {
    hide MigrateTableSpec, Standing, WellKeyed, SameFeed, Empties, Turns;
    OneMoreTurn(plans, i, p.name);
    if plans[i].name == p.name {
      TurnStands(env, p, plans[i], initial, base, w, Turns(plans[..i], p.name), good);
    } else {
      OtherStands(env, p, plans[i], initial, base, w, Turns(plans[..i], p.name), good);
    }
  }

  /** WHOLE-RUN FRAME. For every keyed table, requested once, repeatedly or never, truncated
      or not: it is untouched if the run never turned to it, holds its whole source over
      exactly the base left by the truncations if no turn to it failed, and a prefix of the
      source otherwise; with data excluded no row is added. */
  lemma RunOutcome(env: Env, plans: seq<TablePlan>, w: World, p: TablePlan, initial: seq<Row>)
    requires Consistent(env, plans, p) && CleanAt(w.store, p.name, initial)
    requires WellKeyed(env.catalog.rules(p.name), GoodFeed(env, p))
    ensures
      var (w', res') := RunSpec(env, plans, w, 0, NO_RESULTS);
      && res'.reached <= |plans|
      && Standing(env, p, initial, FinalBase(env, plans, w, 0, p.name, initial), w'.store,
                  Turns(plans[..res'.reached], p.name), NoTurnFailed(plans, res', p.name))
  {
    hide RunSpec, WellKeyed, Partial, Arrived;
    assert plans[..0] == [];
    CleanIsPartial(env, p, initial, w.store);
    BaseArrived(env, p, initial, initial);
    RunStands(env, plans, w, 0, NO_RESULTS, p, initial, initial);
  }

  lemma {:induction false} RunKeepsTables(env: Env, plans: seq<TablePlan>, w: World, i: nat, res: Results)
    requires i <= |plans|
    ensures KeepsTables(w.store, RunSpec(env, plans, w, i, res).0.store)
    decreases |plans| - i
  {
    hide MigrateTableSpec;
    if i < |plans| {
      var p, here := plans[i], res.(reached := i + 1);
      if p.skipped {
        RunKeepsTables(env, plans, w, i + 1, here.(skipped := res.skipped + [p.name]));
      } else {
        MigrateKeepsTables(env, p, w);
        var (w1, verdict) := MigrateTableSpec(env, p, w);
        if verdict.Completed? {
          RunKeepsTables(env, plans, w1, i + 1, here.(completed := res.completed + [p.name]));
        } else if verdict.Failed? && env.settings.continueOnError {
          RunKeepsTables(env, plans, w1, i + 1, here.(failed := res.failed + [p.name]));
        }
      }
    }
  }

  // ---------- What each list says ----------

  /** The world after plan p's turn. */
  function AfterTurn(env: Env, p: TablePlan, w: World): World {
    if p.skipped then w else MigrateTableSpec(env, p, w).0
  }

  /** What became of plan p in its turn; nothing if it was skipped. */
  function VerdictOf(env: Env, p: TablePlan, w: World): Option<Verdict> {
    if p.skipped then None else Some(MigrateTableSpec(env, p, w).1)
  }

  /** ws[0], ws[1], ... are the worlds before and after the turns of the plans. */
  ghost predicate Worlds(env: Env, plans: seq<TablePlan>, ws: seq<World>) {
    |ws| == |plans| + 1 && forall j :: 0 <= j < |plans| ==> ws[j + 1] == AfterTurn(env, plans[j], ws[j])
  }

  /** The names, in order, of the plans that ended with verdict v. */
  function Listed(env: Env, plans: seq<TablePlan>, ws: seq<World>, v: Option<Verdict>): seq<string>
    requires |ws| == |plans| + 1
  {
    if plans == [] then []
    else (if VerdictOf(env, plans[0], ws[0]) == v then [plans[0].name] else []) + Listed(env, plans[1..], ws[1..], v)
  }

  /** ws are the worlds of the turns from plan i on, and res' adds to res exactly what those
      turns came to; the last one is the only one that may have ended the run. */
  ghost predicate Explains(env: Env, plans: seq<TablePlan>, i: nat, res: Results, res': Results, ws: seq<World>) {
    && i <= res'.reached <= |plans|
    && var turns := plans[i..res'.reached];
    && Worlds(env, turns, ws)
    && res'.completed == res.completed + Listed(env, turns, ws, Some(Completed))
    && res'.failed == res.failed + Listed(env, turns, ws, Some(Failed))
    && res'.skipped == res.skipped + Listed(env, turns, ws, None)
    && Chained(env, turns, ws, res'.reached == |plans|, res'.aborted)
  }

  /** Every turn but the last lets the run go on; the last one stops it unless it was the
      last plan, and aborts it if it was aborted. */
  ghost predicate Chained(env: Env, turns: seq<TablePlan>, ws: seq<World>, whole: bool, aborted: bool)
    requires |ws| == |turns| + 1
  {
    && (forall j :: 0 <= j < |turns| - 1 ==> GoesOn(env, VerdictOf(env, turns[j], ws[j])))
    && (!whole ==> turns != [] && !GoesOn(env, VerdictOf(env, turns[|turns| - 1], ws[|turns| - 1])))
    && (aborted <==> turns != [] && VerdictOf(env, turns[|turns| - 1], ws[|turns| - 1]) == Some(Aborted))
  }

  /** EACH LIST SAYS WHAT HAPPENED. A run goes through worlds, one turn after the other, and
      its lists hold exactly the names, in order, of the plans whose own turn completed or
      failed, or that were skipped. It is aborted exactly if its last turn was; every turn
      before went on to the next. */
  lemma {:induction false} RunTrace(env: Env, plans: seq<TablePlan>, w: World, i: nat, res: Results)
    returns (ws: seq<World>)
    requires i <= |plans| && res.reached == i && !res.aborted
    ensures
      var (w', res') := RunSpec(env, plans, w, i, res);
      Explains(env, plans, i, res, res', ws) && ws[0] == w && ws[res'.reached - i] == w'
    decreases |plans| - i
  {
    if i == |plans| {
      ws := [w];
      assert plans[i..i] == [];
    } else {
      hide AfterTurn, VerdictOf, Explains;
      var p, here := plans[i], res.(reached := i + 1);
      var w1, v := AfterTurn(env, p, w), VerdictOf(env, p, w);
      RunTurn(env, plans, w, i, res);
      hide RunSpec;
      var next := NextResults(res, p.name, v);
      if GoesOn(env, v) {
        var more := RunTrace(env, plans, w1, i + 1, next);
        ws := [w] + more;
        ExplainsBefore(env, plans, w, i, res, RunSpec(env, plans, w1, i + 1, next).1, more);
      } else {
        ws := [w, w1];
        ExplainsLast(env, plans, w, i, res);
      }
    }
  }

  /** The results after a turn with this verdict. */
  function NextResults(res: Results, name: string, v: Option<Verdict>): Results {
    var here := res.(reached := res.reached + 1);
    match v
    case None => here.(skipped := res.skipped + [name])
    case Some(Completed) => here.(completed := res.completed + [name])
    case Some(Failed) => here.(failed := res.failed + [name])
    case Some(Aborted) => here.(aborted := true)
  }

  lemma ExplainsBefore(env: Env, plans: seq<TablePlan>, w: World, i: nat, res: Results, res': Results, more: seq<World>)
    requires i < |plans| && res.reached == i && GoesOn(env, VerdictOf(env, plans[i], w))
    requires Explains(env, plans, i + 1, NextResults(res, plans[i].name, VerdictOf(env, plans[i], w)), res', more)
    requires more[0] == AfterTurn(env, plans[i], w)
    ensures Explains(env, plans, i, res, res', [w] + more)
  {
    hide AfterTurn, VerdictOf, Listed, GoesOn, Chained;
    var p, rest, turns := plans[i], plans[i + 1..res'.reached], plans[i..res'.reached];
    assert turns == [p] + rest;
    TurnBefore(env, p, rest, w, more);
    ChainedBefore(env, p, rest, w, more, res'.reached == |plans|, res'.aborted);
  }

  lemma ChainedBefore(env: Env, p: TablePlan, rest: seq<TablePlan>, w: World, more: seq<World>, whole: bool,
      aborted: bool)
    requires |more| == |rest| + 1 && Chained(env, rest, more, whole, aborted) && GoesOn(env, VerdictOf(env, p, w))
    ensures Chained(env, [p] + rest, [w] + more, whole, aborted)
  {
    var turns, ws := [p] + rest, [w] + more;
    hide VerdictOf;
    assert forall j :: 1 <= j < |turns| ==> turns[j] == rest[j - 1] && ws[j] == more[j - 1];
  }

  lemma ExplainsLast(env: Env, plans: seq<TablePlan>, w: World, i: nat, res: Results)
    requires i < |plans| && res.reached == i && !res.aborted && !GoesOn(env, VerdictOf(env, plans[i], w))
    ensures Explains(env, plans, i, res, NextResults(res, plans[i].name, VerdictOf(env, plans[i], w)),
                     [w, AfterTurn(env, plans[i], w)])
  {
    hide AfterTurn, VerdictOf, Listed;
    assert plans[i..i + 1] == [plans[i]];
    OneTurn(env, plans[i], w);
  }

  /** The run goes on after a turn unless it failed without continue_on_error, or was aborted. */
  predicate GoesOn(env: Env, v: Option<Verdict>) {
    v.None? || v.value.Completed? || (v.value.Failed? && env.settings.continueOnError)
  }

  lemma RunTurn(env: Env, plans: seq<TablePlan>, w: World, i: nat, res: Results)
    requires i < |plans| && res.reached == i
    ensures
      var w1, v := AfterTurn(env, plans[i], w), VerdictOf(env, plans[i], w);
      var next := NextResults(res, plans[i].name, v);
      RunSpec(env, plans, w, i, res) == if GoesOn(env, v) then RunSpec(env, plans, w1, i + 1, next) else (w1, next)
  {
  }

  lemma OneTurn(env: Env, p: TablePlan, w: World)
    ensures
      var ws := [w, AfterTurn(env, p, w)];
      && Worlds(env, [p], ws)
      && forall v :: Listed(env, [p], ws, v) == if VerdictOf(env, p, w) == v then [p.name] else []
  {
    hide AfterTurn, VerdictOf;
    var ws := [w, AfterTurn(env, p, w)];
    assert [p][1..] == [] && ws[1..] == [AfterTurn(env, p, w)];
    forall v ensures Listed(env, [p], ws, v) == if VerdictOf(env, p, w) == v then [p.name] else [] {
      assert Listed(env, [p][1..], ws[1..], v) == [];
    }
  }

  lemma TurnBefore(env: Env, p: TablePlan, plans: seq<TablePlan>, w: World, ws: seq<World>)
    requires Worlds(env, plans, ws) && ws[0] == AfterTurn(env, p, w)
    ensures Worlds(env, [p] + plans, [w] + ws)
    ensures forall v ::
      Listed(env, [p] + plans, [w] + ws, v)
        == (if VerdictOf(env, p, w) == v then [p.name] else []) + Listed(env, plans, ws, v)
  {
    hide AfterTurn, VerdictOf;
    assert ([p] + plans)[1..] == plans && ([w] + ws)[1..] == ws;
  }

  /** The names of the plans that are not skipped. */
  function Unskipped(plans: seq<TablePlan>): seq<string> {
    if plans == [] then [] else (if plans[0].skipped then [] else [plans[0].name]) + Unskipped(plans[1..])
  }

  /** Nothing stands in the way of plan p: its table is there or gets created, and the rows
      sent, if any are, can be mapped and fit the table's columns. */
  ghost predicate Feasible(env: Env, p: TablePlan, s: Store) {
    && (env.settings.includeSchema || p.name in s.live)
    && (env.settings.includeData ==>
          && Good(env, p) == |Feed(env, p)|
          && forall i :: 0 <= i < |Feed(env, p)| ==> {} < Feed(env, p)[i].Keys <= env.catalog.columns(p.name))
  }

  lemma MigrateSucceeds(env: Env, p: TablePlan, w: World)
    requires Feasible(env, p, w.store) && forall n: nat :: env.fate(n) == Fine
    ensures MigrateTableSpec(env, p, w).1 == Completed
  {
    PrepareSucceeds(env, p.name, w);
    hide PrepareSpec, CopySpec, Feed, Good;
    if env.settings.includeData {
      FaultFreeCompletes(env, p.name, Feed(env, p), PrepareSpec(env, p.name, w).0, 0);
    }
  }

  lemma PrepareSucceeds(env: Env, t: string, w: World)
    requires (env.settings.includeSchema || t in w.store.live) && forall n: nat :: env.fate(n) == Fine
    ensures PrepareSpec(env, t, w).1 == Completed && t in PrepareSpec(env, t, w).0.store.live
  {
  }

  /** A RUN IN WHICH NO CALL FAILS COMPLETES EVERYTHING: the completed tables are the planned
      ones that are not skipped, none failed, whatever the settings. */
  lemma {:induction false} RunSucceeds(env: Env, plans: seq<TablePlan>, w: World, i: nat, res: Results)
    requires i <= |plans| && !res.aborted && w.store.durable.Keys <= w.store.live.Keys
    requires forall n: nat :: env.fate(n) == Fine
    requires forall j :: i <= j < |plans| && !plans[j].skipped ==> Feasible(env, plans[j], w.store)
    ensures
      var res' := RunSpec(env, plans, w, i, res).1;
      && !res'.aborted && res'.failed == res.failed
      && res'.completed == res.completed + Unskipped(plans[i..])
    decreases |plans| - i
  {
    hide MigrateTableSpec, Feed, Good;
    if i < |plans| {
      var p, here := plans[i], res.(reached := i + 1);
      assert plans[i..][1..] == plans[i + 1..];
      if p.skipped {
        RunSucceeds(env, plans, w, i + 1, here.(skipped := res.skipped + [p.name]));
      } else {
        assert Feasible(env, p, w.store);
        MigrateSucceeds(env, p, w);
        MigrateKeepsTables(env, p, w);
        var w1 := MigrateTableSpec(env, p, w).0;
        forall j | i + 1 <= j < |plans| && !plans[j].skipped ensures Feasible(env, plans[j], w1.store) {
          assert Feasible(env, plans[j], w.store);
        }
        RunSucceeds(env, plans, w1, i + 1, here.(completed := res.completed + [p.name]));
      }
    } else {
      assert plans[i..] == [];
    }
  }

  // ---------- Accounting ----------

  /** The three lists divide the plans, in order: each plan's name is in exactly one of
      them, skipped plans in `skipped`. */
  ghost predicate Splits(plans: seq<TablePlan>, completed: seq<string>, skipped: seq<string>, failed: seq<string>) {
    if plans == [] then completed == [] && skipped == [] && failed == []
    else
      var n := |plans| - 1;
      var p := plans[n];
      if p.skipped then
        EndsWith(skipped, p.name) && Splits(plans[..n], completed, skipped[..|skipped| - 1], failed)
      else
        || (EndsWith(completed, p.name) && Splits(plans[..n], completed[..|completed| - 1], skipped, failed))
        || (EndsWith(failed, p.name) && Splits(plans[..n], completed, skipped, failed[..|failed| - 1]))
  }

  predicate EndsWith(s: seq<string>, x: string) {
    s != [] && s[|s| - 1] == x
  }

  lemma SplitsOneMore(plans: seq<TablePlan>, i: nat, completed: seq<string>, skipped: seq<string>, failed: seq<string>)
    requires i < |plans| && Splits(plans[..i], completed, skipped, failed)
    ensures plans[i].skipped ==> Splits(plans[..i + 1], completed, skipped + [plans[i].name], failed)
    ensures !plans[i].skipped ==> Splits(plans[..i + 1], completed + [plans[i].name], skipped, failed)
    ensures !plans[i].skipped ==> Splits(plans[..i + 1], completed, skipped, failed + [plans[i].name])
  {
    assert plans[..i + 1][..i] == plans[..i];
    assert (completed + [plans[i].name])[..|completed|] == completed;
    assert (skipped + [plans[i].name])[..|skipped|] == skipped;
    assert (failed + [plans[i].name])[..|failed|] == failed;
  }

  /** RESULT ACCOUNTING. The result lists split the plans reached, in order (all of them but
      the one at which a run was aborted). */
  lemma {:induction false} RunAccounts(env: Env, plans: seq<TablePlan>, w: World, i: nat, res: Results)
    requires i <= |plans| && res.reached == i && !res.aborted
    requires Splits(plans[..i], res.completed, res.skipped, res.failed)
    ensures
      var res' := RunSpec(env, plans, w, i, res).1;
      && i <= res'.reached <= |plans| && (res'.aborted ==> res'.reached > i)
      && Splits(plans[..res'.reached - (if res'.aborted then 1 else 0)], res'.completed, res'.skipped, res'.failed)
    decreases |plans| - i
  {
    hide MigrateTableSpec, Splits;
    if i < |plans| {
      var p := plans[i];
      var here := res.(reached := i + 1);
      var (w1, verdict) := MigrateTableSpec(env, p, w);
      SplitsOneMore(plans, i, res.completed, res.skipped, res.failed);
      if p.skipped {
        RunAccounts(env, plans, w, i + 1, here.(skipped := res.skipped + [p.name]));
      } else if verdict.Completed? {
        RunAccounts(env, plans, w1, i + 1, here.(completed := res.completed + [p.name]));
      } else if verdict.Failed? && env.settings.continueOnError {
        RunAccounts(env, plans, w1, i + 1, here.(failed := res.failed + [p.name]));
      }
    }
  }

  /** WHERE A RUN STOPS. A run that is not aborted goes through the whole plan if it may
      continue on errors or nothing fails; otherwise it ends at its single failed table. */
  lemma {:induction false} RunStops(env: Env, plans: seq<TablePlan>, w: World, i: nat, res: Results)
    requires i <= |plans| && res.reached == i && !res.aborted
    ensures
      var res' := RunSpec(env, plans, w, i, res).1;
      && i <= res'.reached <= |plans| && res.failed <= res'.failed
      && (!res'.aborted && (env.settings.continueOnError || res'.failed == res.failed) ==> res'.reached == |plans|)
      && (!res'.aborted && !env.settings.continueOnError && res'.failed != res.failed ==>
            res'.reached > 0 && res'.failed == res.failed + [plans[res'.reached - 1].name])
    decreases |plans| - i
  {
    hide MigrateTableSpec;
    if i < |plans| {
      var p := plans[i];
      var here := res.(reached := i + 1);
      var (w1, verdict) := MigrateTableSpec(env, p, w);
      if p.skipped {
        RunStops(env, plans, w, i + 1, here.(skipped := res.skipped + [p.name]));
      } else if verdict.Completed? {
        RunStops(env, plans, w1, i + 1, here.(completed := res.completed + [p.name]));
      } else if verdict.Failed? && env.settings.continueOnError {
        RunStops(env, plans, w1, i + 1, here.(failed := res.failed + [p.name]));
      }
    }
  }

  /** Every plan among those split is in one of the lists. */
  lemma {:induction false} SplitsCovers(plans: seq<TablePlan>, completed: seq<string>, skipped: seq<string>,
      failed: seq<string>)
    requires Splits(plans, completed, skipped, failed)
    ensures |completed| + |skipped| + |failed| == |plans|
    ensures forall p :: p in plans ==> p.name in completed || p.name in skipped || p.name in failed
    decreases |plans|
  {
    if plans != [] {
      var n := |plans| - 1;
      var p := plans[n];
      assert plans == plans[..n] + [p];
      if p.skipped {
        SplitsCovers(plans[..n], completed, skipped[..|skipped| - 1], failed);
      } else if EndsWith(completed, p.name) && Splits(plans[..n], completed[..|completed| - 1], skipped, failed) {
        SplitsCovers(plans[..n], completed[..|completed| - 1], skipped, failed);
      } else {
        SplitsCovers(plans[..n], completed, skipped, failed[..|failed| - 1]);
      }
    }
  }

  /** Rows the planner announces for the plans from number i on. */
  function PlannedRows(plans: seq<TablePlan>): nat {
    if plans == [] then 0 else (if plans[0].skipped then 0 else plans[0].rowCount) + PlannedRows(plans[1..])
  }

  lemma MigrateCounts(env: Env, p: TablePlan, w: World)
    requires ReportsOk(w)
    ensures
      var (w', verdict) := MigrateTableSpec(env, p, w);
      && ReportsOk(w')
      && w.total <= w'.total <= w.total + |env.source(p.name)|
      && (!env.settings.includeData ==> w'.total == w.total)
      && (env.settings.includeData && env.settings.batchSize > 0 && verdict.Completed? ==>
            w'.total == w.total + |env.source(p.name)|)
  {
    hide CopySpec, Feed, Good, ReportsOk;
    PrepareCounts(env, p.name, w);
    var (w1, verdict) := PrepareSpec(env, p.name, w);
    if verdict.Completed? && env.settings.includeData {
      CopyCounts(env, p.name, Feed(env, p), Good(env, p), w1, 0, 0);
    }
  }

  lemma PrepareCounts(env: Env, t: string, w: World)
    requires ReportsOk(w)
    ensures ReportsOk(PrepareSpec(env, t, w).0) && PrepareSpec(env, t, w).0.total == w.total
  {
  }

  /** CONSERVATION. With exact row counts, the running total never exceeds the planned total
      and ends exactly there when no table failed; without data it stays 0. */
  lemma {:induction false} RunTotals(env: Env, plans: seq<TablePlan>, w: World, i: nat, res: Results)
    requires i <= |plans| && ReportsOk(w)
    requires forall j :: 0 <= j < |plans| ==> plans[j].rowCount == |env.source(plans[j].name)|
    ensures
      var (w', res') := RunSpec(env, plans, w, i, res);
      && ReportsOk(w')
      && w.total <= w'.total <= w.total + PlannedRows(plans[i..])
      && (!env.settings.includeData ==> w'.total == w.total)
      && (env.settings.includeData && env.settings.batchSize > 0 && !res'.aborted && res'.failed == res.failed ==>
            w'.total == w.total + PlannedRows(plans[i..]))
      && res.failed <= res'.failed
    decreases |plans| - i
  {
    hide MigrateTableSpec, ReportsOk;
    if i < |plans| {
      var p := plans[i];
      assert plans[i..][1..] == plans[i + 1..];
      var here := res.(reached := i + 1);
      MigrateCounts(env, p, w);
      var (w1, verdict) := MigrateTableSpec(env, p, w);
      if p.skipped {
        RunTotals(env, plans, w, i + 1, here.(skipped := res.skipped + [p.name]));
      } else if verdict.Completed? {
        RunTotals(env, plans, w1, i + 1, here.(completed := res.completed + [p.name]));
      } else if verdict.Failed? && env.settings.continueOnError {
        RunTotals(env, plans, w1, i + 1, here.(failed := res.failed + [p.name]));
      }
    } else {
      assert plans[i..] == [];
    }
  }
}
