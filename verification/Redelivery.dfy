/** A task that is delivered again while its first worker is still copying: any number of
    workers empty the same keyed table and send the same source to it at the same time. */
module Redelivery {
  import opened Common
  import opened ConflictRules
  import opened Schema
  import opened Destination
  import opened Executor
  import opened Copying
  import opened Counting

  /** The committed tables; the connection with uncommitted rows, if there is one (it locks
      the database for the others), and the tables as it sees them; and how many rows of
      the source each worker has counted. */
  datatype Cluster = Cluster(
    committed: map<string, seq<Row>>,
    writer: Option<nat>,
    pending: map<string, seq<Row>>,
    workers: map<nat, nat>)

  /** One move of one worker. With autocommit, rows of two batches may alternate; as rows
      that arrived are ignored later, that is a batch that raises after ever more rows. */
  datatype Move =
    | Joins(id: nat)                          // a delivered task begins with the table
    | Truncates(id: nat, fate: Fate)          // it empties the table before it copies
    | Inserts(id: nat, size: nat, fate: Fate) // one attempt to insert its next batch
    | Leaves(id: nat)                         // it is done, fails or is lost: its connection closes

  function ViewOf(c: Cluster, id: nat): Store {
    Store(if c.writer == Some(id) then c.pending else c.committed, c.committed)
  }

  function Closed(c: Cluster, id: nat): Cluster {
    Cluster(c.committed, if c.writer == Some(id) then None else c.writer, c.pending, c.workers - {id})
  }

  /** The cluster after a call of worker `id` that left store s and may advance it to `end`. */
  function AfterCall(c: Cluster, id: nat, end: nat, s: Store, reply: Reply): Cluster {
    var c1 := Cluster(s.durable, if s.live == s.durable then None else Some(id), s.live, c.workers);
    match reply
    case Returned => c1.(workers := c.workers[id := end])
    case Raised => c1
    case Lost => Closed(c1, id)
  }

  /** The worker is there and no other connection holds the lock. */
  predicate MayWrite(c: Cluster, id: nat) {
    id in c.workers && (c.writer.None? || c.writer == Some(id))
  }

  function Make(cat: Catalog, t: string, T: seq<Row>, c: Cluster, m: Move): Cluster {
    match m
    case Joins(id) => if id in c.workers then c else c.(workers := c.workers[id := 0])
    case Leaves(id) => Closed(c, id)
    case Truncates(id, fate) =>
      if !MayWrite(c, id) || c.workers[id] != 0 then c
      else
        var (s, reply) := TruncateOp(ViewOf(c, id), t, fate);
        AfterCall(c, id, 0, s, reply)
    case Inserts(id, size, fate) =>
      if !MayWrite(c, id) || c.workers[id] >= |T| || size == 0 then c
      else
        var end := Min(c.workers[id] + size, |T|);
        var (s, reply) := InsertOp(cat, ViewOf(c, id), t, T[c.workers[id]..end], fate);
        AfterCall(c, id, end, s, reply)
  }

  function MakeAll(cat: Catalog, t: string, T: seq<Row>, c: Cluster, moves: seq<Move>): Cluster {
    if moves == [] then c
    else Make(cat, t, T, MakeAll(cat, t, T, c, moves[..|moves| - 1]), moves[|moves| - 1])
  }

  // ---------- What the workers together have delivered ----------

  /** Rows T[from..k] are committed over the base; the writer sees T[from..j] over its own
      base, which is another one only while a truncation is pending (`cleared`). */
  datatype Reach = Reach(base: seq<Row>, k: nat, writerBase: seq<Row>, j: nat, cleared: bool)

  function Settled(base: seq<Row>, k: nat): Reach {
    Reach(base, k, base, k, false)
  }

  ghost predicate Reached(rules: Rules<Row>, t: string, T: seq<Row>, from: nat, c: Cluster, g: Reach) {
    && from <= g.k <= |T| && from <= g.j <= |T|
    && Rows(c.committed, t) == Insert(rules, g.base, T[from..g.k])
    && (c.writer.Some? ==> Rows(c.pending, t) == Insert(rules, g.writerBase, T[from..g.j]))
    && (c.writer.None? ==> g == Settled(g.base, g.k))
    && (!g.cleared ==> g.writerBase == g.base && g.k <= g.j)
    && (g.cleared ==> forall id :: id in c.workers ==> c.workers[id] == 0)
    && (forall id :: id in c.workers ==> from <= c.workers[id] <= g.k && c.workers[id] <= g.j)
  }

  /** The base stays, and nothing committed is lost. */
  predicate Onward(g: Reach, g': Reach) {
    !g'.cleared && g'.base == g.base && g.k <= g'.k
  }

  /** Part of a batch, from somewhere among the rows that arrived, extends what the writer
      sees; a commit makes it everybody's. */
  lemma InsertLands(cat: Catalog, t: string, T: seq<Row>, from: nat, s: Store, lo: nat, end: nat, fate: Fate, g: Reach)
    returns (j': nat)
    requires WellKeyed(cat.rules(t), T) && from <= lo < end <= |T| && lo <= g.j <= |T|
    requires Rows(s.live, t) == Insert(cat.rules(t), g.writerBase, T[from..g.j])
    ensures
      var (s', reply) := InsertOp(cat, s, t, T[lo..end], fate);
      && g.j <= j' <= |T|
      && Rows(s'.live, t) == Insert(cat.rules(t), g.writerBase, T[from..j'])
      && (s'.durable == s'.live || s'.durable == s.durable)
      && (reply.Returned? ==> end <= j' && s'.durable == s'.live)
  {
    hide InsertOp, Insert, Keyed, Uniform;
    InsertOpShape(cat, T, lo, end, s, t, fate);
    j' := g.j;
    if Accepts(cat, s, t, T[lo..end]) {
      var m := lo + Landed(end - lo, fate);
      j' := Max(g.j, m);
      ReplayFrom(cat.rules(t), g.writerBase, T, from, lo, g.j, m);
    }
  }

  /** ConflictRules.Replay for rows that arrived from number `from` on. */
  lemma ReplayFrom<R>(rules: Rules<R>, base: seq<R>, T: seq<R>, from: nat, i: nat, j: nat, k: nat)
    requires Keyed(rules, T) && from <= i <= j <= |T| && i <= k <= |T|
    ensures Insert(rules, Insert(rules, base, T[from..j]), T[i..k]) == Insert(rules, base, T[from..Max(j, k)])
  {
    hide Insert, Keyed;
    var S := T[from..];
    SliceOfRest(T, from, from, j);
    SliceOfRest(T, from, i, k);
    SliceOfRest(T, from, from, Max(j, k));
    RestKeyed(rules, T, from);
    assert S[..j - from] == S[from - from..j - from] && S[..Max(j, k) - from] == S[from - from..Max(j, k) - from];
    Replay(rules, base, S, i - from, j - from, k - from);
  }

  lemma SliceOfRest<R>(T: seq<R>, from: nat, i: nat, k: nat)
    requires from <= i <= k <= |T|
    ensures T[from..][i - from..k - from] == T[i..k]
  {
  }

  lemma RestKeyed<R>(rules: Rules<R>, T: seq<R>, from: nat)
    requires Keyed(rules, T) && from <= |T|
    ensures Keyed(rules, T[from..])
  {
    assert forall i :: 0 <= i < |T| - from ==> T[from..][i] == T[from + i];
  }

  lemma ViewReached(rules: Rules<Row>, t: string, T: seq<Row>, from: nat, c: Cluster, id: nat, g: Reach)
    requires Reached(rules, t, T, from, c, g) && MayWrite(c, id)
    ensures from <= c.workers[id] <= g.j <= |T|
    ensures Rows(ViewOf(c, id).live, t) == Insert(rules, g.writerBase, T[from..g.j])
    ensures Rows(ViewOf(c, id).durable, t) == Insert(rules, g.base, T[from..g.k])
  {
    hide Insert;
  }

  /** A call that changed what the writer sees to T[from..j'] over wb, and perhaps committed it. */
  lemma CallReaches(rules: Rules<Row>, t: string, T: seq<Row>, from: nat, c: Cluster, id: nat, end: nat, s: Store,
      reply: Reply, g: Reach, wb: seq<Row>, j': nat, cleared: bool) returns (g': Reach)
    requires Reached(rules, t, T, from, c, g) && id in c.workers && from <= j' <= |T|
    requires forall k :: k in c.workers ==> c.workers[k] <= j'
    requires Rows(s.live, t) == Insert(rules, wb, T[from..j'])
    requires !cleared ==> wb == g.base && g.k <= j'
    requires cleared ==> forall k :: k in c.workers ==> c.workers[k] == 0
    requires s.durable == s.live || s.durable == c.committed
    requires reply.Returned? ==> from <= end <= j' && s.durable == s.live
    ensures Reached(rules, t, T, from, AfterCall(c, id, end, s, reply), g')
    ensures g' in [Settled(wb, j'), Settled(g.base, g.k), Reach(g.base, g.k, wb, j', cleared)]
  {
    hide Insert;
    if s.durable == s.live && (s.durable != c.committed || reply.Returned?) {
      g' := Settled(wb, j');
    } else if s.durable == s.live || reply.Lost? {
      g' := Settled(g.base, g.k);
    } else {
      g' := Reach(g.base, g.k, wb, j', cleared);
    }
  }

  lemma InsertReaches(cat: Catalog, t: string, T: seq<Row>, from: nat, c: Cluster, m: Move, g: Reach)
    returns (g': Reach)
    requires WellKeyed(cat.rules(t), T) && Reached(cat.rules(t), t, T, from, c, g)
    requires m.Inserts? && MayWrite(c, m.id) && c.workers[m.id] < |T| && m.size > 0
    ensures Reached(cat.rules(t), t, T, from, Make(cat, t, T, c, m), g')
    ensures g'.base in [g.base, g.writerBase] && g'.writerBase in [g.base, g.writerBase]
    ensures !g.cleared ==> Onward(g, g')
  {
    hide InsertOp, Insert, WellKeyed, AfterCall, Rows, ViewOf, Reached;
    NobodyBeyond(cat.rules(t), t, T, from, c, g);
    var view, lo, end := ViewOf(c, m.id), c.workers[m.id], Min(c.workers[m.id] + m.size, |T|);
    ViewReached(cat.rules(t), t, T, from, c, m.id, g);
    var j' := InsertLands(cat, t, T, from, view, lo, end, m.fate, g);
    var (s, reply) := InsertOp(cat, view, t, T[lo..end], m.fate);
    assert view.durable == c.committed by { ViewDurable(c, m.id); }
    g' := CallReaches(cat.rules(t), t, T, from, c, m.id, end, s, reply, g, g.writerBase, j', g.cleared);
  }

  /** What is known of the workers' counts and of the writer's rows. */
  lemma NobodyBeyond(rules: Rules<Row>, t: string, T: seq<Row>, from: nat, c: Cluster, g: Reach)
    requires Reached(rules, t, T, from, c, g)
    ensures from <= g.j <= |T| && forall id :: id in c.workers ==> from <= c.workers[id] <= g.j
    ensures !g.cleared ==> g.writerBase == g.base && g.k <= g.j
    ensures g.cleared ==> forall id :: id in c.workers ==> c.workers[id] == 0
  {
    hide Insert;
  }

  lemma ViewDurable(c: Cluster, id: nat)
    ensures ViewOf(c, id).durable == c.committed
  {
  }

  /** The truncation of a worker that may write takes effect, at least for itself. */
  predicate Empties(t: string, c: Cluster, m: Move) {
    && m.Truncates? && MayWrite(c, m.id) && c.workers[m.id] == 0
    && t in ViewOf(c, m.id).live && Landed(1, m.fate) > 0
  }

  /** A truncation is harmless if nobody has counted a row yet. */
  predicate Harmless(t: string, c: Cluster, m: Move) {
    Empties(t, c, m) ==> forall id :: id in c.workers ==> c.workers[id] == 0
  }

  lemma TruncateReaches(cat: Catalog, t: string, T: seq<Row>, c: Cluster, m: Move, g: Reach) returns (g': Reach)
    requires Reached(cat.rules(t), t, T, 0, c, g) && Harmless(t, c, m)
    requires m.Truncates? && MayWrite(c, m.id) && c.workers[m.id] == 0
    ensures Reached(cat.rules(t), t, T, 0, Make(cat, t, T, c, m), g')
    ensures g'.base in [g.base, g.writerBase, []] && g'.writerBase in [g.base, g.writerBase, []]
    ensures !Empties(t, c, m) && !g.cleared ==> Onward(g, g')
  {
    hide TruncateOp, Insert, AfterCall, Rows, ViewOf;
    var rules, view := cat.rules(t), ViewOf(c, m.id);
    ViewReached(rules, t, T, 0, c, m.id, g);
    TruncateEffect(view, t, m.fate);
    var (s, reply) := TruncateOp(view, t, m.fate);
    assert view.durable == c.committed by { ViewDurable(c, m.id); }
    NothingSent(rules, T);
    if Empties(t, c, m) {
      g' := CallReaches(rules, t, T, 0, c, m.id, 0, s, reply, g, [], 0, true);
    } else {
      NobodyBeyond(rules, t, T, 0, c, g);
      g' := CallReaches(rules, t, T, 0, c, m.id, 0, s, reply, g, g.writerBase, g.j, g.cleared);
    }
  }

  lemma TruncateEffect(s: Store, t: string, fate: Fate)
    ensures
      var (s', reply) := TruncateOp(s, t, fate);
      && Rows(s'.live, t) == (if t in s.live && Landed(1, fate) > 0 then [] else Rows(s.live, t))
      && (s'.durable == s'.live || s'.durable == s.durable)
      && (reply.Returned? ==> s'.durable == s'.live)
  {
  }

  lemma NothingSent<R>(rules: Rules<R>, T: seq<R>)
    ensures forall x :: Insert(rules, x, T[0..0]) == x
  {
  }

  /** One move of anybody. Rows before `from` may be missing for those who are there; then
      nobody may start over. */
  lemma MoveReaches(cat: Catalog, t: string, T: seq<Row>, from: nat, c: Cluster, m: Move, g: Reach) returns (g': Reach)
    requires WellKeyed(cat.rules(t), T) && Reached(cat.rules(t), t, T, from, c, g)
    requires if from == 0 then Harmless(t, c, m) else !m.Joins? && !m.Truncates?
    ensures Reached(cat.rules(t), t, T, from, Make(cat, t, T, c, m), g')
    ensures g'.base in [g.base, g.writerBase, []] && g'.writerBase in [g.base, g.writerBase, []]
    ensures !Empties(t, c, m) && !g.cleared ==> Onward(g, g')
  {
    hide Insert, WellKeyed;
    g' := g;
    if m.Inserts? && MayWrite(c, m.id) && c.workers[m.id] < |T| && m.size > 0 {
      g' := InsertReaches(cat, t, T, from, c, m, g);
    } else if m.Truncates? && MayWrite(c, m.id) && c.workers[m.id] == 0 {
      g' := TruncateReaches(cat, t, T, c, m, g);
    } else if m.Leaves? && c.writer == Some(m.id) {
      g' := Settled(g.base, g.k);
    }
  }

  // ---------- Whole histories ----------

  /** Every truncation that takes effect finds that nobody has counted a row. (If rows before
      `from` may be missing, nobody starts over.) */
  ghost predicate Fair(cat: Catalog, t: string, T: seq<Row>, from: nat, c: Cluster, moves: seq<Move>) {
    forall i :: 0 <= i < |moves| ==>
      if from == 0 then Harmless(t, MakeAll(cat, t, T, c, moves[..i]), moves[i])
      else !moves[i].Joins? && !moves[i].Truncates?
  }

  predicate NoTruncation(moves: seq<Move>) {
    forall i :: 0 <= i < |moves| ==> !moves[i].Truncates?
  }

  lemma FairPrefix(cat: Catalog, t: string, T: seq<Row>, from: nat, c: Cluster, moves: seq<Move>)
    requires moves != [] && Fair(cat, t, T, from, c, moves)
    ensures Fair(cat, t, T, from, c, moves[..|moves| - 1])
    ensures
      var n := |moves| - 1;
      if from == 0 then Harmless(t, MakeAll(cat, t, T, c, moves[..n]), moves[n])
      else !moves[n].Joins? && !moves[n].Truncates?
  {
    hide Harmless, MakeAll;
    var some := moves[..|moves| - 1];
    forall i | 0 <= i < |some|
      ensures if from == 0 then Harmless(t, MakeAll(cat, t, T, c, some[..i]), some[i])
              else !some[i].Joins? && !some[i].Truncates?
    {
      assert some[..i] == moves[..i];
    }
  }

  /** CONCURRENT WORKERS CONVERGE. Whatever any number of workers do in any order, as long as
      no truncation takes effect when somebody has counted rows: the committed rows are a
      prefix of the source over the initial or emptied table, one that holds all rows that
      anybody counted; without truncation it is over the initial rows and never shrinks. */
  lemma {:induction false} WorkersConverge(cat: Catalog, t: string, T: seq<Row>, from: nat, c: Cluster,
      moves: seq<Move>, g: Reach) returns (g': Reach)
    requires WellKeyed(cat.rules(t), T) && Reached(cat.rules(t), t, T, from, c, g)
    requires Fair(cat, t, T, from, c, moves)
    ensures Reached(cat.rules(t), t, T, from, MakeAll(cat, t, T, c, moves), g')
    ensures g'.base in [g.base, g.writerBase, []] && g'.writerBase in [g.base, g.writerBase, []]
    ensures NoTruncation(moves) && !g.cleared ==> Onward(g, g')
    decreases |moves|
  {
    hide Make, WellKeyed, Reached, Harmless;
    g' := g;
    if moves != [] {
      var n := |moves| - 1;
      FairPrefix(cat, t, T, from, c, moves);
      g' := WorkersConverge(cat, t, T, from, c, moves[..n], g);
      g' := MoveReaches(cat, t, T, from, MakeAll(cat, t, T, c, moves[..n]), moves[n], g');
    }
  }

  /** The database before anybody came. */
  function Quiet(tables: map<string, seq<Row>>): Cluster {
    Cluster(tables, None, tables, map[])
  }

  lemma QuietReached(rules: Rules<Row>, t: string, T: seq<Row>, tables: map<string, seq<Row>>)
    ensures Reached(rules, t, T, 0, Quiet(tables), Settled(Rows(tables, t), 0))
  {
    NothingSent(rules, T);
  }

  /** DELIVERED ONCE FOR ALL. As soon as one worker has delivered its last batch, the table
      holds exactly what one undisturbed worker would have left over the initial or the
      emptied rows, and it stays so until somebody truncates it. */
  lemma DeliveredOnceForAll(cat: Catalog, t: string, T: seq<Row>, tables: map<string, seq<Row>>, moves: seq<Move>,
      later: seq<Move>, id: nat)
    requires WellKeyed(cat.rules(t), T)
    requires Fair(cat, t, T, 0, Quiet(tables), moves) && NoTruncation(later)
    ensures
      var c := MakeAll(cat, t, T, Quiet(tables), moves);
      var rows := Rows(MakeAll(cat, t, T, c, later).committed, t);
      id in c.workers && c.workers[id] == |T| ==>
        || rows == Insert(cat.rules(t), Rows(tables, t), T)
        || (rows == Insert(cat.rules(t), [], T) && !NoTruncation(moves))
  {
    hide MakeAll, Insert, WellKeyed, Harmless, Reached, Rows;
    var rules, g := cat.rules(t), Settled(Rows(tables, t), 0);
    var c := MakeAll(cat, t, T, Quiet(tables), moves);
    QuietReached(rules, t, T, tables);
    UntruncatedIsFair(cat, t, T, c, later);
    hide Fair;
    var g1 := WorkersConverge(cat, t, T, 0, Quiet(tables), moves, g);
    if id in c.workers && c.workers[id] == |T| {
      DeliveredReach(rules, t, T, c, g1, id);
      var g2 := WorkersConverge(cat, t, T, 0, c, later, g1);
      ReachRows(rules, t, T, MakeAll(cat, t, T, c, later), g2);
    }
  }

  lemma UntruncatedIsFair(cat: Catalog, t: string, T: seq<Row>, c: Cluster, moves: seq<Move>)
    requires NoTruncation(moves)
    ensures Fair(cat, t, T, 0, c, moves)
  {
    hide MakeAll;
  }

  /** A worker that counted every row shows that every row arrived. */
  lemma DeliveredReach(rules: Rules<Row>, t: string, T: seq<Row>, c: Cluster, g: Reach, id: nat)
    requires Reached(rules, t, T, 0, c, g) && id in c.workers && c.workers[id] == |T|
    ensures g.k == |T| && (g.cleared ==> T == [])
  {
    hide Insert;
  }

  lemma ReachRows(rules: Rules<Row>, t: string, T: seq<Row>, c: Cluster, g: Reach)
    requires Reached(rules, t, T, 0, c, g)
    ensures g.k <= |T| && (g.k == |T| ==> Rows(c.committed, t) == Insert(rules, g.base, T))
  {
    hide Insert;
    assert T[0..|T|] == T;
  }

  // ---------- A truncation that finds rows counted ----------

  /** WHAT SUCH A TRUNCATION COSTS. A worker that had counted `a` rows when another one's
      truncation was committed, and that then delivers the rest alone, ends with exactly the
      rows from number a on, and reports success. If the source has no conflicts within
      itself, that is the whole source exactly if a was 0. */
  lemma TruncationCostsExactly(cat: Catalog, t: string, T: seq<Row>, c: Cluster, id: nat, moves: seq<Move>)
    requires WellKeyed(cat.rules(t), T) && c.writer.None? && Rows(c.committed, t) == []
    requires c.workers.Keys == {id} && c.workers[id] <= |T|
    requires forall i :: 0 <= i < |moves| ==> moves[i].Inserts? || moves[i].Leaves?
    ensures
      var rows := Rows(MakeAll(cat, t, T, c, moves).committed, t);
      var left := MakeAll(cat, t, T, c, moves).workers;
      id in left && left[id] == |T| ==>
        && rows == Insert(cat.rules(t), [], T[c.workers[id]..])
        && ((forall j :: 0 <= j < |T| ==> Fresh(cat.rules(t), [], T, j)) ==>
              (rows == Insert(cat.rules(t), [], T) <==> c.workers[id] == 0))
  {
    var rules, a := cat.rules(t), c.workers[id];
    var g := Settled([], a);
    StartsOver(rules, t, T, c, id);
    assert Fair(cat, t, T, a, c, moves) by { hide MakeAll; }
    hide MakeAll, Insert, WellKeyed, Fair, Fresh;
    var g' := WorkersConverge(cat, t, T, a, c, moves, g);
    var c' := MakeAll(cat, t, T, c, moves);
    if id in c'.workers && c'.workers[id] == |T| {
      RestDelivered(rules, t, T, a, c', g', id);
      if forall j :: 0 <= j < |T| ==> Fresh(rules, [], T, j) {
        FreshRest(rules, T, a);
      }
    }
  }

  lemma StartsOver(rules: Rules<Row>, t: string, T: seq<Row>, c: Cluster, id: nat)
    requires c.writer.None? && Rows(c.committed, t) == [] && c.workers.Keys == {id} && c.workers[id] <= |T|
    ensures Reached(rules, t, T, c.workers[id], c, Settled([], c.workers[id]))
  {
    assert T[c.workers[id]..c.workers[id]] == [];
  }

  lemma RestDelivered(rules: Rules<Row>, t: string, T: seq<Row>, from: nat, c: Cluster, g: Reach, id: nat)
    requires Reached(rules, t, T, from, c, g) && id in c.workers && c.workers[id] == |T| && g.base == []
    ensures from <= |T| && Rows(c.committed, t) == Insert(rules, [], T[from..])
  {
    hide Insert;
    assert T[from..|T|] == T[from..];
  }

  /** Rows without conflicts are all stored, and so are those from number a on. */
  lemma FreshRest<R>(rules: Rules<R>, T: seq<R>, a: nat)
    requires a <= |T| && forall j :: 0 <= j < |T| ==> Fresh(rules, [], T, j)
    ensures Insert(rules, [], T) == T && Insert(rules, [], T[a..]) == T[a..]
  {
    NothingIgnoredExactly(rules, [], T);
    forall j | 0 <= j < |T| - a ensures Fresh(rules, [], T[a..], j) {
      assert Fresh(rules, [], T, a + j);
    }
    NothingIgnoredExactly(rules, [], T[a..]);
    assert [] + T == T && [] + T[a..] == T[a..];
  }

  lemma MakeMore(cat: Catalog, t: string, T: seq<Row>, c: Cluster, moves: seq<Move>, m: Move)
    ensures MakeAll(cat, t, T, c, moves + [m]) == Make(cat, t, T, MakeAll(cat, t, T, c, moves), m)
  {
    assert (moves + [m])[..|moves + [m]| - 1] == moves;
  }

  lemma {:induction false} MakeOnward(cat: Catalog, t: string, T: seq<Row>, c: Cluster, a: seq<Move>, b: seq<Move>)
    ensures MakeAll(cat, t, T, c, a + b) == MakeAll(cat, t, T, MakeAll(cat, t, T, c, a), b)
    decreases |b|
  {
    hide Make;
    if b == [] {
      assert a + b == a;
    } else {
      var n := |b| - 1;
      MakeOnward(cat, t, T, c, a, b[..n]);
      assert a + b == (a + b[..n]) + [b[n]];
      MakeMore(cat, t, T, c, a + b[..n], b[n]);
    }
  }

  /** An insertion that goes well, with nobody else writing. */
  lemma FineInsert(cat: Catalog, t: string, T: seq<Row>, c: Cluster, id: nat, size: nat)
    requires id in c.workers && c.workers[id] < |T| && size > 0 && c.writer.None? && t in c.committed
    requires forall i :: 0 <= i < |T| ==> {} < T[i].Keys <= cat.columns(t)
    ensures
      var c' := Make(cat, t, T, c, Inserts(id, size, Fine));
      c'.workers == c.workers[id := Min(c.workers[id] + size, |T|)] && c'.writer.None? && t in c'.committed
  {
    var lo, end := c.workers[id], Min(c.workers[id] + size, |T|);
    assert T[lo..end][0] == T[lo];
    hide Insert, Records;
  }

  /** It happens: worker 0 delivers one row, worker 1 begins again with the table, empties it
      and is lost, worker 0 delivers the rest. It has counted every row, and the first one is
      missing. */
  lemma TruncationLoses(cat: Catalog, t: string, T: seq<Row>, tables: map<string, seq<Row>>) returns (moves: seq<Move>)
    requires WellKeyed(cat.rules(t), T) && |T| >= 2 && t in tables
    requires forall j :: 0 <= j < |T| ==> Fresh(cat.rules(t), [], T, j) && {} < T[j].Keys <= cat.columns(t)
    ensures
      var c := MakeAll(cat, t, T, Quiet(tables), moves);
      0 in c.workers && c.workers[0] == |T| && Rows(c.committed, t) == T[1..]
  {
    hide MakeAll, Insert, WellKeyed, Fresh, InsertOp;
    var start, rest := Quiet(tables), [Inserts(0, |T|, Fine)];
    var c1 := Make(cat, t, T, start, Joins(0));
    FineInsert(cat, t, T, c1, 0, 1);
    var c2 := Make(cat, t, T, c1, Inserts(0, 1, Fine));
    var c3 := Make(cat, t, T, c2, Joins(1));
    var c4 := Make(cat, t, T, c3, Truncates(1, Fine));
    var c5 := Make(cat, t, T, c4, Leaves(1));
    assert c5.workers == map[0 := 1] && c5.writer.None? && t in c5.committed && Rows(c5.committed, t) == [];
    moves := FiveMoves(cat, t, T, start);
    FineInsert(cat, t, T, c5, 0, |T|);
    OneMove(cat, t, T, c5, rest[0]);
    MakeOnward(cat, t, T, start, moves, rest);
    TruncationCostsExactly(cat, t, T, c5, 0, rest);
    FreshRest(cat.rules(t), T, 1);
    moves := moves + rest;
  }

  lemma OneMove(cat: Catalog, t: string, T: seq<Row>, c: Cluster, m: Move)
    ensures MakeAll(cat, t, T, c, [m]) == Make(cat, t, T, c, m)
  {
    hide Make;
    assert [m][..0] == [] && MakeAll(cat, t, T, c, [m][..0]) == c;
  }

  lemma FiveMoves(cat: Catalog, t: string, T: seq<Row>, c: Cluster) returns (moves: seq<Move>)
    ensures MakeAll(cat, t, T, c, moves)
         == Make(cat, t, T, Make(cat, t, T, Make(cat, t, T, Make(cat, t, T, Make(cat, t, T, c, Joins(0)),
              Inserts(0, 1, Fine)), Joins(1)), Truncates(1, Fine)), Leaves(1))
  {
    hide Make;
    OneMove(cat, t, T, c, Joins(0));
    moves := [Joins(0)];
    MakeMore(cat, t, T, c, moves, Inserts(0, 1, Fine));
    moves := moves + [Inserts(0, 1, Fine)];
    MakeMore(cat, t, T, c, moves, Joins(1));
    moves := moves + [Joins(1)];
    MakeMore(cat, t, T, c, moves, Truncates(1, Fine));
    moves := moves + [Truncates(1, Fine)];
    MakeMore(cat, t, T, c, moves, Leaves(1));
    moves := moves + [Leaves(1)];
  }

  // ---------- The copy loop makes such moves ----------

  /** The worker has counted `offset` rows, and its connection sees store s. */
  predicate Mirrors(c: Cluster, id: nat, s: Store, offset: nat) {
    MayWrite(c, id) && c.workers[id] == offset && ViewOf(c, id) == s
  }

  predicate OnlyInserts(moves: seq<Move>, id: nat) {
    forall i :: 0 <= i < |moves| ==> moves[i].Inserts? && moves[i].id == id
  }

  lemma AttemptMirrors(env: Env, t: string, T: seq<Row>, lo: nat, end: nat, w: World, attempt: nat, c: Cluster, id: nat)
    requires lo < end == Min(lo + env.settings.batchSize, |T|) && Mirrors(c, id, w.store, lo)
    ensures
      var (w1, next) := AttemptSpec(env, t, T[lo..end], w, attempt);
      var c1 := Make(env.catalog, t, T, c, Inserts(id, env.settings.batchSize, env.fate(w.clock)));
      && c1.committed == w1.store.durable
      && (next == Over(Completed) ==> Mirrors(c1, id, w1.store, end))
      && (next in [Again, Over(Failed)] ==> Mirrors(c1, id, w1.store, lo))
  {
    hide InsertOp;
  }

  /** All attempts to insert one batch. */
  lemma {:induction false} RetryMirrors(env: Env, t: string, T: seq<Row>, lo: nat, end: nat, w: World, attempt: nat,
      c: Cluster, id: nat) returns (moves: seq<Move>)
    requires attempt <= env.settings.maxRetries
    requires lo < end == Min(lo + env.settings.batchSize, |T|) && Mirrors(c, id, w.store, lo)
    ensures
      var (w', verdict) := InsertWithRetrySpec(env, t, T[lo..end], w, attempt);
      var c' := MakeAll(env.catalog, t, T, c, moves);
      && OnlyInserts(moves, id) && c'.committed == w'.store.durable
      && (verdict.Completed? ==> Mirrors(c', id, w'.store, end))
      && (verdict.Failed? ==> Mirrors(c', id, w'.store, lo))
    decreases env.settings.maxRetries - attempt
  {
    var m := Inserts(id, env.settings.batchSize, env.fate(w.clock));
    var (w1, next) := AttemptSpec(env, t, T[lo..end], w, attempt);
    var c1 := Make(env.catalog, t, T, c, m);
    AttemptMirrors(env, t, T, lo, end, w, attempt, c, id);
    OneMove(env.catalog, t, T, c, m);
    RetryStep(env, t, T[lo..end], w, attempt);
    AttemptVerdicts(env, t, T[lo..end], w, attempt);
    moves := [m];
    assert OnlyInserts(moves, id);
    hide AttemptSpec, InsertWithRetrySpec, Make, MakeAll, Mirrors, OnlyInserts;
    if next.Again? {
      var more := RetryMirrors(env, t, T, lo, end, w1, attempt + 1, c1, id);
      MoreInserts(moves, more, id);
      MakeOnward(env.catalog, t, T, c, moves, more);
      moves := moves + more;
    }
  }

  lemma MoreInserts(a: seq<Move>, b: seq<Move>, id: nat)
    requires OnlyInserts(a, id) && OnlyInserts(b, id)
    ensures OnlyInserts(a + b, id)
  {
  }

  lemma AttemptVerdicts(env: Env, t: string, rows: seq<Row>, w: World, attempt: nat)
    ensures AttemptSpec(env, t, rows, w, attempt).1 in [Again, Over(Completed), Over(Failed), Over(Aborted)]
  {
    hide InsertOp;
  }

  /** AN UNDISTURBED COPY IS A LIST OF SUCH MOVES: whatever happens to it, the copy loop makes
      insertions of one worker, and leaves committed what they leave committed; a completed
      one has counted every row. */
  lemma {:induction false} CopyMirrors(env: Env, t: string, T: seq<Row>, good: nat, w: World, offset: nat, retry: nat,
      c: Cluster, id: nat) returns (moves: seq<Move>)
    requires offset <= good <= |T| && retry <= env.settings.maxRetries && Mirrors(c, id, w.store, offset)
    ensures
      var (w', verdict) := CopySpec(env, t, T, good, w, offset, retry);
      var c' := MakeAll(env.catalog, t, T[..good], c, moves);
      && OnlyInserts(moves, id) && c'.committed == w'.store.durable
      && (verdict.Completed? && env.settings.batchSize > 0 ==> good == |T| && Mirrors(c', id, w'.store, |T|))
    decreases |T| - offset, env.settings.maxRetries - retry
  {
    hide InsertWithRetrySpec, TurnSpec, Make;
    var G, end := T[..good], Min(offset + env.settings.batchSize, |T|);
    var (w1, turn) := TurnSpec(env, t, T, good, w, offset, retry);
    TurnShape(env, t, T, good, w, offset, retry);
    moves := [];
    if InsertsBatch(env, T, good, w, offset) {
      assert G[offset..end] == T[offset..end];
      moves := RetryMirrors(env, t, G, offset, end, AfterFetch(w), 0, c, id);
    }
    if turn.Next? {
      var more := CopyMirrors(env, t, T, good, w1, turn.offset, turn.retry, MakeAll(env.catalog, t, G, c, moves), id);
      MakeOnward(env.catalog, t, G, c, moves, more);
      moves := moves + more;
    }
  }
}
