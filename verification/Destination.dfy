/** Row-level meaning of the provider operations (app/providers/sqlite_provider.py),
    under an environment that may make any call raise or kill the process. */
module Destination {
  import opened Common
  import opened ConflictRules
  import opened Schema

  /** What the environment does to one call. A call that does not end well has still
      applied its first `applied` rows (for DDL: took effect iff applied > 0); `kept`
      says whether everything pending on the connection was committed all the same.
      MySQL runs with autocommit, SQLite leaves a failed executemany open. */
  datatype Fate =
    | Fine
    | Raises(applied: nat, kept: bool)
    | Dies(applied: nat, kept: bool)

  datatype Reply = Returned | Raised | Lost

  /** The tables as this connection sees them, and as they were last committed. */
  datatype Store = Store(live: map<string, seq<Row>>, durable: map<string, seq<Row>>)

  /** The constraints and columns each table has, or gets when it is created. */
  datatype Catalog = Catalog(rules: string -> Rules<Row>, columns: string -> set<string>)

  function Rows(tables: map<string, seq<Row>>, t: string): seq<Row> {
    if t in tables then tables[t] else []
  }

  function ReplyOf(fate: Fate): Reply {
    match fate
    case Fine => Returned
    case Raises(_, _) => Raised
    case Dies(_, _) => Lost
  }

  /** How many of n steps a call takes before its fate strikes. */
  function Landed(n: nat, fate: Fate): (m: nat)
    ensures m <= n
    ensures fate.Fine? ==> m == n
  {
    match fate
    case Fine => n
    case Raises(k, _) => Min(k, n)
    case Dies(k, _) => Min(k, n)
  }

  predicate Commits(fate: Fate) {
    fate.Fine? || fate.kept
  }

  /** The call's writes are visible at once, and durable if the call committed. */
  function Settle(s: Store, live: map<string, seq<Row>>, fate: Fate): Store {
    Store(live, if Commits(fate) then live else s.durable)
  }

  /** A call the database itself refuses: nothing changes, and it does not return. */
  function Refused(s: Store, fate: Fate): (Store, Reply) {
    (s, if fate.Dies? then Lost else Raised)
  }

  function CreateOp(s: Store, t: string, fate: Fate): (Store, Reply) {
    var live := if t in s.live || Landed(1, fate) == 0 then s.live else s.live[t := []];
    (Settle(s, live, fate), ReplyOf(fate))
  }

  function TruncateOp(s: Store, t: string, fate: Fate): (Store, Reply) {
    if t !in s.live then Refused(s, fate)
    else
      var live := if Landed(1, fate) == 0 then s.live else s.live[t := []];
      (Settle(s, live, fate), ReplyOf(fate))
  }

  /** The record sent for each row: the first row's keys, read with dict.get. */
  function Records(rows: seq<Row>): (out: seq<Row>)
    ensures |out| == |rows|
  {
    seq(|rows|, i requires 0 <= i < |rows| => map c | c in rows[0].Keys :: Get(rows[i], c))
  }

  /** A table accepts an INSERT when it exists and has every column named in it; a
      statement that names none is malformed. */
  predicate Accepts(cat: Catalog, s: Store, t: string, rows: seq<Row>)
    requires rows != []
  {
    t in s.live && rows[0].Keys != {} && rows[0].Keys <= cat.columns(t)
  }

  function InsertOp(cat: Catalog, s: Store, t: string, rows: seq<Row>, fate: Fate): (Store, Reply) {
    if rows == [] then (s, Returned)
    else if !Accepts(cat, s, t, rows) then Refused(s, fate)
    else
      var landed := Records(rows)[..Landed(|rows|, fate)];
      var live := s.live[t := Insert(cat.rules(t), s.live[t], landed)];
      (Settle(s, live, fate), ReplyOf(fate))
  }

  /** Rows that share one key set. */
  predicate Uniform(rows: seq<Row>) {
    forall i :: 0 <= i < |rows| ==> rows[i].Keys == rows[0].Keys
  }

  /** Taking the key list from the first row loses no value exactly when the rows share
      one key set. */
  lemma RecordsLoseNothingExactly(rows: seq<Row>)
    ensures Records(rows) == rows <==> Uniform(rows)
  {
    if Records(rows) == rows {
      forall i | 0 <= i < |rows| ensures rows[i].Keys == rows[0].Keys {
        assert Records(rows)[i].Keys == rows[0].Keys;
      }
    }
    if Uniform(rows) {
      forall i | 0 <= i < |rows| ensures Records(rows)[i] == rows[i] {
      }
    }
  }

  /** Each record has the first row's columns; what its own row lacks is NULL. */
  lemma RecordsFill(rows: seq<Row>, i: nat)
    requires i < |rows|
    ensures Records(rows)[i].Keys == rows[0].Keys
    ensures forall c :: c in rows[0] ==> Records(rows)[i][c] == if c in rows[i] then rows[i][c] else Null
  {
  }

  /** AN INSERTION THAT FAILS after k rows leaves exactly those k rows, at once visible, and
      committed exactly if the failure committed; inserting the others afterwards leaves what
      one insertion that went well would have left. */
  lemma FailedInsert(cat: Catalog, s: Store, t: string, rows: seq<Row>, fate: Fate, k: nat)
    requires rows != [] && k <= |rows| && Accepts(cat, s, t, rows)
    requires fate in [Raises(k, true), Raises(k, false), Dies(k, true), Dies(k, false)]
    ensures
      var (s', reply) := InsertOp(cat, s, t, rows, fate);
      var (done, ok) := InsertOp(cat, s, t, rows, Fine);
      && Rows(s'.live, t) == Insert(cat.rules(t), Rows(s.live, t), Records(rows)[..k])
      && s'.durable == (if fate.kept then s'.live else s.durable)
      && reply == (if fate.Raises? then Raised else Lost)
      && ok == Returned && done.durable == done.live
      && Insert(cat.rules(t), Rows(s'.live, t), Records(rows)[k..]) == Rows(done.live, t)
  {
    var R := Records(rows);
    InsertConcat(cat.rules(t), s.live[t], R[..k], R[k..]);
    assert R[..k] + R[k..] == R && R[..|R|] == R;
    hide Insert, Records;
  }

  /** AN INSERTION RETURNS exactly if there is nothing to insert, or the call goes well, the table
      exists, and the first row names at least one column and only columns the table has.
      Refused rows change nothing. */
  lemma ReturnsExactly(cat: Catalog, s: Store, t: string, rows: seq<Row>, fate: Fate)
    ensures
      var (s', reply) := InsertOp(cat, s, t, rows, fate);
      var welcome := rows != [] && t in s.live && (exists c :: c in rows[0])
                     && forall c :: c in rows[0] ==> c in cat.columns(t);
      && (reply.Returned? <==> rows == [] || (welcome && fate.Fine?))
      && (reply.Lost? <==> rows != [] && fate.Dies?)
      && (!welcome ==> s' == s)
  {
    if rows != [] && rows[0].Keys != {} {
      var c :| c in rows[0].Keys;
      assert c in rows[0];
    }
    hide Records, Insert;
  }

  /** SELECT ... LIMIT limit OFFSET offset over a table that does not change. */
  function Slice(rows: seq<Row>, offset: nat, limit: nat): seq<Row> {
    rows[Min(offset, |rows|)..Min(offset + limit, |rows|)]
  }

  function ColumnSet(cols: seq<string>): set<string> {
    set c | c in cols
  }

  function ProjectAll(rows: seq<Row>, cols: set<string>): (out: seq<Row>)
    ensures |out| == |rows|
  {
    seq(|rows|, i requires 0 <= i < |rows| => Project(rows[i], cols))
  }

  /** fetch_batch: an empty or absent column list means "*". */
  function FetchBatch(rows: seq<Row>, offset: nat, limit: nat, columns: Option<seq<string>>): seq<Row> {
    var batch := Slice(rows, offset, limit);
    if columns.None? || columns.value == [] then batch else ProjectAll(batch, ColumnSet(columns.value))
  }

  /** A batch holds the rows from the offset on, as many as there are up to the limit, each cut
      down to the columns asked for and otherwise unchanged. */
  lemma FetchedExactly(rows: seq<Row>, offset: nat, limit: nat, columns: Option<seq<string>>)
    ensures
      var batch := FetchBatch(rows, offset, limit, columns);
      && |batch| == Max(0, Min(limit, |rows| - offset))
      && forall i :: 0 <= i < |batch| ==>
           && (forall c :: c in batch[i] <==>
                 c in rows[offset + i] && (columns.None? || columns.value == [] || c in columns.value))
           && (forall c :: c in batch[i] ==> batch[i][c] == rows[offset + i][c])
  {
  }

  /** The destination database behind one connection. */
  class SQLiteProvider {
    var live: map<string, seq<Row>>
    var durable: map<string, seq<Row>>
    const catalog: Catalog

    constructor (catalog: Catalog, tables: map<string, seq<Row>>)
      ensures this.catalog == catalog && State() == Store(tables, tables)
    {
      this.catalog := catalog;
      live, durable := tables, tables;
    }

    function State(): Store
      reads this
    {
      Store(live, durable)
    }

    /** Closing the connection rolls back what was never committed. */
    method Disconnect()
      modifies this
      ensures State() == Store(old(durable), old(durable))
    {
      live := durable;
    }

    method CreateTable(t: string, fate: Fate) returns (reply: Reply)
      modifies this
      ensures (State(), reply) == CreateOp(old(State()), t, fate)
    {
      if t !in live && (fate.Fine? || fate.applied > 0) {
        live := live[t := []];
      }
      reply := Finish(fate);
    }

    method TruncateTable(t: string, fate: Fate) returns (reply: Reply)
      modifies this
      ensures (State(), reply) == TruncateOp(old(State()), t, fate)
    {
      if t !in live {
        return if fate.Dies? then Lost else Raised;
      }
      if fate.Fine? || fate.applied > 0 {
        live := live[t := []];
      }
      reply := Finish(fate);
    }

    /** executemany of INSERT OR IGNORE, then commit. */
    method InsertBatch(t: string, rows: seq<Row>, fate: Fate) returns (reply: Reply)
      modifies this
      ensures (State(), reply) == InsertOp(catalog, old(State()), t, rows, fate)
    {
      hide Rejected, Records;
      if rows == [] {
        return Returned;
      }
      if t !in live || rows[0].Keys == {} || !(rows[0].Keys <= catalog.columns(t)) {
        return if fate.Dies? then Lost else Raised;
      }
      ghost var start := live;
      var records := Records(rows);
      var i, n := 0, Landed(|rows|, fate);
      while i < n
        invariant 0 <= i <= n && t in live
        invariant live == start[t := Insert(catalog.rules(t), start[t], records[..i])]
        invariant durable == old(durable)
      {
        assert records[..i + 1][..i] == records[..i];
        if !Rejected(catalog.rules(t), live[t], records[i]) {
          live := live[t := live[t] + [records[i]]];
        }
        i := i + 1;
      }
      reply := Finish(fate);
    }

    /** The commit at the end of a call, if the call gets that far. */
    method Finish(fate: Fate) returns (reply: Reply)
      modifies this`durable
      ensures State() == Settle(old(State()), live, fate) && reply == ReplyOf(fate)
    {
      if Commits(fate) {
        durable := live;
      }
      reply := ReplyOf(fate);
    }
  }
}
