/** "Insert unless it conflicts": what INSERT OR IGNORE, INSERT IGNORE and
    ON CONFLICT DO NOTHING do to the rows of one table, and the algebra that
    makes repeating such an insertion harmless. */
module ConflictRules {
  import opened Common

  /** The constraints of a destination table. `admits` is false of a row that is
      dropped on its own (a NULL in a NOT NULL column); `clash(old, new)` says that
      the stored row `old` makes the table ignore the arriving row `new`. */
  datatype Rules<!R> = Rules(admits: R -> bool, clash: (R, R) -> bool)

  predicate Rejected<R>(rules: Rules<R>, d: seq<R>, r: R) {
    !rules.admits(r) || exists i :: 0 <= i < |d| && rules.clash(d[i], r)
  }

  function Put<R>(rules: Rules<R>, d: seq<R>, r: R): seq<R> {
    if Rejected(rules, d, r) then d else d + [r]
  }

  /** The table after the rows arrived one by one. Nothing stored is ever lost. */
  function Insert<R>(rules: Rules<R>, d: seq<R>, rows: seq<R>): (out: seq<R>)
    ensures d <= out
    ensures |out| <= |d| + |rows|
  {
    if rows == [] then d
    else Put(rules, Insert(rules, d, rows[..|rows| - 1]), rows[|rows| - 1])
  }

  /** Every admissible row conflicts with its own copy: the table has a unique
      constraint whose columns are all non-NULL in each row. */
  predicate Keyed<R>(rules: Rules<R>, rows: seq<R>) {
    forall i :: 0 <= i < |rows| && rules.admits(rows[i]) ==> rules.clash(rows[i], rows[i])
  }

  /** A table without any unique constraint. */
  ghost predicate Keyless<R(!new)>(rules: Rules<R>) {
    forall a, b :: !rules.clash(a, b)
  }

  /** `rows` is the base table after some prefix T[..k], lo <= k <= hi, arrived. */
  ghost predicate PrefixOf<R>(rules: Rules<R>, base: seq<R>, T: seq<R>, lo: int, hi: int, rows: seq<R>) {
    exists k :: 0 <= k <= |T| && lo <= k <= hi && rows == Insert(rules, base, T[..k])
  }

  lemma {:induction false} InsertConcat<R>(rules: Rules<R>, d: seq<R>, a: seq<R>, b: seq<R>)
    ensures Insert(rules, d, a + b) == Insert(rules, Insert(rules, d, a), b)
    decreases |b|
  {
    if b == [] {
      assert a + b == a;
    } else {
      var n := |b| - 1;
      InsertConcat(rules, d, a, b[..n]);
      assert (a + b)[..|a + b| - 1] == a + b[..n];
    }
  }

  lemma RejectedStays<R>(rules: Rules<R>, d: seq<R>, d': seq<R>, r: R)
    requires d <= d' && Rejected(rules, d, r)
    ensures Rejected(rules, d', r)
  {
    if rules.admits(r) {
      var i :| 0 <= i < |d| && rules.clash(d[i], r);
      assert d'[i] == d[i];
    }
  }

  /** Once a keyed row arrived, a second copy of it is rejected for good. */
  lemma {:induction false} ArrivedIsRejected<R>(rules: Rules<R>, d: seq<R>, rows: seq<R>, i: nat)
    requires i < |rows| && Keyed(rules, rows)
    ensures Rejected(rules, Insert(rules, d, rows), rows[i])
    decreases |rows|
  {
    var n := |rows| - 1;
    var before := Insert(rules, d, rows[..n]);
    var after := Insert(rules, d, rows);
    if i < n {
      ArrivedIsRejected(rules, d, rows[..n], i);
      RejectedStays(rules, before, after, rows[i]);
    } else if !Rejected(rules, before, rows[n]) {
      assert after[|before|] == rows[n];
    }
  }

  /** An insertion is a no-op exactly when each of its rows is already rejected. */
  lemma {:induction false} NoOpExactly<R>(rules: Rules<R>, x: seq<R>, rows: seq<R>)
    ensures Insert(rules, x, rows) == x <==> (forall i :: 0 <= i < |rows| ==> Rejected(rules, x, rows[i]))
    decreases |rows|
  {
    if rows != [] {
      var n := |rows| - 1;
      NoOpExactly(rules, x, rows[..n]);
      assert forall i :: 0 <= i < n ==> rows[..n][i] == rows[i];
      assert x <= Insert(rules, x, rows[..n]) <= Insert(rules, x, rows);
    }
  }

  /** Replaying rows that partly arrived already: what a retried batch does. */
  lemma Replay<R>(rules: Rules<R>, d: seq<R>, T: seq<R>, i: nat, j: nat, k: nat)
    requires Keyed(rules, T) && i <= j <= |T| && i <= k <= |T|
    ensures Insert(rules, Insert(rules, d, T[..j]), T[i..k]) == Insert(rules, d, T[..Max(j, k)])
  {
    var m := Min(j, k);
    var x := Insert(rules, d, T[..j]);
    assert T[i..k] == T[i..m] + T[m..k];
    InsertConcat(rules, x, T[i..m], T[m..k]);
    forall h | 0 <= h < m - i ensures Rejected(rules, x, T[i..m][h]) {
      ArrivedIsRejected(rules, d, T[..j], i + h);
      assert T[..j][i + h] == T[i..m][h];
    }
    NoOpExactly(rules, x, T[i..m]);
    if j <= k {
      InsertConcat(rules, d, T[..j], T[j..k]);
      assert T[..j] + T[j..k] == T[..k];
    }
  }

  /** Number of rows of T that were silently ignored. */
  function Ignored<R>(rules: Rules<R>, d: seq<R>, T: seq<R>): nat {
    if T == [] then 0
    else
      var n := |T| - 1;
      Ignored(rules, d, T[..n]) + (if Rejected(rules, Insert(rules, d, T[..n]), T[n]) then 1 else 0)
  }

  /** Row j fits beside the stored rows and beside every earlier row of T. */
  predicate Fresh<R>(rules: Rules<R>, d: seq<R>, T: seq<R>, j: nat)
    requires j < |T|
  {
    && rules.admits(T[j])
    && (forall i :: 0 <= i < |d| ==> !rules.clash(d[i], T[j]))
    && (forall i :: 0 <= i < j ==> !rules.clash(T[i], T[j]))
  }

  /** Growth and ignored rows add up to the rows sent. */
  lemma {:induction false} GrowthPlusIgnored<R>(rules: Rules<R>, d: seq<R>, T: seq<R>)
    ensures |Insert(rules, d, T)| - |d| + Ignored(rules, d, T) == |T|
    decreases |T|
  {
    if T != [] {
      GrowthPlusIgnored(rules, d, T[..|T| - 1]);
    }
  }

  /** Nothing is ignored exactly when T has no conflict with the table or within itself. */
  lemma {:induction false} NothingIgnoredExactly<R>(rules: Rules<R>, d: seq<R>, T: seq<R>)
    ensures Ignored(rules, d, T) == 0 <==> (forall j :: 0 <= j < |T| ==> Fresh(rules, d, T, j))
    ensures Ignored(rules, d, T) == 0 ==> Insert(rules, d, T) == d + T
    decreases |T|
  {
    if T != [] {
      var n := |T| - 1;
      var S := T[..n];
      NothingIgnoredExactly(rules, d, S);
      assert forall j :: 0 <= j < n ==> (Fresh(rules, d, S, j) <==> Fresh(rules, d, T, j));
      if Ignored(rules, d, S) == 0 {
        var x := d + S;
        assert Insert(rules, d, S) == x;
        assert forall i :: 0 <= i < |d| ==> x[i] == d[i];
        assert forall i :: 0 <= i < n ==> x[|d| + i] == T[i];
        assert Rejected(rules, x, T[n]) <==> !Fresh(rules, d, T, n) by {
          if Rejected(rules, x, T[n]) && rules.admits(T[n]) {
            var i :| 0 <= i < |x| && rules.clash(x[i], T[n]);
            if i >= |d| { assert x[i] == T[i - |d|]; }
          }
        }
        assert d + S + [T[n]] == d + T;
      }
    }
  }

  /** The rows a table without keys stores: the admissible ones, each time they arrive. */
  function Admitted<R>(rules: Rules<R>, rows: seq<R>): seq<R> {
    if rows == [] then []
    else
      var n := |rows| - 1;
      Admitted(rules, rows[..n]) + (if rules.admits(rows[n]) then [rows[n]] else [])
  }

  lemma {:induction false} KeylessAppends<R(!new)>(rules: Rules<R>, d: seq<R>, rows: seq<R>)
    requires Keyless(rules)
    ensures Insert(rules, d, rows) == d + Admitted(rules, rows)
    decreases |rows|
  {
    if rows != [] {
      KeylessAppends(rules, d, rows[..|rows| - 1]);
    }
  }
}
