/** Schema compatibility (app/migration/validator.py). */
module Validator {
  import opened Common
  import opened Schema
  import opened Text
  import opened Mapper

  datatype Fatal =
    | NoColumns
    | FamilyConflict(column: string, sourceType: string, destType: string)
    | NoMatchingSource(column: string)

  datatype Warning =
    | NotInDestination(column: string)
    | MayTruncate(column: string, sourceLength: int, destLength: int)
    | WillBeDefaulted(column: string)

  const FAMILIES: seq<seq<string>> := [
    ["INTEGER", "SMALLINT", "BIGINT", "FLOAT", "DOUBLE", "DECIMAL", "NUMERIC"],
    ["CHAR", "VARCHAR", "TEXT", "NCHAR", "NVARCHAR", "NTEXT"],
    ["DATE", "TIME", "DATETIME", "TIMESTAMP", "TIMETZ", "TIMESTAMPTZ"],
    ["BOOLEAN", "BOOL", "BIT"],
    ["BLOB", "BYTEA", "BINARY", "VARBINARY"],
    ["JSON", "JSONB"]]

  /** The first family from index i on that lists the type name, or -1. */
  function FamilyFrom(upper: string, i: nat): (f: int)
    requires i <= |FAMILIES|
    ensures f == -1 || i <= f < |FAMILIES|
    ensures f != -1 ==> upper in FAMILIES[f]
    ensures forall k :: i <= k < (if f == -1 then |FAMILIES| else f) ==> upper !in FAMILIES[k]
    decreases |FAMILIES| - i
  {
    if i == |FAMILIES| then -1
    else if upper in FAMILIES[i] then i
    else FamilyFrom(upper, i + 1)
  }

  function Family(dtype: string): int {
    FamilyFrom(BeforeParen(Upper(dtype)), 0)
  }

  /** A type is of family f exactly if its name, in upper case and without parameters, is
      listed there; no name is listed twice. */
  lemma FamilyExactly(dtype: string, f: nat)
    requires f < |FAMILIES|
    ensures Family(dtype) == f <==> BeforeParen(Upper(dtype)) in FAMILIES[f]
    ensures Family(dtype) == -1 <==> forall k :: 0 <= k < |FAMILIES| ==> BeforeParen(Upper(dtype)) !in FAMILIES[k]
  {
    var u := BeforeParen(Upper(dtype));
    hide BeforeParen, Upper, FamilyFrom;
    if u in FAMILIES[f] && Family(dtype) != f {
      ListedOnce(u, Family(dtype), f);
    }
  }

  lemma ListedOnce(u: string, i: nat, j: nat)
    requires i < j < |FAMILIES| && u in FAMILIES[i]
    ensures u !in FAMILIES[j]
  {
    Fingerprint(u, i);
    if u in FAMILIES[j] { Fingerprint(u, j); }
  }

  /** Length, first and last letter tell the families apart. */
  lemma Fingerprint(u: string, f: nat)
    requires f < |FAMILIES| && u in FAMILIES[f]
    ensures |u| >= 3
    ensures
      var x := (|u|, u[0], u[|u| - 1]);
      match f
      case 0 =>
        x in [(7, 'I', 'R'), (8, 'S', 'T'), (6, 'B', 'T'), (5, 'F', 'T'), (6, 'D', 'E'), (7, 'D', 'L'), (7, 'N', 'C')]
      case 1 => x in [(4, 'C', 'R'), (7, 'V', 'R'), (4, 'T', 'T'), (5, 'N', 'R'), (8, 'N', 'R'), (5, 'N', 'T')]
      case 2 => x in [(4, 'D', 'E'), (4, 'T', 'E'), (8, 'D', 'E'), (9, 'T', 'P'), (6, 'T', 'Z'), (11, 'T', 'Z')]
      case 3 => x in [(7, 'B', 'N'), (4, 'B', 'L'), (3, 'B', 'T')]
      case 4 => x in [(4, 'B', 'B'), (5, 'B', 'A'), (6, 'B', 'Y'), (9, 'V', 'Y')]
      case _ => x in [(4, 'J', 'N'), (5, 'J', 'B')]
  {
  }

  /** Two types of known, different families. */
  predicate FamiliesConflict(sourceType: string, destType: string) {
    Family(sourceType) != -1 && Family(destType) != -1 && Family(sourceType) != Family(destType)
  }

  /** Both loops of the validator walk a list of columns: first the source's, then the
      destination's, the latter once per name. */
  datatype Item = FromSource(col: ColumnSchema) | FromDest(col: ColumnSchema)

  /** The two lookups. */
  datatype Context = Context(source: map<string, ColumnSchema>, dest: map<string, ColumnSchema>)

  /** Python's truth value of an optional length. */
  predicate Truthy(n: Option<int>) {
    n.Some? && n.value != 0
  }

  function CheckSource(col: ColumnSchema, ctx: Context): Result<seq<Warning>, Fatal> {
    if col.name !in ctx.dest then Ok([NotInDestination(col.name)])
    else
      var dcol := ctx.dest[col.name];
      if FamiliesConflict(col.dataType, dcol.dataType)
      then Err(FamilyConflict(col.name, col.dataType, dcol.dataType))
      else if Truthy(dcol.maxLength) && Truthy(col.maxLength) && col.maxLength.value > dcol.maxLength.value
      then Ok([MayTruncate(col.name, col.maxLength.value, dcol.maxLength.value)])
      else Ok([])
  }

  function CheckDest(dcol: ColumnSchema, ctx: Context): Result<seq<Warning>, Fatal> {
    if dcol.name in ctx.source then Ok([])
    else if !dcol.isNullable && dcol.default.None? then Err(NoMatchingSource(dcol.name))
    else Ok([WillBeDefaulted(dcol.name)])
  }

  function Check(item: Item, ctx: Context): Result<seq<Warning>, Fatal> {
    match item
    case FromSource(col) => CheckSource(col, ctx)
    case FromDest(col) => CheckDest(col, ctx)
  }

  /** All warnings in order, or the first fatal finding. */
  function Gather(items: seq<Item>, ctx: Context): Result<seq<Warning>, Fatal> {
    if items == [] then Ok([])
    else
      var rest := Gather(items[..|items| - 1], ctx);
      if rest.Err? then rest
      else
        match Check(items[|items| - 1], ctx)
        case Err(e) => Err(e)
        case Ok(ws) => Ok(rest.value + ws)
  }

  /** The keys of {c.name: c for c in cols}, in the order dict iteration visits them. */
  function KeyOrder(cols: seq<ColumnSchema>): seq<string> {
    if cols == [] then []
    else
      var n := |cols| - 1;
      var rest := KeyOrder(cols[..n]);
      if cols[n].name in rest then rest else rest + [cols[n].name]
  }

  function Wrap(cols: seq<ColumnSchema>, fromSource: bool): (items: seq<Item>)
    ensures |items| == |cols|
    ensures forall i :: 0 <= i < |cols| ==> items[i] == if fromSource then FromSource(cols[i]) else FromDest(cols[i])
  {
    seq(|cols|, i requires 0 <= i < |cols| => if fromSource then FromSource(cols[i]) else FromDest(cols[i]))
  }

  /** The destination's columns as its lookup lists them. */
  function Listed(cols: seq<ColumnSchema>): (out: seq<ColumnSchema>)
    ensures |out| == |KeyOrder(cols)|
    ensures forall i :: 0 <= i < |out| ==>
      KeyOrder(cols)[i] in ByName(cols) && out[i] == ByName(cols)[KeyOrder(cols)[i]]
  {
    KeyOrderHolds(cols);
    seq(|KeyOrder(cols)|, i requires 0 <= i < |KeyOrder(cols)| => ByName(cols)[KeyOrder(cols)[i]])
  }

  function ContextOf(source: TableSchema, dest: TableSchema): Context {
    Context(ByName(source.columns), ByName(dest.columns))
  }

  function Items(source: TableSchema, dest: TableSchema): seq<Item> {
    Wrap(source.columns, true) + Wrap(Listed(dest.columns), false)
  }

  function Validate(source: TableSchema, dest: Option<TableSchema>): Result<seq<Warning>, Fatal> {
    if source.columns == [] then Err(NoColumns)
    else if dest.None? then Ok([])
    else Gather(Items(source, dest.value), ContextOf(source, dest.value))
  }

  lemma {:induction false} KeyOrderHolds(cols: seq<ColumnSchema>)
    ensures forall n :: n in KeyOrder(cols) <==> n in ByName(cols)
    ensures Distinct(KeyOrder(cols))
    decreases |cols|
  {
    if cols != [] {
      KeyOrderHolds(cols[..|cols| - 1]);
    }
  }

  method ValidateSchemaCompatibility(source: TableSchema, dest: Option<TableSchema>)
    returns (result: Result<seq<Warning>, Fatal>)
    ensures result == Validate(source, dest)
  {
    hide Gather, Check, KeyOrder, ByName;
    if source.columns == [] {
      return Err(NoColumns);
    }
    if dest.None? {
      return Ok([]);
    }
    var warnings: seq<Warning> := [];
    var ctx := ContextOf(source, dest.value);
    ghost var items := Items(source, dest.value);
    GatherNothing(items, ctx);
    for i := 0 to |source.columns|
      invariant Gather(items[..i], ctx) == Ok(warnings)
    {
      var found := Check(FromSource(source.columns[i]), ctx);
      GatherNext(items, i, ctx);
      if found.Err? {
        return found;
      }
      warnings := warnings + found.value;
    }
    var names := KeyOrder(dest.value.columns);
    ghost var n, listed := |source.columns|, Listed(dest.value.columns);
    for j := 0 to |names|
      invariant Gather(items[..n + j], ctx) == Ok(warnings)
    {
      assert listed[j] == ctx.dest[names[j]] && items[n + j] == FromDest(listed[j]);
      var found := Check(FromDest(ctx.dest[names[j]]), ctx);
      GatherNext(items, n + j, ctx);
      if found.Err? {
        return found;
      }
      warnings := warnings + found.value;
    }
    assert items[..n + |names|] == items;
    result := Ok(warnings);
  }

  lemma GatherNothing(items: seq<Item>, ctx: Context)
    ensures Gather(items[..0], ctx) == Ok([])
  {
  }

  /** One more finding: a fatal one is the verdict, the others are appended. */
  lemma GatherNext(items: seq<Item>, i: nat, ctx: Context)
    requires i < |items| && Gather(items[..i], ctx).Ok?
    ensures Check(items[i], ctx).Err? ==> Gather(items, ctx) == Check(items[i], ctx)
    ensures Check(items[i], ctx).Ok? ==>
      Gather(items[..i + 1], ctx) == Ok(Gather(items[..i], ctx).value + Check(items[i], ctx).value)
  {
    hide Check;
    assert items[..i + 1][..i] == items[..i];
    if Check(items[i], ctx).Err? {
      GatherFails(items, ctx, i + 1);
    }
  }

  lemma {:induction false} GatherFails(items: seq<Item>, ctx: Context, j: nat)
    requires j <= |items| && Gather(items[..j], ctx).Err?
    ensures Gather(items, ctx) == Gather(items[..j], ctx)
    decreases |items|
  {
    hide Check;
    if j < |items| {
      assert items[..|items| - 1][..j] == items[..j];
      GatherFails(items[..|items| - 1], ctx, j);
    } else {
      assert items[..j] == items;
    }
  }

  // ---------- The verdict ----------

  lemma {:induction false} GatherFailsExactly(items: seq<Item>, ctx: Context)
    ensures Gather(items, ctx).Err? <==> exists i :: 0 <= i < |items| && Check(items[i], ctx).Err?
    decreases |items|
  {
    hide Check;
    if items != [] {
      var n := |items| - 1;
      GatherFailsExactly(items[..n], ctx);
      assert forall i :: 0 <= i < n ==> items[..n][i] == items[i];
    }
  }

  /** A fatal item is a fatal source column or a fatal entry of the destination's lookup. */
  lemma FatalItems(source: TableSchema, dest: TableSchema)
    ensures
      var items, ctx := Items(source, dest), ContextOf(source, dest);
      (exists i :: 0 <= i < |items| && Check(items[i], ctx).Err?) <==>
        || (exists i :: 0 <= i < |source.columns| && CheckSource(source.columns[i], ctx).Err?)
        || (exists n :: n in ctx.dest && CheckDest(ctx.dest[n], ctx).Err?)
  {
    hide CheckSource, CheckDest, ByName, KeyOrder;
    var items, ctx, k := Items(source, dest), ContextOf(source, dest), |source.columns|;
    var names := KeyOrder(dest.columns);
    KeyOrderHolds(dest.columns);
    assert forall i :: 0 <= i < k ==> items[i] == FromSource(source.columns[i]);
    assert forall i :: k <= i < |items| ==> items[i] == FromDest(ctx.dest[names[i - k]]);
    if i :| 0 <= i < k && CheckSource(source.columns[i], ctx).Err? {
      assert Check(items[i], ctx).Err?;
    }
    if n :| n in ctx.dest && CheckDest(ctx.dest[n], ctx).Err? {
      var j :| 0 <= j < |names| && names[j] == n;
      assert Check(items[k + j], ctx).Err?;
    }
    if i :| 0 <= i < |items| && Check(items[i], ctx).Err? {
      if i >= k { assert names[i - k] in ctx.dest; }
    }
  }

  /** EXACT VERDICT. Validation raises iff the source has no columns, or some source column
      meets a destination column of its name in a known different family, or some
      destination column has no source column, no default, and may not be NULL. */
  lemma VerdictExactly(source: TableSchema, dest: Option<TableSchema>)
    ensures
      Validate(source, dest).Err? <==>
        || source.columns == []
        || (dest.Some? &&
             var src, dst := ByName(source.columns), ByName(dest.value.columns);
             || (exists i :: 0 <= i < |source.columns| && source.columns[i].name in dst
                   && FamiliesConflict(source.columns[i].dataType, dst[source.columns[i].name].dataType))
             || (exists n :: n in dst && n !in src && !dst[n].isNullable && dst[n].default.None?))
  {
    if source.columns != [] && dest.Some? {
      FatalItems(source, dest.value);
      ByNameHolds(dest.value.columns);
      GatherFailsExactly(Items(source, dest.value), ContextOf(source, dest.value));
      hide Gather, ByName, FamiliesConflict, Items, Check;
    }
  }

  // ---------- The findings ----------

  /** A source column with a destination column of a known, different family. */
  predicate SourceFatal(col: ColumnSchema, dst: map<string, ColumnSchema>) {
    col.name in dst && FamiliesConflict(col.dataType, dst[col.name].dataType)
  }

  /** A destination column that must be given a value and has no source column. */
  predicate DestFatal(n: string, src: map<string, ColumnSchema>, dst: map<string, ColumnSchema>) {
    n in dst && n !in src && !dst[n].isNullable && dst[n].default.None?
  }

  /** Longer values than the destination column takes (a length of 0 means none is known). */
  predicate Exceeds(col: ColumnSchema, dcol: ColumnSchema, a: int, b: int) {
    col.maxLength == Some(a) && dcol.maxLength == Some(b) && a != 0 && b != 0 && a > b
  }

  /** What there is to say about one column. */
  lemma CheckSourceExactly(col: ColumnSchema, ctx: Context)
    ensures
      match CheckSource(col, ctx)
      case Err(e) =>
        && SourceFatal(col, ctx.dest)
        && e == FamilyConflict(col.name, col.dataType, ctx.dest[col.name].dataType)
      case Ok(ws) =>
        && !SourceFatal(col, ctx.dest) && |ws| <= 1
        && (forall n :: ws == [NotInDestination(n)] <==> n == col.name && n !in ctx.dest)
        && (forall n, a, b :: ws == [MayTruncate(n, a, b)] <==>
              n == col.name && n in ctx.dest && Exceeds(col, ctx.dest[n], a, b))
        && (forall n :: ws != [WillBeDefaulted(n)])
  {
    hide FamiliesConflict;
  }

  lemma CheckDestExactly(dcol: ColumnSchema, ctx: Context)
    requires dcol.name in ctx.dest && ctx.dest[dcol.name] == dcol
    ensures
      match CheckDest(dcol, ctx)
      case Err(e) => DestFatal(dcol.name, ctx.source, ctx.dest) && e == NoMatchingSource(dcol.name)
      case Ok(ws) =>
        && !DestFatal(dcol.name, ctx.source, ctx.dest) && |ws| <= 1
        && (forall n :: ws == [WillBeDefaulted(n)] <==> n == dcol.name && n !in ctx.source)
        && (forall n :: ws != [NotInDestination(n)]) && (forall n, a, b :: ws != [MayTruncate(n, a, b)])
  {
  }

  /** The warnings are those of the items, in the order of the items, one at most for each. */
  lemma {:induction false} WarningsInOrder(items: seq<Item>, ctx: Context) returns (at: seq<nat>)
    requires Gather(items, ctx).Ok?
    requires forall i :: 0 <= i < |items| && Check(items[i], ctx).Ok? ==> |Check(items[i], ctx).value| <= 1
    ensures
      var ws := Gather(items, ctx).value;
      && |at| == |ws|
      && (forall k :: 0 <= k < |at| ==> at[k] < |items| && Check(items[at[k]], ctx) == Ok([ws[k]]))
      && (forall j, k :: 0 <= j < k < |at| ==> at[j] < at[k])
      && (forall i :: 0 <= i < |items| && Check(items[i], ctx) != Ok([]) ==> i in at)
    decreases |items|
  {
    hide Check;
    at := [];
    if items != [] {
      var n := |items| - 1;
      assert forall i :: 0 <= i < n ==> items[..n][i] == items[i];
      at := WarningsInOrder(items[..n], ctx);
      var found := Check(items[n], ctx).value;
      if found != [] {
        assert found == [found[0]];
        at := at + [n];
      }
    }
  }

  /** Position i of the items: a source column, or an entry of the destination's lookup. */
  lemma ItemAt(source: TableSchema, dest: TableSchema, i: nat)
    requires i < |Items(source, dest)|
    ensures
      var item, names, k := Items(source, dest)[i], KeyOrder(dest.columns), |source.columns|;
      if i < k then item == FromSource(source.columns[i])
      else
        && i - k < |names| && names[i - k] in ByName(dest.columns)
        && item == FromDest(ByName(dest.columns)[names[i - k]])
        && ByName(dest.columns)[names[i - k]].name == names[i - k]
  {
    KeyOrderHolds(dest.columns);
    ByNameHolds(dest.columns);
    hide ByName, KeyOrder;
  }

  /** What a check finds at position i. */
  lemma CheckAt(source: TableSchema, dest: TableSchema, i: nat)
    requires i < |Items(source, dest)|
    ensures
      var r, ctx := Check(Items(source, dest)[i], ContextOf(source, dest)), ContextOf(source, dest);
      var k, names := |source.columns|, KeyOrder(dest.columns);
      && (r.Ok? ==> |r.value| <= 1)
      && if i < k then r == CheckSource(source.columns[i], ctx)
         else
           && i - k < |names| && names[i - k] in ctx.dest && ctx.dest[names[i - k]].name == names[i - k]
           && r == CheckDest(ctx.dest[names[i - k]], ctx)
  {
    ItemAt(source, dest, i);
    hide ByName, KeyOrder, Items, CheckSource, CheckDest;
    if i < |source.columns| {
      CheckSourceExactly(source.columns[i], ContextOf(source, dest));
    } else {
      CheckDestExactly(ByName(dest.columns)[KeyOrder(dest.columns)[i - |source.columns|]], ContextOf(source, dest));
    }
  }

  /** EXACT WARNINGS. After a successful validation: a column is reported as skipped iff the
      destination lacks it, as defaulted iff the source lacks it, and as truncated iff both
      have it and the source's length exceeds the destination's, with these two lengths. */
  lemma WarningsExactly(source: TableSchema, dest: TableSchema)
    requires Validate(source, Some(dest)).Ok?
    ensures
      var ws, src, dst := Validate(source, Some(dest)).value, ByName(source.columns), ByName(dest.columns);
      && (forall n :: NotInDestination(n) in ws <==>
            n !in dst && exists i :: 0 <= i < |source.columns| && source.columns[i].name == n)
      && (forall n, a, b :: MayTruncate(n, a, b) in ws <==>
            n in dst && exists i :: 0 <= i < |source.columns| && source.columns[i].name == n
                                    && Exceeds(source.columns[i], dst[n], a, b))
      && (forall n :: WillBeDefaulted(n) in ws <==> n in dst && n !in src)
  {
    var items, ctx := Items(source, dest), ContextOf(source, dest);
    var ws := Validate(source, Some(dest)).value;
    forall n ensures NotInDestination(n) in ws <==>
      n !in ctx.dest && exists i :: 0 <= i < |source.columns| && source.columns[i].name == n
    {
      WarnedIff(source, dest, NotInDestination(n));
    }
    forall n, a, b ensures MayTruncate(n, a, b) in ws <==>
      n in ctx.dest && exists i :: 0 <= i < |source.columns| && source.columns[i].name == n
                                   && Exceeds(source.columns[i], ctx.dest[n], a, b)
    {
      WarnedIff(source, dest, MayTruncate(n, a, b));
    }
    forall n ensures WillBeDefaulted(n) in ws <==> n in ctx.dest && n !in ctx.source {
      WarnedIff(source, dest, WillBeDefaulted(n));
    }
  }

  /** What gives rise to warning x. */
  predicate Warrants(source: TableSchema, dest: TableSchema, x: Warning) {
    var src, dst := ByName(source.columns), ByName(dest.columns);
    match x
    case NotInDestination(n) =>
      n !in dst && exists i :: 0 <= i < |source.columns| && source.columns[i].name == n
    case MayTruncate(n, a, b) =>
      n in dst && exists i :: 0 <= i < |source.columns| && source.columns[i].name == n
                              && Exceeds(source.columns[i], dst[n], a, b)
    case WillBeDefaulted(n) => n in dst && n !in src
  }

  lemma WarnedIff(source: TableSchema, dest: TableSchema, x: Warning)
    requires Validate(source, Some(dest)).Ok?
    ensures x in Validate(source, Some(dest)).value <==> Warrants(source, dest, x)
  {
    var items, ctx := Items(source, dest), ContextOf(source, dest);
    var ws := Validate(source, Some(dest)).value;
    hide Gather, Check, Items, ByName, KeyOrder, Warrants;
    forall i | 0 <= i < |items| ensures Check(items[i], ctx).Ok? ==> |Check(items[i], ctx).value| <= 1 {
      CheckAt(source, dest, i);
    }
    var at := WarningsInOrder(items, ctx);
    if x in ws {
      var k :| 0 <= k < |ws| && ws[k] == x;
      FoundIsWarranted(source, dest, at[k], x);
    }
    if Warrants(source, dest, x) {
      var i := WarrantedIsFound(source, dest, x);
      var k :| 0 <= k < |at| && at[k] == i;
    }
  }

  lemma FoundIsWarranted(source: TableSchema, dest: TableSchema, i: nat, x: Warning)
    requires i < |Items(source, dest)| && Check(Items(source, dest)[i], ContextOf(source, dest)) == Ok([x])
    ensures Warrants(source, dest, x)
  {
    var ctx := ContextOf(source, dest);
    CheckAt(source, dest, i);
    hide Check, Items, ByName, KeyOrder, CheckSource, CheckDest, Exceeds;
    if i < |source.columns| {
      CheckSourceExactly(source.columns[i], ctx);
    } else {
      CheckDestExactly(ctx.dest[KeyOrder(dest.columns)[i - |source.columns|]], ctx);
    }
  }

  lemma WarrantedIsFound(source: TableSchema, dest: TableSchema, x: Warning) returns (i: nat)
    requires Warrants(source, dest, x) && Validate(source, Some(dest)).Ok?
    ensures i < |Items(source, dest)| && Check(Items(source, dest)[i], ContextOf(source, dest)) == Ok([x])
  {
    var items, ctx := Items(source, dest), ContextOf(source, dest);
    GatherFailsExactly(items, ctx);
    KeyOrderHolds(dest.columns);
    hide Check, ByName, KeyOrder, Gather;
    if x.WillBeDefaulted? {
      var p :| 0 <= p < |KeyOrder(dest.columns)| && KeyOrder(dest.columns)[p] == x.column;
      i := |source.columns| + p;
      hide Items;
      CheckAt(source, dest, i);
      CheckDestExactly(ctx.dest[x.column], ctx);
    } else {
      i :| 0 <= i < |source.columns| && source.columns[i].name == x.column
           && (x.MayTruncate? ==> Exceeds(source.columns[i], ctx.dest[x.column], x.sourceLength, x.destLength));
      hide Items, Exceeds;
      CheckAt(source, dest, i);
      CheckSourceExactly(source.columns[i], ctx);
    }
  }

  /** Nothing before position i is fatal. */
  lemma {:induction false} FirstFatal(items: seq<Item>, ctx: Context) returns (i: nat)
    requires Gather(items, ctx).Err?
    ensures i < |items| && Check(items[i], ctx) == Err(Gather(items, ctx).error)
    ensures forall j :: 0 <= j < i ==> Check(items[j], ctx).Ok?
    decreases |items|
  {
    hide Check;
    var n := |items| - 1;
    assert items != [];
    assert forall j :: 0 <= j < n ==> items[..n][j] == items[j];
    if Gather(items[..n], ctx).Err? {
      i := FirstFatal(items[..n], ctx);
    } else {
      GatherFailsExactly(items[..n], ctx);
      i := n;
    }
  }

  /** EXACT REFUSAL. A failed validation names the first offending source column with its own
      type and its counterpart's, or, if there is none, the first destination column, in the
      order of the lookup, that must be given a value and has no source column. */
  lemma RefusalExactly(source: TableSchema, dest: TableSchema)
    requires Validate(source, Some(dest)).Err?
    ensures
      var src, dst, names := ByName(source.columns), ByName(dest.columns), KeyOrder(dest.columns);
      match Validate(source, Some(dest)).error
      case NoColumns => source.columns == []
      case FamilyConflict(n, s, d) =>
        exists i :: 0 <= i < |source.columns| && SourceFatal(source.columns[i], dst)
          && n == source.columns[i].name && s == source.columns[i].dataType && d == dst[n].dataType
          && forall j :: 0 <= j < i ==> !SourceFatal(source.columns[j], dst)
      case NoMatchingSource(n) =>
        && (forall j :: 0 <= j < |source.columns| ==> !SourceFatal(source.columns[j], dst))
        && exists p :: 0 <= p < |names| && names[p] == n && DestFatal(n, src, dst)
             && forall q :: 0 <= q < p ==> !DestFatal(names[q], src, dst)
  {
    if source.columns != [] {
      var items, ctx := Items(source, dest), ContextOf(source, dest);
      var k, names := |source.columns|, KeyOrder(dest.columns);
      hide Check, ByName, KeyOrder, Gather, Items, SourceFatal, DestFatal;
      var i := FirstFatal(items, ctx);
      forall j | 0 <= j <= i ensures Check(items[j], ctx).Err? <==> FatalAt(source, dest, j) {
        FatalExactly(source, dest, j);
      }
      hide FatalAt;
      FatalExactly(source, dest, i);
      NothingBefore(source, dest, i);
    }
  }

  /** The item at position i is fatal. */
  predicate FatalAt(source: TableSchema, dest: TableSchema, i: nat) {
    var k, names := |source.columns|, KeyOrder(dest.columns);
    if i < k then SourceFatal(source.columns[i], ByName(dest.columns))
    else i - k < |names| && DestFatal(names[i - k], ByName(source.columns), ByName(dest.columns))
  }

  lemma FatalExactly(source: TableSchema, dest: TableSchema, i: nat)
    requires i < |Items(source, dest)|
    ensures
      var r := Check(Items(source, dest)[i], ContextOf(source, dest));
      var k, names := |source.columns|, KeyOrder(dest.columns);
      && (r.Err? <==> FatalAt(source, dest, i))
      && (i >= k ==> i - k < |names|)
      && (r.Err? && i < k ==>
            var c := source.columns[i];
            && c.name in ByName(dest.columns)
            && r.error == FamilyConflict(c.name, c.dataType, ByName(dest.columns)[c.name].dataType))
      && (r.Err? && i >= k ==> r.error == NoMatchingSource(names[i - k]))
  {
    var ctx := ContextOf(source, dest);
    CheckAt(source, dest, i);
    hide Check, Items, ByName, KeyOrder, CheckSource, CheckDest, FamiliesConflict;
    if i < |source.columns| {
      CheckSourceExactly(source.columns[i], ctx);
    } else {
      CheckDestExactly(ctx.dest[KeyOrder(dest.columns)[i - |source.columns|]], ctx);
    }
  }

  lemma NothingBefore(source: TableSchema, dest: TableSchema, i: nat)
    requires i < |source.columns| + |KeyOrder(dest.columns)|
    ensures
      var src, dst, names, k := ByName(source.columns), ByName(dest.columns), KeyOrder(dest.columns), |source.columns|;
      FatalAt(source, dest, i) && (forall j :: 0 <= j < i ==> !FatalAt(source, dest, j)) ==>
        && (forall j :: 0 <= j < i && j < k ==> !SourceFatal(source.columns[j], dst))
        && (i < k ==> SourceFatal(source.columns[i], dst))
        && (i >= k ==> DestFatal(names[i - k], src, dst)
                       && forall q :: 0 <= q < i - k ==> !DestFatal(names[q], src, dst))
  {
    hide ByName, KeyOrder, SourceFatal, DestFatal;
    var k, names := |source.columns|, KeyOrder(dest.columns);
    if FatalAt(source, dest, i) && forall j :: 0 <= j < i ==> !FatalAt(source, dest, j) {
      forall j | 0 <= j < i && j < k ensures !SourceFatal(source.columns[j], ByName(dest.columns)) {
        assert !FatalAt(source, dest, j);
      }
      forall q | 0 <= q < i - k ensures !DestFatal(names[q], ByName(source.columns), ByName(dest.columns)) {
        assert !FatalAt(source, dest, k + q);
      }
    }
  }

  // ---------- Order does not matter ----------

  lemma {:induction false} GatherConcat(a: seq<Item>, b: seq<Item>, ctx: Context)
    ensures Gather(a, ctx).Ok? && Gather(b, ctx).Ok? ==>
      Gather(a + b, ctx) == Ok(Gather(a, ctx).value + Gather(b, ctx).value)
    decreases |b|
  {
    hide Check;
    if b == [] {
      assert a + b == a;
      if Gather(a, ctx).Ok? { assert Gather(a, ctx).value + [] == Gather(a, ctx).value; }
    } else {
      var n := |b| - 1;
      assert (a + b)[..|a + b| - 1] == a + b[..n];
      GatherConcat(a, b[..n], ctx);
      if Gather(a, ctx).Ok? && Gather(b, ctx).Ok? {
        var x, y, z := Gather(a, ctx).value, Gather(b[..n], ctx).value, Check(b[n], ctx).value;
        assert x + (y + z) == x + y + z;
      }
    }
  }

  /** Reordering the items keeps the verdict and reorders the warnings. */
  lemma {:induction false} GatherReordered(a: seq<Item>, b: seq<Item>, ctx: Context)
    requires multiset(a) == multiset(b)
    ensures Gather(a, ctx).Ok? <==> Gather(b, ctx).Ok?
    ensures Gather(a, ctx).Ok? ==> multiset(Gather(a, ctx).value) == multiset(Gather(b, ctx).value)
    decreases |a|
  {
    hide Check;
    GatherVerdictReordered(a, b, ctx);
    SameMembers(a, b);
    if a != [] && Gather(a, ctx).Ok? {
      var j := TakeOutLast(a, b);
      GatherReordered(a[..|a| - 1], b[..j] + b[j + 1..], ctx);
      MoveOut(b, j, ctx);
    }
  }

  lemma GatherVerdictReordered(a: seq<Item>, b: seq<Item>, ctx: Context)
    requires multiset(a) == multiset(b)
    ensures Gather(a, ctx).Ok? <==> Gather(b, ctx).Ok?
  {
    hide Check, Gather;
    SameMembers(a, b);
    GatherFailsExactly(a, ctx);
    GatherFailsExactly(b, ctx);
    if i :| 0 <= i < |a| && Check(a[i], ctx).Err? {
      assert a[i] in b;
      var j :| 0 <= j < |b| && b[j] == a[i];
    }
    if i :| 0 <= i < |b| && Check(b[i], ctx).Err? {
      assert b[i] in a;
      var j :| 0 <= j < |a| && a[j] == b[i];
    }
  }

  /** Taking one item out of the list takes its warnings out. */
  lemma MoveOut(b: seq<Item>, j: nat, ctx: Context)
    requires j < |b| && Gather(b, ctx).Ok?
    ensures
      var b' := b[..j] + b[j + 1..];
      && Gather(b', ctx).Ok? && Check(b[j], ctx).Ok?
      && multiset(Gather(b, ctx).value) == multiset(Gather(b', ctx).value) + multiset(Check(b[j], ctx).value)
  {
    hide Check;
    var l, m, r := b[..j], [b[j]], b[j + 1..];
    assert b == l + (m + r);
    GatherFailsExactly(b, ctx);
    GatherFailsExactly(l, ctx);
    GatherFailsExactly(r, ctx);
    assert forall i :: 0 <= i < |r| ==> r[i] == b[j + 1 + i];
    assert Gather(m[..0], ctx) == Ok([]);
    assert Gather(m, ctx) == Ok([] + Check(b[j], ctx).value);
    GatherConcat(m, r, ctx);
    GatherConcat(l, m + r, ctx);
    GatherConcat(l, r, ctx);
  }

  /** Reordering columns of distinct names does not change the lookup. */
  lemma ByNameReordered(a: seq<ColumnSchema>, b: seq<ColumnSchema>)
    requires multiset(a) == multiset(b) && Distinct(Names(a)) && Distinct(Names(b))
    ensures ByName(a) == ByName(b)
  {
    hide ByName, Names;
    SameMembers(a, b);
    ByNameWithin(a, b);
    ByNameWithin(b, a);
  }

  lemma ByNameWithin(a: seq<ColumnSchema>, b: seq<ColumnSchema>)
    requires (forall x :: x in a ==> x in b) && Distinct(Names(b))
    ensures forall n :: n in ByName(a) ==> n in ByName(b) && ByName(b)[n] == ByName(a)[n]
  {
    hide ByName, Names;
    ByNameHolds(a);
    forall n | n in ByName(a) ensures n in ByName(b) && ByName(b)[n] == ByName(a)[n] {
      var c := ByName(a)[n];
      assert c in b;
      var j :| 0 <= j < |b| && b[j] == c;
      ByNameDistinct(b, j);
    }
  }

  lemma {:induction false} KeyOrderDistinct(cols: seq<ColumnSchema>)
    requires Distinct(Names(cols))
    ensures KeyOrder(cols) == Names(cols)
    decreases |cols|
  {
    if cols != [] {
      var n := |cols| - 1;
      assert Names(cols[..n]) == Names(cols)[..n];
      KeyOrderDistinct(cols[..n]);
      assert Names(cols) == Names(cols)[..n] + [cols[n].name];
      assert forall i :: 0 <= i < n ==> Names(cols)[i] != Names(cols)[n];
    }
  }

  /** With distinct names the lookup lists the columns as they are. */
  lemma ListedDistinct(cols: seq<ColumnSchema>)
    requires Distinct(Names(cols))
    ensures Listed(cols) == cols
  {
    KeyOrderDistinct(cols);
    forall i | 0 <= i < |cols| ensures Listed(cols)[i] == cols[i] {
      ByNameDistinct(cols, i);
    }
  }

  lemma {:induction false} WrapReordered(a: seq<ColumnSchema>, b: seq<ColumnSchema>, fromSource: bool)
    requires multiset(a) == multiset(b)
    ensures multiset(Wrap(a, fromSource)) == multiset(Wrap(b, fromSource))
    decreases |a|
  {
    SameMembers(a, b);
    if a != [] {
      var j := TakeOutLast(a, b);
      var n := |a| - 1;
      WrapReordered(a[..n], b[..j] + b[j + 1..], fromSource);
      assert Wrap(a, fromSource) == Wrap(a[..n], fromSource) + [Wrap(a, fromSource)[n]];
      WrapSplit(b, j, fromSource);
    }
  }

  lemma WrapSplit(b: seq<ColumnSchema>, j: nat, fromSource: bool)
    requires j < |b|
    ensures
      var l, r, all := Wrap(b[..j], fromSource), Wrap(b[j + 1..], fromSource), Wrap(b, fromSource);
      all == l + ([all[j]] + r) && Wrap(b[..j] + b[j + 1..], fromSource) == l + r
  {
  }

  /** ORDER-FREE. Permuting the distinctly named columns of either schema keeps the verdict
      and the multiset of warnings. */
  lemma OrderFree(source: TableSchema, source': TableSchema, dest: TableSchema, dest': TableSchema)
    requires multiset(source.columns) == multiset(source'.columns)
    requires multiset(dest.columns) == multiset(dest'.columns)
    requires Distinct(Names(source.columns)) && Distinct(Names(source'.columns))
    requires Distinct(Names(dest.columns)) && Distinct(Names(dest'.columns))
    ensures
      var v, v' := Validate(source, Some(dest)), Validate(source', Some(dest'));
      && (v.Ok? <==> v'.Ok?)
      && (v.Ok? ==> multiset(v.value) == multiset(v'.value))
  {
    ByNameReordered(source.columns, source'.columns);
    ByNameReordered(dest.columns, dest'.columns);
    ListedDistinct(dest.columns);
    ListedDistinct(dest'.columns);
    WrapReordered(source.columns, source'.columns, true);
    WrapReordered(dest.columns, dest'.columns, false);
    SameMembers(source.columns, source'.columns);
    assert multiset(Items(source, dest)) == multiset(Items(source', dest'));
    hide Gather, ByName, Items;
    GatherReordered(Items(source, dest), Items(source', dest'), ContextOf(source, dest));
  }

  // ---------- Validator and mapper together ----------

  /** COVERAGE. After a successful validation against an existing destination, the included
      mappings are exactly the common columns, in source order; none of them joins two
      different known families; and every destination column that must be given a value
      is given one. */
  lemma MappingsCover(source: TableSchema, dest: TableSchema)
    requires Validate(source, Some(dest)).Ok?
    ensures
      var ms, dst := Mappings(source, Some(dest)), ByName(dest.columns);
      && (forall i :: 0 <= i < |ms| ==> ms[i].sourceCol == ms[i].destCol == source.columns[i].name)
      && (forall i :: 0 <= i < |ms| ==> (ms[i].included <==> exists c :: c in dest.columns && c.name == ms[i].destCol))
      && (forall i :: 0 <= i < |ms| && ms[i].included ==> !FamiliesConflict(ms[i].sourceType, ms[i].destType))
      && (forall n :: n in dst && !dst[n].isNullable && dst[n].default.None? ==>
            exists i :: 0 <= i < |ms| && ms[i].included && ms[i].destCol == n)
  {
    var ms, dst := Mappings(source, Some(dest)), ByName(dest.columns);
    VerdictExactly(source, Some(dest));
    assert forall n :: n in dst && !dst[n].isNullable && dst[n].default.None? ==> n in ByName(source.columns);
    ByNameHolds(source.columns);
    ByNameHolds(dest.columns);
    hide ByName, FamiliesConflict, Gather, Validate;
    forall i | 0 <= i < |ms|
      ensures ms[i].included <==> exists c :: c in dest.columns && c.name == ms[i].destCol
    {
      if ms[i].included { assert dst[ms[i].destCol] in dest.columns; }
    }
    forall n | n in dst && !dst[n].isNullable && dst[n].default.None?
      ensures exists i :: 0 <= i < |ms| && ms[i].included && ms[i].destCol == n
    {
      assert n in ByName(source.columns);
      var c := ByName(source.columns)[n];
      var i :| 0 <= i < |source.columns| && source.columns[i] == c;
      assert ms[i].destCol == n;
    }
  }
}
