/** The planner's shortcut keeps the meaning of the query: the point lookup returns what filtering the
    full scan would, exactly when the literal has the key's type or there is nothing to scan. And a scan
    sees one snapshot, however other transactions interleave with it. */
module PlanTheorems {
  import opened Values
  import opened VersionStore
  import opened Protocol
  import opened SnapshotIsolation
  import opened IsolationTheorems
  import opened Expressions
  import opened HashAggregate
  import opened Plans
  import opened KeyOrder

  function PkName(s: TableSchema): Bytes { if PkIndex(s.columns) < 0 then [] else s.columns[PkIndex(s.columns)].name }

  function PickPk(col: Expr, lit: Expr, pkName: Bytes): Option<Value> {
    if col.Column? && lit.Literal? && col.name == pkName && !lit.v.Null? then Some(lit.v) else None
  }

  /** Column = literal or literal = column, on the primary key. */
  function MatchPkEquality(e: Expr, pkName: Bytes): Option<Value> {
    if !e.Compare? || e.op != Eq then None
    else if PickPk(e.left, e.right, pkName).Some? then PickPk(e.left, e.right, pkName)
    else PickPk(e.right, e.left, pkName)
  }

  /** The head keys of a table, each once, as the iterator captures them. */
  ghost predicate Listing(kv: Kv, table: Bytes, ks: seq<RowKey>) {
    && (forall i, j | 0 <= i < j < |ks| :: ks[i] != ks[j])
    && forall k :: k in ks <==> k in kv.heads && k.table == table
  }

  // ---- What a filter and a scan yield -----------------------------------------------------------------

  /** `out` holds the items of `all` at the positions `at`, in order. */
  ghost predicate Subsequence<T>(at: seq<nat>, all: seq<T>, out: seq<T>) {
    && |at| == |out|
    && (forall i, j | 0 <= i < j < |at| :: at[i] < at[j])
    && forall i | 0 <= i < |at| :: at[i] < |all| && out[i] == all[at[i]]
  }

  function Moved(at: seq<nat>): seq<nat> { seq(|at|, i requires 0 <= i < |at| => at[i] + 1) }

  lemma {:induction false} MovedMeans(at: seq<nat>, p: nat)
    ensures p in Moved(at) <==> p > 0 && p - 1 in at
  {
    if p in Moved(at) { var i :| 0 <= i < |at| && Moved(at)[i] == p; assert at[i] == p - 1; }
    if p > 0 && p - 1 in at { var i :| 0 <= i < |at| && at[i] == p - 1; assert Moved(at)[i] == p; }
  }

  /** One more item in front, taken or not. */
  lemma {:induction false} SubsequenceCons<T>(x: T, at: seq<nat>, all: seq<T>, out: seq<T>)
    requires Subsequence(at, all, out)
    ensures Subsequence(Moved(at), [x] + all, out) && Subsequence([0] + Moved(at), [x] + all, [x] + out)
  {
  }

  ghost predicate HoldsOn(e: Expr, schema: TableSchema, row: Row) { Eval(e, row, schema) == Some(Bool(true)) }

  /** The filter fails exactly when the condition cannot be evaluated on some row, and otherwise yields, in
      order, exactly the rows on which it is true. */
  lemma {:induction false} FilterMeans(e: Expr, schema: TableSchema, rows: seq<Row>) returns (at: seq<nat>)
    ensures Filtered(e, schema, rows).Fault? <==> exists row | row in rows :: Degree(Eval(e, row, schema)) < 0
    ensures Filtered(e, schema, rows).Rows? ==>
              && Subsequence(at, rows, Filtered(e, schema, rows).rows)
              && forall p | 0 <= p < |rows| :: p in at <==> HoldsOn(e, schema, rows[p])
  {
    at := [];
    if rows != [] {
      var row, tail := rows[0], rows[1..];
      var later := FilterMeans(e, schema, tail);
      assert rows == [row] + tail;
      WhereMeans(e, e, row, schema);
      hide Eval, Subsequence;
      at := (if HoldsOn(e, schema, row) then [0] else []) + Moved(later);
      if Filtered(e, schema, rows).Rows? {
        SubsequenceCons(row, later, tail, Filtered(e, schema, tail).rows);
        assert [] + Moved(later) == Moved(later);
        forall p | 0 <= p < |rows| ensures p in at <==> HoldsOn(e, schema, rows[p]) {
          MovedMeans(later, p);
          if p > 0 { assert rows[p] == tail[p - 1]; }
        }
      }
    }
  }

  /** One row for each key that has one, in the order of the keys: `found` are these keys, at the positions
      `at`, and `rows` their rows. */
  ghost predicate OnePerKey(kv: Kv, ks: seq<RowKey>, s: Timestamp, t: TxnId, at: seq<nat>, found: seq<RowKey>,
      rows: seq<Row>)
    requires Descending(kv)
  {
    && Subsequence(at, ks, found)
    && (forall p | 0 <= p < |ks| :: p in at <==> ReadRow(kv, ks[p], s, t).Found?)
    && |found| == |rows| && forall i | 0 <= i < |found| :: ReadRow(kv, found[i], s, t) == Found(rows[i])
  }

  lemma {:induction false} MovedFound(kv: Kv, k: RowKey, ks: seq<RowKey>, s: Timestamp, t: TxnId, at: seq<nat>, p: nat)
    requires Descending(kv) && p <= |ks|
    requires forall q | 0 <= q < |ks| :: q in at <==> ReadRow(kv, ks[q], s, t).Found?
    ensures p in Moved(at) <==> p > 0 && ReadRow(kv, ([k] + ks)[p], s, t).Found?
  {
    hide ReadRow, Moved;
    MovedMeans(at, p);
    if p > 0 { assert ([k] + ks)[p] == ks[p - 1]; }
  }

  lemma {:induction false} OneMoreKey(kv: Kv, k: RowKey, ks: seq<RowKey>, s: Timestamp, t: TxnId, at: seq<nat>,
      found: seq<RowKey>, rows: seq<Row>)
    requires Descending(kv) && OnePerKey(kv, ks, s, t, at, found, rows)
    ensures var r := ReadRow(kv, k, s, t);
            if r.Found? then OnePerKey(kv, [k] + ks, s, t, [0] + Moved(at), [k] + found, [r.row] + rows)
            else OnePerKey(kv, [k] + ks, s, t, Moved(at), found, rows)
  {
    hide ReadRow, Moved, Subsequence;
    SubsequenceCons(k, at, ks, found);
    var all, r := [k] + ks, ReadRow(kv, k, s, t);
    forall p | 0 <= p < |all| ensures p in Moved(at) <==> p > 0 && ReadRow(kv, all[p], s, t).Found? {
      MovedFound(kv, k, ks, s, t, at, p);
    }
    if r.Found? {
      var f, rs := [k] + found, [r.row] + rows;
      forall i | 0 <= i < |f| ensures ReadRow(kv, f[i], s, t) == Found(rs[i]) {
        if i > 0 { assert f[i] == found[i - 1] && rs[i] == rows[i - 1]; }
      }
    }
  }

  lemma {:induction false} NoKeys(kv: Kv, ks: seq<RowKey>, s: Timestamp, t: TxnId)
    requires Descending(kv) && ks == []
    ensures OnePerKey(kv, ks, s, t, [], [], [])
  {
  }

  /** The scan fails exactly when some read fails, and otherwise yields one row for each key that has one, in
      the order of the keys. */
  lemma {:induction false} ScanMeans(kv: Kv, ks: seq<RowKey>, n: nat, s: Timestamp, t: TxnId)
      returns (at: seq<nat>, found: seq<RowKey>)
    requires Descending(kv) && n <= |ks|
    ensures ScanFrom(kv, ks, n, s, t).Fault? <==> exists k | k in ks[n..] :: ReadRow(kv, k, s, t).Failed?
    ensures ScanFrom(kv, ks, n, s, t).Rows? ==>
              OnePerKey(kv, ks[n..], s, t, at, found, ScanFrom(kv, ks, n, s, t).rows)
    decreases |ks| - n
  {
    hide ReadRow, OnePerKey;
    if n == |ks| {
      at, found := [], [];
      NoKeys(kv, ks[n..], s, t);
    } else {
      var k, r := ks[n], ReadRow(kv, ks[n], s, t);
      assert ks[n..] == [k] + ks[n + 1..];
      at, found := ScanMeans(kv, ks, n + 1, s, t);
      if ScanFrom(kv, ks, n, s, t).Rows? {
        OneMoreKey(kv, k, ks[n + 1..], s, t, at, found, ScanFrom(kv, ks, n + 1, s, t).rows);
      }
      if r.Found? { at, found := [0] + Moved(at), [k] + found; } else { at := Moved(at); }
    }
  }

  // ---- One row ------------------------------------------------------------------------------------

  lemma {:induction false} PkColumnFound(s: TableSchema)
    requires ValidSchema(s)
    ensures PkIndex(s.columns) >= 0 && ColumnIndex(s.columns, PkName(s)) == PkIndex(s.columns)
  {
    PksCountedIsIndexed(s.columns);
    var i, j := PkIndex(s.columns), ColumnIndex(s.columns, PkName(s));
    assert s.columns[i].name == PkName(s) && j >= 0 && s.columns[j].name == PkName(s);
  }

  function KeyType(s: TableSchema): ColumnType {
    if PkIndex(s.columns) < 0 then NullType else s.columns[PkIndex(s.columns)].typ
  }

  /** On a row stored under `k` the condition compares the literal with `k`'s key, or fails on the type. */
  lemma {:induction false} EqualityOnRow(catalog: map<Bytes, TableSchema>, k: RowKey, row: Row, e: Expr, v: Value)
    requires RowOk(catalog, k, row) && MatchPkEquality(e, PkName(catalog[k.table])) == Some(v)
    ensures k.pk.Type() == KeyType(catalog[k.table])
    ensures EvalBool(e, row, catalog[k.table]) == if v.Type() == KeyType(catalog[k.table]) then Some(k.pk == v)
        else None
  {
    var s := catalog[k.table];
    PkColumnFound(s);
    var i := PkIndex(s.columns);
    assert row[i] == k.pk && row[i] != Null;
    assert Eval(Column(PkName(s)), row, s) == Some(k.pk) && Eval(Literal(v), row, s) == Some(v);
    if v.Type() == KeyType(s) { EqualIsSame(k.pk, v); }
  }

  // ---- All rows -----------------------------------------------------------------------------------

  /** Reading any listed key gives no row or one that belongs under that key. */
  ghost predicate Readable(kv: Kv, ks: seq<RowKey>, s: Timestamp, t: TxnId)
    requires Descending(kv)
  {
    forall k | k in ks :: var r := ReadRow(kv, k, s, t); !r.Failed? && (r.Found? ==> RowOk(kv.catalog, k, r.row))
  }

  lemma {:induction false} ScanSucceeds(kv: Kv, ks: seq<RowKey>, i: nat, s: Timestamp, t: TxnId)
    requires Descending(kv) && Readable(kv, ks, s, t) && i <= |ks|
    ensures ScanFrom(kv, ks, i, s, t).Rows?
    decreases |ks| - i
  {
    if i < |ks| {
      assert ks[i] in ks;
      ScanSucceeds(kv, ks, i + 1, s, t);
    }
  }

  /** With a literal of the key's type the filter keeps the one row under that key. */
  lemma {:induction false} FilterKeepsOne(kv: Kv, table: Bytes, ks: seq<RowKey>, i: nat, s: Timestamp, t: TxnId,
      e: Expr, v: Value)
    requires Descending(kv) && Readable(kv, ks, s, t) && Listing(kv, table, ks) && i <= |ks| && table in kv.catalog
    requires MatchPkEquality(e, PkName(kv.catalog[table])) == Some(v) && v.Type() == KeyType(kv.catalog[table])
    ensures ScanFrom(kv, ks, i, s, t).Rows?
    ensures Filtered(e, kv.catalog[table], ScanFrom(kv, ks, i, s, t).rows) ==
            if RowKey(table, v) in ks[i..] then PointRows(ReadRow(kv, RowKey(table, v), s, t)) else Rows([])
    decreases |ks| - i
  {
    ScanSucceeds(kv, ks, i, s, t);
    if i < |ks| {
      assert ks[i] in ks && ks[i].table == table;
      FilterKeepsOne(kv, table, ks, i + 1, s, t, e, v);
      assert ks[i..] == [ks[i]] + ks[i + 1..];
      var r, rest := ReadRow(kv, ks[i], s, t), ScanFrom(kv, ks, i + 1, s, t);
      if r.Found? {
        EqualityOnRow(kv.catalog, ks[i], r.row, e, v);
        assert ([r.row] + rest.rows)[1..] == rest.rows;
      }
      assert RowKey(table, ks[i].pk) == ks[i];
    }
  }

  /** A literal of another type fails on the first row there is. */
  lemma {:induction false} FilterFailsOnType(kv: Kv, table: Bytes, ks: seq<RowKey>, i: nat, s: Timestamp, t: TxnId,
      e: Expr, v: Value)
    requires Descending(kv) && Readable(kv, ks, s, t) && Listing(kv, table, ks) && i <= |ks| && table in kv.catalog
    requires MatchPkEquality(e, PkName(kv.catalog[table])) == Some(v) && v.Type() != KeyType(kv.catalog[table])
    ensures ScanFrom(kv, ks, i, s, t).Rows?
    ensures Filtered(e, kv.catalog[table], ScanFrom(kv, ks, i, s, t).rows) ==
            if ScanFrom(kv, ks, i, s, t).rows == [] then Rows([]) else Fault(InvalidArgument)
    decreases |ks| - i
  {
    ScanSucceeds(kv, ks, i, s, t);
    if i < |ks| {
      assert ks[i] in ks && ks[i].table == table;
      var r := ReadRow(kv, ks[i], s, t);
      if r.Found? {
        EqualityOnRow(kv.catalog, ks[i], r.row, e, v);
      } else {
        FilterFailsOnType(kv, table, ks, i + 1, s, t, e, v);
      }
    }
  }

  lemma {:induction false} RunReadable(states: seq<Sys>, events: seq<Event>, i: nat, t: TxnId, ks: seq<RowKey>)
    requires IsRun(states, events) && i < |states| && t in states[i].live
    ensures Descending(states[i].kv) && Readable(states[i].kv, ks, states[i].live[t].startTs, t)
  {
    GetReadsSnapshot(states, events, i, t, RowKey([], Null));
    forall k | k in ks
      ensures var r := ReadRow(states[i].kv, k, states[i].live[t].startTs, t);
              !r.Failed? && (r.Found? ==> RowOk(states[i].kv.catalog, k, r.row))
    {
      ReadRowsFitSchema(states, events, i, t, k);
      GetReadsSnapshot(states, events, i, t, k);
    }
  }

  /** Point-get plan against filter over scan, in every state of every run and for either operand
      order: they agree if and only if the literal has the key's type or no row is visible. Otherwise
      the filter reports an error where the lookup finds nothing. */
  lemma {:induction false} PointGetPlan(states: seq<Sys>, events: seq<Event>, i: nat, t: TxnId, table: Bytes,
      ks: seq<RowKey>, e: Expr, v: Value)
    requires IsRun(states, events) && i < |states| && t in states[i].live && table in states[i].kv.catalog
    requires Listing(states[i].kv, table, ks) && MatchPkEquality(e, PkName(states[i].kv.catalog[table])) == Some(v)
    ensures Descending(states[i].kv)
    ensures var kv, s := states[i].kv, states[i].live[t].startTs;
            && ScanFrom(kv, ks, 0, s, t).Rows?
            && var rows := ScanFrom(kv, ks, 0, s, t).rows;
               var byScan, byKey := Filtered(e, kv.catalog[table], rows),
                   PointRows(ReadRow(kv, RowKey(table, v), s, t));
               && (byScan == byKey <==> v.Type() == KeyType(kv.catalog[table]) || rows == [])
               && (byScan != byKey ==> byScan == Fault(InvalidArgument) && byKey == Rows([]))
  {
    RunReadable(states, events, i, t, ks);
    var kv, s := states[i].kv, states[i].live[t].startTs;
    var schema, key := kv.catalog[table], RowKey(table, v);
    if v.Type() == KeyType(schema) {
      FilterKeepsOne(kv, table, ks, 0, s, t, e, v);
      assert ks[0..] == ks;
    } else {
      FilterFailsOnType(kv, table, ks, 0, s, t, e, v);
      NoRowOfOtherType(kv, table, ks, s, t, e, v);
    }
  }

  lemma {:induction false} NoRowOfOtherType(kv: Kv, table: Bytes, ks: seq<RowKey>, s: Timestamp, t: TxnId, e: Expr,
      v: Value)
    requires Descending(kv) && Readable(kv, ks, s, t) && Listing(kv, table, ks) && table in kv.catalog
    requires MatchPkEquality(e, PkName(kv.catalog[table])) == Some(v) && v.Type() != KeyType(kv.catalog[table])
    ensures PointRows(ReadRow(kv, RowKey(table, v), s, t)) == Rows([])
  {
    var key := RowKey(table, v);
    if key in ks {
      var r := ReadRow(kv, key, s, t);
      if r.Found? {
        EqualityOnRow(kv.catalog, key, r.row, e, v);
        assert false;
      }
    }
  }

  // ---- Order -------------------------------------------------------------------------------------------

  /** The key a row is stored under. */
  function KeyOf(table: Bytes, schema: TableSchema, row: Row): RowKey {
    var pk := PrimaryKeyOf(row, schema);
    RowKey(table, if pk.Some? then pk.value else Null)
  }

  ghost predicate RowsOrdered(table: Bytes, schema: TableSchema, rows: seq<Row>) {
    forall i, j {:trigger rows[i], rows[j]} | 0 <= i < j < |rows| ::
        !KeyBefore(KeyOf(table, schema, rows[j]), KeyOf(table, schema, rows[i]))
  }

  lemma {:induction false} FoundKey(kv: Kv, table: Bytes, ks: seq<RowKey>, s: Timestamp, t: TxnId, k: RowKey, row: Row)
    requires Descending(kv) && Readable(kv, ks, s, t) && k in ks && k.table == table && table in kv.catalog
    requires ReadRow(kv, k, s, t) == Found(row)
    ensures KeyOf(table, kv.catalog[table], row) == k
  {
    hide ReadRow;
  }

  /** A scan of keys in order yields rows in the order of their encoded keys, each under a key scanned. */
  lemma {:induction false} ScanInKeyOrder(kv: Kv, table: Bytes, ks: seq<RowKey>, n: nat, s: Timestamp, t: TxnId)
    requires Descending(kv) && Readable(kv, ks, s, t) && n <= |ks| && KeyOrdered(ks) && table in kv.catalog
    requires forall k | k in ks :: k.table == table
    ensures ScanFrom(kv, ks, n, s, t).Rows? && RowsOrdered(table, kv.catalog[table], ScanFrom(kv, ks, n, s, t).rows)
    ensures forall row | row in ScanFrom(kv, ks, n, s, t).rows :: KeyOf(table, kv.catalog[table], row) in ks[n..]
  {
    hide KeyBefore, ReadRow, KeyOf, ScanFrom, Readable;
    ScanSucceeds(kv, ks, n, s, t);
    var at, found := ScanMeans(kv, ks, n, s, t);
    var rows, schema := ScanFrom(kv, ks, n, s, t).rows, kv.catalog[table];
    forall i | 0 <= i < |rows| ensures KeyOf(table, schema, rows[i]) == ks[n + at[i]] && at[i] < |ks[n..]| {
      assert found[i] == ks[n..][at[i]] == ks[n + at[i]];
      FoundKey(kv, table, ks, s, t, found[i], rows[i]);
    }
  }

  // ---- Scans and other transactions ----------------------------------------------------------------------

  /** A scan sees one snapshot: whatever others do between its steps, every key reads as it did when the
      scan began, and a key that had no head then has no row later. */
  lemma {:induction false} ScanSeesSnapshot(states: seq<Sys>, events: seq<Event>, i: nat, j: nat, m: nat, t: TxnId,
      table: Bytes, ks: seq<RowKey>, k: RowKey)
    requires IsRun(states, events) && i <= m <= j < |states| && (forall n | i <= n <= j :: t in states[n].live)
    requires Listing(states[i].kv, table, ks) && k.table == table && !Holds(states[j].live[t].written, k)
    ensures Descending(states[i].kv) && Descending(states[m].kv)
    ensures Get(states[m], t, k) == if k in ks then Get(states[i], t, k) else Missing
  {
    RepeatableRead(states, events, i, j, t, k);
    RepeatableRead(states, events, m, j, t, k);
  }

  ghost predicate Spread(states: seq<Sys>, at: seq<nat>, t: TxnId) {
    forall n | 0 <= n < |at| :: at[n] < |states| && Descending(states[at[n]].kv) && t in states[at[n]].live
  }

  /** The outcome of a scan that reads key `ks[n]` in state `at[n]`. */
  ghost function ScanAcross(states: seq<Sys>, at: seq<nat>, t: TxnId, ks: seq<RowKey>, n: nat): Produced
    requires Spread(states, at, t) && |at| == |ks| && n <= |ks|
    decreases |ks| - n
  {
    if n == |ks| then Rows([])
    else
      match Get(states[at[n]], t, ks[n])
      case Missing => ScanAcross(states, at, t, ks, n + 1)
      case Failed(st) => Fault(st)
      case Found(row) => Cons(row, ScanAcross(states, at, t, ks, n + 1))
  }

  lemma {:induction false} RunSpread(states: seq<Sys>, events: seq<Event>, at: seq<nat>, i: nat, j: nat, t: TxnId)
    requires IsRun(states, events) && i <= j < |states| && (forall n | i <= n <= j :: t in states[n].live)
    requires forall n | 0 <= n < |at| :: i <= at[n] <= j
    ensures Spread(states, at, t) && Descending(states[i].kv)
  {
    GetReadsSnapshot(states, events, i, t, RowKey([], Null));
    forall n | 0 <= n < |at| ensures Descending(states[at[n]].kv) {
      GetReadsSnapshot(states, events, at[n], t, RowKey([], Null));
    }
  }

  /** A scan spread over a run gives what it would give in its first state alone. */
  lemma {:induction false} SpreadScan(states: seq<Sys>, events: seq<Event>, at: seq<nat>, i: nat, j: nat, t: TxnId,
      table: Bytes, ks: seq<RowKey>, n: nat)
    requires IsRun(states, events) && i <= j < |states| && (forall n | i <= n <= j :: t in states[n].live)
    requires Listing(states[i].kv, table, ks) && |at| == |ks| && (forall n | 0 <= n < |at| :: i <= at[n] <= j)
    requires n <= |ks| && forall k | k in ks :: !Holds(states[j].live[t].written, k)
    ensures Spread(states, at, t) && Descending(states[i].kv)
    ensures ScanAcross(states, at, t, ks, n) == ScanFrom(states[i].kv, ks, n, states[i].live[t].startTs, t)
    decreases |ks| - n
  {
    RunSpread(states, events, at, i, j, t);
    if n < |ks| {
      assert ks[n] in ks;
      ScanSeesSnapshot(states, events, i, j, at[n], t, table, ks, ks[n]);
      SpreadScan(states, events, at, i, j, t, table, ks, n + 1);
    }
  }
}
