/** Reading a table for a query: the snapshot scan, the filter over it, and the point lookup that the
    planner takes for an equality on the primary key. */
module Plans {
  import opened Values
  import opened VersionStore
  import opened Expressions
  import opened HashAggregate
  import opened Engine

  // ---- What the executors produce --------------------------------------------------------------

  function Cons(row: Row, rest: Produced): Produced { if rest.Fault? then rest else Rows([row] + rest.rows) }

  /** The visible rows under these keys, in their order. */
  function ScanFrom(kv: Kv, ks: seq<RowKey>, i: nat, s: Timestamp, reader: TxnId): Produced
    requires Descending(kv) && i <= |ks|
    decreases |ks| - i
  {
    if i == |ks| then Rows([])
    else
      match ReadRow(kv, ks[i], s, reader)
      case Missing => ScanFrom(kv, ks, i + 1, s, reader)
      case Failed(st) => Fault(st)
      case Found(row) => Cons(row, ScanFrom(kv, ks, i + 1, s, reader))
  }

  lemma {:induction false} WalkFails(kv: Kv, k: RowKey, id: nat, s: Timestamp, reader: TxnId)
    requires Descending(kv)
    ensures ReadFrom(kv, k, id, s, reader).Failed? ==> ReadFrom(kv, k, id, s, reader).status == Corruption
    decreases id
  {
    if id != 0 && Has(kv, k, id) { WalkFails(kv, k, Ver(kv, k, id).prev, s, reader); }
  }

  lemma {:induction false} ScanFails(kv: Kv, ks: seq<RowKey>, i: nat, s: Timestamp, reader: TxnId)
    requires Descending(kv) && i <= |ks|
    ensures ScanFrom(kv, ks, i, s, reader).Fault? ==> ScanFrom(kv, ks, i, s, reader) == Fault(Corruption)
    decreases |ks| - i
  {
    if i < |ks| {
      if ks[i] in kv.heads { WalkFails(kv, ks[i], kv.heads[ks[i]], s, reader); }
      ScanFails(kv, ks, i + 1, s, reader);
    }
  }

  lemma {:induction false} ConsParts(row: Row, rest: Produced)
    ensures rest.Rows? ==> Cons(row, rest).rows[0] == row && Cons(row, rest).rows[1..] == rest.rows
  {
  }

  /** The rows a condition holds for; a row it cannot be evaluated on is an error. */
  function Filtered(e: Expr, schema: TableSchema, rows: seq<Row>): Produced {
    if rows == [] then Rows([])
    else
      match EvalBool(e, rows[0], schema)
      case None => Fault(InvalidArgument)
      case Some(keep) =>
        var rest := Filtered(e, schema, rows[1..]);
        if keep then Cons(rows[0], rest) else rest
  }

  lemma {:induction false} FilterFails(e: Expr, schema: TableSchema, rows: seq<Row>)
    ensures Filtered(e, schema, rows).Fault? ==> Filtered(e, schema, rows) == Fault(InvalidArgument)
  {
    if rows != [] { FilterFails(e, schema, rows[1..]); }
  }

  /** One step of an executor: the next of its rows, or the end; an error now or later. */
  ghost predicate Yields(before: Produced, st: Status, hasRow: bool, row: Row, after: Produced) {
    match before
    case Rows(rs) => st == Ok && (if rs == [] then !hasRow else hasRow && row == rs[0] && after == Rows(rs[1..]))
    case Fault(f) => f != Ok && (st == f || (st == Ok && hasRow && after == Fault(f)))
  }

  function Join(rows: seq<Row>, rest: Produced): Produced { if rest.Fault? then rest else Rows(rows + rest.rows) }

  /** Appending each row as it comes collects them all. */
  lemma {:induction false} Collected(rows: seq<Row>, before: Produced, st: Status, hasRow: bool, row: Row,
      after: Produced)
    requires Yields(before, st, hasRow, row, after)
    ensures st != Ok ==> Join(rows, before) == Fault(st)
    ensures st == Ok && !hasRow ==> Join(rows, before) == Rows(rows)
    ensures st == Ok && hasRow ==> Join(rows, before) == Join(rows + [row], after)
  {
    if before.Rows? && before.rows != [] { assert rows + before.rows == rows + [before.rows[0]] + before.rows[1..]; }
  }

  // ---- Scan ---------------------------------------------------------------------------------------

  /** A cursor over the head keys captured when the scan began; each row is read when it is reached. */
  class TableRowScan {
    const txn: Transaction
    const keys: seq<RowKey>
    var pos: nat
    var valid: bool
    var row: Row
    var status: Status

    constructor (txn: Transaction, keys: seq<RowKey>)
      requires Descending(txn.db.kv)
      ensures this.txn == txn && this.keys == keys && Valid()
      ensures Ahead() == ScanFrom(txn.db.kv, keys, 0, txn.startTs, txn.txnId)
    {
      this.txn, this.keys := txn, keys;
      pos, valid, row, status := 0, false, [], Ok;
      new;
      Advance();
    }

    ghost predicate Valid()
      reads this
    {
      pos <= |keys| && (valid ==> status == Ok && pos < |keys|)
    }

    /** What is still to come, the current row included. */
    ghost function Ahead(): Produced
      requires Valid() && Descending(txn.db.kv)
      reads this, txn, txn.db
    {
      if status != Ok then Fault(status)
      else if !valid then Rows([])
      else Cons(row, ScanFrom(txn.db.kv, keys, pos + 1, txn.startTs, txn.txnId))
    }

    /** Skip keys with no row at this snapshot. */
    method Advance()
      requires pos <= |keys| && status == Ok && Descending(txn.db.kv)
      modifies this
      ensures Valid() && pos >= old(pos)
      ensures Ahead() == ScanFrom(txn.db.kv, keys, old(pos), txn.startTs, txn.txnId)
    {
      valid, row := false, [];
      while pos < |keys|
        invariant pos >= old(pos) && pos <= |keys| && !valid && status == Ok
        invariant ScanFrom(txn.db.kv, keys, old(pos), txn.startTs, txn.txnId) ==
            ScanFrom(txn.db.kv, keys, pos, txn.startTs, txn.txnId)
      {
        var r := txn.db.GetRow(keys[pos], txn.startTs, txn.txnId);
        if r.Failed? {
          status := r.status;
          return;
        }
        if r.Found? {
          row, valid := r.row, true;
          return;
        }
        pos := pos + 1;
      }
    }

    method Next()
      requires Valid() && Descending(txn.db.kv)
      modifies this
      ensures Valid() && (old(valid) ==> pos > old(pos))
      ensures old(valid) ==> Ahead() == ScanFrom(txn.db.kv, keys, old(pos) + 1, txn.startTs, txn.txnId)
      ensures !old(valid) ==> Ahead() == old(Ahead()) && pos == old(pos) && !valid
    {
      if !valid { return; }
      pos := pos + 1;
      Advance();
    }
  }

  class SeqScanExecutor {
    const scan: TableRowScan
    var current: Row

    constructor (scan: TableRowScan)
      ensures this.scan == scan
    {
      this.scan, current := scan, [];
    }

    ghost predicate Valid()
      reads this, scan, scan.txn, scan.txn.db
    {
      scan.Valid() && Descending(scan.txn.db.kv)
    }

    ghost function Ahead(): Produced
      requires Valid()
      reads this, scan, scan.txn, scan.txn.db
    {
      scan.Ahead()
    }

    /** The current row of the cursor, which then moves on. */
    method Next() returns (st: Status, hasRow: bool)
      requires Valid()
      modifies this, scan
      ensures Valid() && Yields(old(Ahead()), st, hasRow, current, Ahead())
      ensures hasRow ==> scan.pos > old(scan.pos)
      ensures scan.pos >= old(scan.pos)
    {
      if !scan.valid { return scan.status, false; }
      ScanFails(scan.txn.db.kv, scan.keys, scan.pos + 1, scan.txn.startTs, scan.txn.txnId);
      ConsParts(scan.row, ScanFrom(scan.txn.db.kv, scan.keys, scan.pos + 1, scan.txn.startTs, scan.txn.txnId));
      current := scan.row;
      scan.Next();
      st, hasRow := scan.status, true;
    }
  }

  // ---- Filter --------------------------------------------------------------------------------------

  class FilterExecutor {
    const child: SeqScanExecutor
    const schema: TableSchema
    const condition: Expr

    constructor (child: SeqScanExecutor, schema: TableSchema, e: Expr)
      ensures this.child == child && this.schema == schema && condition == e
    {
      this.child, this.schema, condition := child, schema, e;
    }

    /** Kept rows still to come, where the scan itself has no error. */
    ghost function Ahead(): Produced
      requires child.Valid()
      reads child, child.scan, child.scan.txn, child.scan.txn.db
    {
      if child.Ahead().Fault? then child.Ahead() else Filtered(condition, schema, child.Ahead().rows)
    }

    method Next() returns (st: Status, hasRow: bool)
      requires child.Valid()
      modifies child, child.scan
      ensures child.Valid() && (hasRow ==> child.scan.pos > old(child.scan.pos))
      ensures old(child.Ahead()).Rows? ==>
          Yields(old(Ahead()), st, hasRow, child.current, Ahead()) && (hasRow ==> child.Ahead().Rows?)
    {
      ghost var start := Ahead();
      while true
        invariant child.Valid() && child.scan.pos >= old(child.scan.pos)
        invariant old(child.Ahead()).Rows? ==> child.Ahead().Rows? && Ahead() == start
        decreases |child.scan.keys| - child.scan.pos
      {
        var has: bool;
        st, has := child.Next();
        if st != Ok { return st, false; }
        if !has { return Ok, false; }
        var keep := EvalBool(condition, child.current, schema);
        if keep.None? { return InvalidArgument, false; }
        ConsParts(child.current, Ahead());
        if child.Ahead().Rows? { FilterFails(condition, schema, child.Ahead().rows); }
        if keep.value { return Ok, true; }
      }
    }
  }

  // ---- Collecting ------------------------------------------------------------------------------------

  method CollectScan(exec: SeqScanExecutor) returns (r: Produced)
    requires exec.Valid()
    modifies exec, exec.scan
    ensures r == old(exec.Ahead())
  {
    hide Yields, ScanFrom, TableRowScan.Ahead;
    ghost var start := exec.Ahead();
    var rows: seq<Row> := [];
    assert Join(rows, start) == start;
    while true
      invariant exec.Valid() && start == Join(rows, exec.Ahead())
      decreases |exec.scan.keys| - exec.scan.pos
    {
      ghost var before := exec.Ahead();
      var st, hasRow := exec.Next();
      Collected(rows, before, st, hasRow, exec.current, exec.Ahead());
      if st != Ok { return Fault(st); }
      if !hasRow { return Rows(rows); }
      rows := rows + [exec.current];
    }
  }

  method CollectFilter(exec: FilterExecutor) returns (r: Produced)
    requires exec.child.Valid()
    modifies exec.child, exec.child.scan
    ensures old(exec.child.Ahead()).Rows? ==> r == old(exec.Ahead())
  {
    hide Yields, ScanFrom, TableRowScan.Ahead, Filtered;
    ghost var start, sound := exec.Ahead(), exec.child.Ahead().Rows?;
    var rows: seq<Row> := [];
    assert Join(rows, start) == start;
    while true
      invariant exec.child.Valid() && (sound ==> exec.child.Ahead().Rows? && start == Join(rows, exec.Ahead()))
      decreases |exec.child.scan.keys| - exec.child.scan.pos
    {
      ghost var before := exec.Ahead();
      var st, hasRow := exec.Next();
      if sound { Collected(rows, before, st, hasRow, exec.child.current, exec.Ahead()); }
      if st != Ok { return Fault(st); }
      if !hasRow { return Rows(rows); }
      rows := rows + [exec.child.current];
    }
  }

  // ---- Point lookup --------------------------------------------------------------------------------------

  function PointRows(r: Read): Produced {
    match r
    case Found(row) => Rows([row])
    case Missing => Rows([])
    case Failed(st) => Fault(st)
  }

  class PkPointGetExecutor {
    var found: bool
    var done: bool
    var current: Row
    ghost var ahead: Produced

    constructor ()
      ensures ahead == Rows([]) && Valid() && !done
    {
      found, done, current, ahead := false, false, [], Rows([]);
    }

    ghost predicate Valid()
      reads this
    {
      ahead == if found && !done then Rows([current]) else Rows([])
    }

    /** Look the row up; that there is none is not an error. */
    method Open(txn: Transaction, table: Bytes, pk: Value) returns (st: Status)
      requires Valid() && !done && txn.Handle() && Descending(txn.db.kv) && !txn.finished && table in txn.db.kv.catalog
      modifies this
      ensures Valid()
      ensures var r := PointRows(ReadRow(txn.db.kv, RowKey(table, pk), txn.startTs, txn.txnId));
              if r.Fault? then st == r.status != Ok else st == Ok && ahead == r
    {
      var r := txn.Get(table, pk);
      if RowKey(table, pk) in txn.db.kv.heads {
        WalkFails(txn.db.kv, RowKey(table, pk), txn.db.kv.heads[RowKey(table, pk)], txn.startTs, txn.txnId);
      }
      match r {
        case Missing => found, ahead, st := false, Rows([]), Ok;
        case Failed(f) => st := f;
        case Found(row) => current, found, ahead, st := row, true, Rows([row]), Ok;
      }
    }

    method Next() returns (hasRow: bool)
      requires Valid()
      modifies this
      ensures Valid() && Yields(old(ahead), Ok, hasRow, current, ahead) && (hasRow ==> ahead == Rows([]))
    {
      if done || !found { return false; }
      done, ahead := true, Rows([]);
      hasRow := true;
    }
  }

  method CollectPoint(exec: PkPointGetExecutor) returns (r: Produced)
    requires exec.Valid()
    modifies exec
    ensures r == old(exec.ahead)
  {
    ghost var start := exec.ahead;
    var rows: seq<Row> := [];
    while true
      invariant exec.Valid() && exec.ahead.Rows? && start == Rows(rows + exec.ahead.rows)
      decreases |exec.ahead.rows|
    {
      var hasRow := exec.Next();
      if !hasRow { return Rows(rows); }
      rows := rows + [exec.current];
    }
  }
}
