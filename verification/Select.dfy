/** Choosing the access path of a query and running it: point lookup, key range or filtered scan. */
module Select {
  import opened Values
  import opened InternalKeys
  import opened RowCodec
  import opened VersionStore
  import opened Expressions
  import opened HashAggregate
  import opened Plans
  import opened PlanTheorems
  import opened Engine
  import opened KeyOrder

  datatype Access = PointGet(pk: Value) | RangeScan(start: Option<Value>, end: Option<Value>) | FilteredScan

  /** A key comparison with the column on the left: the operator and the literal. */
  function MatchPkCompare(e: Expr, pkName: Bytes): Option<(CmpOp, Value)> {
    if !e.Compare? then None
    else if PickPk(e.left, e.right, pkName).Some? then Some((e.op, PickPk(e.left, e.right, pkName).value))
    else if PickPk(e.right, e.left, pkName).Some? then Some((FlipCmp(e.op), PickPk(e.right, e.left, pkName).value))
    else None
  }

  function FlipCmp(op: CmpOp): CmpOp {
    match op
    case Eq => Eq
    case Ne => Ne
    case Lt => Gt
    case Le => Ge
    case Gt => Lt
    case Ge => Le
  }

  /** Turning a comparison round keeps what it says. */
  lemma {:induction false} FlipMeans(op: CmpOp, a: Value, b: Value)
    ensures CompareValues(FlipCmp(op), b, a) == CompareValues(op, a, b)
  {
    if !a.Null? && !b.Null? && a.Type() == b.Type() && a.Str? {
      LessTotal(a.s, b.s);
      LessIrreflexive(a.s);
      if Less(a.s, b.s) { LessAsymmetric(a.s, b.s); }
      if Less(b.s, a.s) { LessAsymmetric(b.s, a.s); }
    }
  }

  function ChooseAccess(e: Expr, s: TableSchema): Access {
    var point := MatchPkEquality(e, PkName(s));
    if point.Some? then PointGet(point.value)
    else
      match MatchPkCompare(e, PkName(s))
      case Some((Ge, v)) => RangeScan(Some(v), None)
      case Some((Lt, v)) => RangeScan(None, Some(v))
      case _ => FilteredScan
  }

  /** `e` compares the key column with `v`, the column on the left or, turned round, on the right. */
  predicate Compares(e: Expr, pkName: Bytes, op: CmpOp, turned: CmpOp, v: Value) {
    !v.Null? && e in {Compare(op, Column(pkName), Literal(v)), Compare(turned, Literal(v), Column(pkName))}
  }

  /** Which conditions take which path: `pk = v` a lookup, `pk >= v` and `pk < v` a range from or up to `v`,
      each also with the sides exchanged, and every other condition the filtered scan. */
  lemma {:induction false} ChooseMeans(e: Expr, s: TableSchema, v: Value)
    ensures ChooseAccess(e, s) == PointGet(v) <==> Compares(e, PkName(s), Eq, Eq, v)
    ensures ChooseAccess(e, s) == RangeScan(Some(v), None) <==> Compares(e, PkName(s), Ge, Le, v)
    ensures ChooseAccess(e, s) == RangeScan(None, Some(v)) <==> Compares(e, PkName(s), Lt, Gt, v)
    ensures ChooseAccess(e, s).FilteredScan? <==>
              forall w :: !Compares(e, PkName(s), Eq, Eq, w) && !Compares(e, PkName(s), Ge, Le, w)
                && !Compares(e, PkName(s), Lt, Gt, w)
  {
    var a := ChooseAccess(e, s);
    if a.PointGet? { assert Compares(e, PkName(s), Eq, Eq, a.pk); }
    if a.RangeScan? && a.start.Some? { assert Compares(e, PkName(s), Ge, Le, a.start.value); }
    if a.RangeScan? && a.end.Some? { assert Compares(e, PkName(s), Lt, Gt, a.end.value); }
  }

  /** Between the encoded bounds: the first included, the second not. */
  predicate InKeyRange(k: RowKey, start: Option<Value>, end: Option<Value>) {
    && (start.Some? ==> !Less(EncodePk(k.pk), EncodePk(start.value)))
    && (end.Some? ==> Less(EncodePk(k.pk), EncodePk(end.value)))
  }

  function KeysInRange(ks: seq<RowKey>, start: Option<Value>, end: Option<Value>): seq<RowKey> {
    if ks == [] then []
    else
      var n := |ks| - 1;
      KeysInRange(ks[..n], start, end) + if InKeyRange(ks[n], start, end) then [ks[n]] else []
  }

  method PickRange(ks: seq<RowKey>, start: Option<Value>, end: Option<Value>) returns (r: seq<RowKey>)
    ensures r == KeysInRange(ks, start, end)
  {
    r := [];
    for i := 0 to |ks|
      invariant r == KeysInRange(ks[..i], start, end)
    {
      assert ks[..i + 1][..i] == ks[..i];
      if InKeyRange(ks[i], start, end) { r := r + [ks[i]]; }
    }
    assert ks[..|ks|] == ks;
  }

  /** Rows of a table under a condition. A condition on an unknown column is refused; the captured keys
      are handed back. */
  method Run(txn: Transaction, table: Bytes, e: Expr) returns (r: Produced, ghost ks: seq<RowKey>)
    requires txn.Handle() && !txn.finished && Descending(txn.db.kv) && table in txn.db.kv.catalog
    ensures Listing(txn.db.kv, table, ks) && KeyOrdered(ks)
    ensures var kv, schema := txn.db.kv, txn.db.kv.catalog[table];
            if !Binds(e, schema) then r == Fault(InvalidArgument)
            else
              match ChooseAccess(e, schema)
              case PointGet(v) => r == PointRows(ReadRow(kv, RowKey(table, v), txn.startTs, txn.txnId))
              case RangeScan(a, b) => r == ScanFrom(kv, KeysInRange(ks, a, b), 0, txn.startTs, txn.txnId)
              case FilteredScan =>
                var scan := ScanFrom(kv, ks, 0, txn.startTs, txn.txnId);
                scan.Rows? ==> r == Filtered(e, schema, scan.rows)
  {
    hide ScanFrom, Filtered, Binds, ChooseAccess;
    var schema := txn.db.kv.catalog[table];
    var keys := txn.db.CollectHeads(table);
    ks := keys;
    if !Binds(e, schema) { return Fault(InvalidArgument), ks; }
    match ChooseAccess(e, schema) {
      case PointGet(v) =>
        var exec := new PkPointGetExecutor();
        var st := exec.Open(txn, table, v);
        if st != Ok { return Fault(st), ks; }
        r := CollectPoint(exec);
      case RangeScan(a, b) =>
        var within := PickRange(keys, a, b);
        var scan := new TableRowScan(txn, within);
        var exec := new SeqScanExecutor(scan);
        r := CollectScan(exec);
      case FilteredScan =>
        var scan := new TableRowScan(txn, keys);
        var child := new SeqScanExecutor(scan);
        var exec := new FilterExecutor(child, schema, e);
        r := CollectFilter(exec);
    }
  }
}
