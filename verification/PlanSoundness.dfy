/** When does the access path the planner chooses return what filtering the full scan would? Over every
    state of every run and every content of the table, exactly under a condition on the key's type and
    the literal, which the planner could check. */
module PlanSoundness {
  import opened Values
  import opened RowCodec
  import opened VersionStore
  import opened SnapshotIsolation
  import opened IsolationTheorems
  import opened Expressions
  import opened HashAggregate
  import opened Plans
  import opened PlanTheorems
  import opened Select
  import opened RangeScans
  import opened SampleRuns

  /** A live transaction of a run looks at a table; the format can store all its keys. */
  ghost predicate Situation(states: seq<Sys>, events: seq<Event>, i: nat, t: TxnId, s: TableSchema, ks: seq<RowKey>) {
    && IsRun(states, events) && i < |states| && t in states[i].live
    && s.name in states[i].kv.catalog && states[i].kv.catalog[s.name] == s
    && Listing(states[i].kv, s.name, ks) && forall k | k in ks :: Fits(k.pk)
  }

  /** What the chosen access path returns. */
  function Planned(kv: Kv, ks: seq<RowKey>, s: Timestamp, t: TxnId, e: Expr, schema: TableSchema): Produced
    requires Descending(kv)
  {
    match ChooseAccess(e, schema)
    case PointGet(v) => PointRows(ReadRow(kv, RowKey(schema.name, v), s, t))
    case RangeScan(a, b) => ScanFrom(kv, KeysInRange(ks, a, b), 0, s, t)
    case FilteredScan => FullScan(kv, ks, s, t, e, schema)
  }

  /** What the condition means: a filter over all visible rows. */
  function FullScan(kv: Kv, ks: seq<RowKey>, s: Timestamp, t: TxnId, e: Expr, schema: TableSchema): Produced
    requires Descending(kv)
  {
    var r := ScanFrom(kv, ks, 0, s, t);
    if r.Fault? then r else Filtered(e, schema, r.rows)
  }

  ghost predicate AgreeIn(states: seq<Sys>, events: seq<Event>, i: nat, t: TxnId, s: TableSchema, ks: seq<RowKey>,
      e: Expr)
    requires Situation(states, events, i, t, s, ks)
  {
    var kv := states[i].kv;
    && Descending(kv)
    && Planned(kv, ks, states[i].live[t].startTs, t, e, s) == FullScan(kv, ks, states[i].live[t].startTs, t, e, s)
  }

  ghost predicate AlwaysAgree(e: Expr, s: TableSchema) {
    forall states, events, i, t, ks {:trigger Situation(states, events, i, t, s, ks)}
      | Situation(states, events, i, t, s, ks) :: AgreeIn(states, events, i, t, s, ks, e)
  }

  /** The literal the chosen path looks for, if it is not a plain scan. */
  function BoundOf(a: Access): Option<Value> {
    match a
    case PointGet(v) => Some(v)
    case RangeScan(start, end) => if start.Some? then start else end
    case FilteredScan => None
  }

  /** What the planner would have to check: a point lookup needs the key's type, a range needs it and an
      exact bound. */
  predicate SoundPath(e: Expr, s: TableSchema) {
    match ChooseAccess(e, s)
    case PointGet(v) => v.Type() == KeyType(s)
    case FilteredScan => true
    case RangeScan(_, _) =>
      var v := BoundOf(ChooseAccess(e, s));
      v.Some? && v.value.Type() == KeyType(s) && ExactBound(v.value)
  }

  // ---- One row ------------------------------------------------------------------------------------

  lemma {:induction false} RangeShape(e: Expr, s: TableSchema)
    requires ChooseAccess(e, s).RangeScan?
    ensures MatchPkCompare(e, PkName(s)).Some?
    ensures var (op, v) := MatchPkCompare(e, PkName(s)).value;
            && !v.Null? && BoundOf(ChooseAccess(e, s)) == Some(v)
            && ((op == Ge && ChooseAccess(e, s) == RangeScan(Some(v), None))
                || (op == Lt && ChooseAccess(e, s) == RangeScan(None, Some(v))))
  {
  }

  /** On a row stored under `k` the comparison is of `k`'s key with the literal, whichever side the column
      is on, or fails on the type. */
  lemma {:induction false} CompareOnRow(catalog: map<Bytes, TableSchema>, k: RowKey, row: Row, e: Expr, op: CmpOp,
      v: Value)
    requires RowOk(catalog, k, row) && MatchPkCompare(e, PkName(catalog[k.table])) == Some((op, v))
    ensures k.pk.Type() == KeyType(catalog[k.table]) && !k.pk.Null?
    ensures EvalBool(e, row, catalog[k.table]) ==
            if v.Type() == KeyType(catalog[k.table]) then Some(Keeps(op, k.pk, v)) else None
  {
    var s := catalog[k.table];
    PkColumnFound(s);
    var i := PkIndex(s.columns);
    assert row[i] == k.pk && row[i] != Null;
    assert Eval(Column(PkName(s)), row, s) == Some(k.pk) && Eval(Literal(v), row, s) == Some(v);
    if PickPk(e.left, e.right, PkName(s)).None? { FlipMeans(e.op, v, k.pk); }
  }

  // ---- All rows -----------------------------------------------------------------------------------

  lemma {:induction false} ScanShift(kv: Kv, ks: seq<RowKey>, i: nat, s: Timestamp, t: TxnId)
    requires Descending(kv) && i <= |ks|
    ensures ScanFrom(kv, ks, i, s, t) == ScanFrom(kv, ks[i..], 0, s, t)
    decreases |ks| - i
  {
    if i < |ks| {
      ScanShift(kv, ks, i + 1, s, t);
      var tail := ks[i..];
      assert tail[1..] == ks[i + 1..];
      ScanTail(kv, tail, 1, s, t);
    }
  }

  lemma {:induction false} ScanTail(kv: Kv, ks: seq<RowKey>, i: nat, s: Timestamp, t: TxnId)
    requires Descending(kv) && 0 < i <= |ks|
    ensures ScanFrom(kv, ks, i, s, t) == ScanFrom(kv, ks[1..], i - 1, s, t)
    decreases |ks| - i
  {
    if i < |ks| { ScanTail(kv, ks, i + 1, s, t); }
  }

  lemma {:induction false} RangeCons(k: RowKey, ks: seq<RowKey>, a: Option<Value>, b: Option<Value>)
    ensures KeysInRange([k] + ks, a, b) == (if InKeyRange(k, a, b) then [k] else []) + KeysInRange(ks, a, b)
  {
    hide InKeyRange;
    var all := [k] + ks;
    if ks == [] {
      assert all[..0] == [];
    } else {
      var n := |ks| - 1;
      RangeCons(k, ks[..n], a, b);
      assert all[..n + 1] == [k] + ks[..n];
    }
  }

  lemma {:induction false} ScanCons(kv: Kv, k: RowKey, ks: seq<RowKey>, s: Timestamp, t: TxnId)
    requires Descending(kv)
    ensures ScanFrom(kv, [k] + ks, 0, s, t) ==
            match ReadRow(kv, k, s, t)
            case Missing => ScanFrom(kv, ks, 0, s, t)
            case Failed(st) => Fault(st)
            case Found(row) => Cons(row, ScanFrom(kv, ks, 0, s, t))
  {
    assert ([k] + ks)[1..] == ks;
    ScanTail(kv, [k] + ks, 1, s, t);
  }

  /** The keys in the range that have rows are those whose rows the comparison keeps. */
  lemma {:induction false} RangeIsFilter(kv: Kv, table: Bytes, ks: seq<RowKey>, s: Timestamp, t: TxnId, e: Expr)
    requires Descending(kv) && Readable(kv, ks, s, t) && table in kv.catalog && kv.catalog[table].name == table
    requires (forall k | k in ks :: k.table == table && Fits(k.pk)) && ChooseAccess(e, kv.catalog[table]).RangeScan?
    requires SoundPath(e, kv.catalog[table])
    ensures var acc, full := ChooseAccess(e, kv.catalog[table]), ScanFrom(kv, ks, 0, s, t);
            && full.Rows?
            && ScanFrom(kv, KeysInRange(ks, acc.start, acc.end), 0, s, t) == Filtered(e, kv.catalog[table], full.rows)
  {
    hide InKeyRange, ChooseAccess, EvalBool, ReadRow, SoundPath;
    var schema := kv.catalog[table];
    var acc := ChooseAccess(e, schema);
    ScanSucceeds(kv, ks, 0, s, t);
    if ks != [] {
      var k, rest := ks[0], ks[1..];
      assert ks == [k] + rest && k in ks;
      RangeIsFilter(kv, table, rest, s, t, e);
      RangeCons(k, rest, acc.start, acc.end);
      ScanCons(kv, k, rest, s, t);
      ScanCons(kv, k, KeysInRange(rest, acc.start, acc.end), s, t);
      var r, tail := ReadRow(kv, k, s, t), ScanFrom(kv, rest, 0, s, t);
      assert [] + KeysInRange(rest, acc.start, acc.end) == KeysInRange(rest, acc.start, acc.end);
      if r.Found? {
        RangeOnRow(kv.catalog, k, r.row, e);
        assert ([r.row] + tail.rows)[1..] == tail.rows;
      }
    }
  }

  lemma {:induction false} RangeOnRow(catalog: map<Bytes, TableSchema>, k: RowKey, row: Row, e: Expr)
    requires RowOk(catalog, k, row) && Fits(k.pk) && ChooseAccess(e, catalog[k.table]).RangeScan?
    requires SoundPath(e, catalog[k.table])
    ensures var acc := ChooseAccess(e, catalog[k.table]);
            EvalBool(e, row, catalog[k.table]) == Some(InKeyRange(k, acc.start, acc.end))
  {
    hide InKeyRange, EvalBool, Keeps, Apart, ExactBound;
    var s := catalog[k.table];
    RangeShape(e, s);
    var (op, v) := MatchPkCompare(e, PkName(s)).value;
    CompareOnRow(catalog, k, row, e, op, v);
    ExactEverywhere(k.pk, v);
    ApartMeans(k.table, k.pk, v);
    assert RowKey(k.table, k.pk) == k;
  }

  /** The range plan in the shape of the point-get plan: in every state of every run an exact bound of the
      key's type gives the filter's rows, and a literal of another type agrees only where nothing is
      visible, for the filter fails on the first row. */
  lemma {:induction false} RangePlan(states: seq<Sys>, events: seq<Event>, i: nat, t: TxnId, s: TableSchema,
      ks: seq<RowKey>, e: Expr)
    requires Situation(states, events, i, t, s, ks) && ChooseAccess(e, s).RangeScan?
    ensures SoundPath(e, s) ==> AgreeIn(states, events, i, t, s, ks, e)
    ensures var v := BoundOf(ChooseAccess(e, s));
            v.Some? && (v.value.Type() != KeyType(s) ==>
              && Descending(states[i].kv)
              && (AgreeIn(states, events, i, t, s, ks, e)
                  <==> ScanFrom(states[i].kv, ks, 0, states[i].live[t].startTs, t) == Rows([])))
  {
    hide ChooseAccess, KeysInRange, SoundPath;
    RunReadable(states, events, i, t, ks);
    RangeShape(e, s);
    var kv, ts := states[i].kv, states[i].live[t].startTs;
    var acc := ChooseAccess(e, s);
    if SoundPath(e, s) { RangeIsFilter(kv, s.name, ks, ts, t, e); }
    var (op, v) := MatchPkCompare(e, PkName(s)).value;
    if v.Type() != KeyType(s) {
      WrongTypeFails(kv, s.name, ks, 0, ts, t, e, op, v);
      RangeOfNothing(kv, ks, acc.start, acc.end, ts, t);
    }
  }

  lemma {:induction false} WrongTypeFails(kv: Kv, table: Bytes, ks: seq<RowKey>, i: nat, s: Timestamp, t: TxnId,
                                          e: Expr, op: CmpOp, v: Value)
    requires Descending(kv) && Readable(kv, ks, s, t) && Listing(kv, table, ks) && i <= |ks| && table in kv.catalog
    requires MatchPkCompare(e, PkName(kv.catalog[table])) == Some((op, v)) && v.Type() != KeyType(kv.catalog[table])
    ensures ScanFrom(kv, ks, i, s, t).Rows?
    ensures Filtered(e, kv.catalog[table], ScanFrom(kv, ks, i, s, t).rows) ==
            if ScanFrom(kv, ks, i, s, t).rows == [] then Rows([]) else Fault(InvalidArgument)
    decreases |ks| - i
  {
    hide MatchPkCompare, EvalBool;
    ScanSucceeds(kv, ks, i, s, t);
    if i < |ks| {
      assert ks[i] in ks && ks[i].table == table;
      var r := ReadRow(kv, ks[i], s, t);
      if r.Found? {
        CompareOnRow(kv.catalog, ks[i], r.row, e, op, v);
      } else {
        WrongTypeFails(kv, table, ks, i + 1, s, t, e, op, v);
      }
    }
  }

  /** A range of keys none of which has a row yields nothing; a range never fails where the scan does not. */
  lemma {:induction false} RangeOfNothing(kv: Kv, ks: seq<RowKey>, a: Option<Value>, b: Option<Value>, s: Timestamp,
      t: TxnId)
    requires Descending(kv) && Readable(kv, ks, s, t)
    ensures ScanFrom(kv, KeysInRange(ks, a, b), 0, s, t).Rows?
    ensures ScanFrom(kv, ks, 0, s, t) == Rows([]) ==> ScanFrom(kv, KeysInRange(ks, a, b), 0, s, t) == Rows([])
  {
    hide InKeyRange, ReadRow;
    if ks == [] {
    } else {
      var k, rest := ks[0], ks[1..];
      assert ks == [k] + rest && k in ks;
      RangeOfNothing(kv, rest, a, b, s, t);
      RangeCons(k, rest, a, b);
      ScanCons(kv, k, rest, s, t);
      ScanCons(kv, k, KeysInRange(rest, a, b), s, t);
      assert [] + KeysInRange(rest, a, b) == KeysInRange(rest, a, b);
    }
  }

  // ---- A table with one row -----------------------------------------------------------------------

  function DefaultOf(t: ColumnType): Value {
    match t
    case NullType => Null
    case Int64Type => Int64(0)
    case StringType => Str([])
    case BoolType => Bool(false)
  }

  /** A row with this key and a default in every other column. */
  function RowFor(s: TableSchema, p: Value): Row {
    seq(|s.columns|, i requires 0 <= i < |s.columns| => if i == PkIndex(s.columns) then p
        else DefaultOf(s.columns[i].typ))
  }

  lemma {:induction false} RowForFits(s: TableSchema, p: Value)
    requires ValidSchema(s) && p.Type() == KeyType(s) && !p.Null?
    ensures PrimaryKeyOf(RowFor(s, p), s) == Some(p)
  {
    PksCountedIsIndexed(s.columns);
  }

  /** Every key of the right type can be the key of the only row. */
  lemma {:induction false} OneRowSituation(s: TableSchema, p: Value, k: RowKey, row: Row)
    requires ValidSchema(s) && p.Type() == KeyType(s) && !p.Null? && Fits(p)
    requires k == RowKey(s.name, p) && row == RowFor(s, p)
    ensures PrimaryKeyOf(row, s) == Some(p)
    ensures Situation(InsertStates(s, k, row), InsertEvents(s, row), 4, 1, s, [k])
    ensures var sys := InsertStates(s, k, row)[4];
            && Descending(sys.kv) && sys.live[1].startTs == 0 && RowOk(sys.kv.catalog, k, row)
            && ReadRow(sys.kv, k, 0, 1) == Found(row) && ScanFrom(sys.kv, [k], 0, 0, 1) == Rows([row])
  {
    hide IsRun, ReadRow;
    RowForFits(s, p);
    InsertRun(s, k, row);
    var kv := InsertStates(s, k, row)[4].kv;
    OnlyRowRead(s, k, OnlyVersion(false, row));
    assert kv == WrittenKv(s, k, OnlyVersion(false, row));
    assert k in [k] && kv.heads == map[k := 1];
    assert ScanFrom(kv, [k], 1, 0, 1) == Rows([]);
  }

  /** A key on which key order and value order differ makes the range plan wrong. */
  lemma {:induction false} InexactRangeFails(s: TableSchema, e: Expr, p: Value, k: RowKey, row: Row, op: CmpOp,
      v: Value)
    requires ValidSchema(s) && ChooseAccess(e, s).RangeScan? && MatchPkCompare(e, PkName(s)) == Some((op, v))
    requires Apart(p, v) && !v.Null? && p.Type() == KeyType(s) && Fits(p) && k == RowKey(s.name, p)
        && row == RowFor(s, p)
    ensures Situation(InsertStates(s, k, row), InsertEvents(s, row), 4, 1, s, [k])
    ensures !AgreeIn(InsertStates(s, k, row), InsertEvents(s, row), 4, 1, s, [k], e)
  {
    hide ChooseAccess, InKeyRange, EvalBool, Apart, Keeps, IsRun, ReadRow, MatchPkCompare, RowFor, Step, ScanFrom,
        KeysInRange, Filtered;
    var sys, acc := InsertStates(s, k, row)[4], ChooseAccess(e, s);
    ApartTypes(p, v);
    OneRowSituation(s, p, k, row);
    RangeShape(e, s);
    CompareOnRow(sys.kv.catalog, k, row, e, op, v);
    ApartMeans(s.name, p, v);
    OneInRange(k, acc.start, acc.end);
    ScanNothing(sys.kv, 0, 1);
    OneFiltered(e, s, row);
  }

  lemma {:induction false} OneInRange(k: RowKey, a: Option<Value>, b: Option<Value>)
    ensures KeysInRange([k], a, b) == if InKeyRange(k, a, b) then [k] else []
  {
    hide InKeyRange;
    assert [k][..0] == [];
  }

  lemma {:induction false} ScanNothing(kv: Kv, s: Timestamp, t: TxnId)
    requires Descending(kv)
    ensures ScanFrom(kv, [], 0, s, t) == Rows([])
  {
  }

  lemma {:induction false} ApartTypes(p: Value, v: Value)
    requires Apart(p, v) && !v.Null?
    ensures p.Type() == v.Type() && !p.Null?
  {
  }

  lemma {:induction false} OneFiltered(e: Expr, s: TableSchema, row: Row)
    ensures Filtered(e, s, [row]) ==
            match EvalBool(e, row, s)
            case None => Fault(InvalidArgument)
            case Some(keep) => if keep then Rows([row]) else Rows([])
  {
    hide EvalBool;
    assert [row][1..] == [];
  }

  // ---- Exactly when the planner's choice is sound ----------------------------------------------------

  lemma {:induction false} SoundPathAgrees(states: seq<Sys>, events: seq<Event>, i: nat, t: TxnId, s: TableSchema,
      ks: seq<RowKey>, e: Expr)
    requires Situation(states, events, i, t, s, ks) && SoundPath(e, s)
    ensures AgreeIn(states, events, i, t, s, ks, e)
  {
    hide IsRun, KeysInRange, Step;
    match ChooseAccess(e, s)
    case PointGet(v) => PointGetPlan(states, events, i, t, s.name, ks, e, v);
    case RangeScan(_, _) => RangePlan(states, events, i, t, s, ks, e);
    case FilteredScan => GetReadsSnapshot(states, events, i, t, RowKey([], Null));
  }

  /** A literal of another type: one row is enough to show it. */
  lemma {:induction false} WrongTypeShown(e: Expr, s: TableSchema, v: Value, k: RowKey, row: Row)
    requires ValidSchema(s) && BoundOf(ChooseAccess(e, s)) == Some(v) && v.Type() != KeyType(s)
    requires k == RowKey(s.name, DefaultOf(KeyType(s))) && row == RowFor(s, k.pk)
    ensures Situation(InsertStates(s, k, row), InsertEvents(s, row), 4, 1, s, [k])
    ensures !AgreeIn(InsertStates(s, k, row), InsertEvents(s, row), 4, 1, s, [k], e)
  {
    hide IsRun, KeysInRange, ReadRow, RowFor, ScanFrom, Step;
    PksCountedIsIndexed(s.columns);
    OneRowSituation(s, k.pk, k, row);
    var ss, es := InsertStates(s, k, row), InsertEvents(s, row);
    if ChooseAccess(e, s).PointGet? {
      PointGetPlan(ss, es, 4, 1, s.name, [k], e, v);
    } else {
      RangePlan(ss, es, 4, 1, s, [k], e);
    }
  }

  /** For every valid table and every condition: the chosen access path returns what the filtered scan
      would, in every state of every run and for all contents of the table, if and only if the path is
      sound. Integer ranges never are, boolean ranges always, string ranges for two bounds. */
  lemma {:induction false} AccessPathExact(e: Expr, s: TableSchema)
    requires ValidSchema(s) && (BoundOf(ChooseAccess(e, s)).Some? ==> Fits(BoundOf(ChooseAccess(e, s)).value))
    ensures AlwaysAgree(e, s) <==> SoundPath(e, s)
  {
    hide Situation, AgreeIn, ExactBound, Apart, Fits, MatchPkCompare, MatchPkEquality;
    if SoundPath(e, s) {
      forall states, events, i, t, ks | Situation(states, events, i, t, s, ks) ensures AgreeIn(states, events, i, t, s,
          ks, e) {
        SoundPathAgrees(states, events, i, t, s, ks, e);
      }
    } else {
      var v := BoundOf(ChooseAccess(e, s)).value;
      if v.Type() != KeyType(s) {
        var k := RowKey(s.name, DefaultOf(KeyType(s)));
        var row := RowFor(s, k.pk);
        WrongTypeShown(e, s, v, k, row);
        assert Situation(InsertStates(s, k, row), InsertEvents(s, row), 4, 1, s, [k]);
      } else {
        InexactShown(e, s);
      }
    }
  }

  lemma {:induction false} InexactShown(e: Expr, s: TableSchema)
    requires ValidSchema(s) && ChooseAccess(e, s).RangeScan?
    requires var v := BoundOf(ChooseAccess(e, s));
             v.Some? && v.value.Type() == KeyType(s) && Fits(v.value) && !ExactBound(v.value)
    ensures !AlwaysAgree(e, s)
  {
    hide Situation, AgreeIn, ExactBound, Apart, Fits;
    RangeShape(e, s);
    var (op, v) := MatchPkCompare(e, PkName(s)).value;
    var p := InexactWitness(v);
    ApartTypes(p, v);
    ApartFits(p, v);
    var k := RowKey(s.name, p);
    var row := RowFor(s, p);
    InexactRangeFails(s, e, p, k, row, op, v);
    assert Situation(InsertStates(s, k, row), InsertEvents(s, row), 4, 1, s, [k]);
  }

  // ---- Inputs that show it ------------------------------------------------------------------------------

  /** `i = 'x'` on a table with an integer key and one row: the filter refuses, the lookup finds nothing. */
  lemma {:induction false} WrongTypeInput() returns (states: seq<Sys>, events: seq<Event>, ks: seq<RowKey>, e: Expr)
    ensures Situation(states, events, 4, 1, SampleTable, ks) && Descending(states[4].kv)
    ensures ChooseAccess(e, SampleTable) == PointGet(Str([0x78]))
    ensures Planned(states[4].kv, ks, 0, 1, e, SampleTable) == Rows([])
    ensures FullScan(states[4].kv, ks, 0, 1, e, SampleTable) == Fault(InvalidArgument)
  {
    hide IsRun, ReadRow, ScanFrom, Step;
    var v := Str([0x78]);
    e := Compare(Eq, Column([0x69]), Literal(v));
    SampleFits();
    var k := RowKey(SampleTable.name, Int64(0));
    var row := RowFor(SampleTable, k.pk);
    ks, states, events := [k], InsertStates(SampleTable, k, row), InsertEvents(SampleTable, row);
    OneRowSituation(SampleTable, k.pk, k, row);
    PointGetPlan(states, events, 4, 1, SampleTable.name, ks, e, v);
  }

  /** `i >= 0` on that table with the key -1: the range takes the row, the condition does not. */
  lemma {:induction false} IntegerRangeInput() returns (states: seq<Sys>, events: seq<Event>, ks: seq<RowKey>, e: Expr)
    ensures Situation(states, events, 4, 1, SampleTable, ks) && Descending(states[4].kv)
    ensures ChooseAccess(e, SampleTable) == RangeScan(Some(Int64(0)), None)
    ensures Planned(states[4].kv, ks, 0, 1, e, SampleTable) == Rows([[Int64(-1)]])
    ensures FullScan(states[4].kv, ks, 0, 1, e, SampleTable) == Rows([])
  {
    hide IsRun, ReadRow, ScanFrom, Step, EncodePk, EvalBool, KeysInRange, Filtered, Keeps, Situation, RowFor,
        InKeyRange;
    var v := Int64(0);
    e := Compare(Ge, Column([0x69]), Literal(v));
    SampleFits();
    var k, row := RowKey(SampleTable.name, Int64(-1)), [Int64(-1)];
    SampleRowFor(k.pk);
    ks, states, events := [k], InsertStates(SampleTable, k, row), InsertEvents(SampleTable, row);
    OneRowSituation(SampleTable, k.pk, k, row);
    CompareOnRow(states[4].kv.catalog, k, row, e, Ge, v);
    MinusOneAfterZero();
    OneInRange(k, Some(v), None);
    OneFiltered(e, SampleTable, row);
  }

  lemma {:induction false} SampleRowFor(p: Value)
    requires p.Int64?
    ensures RowFor(SampleTable, p) == [p] && KeyType(SampleTable) == Int64Type && PkName(SampleTable) == [0x69]
  {
    SampleFits();
  }

  lemma {:induction false} MinusOneAfterZero()
    ensures InKeyRange(RowKey(SampleTable.name, Int64(-1)), Some(Int64(0)), None) && !Keeps(Ge, Int64(-1), Int64(0))
  {
    hide EncodePk;
    KeyEnds(0);
  }
}
