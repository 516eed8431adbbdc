/** Runs from the empty store, written out step by step: create a table, begin, insert one row, and
    then delete and update it in the same transaction. They show that states are reachable. */
module SampleRuns {
  import opened Values
  import opened VersionStore
  import opened Protocol
  import opened LiveTxns
  import opened SnapshotIsolation

  // ---- The stores -----------------------------------------------------------------------------

  const OpenedKv := Kv(map[], map[], map[], 1, 1, 1, map[])

  function TableKv(s: TableSchema): Kv { OpenedKv.(catalog := map[s.name := s]) }

  function BegunKv(s: TableSchema): Kv { TableKv(s).(nextTxn := 2, txns := map[1 := TxnMeta(Open, 0, [])]) }

  /** The provisional version of the one row. */
  function OnlyVersion(tombstone: bool, row: Row): Version { Version(1, 0, 0, 0, 1, tombstone, row) }

  function WrittenKv(s: TableSchema, k: RowKey, v: Version): Kv {
    Kv(map[k := 1], map[VKey(k, 1) := v], map[1 := TxnMeta(Open, 0, [TxnWrite(k, 1)])], 1, 2, 2, map[s.name := s])
  }

  function WrittenSys(s: TableSchema, k: RowKey, v: Version): Sys {
    Sys(WrittenKv(s, k, v), true, map[1 := Txn(1, 0, [TxnWrite(k, 1)])], map[])
  }

  // ---- The steps -----------------------------------------------------------------------------------

  lemma {:induction false} OpenStep()
    ensures Step(InitialSys, Reopen, Sys(OpenedKv, true, map[], map[]))
  {
    var ps := InitPuts(EmptyKv);
    assert ps == [PutNextTs(1), PutNextTxn(1), PutNextVid(1)];
    assert ApplyAll(EmptyKv, ps) == OpenedKv;
    assert RecoverFrom(OpenedKv, 1, 1) == Outcome([], Ok);
    assert Recovery(EmptyKv).puts == ps + [] == ps;
  }

  lemma {:induction false} CreateStep(s: TableSchema)
    requires ValidSchema(s)
    ensures Step(Sys(OpenedKv, true, map[], map[]), Do(CreateTable(s)), Sys(TableKv(s), true, map[], map[]))
  {
    assert ApplyAll(OpenedKv, [PutTable(s)]) == TableKv(s);
  }

  lemma {:induction false} BeginStep(s: TableSchema)
    ensures Step(Sys(TableKv(s), true, map[], map[]), Do(Begin), Sys(BegunKv(s), true, map[1 := Txn(1, 0, [])], map[]))
  {
    var kv := TableKv(s);
    var a, b := OraclePuts(1, 2, 1), [PutTxn(1, TxnMeta(Open, 0, []))];
    assert BeginPuts(kv) == a + b;
    ApplyAllConcat(kv, a, b);
    assert ApplyAll(kv, a) == kv.(nextTxn := 2);
    assert ApplyAll(kv, a + b) == BegunKv(s);
  }

  /** A completed write that leaves every record open. */
  lemma {:induction false} WriteStep(kv: Kv, x: Txn, table: Bytes, a: Action, k: RowKey, kv': Kv, x': Txn)
    requires Descending(kv) && x.id in kv'.txns && kv'.txns[x.id].state == Open && x'.id == x.id
        && x'.startTs == x.startTs
    requires TargetKey(kv, table, a) == (Ok, k)
    requires kv' == ApplyAll(kv, WriteOutcome(kv, k, x, ActionOp(a)).puts)
    requires x'.written == WrittenAfter(kv, k, x, WritePlan(kv, k, x, ActionOp(a)))
    ensures Step(Sys(kv, true, map[x.id := x], map[]), Do(Write(x.id, table, a)),
        Sys(kv', true, map[x.id := x'], map[]))
  {
    hide WritePlan, WriteOutcome, WrittenAfter, TargetKey, ApplyAll;
    var s := Sys(kv, true, map[x.id := x], map[]);
    assert DoneAfter(s, kv') == map[];
    assert LiveAfter(kv, s.live, Write(x.id, table, a)) == map[x.id := x'];
  }

  lemma {:induction false} InsertStep(s: TableSchema, k: RowKey, row: Row)
    requires k.table == s.name && PrimaryKeyOf(row, s) == Some(k.pk)
    ensures Step(Sys(BegunKv(s), true, map[1 := Txn(1, 0, [])], map[]), Do(Write(1, s.name, InsertRow(row))),
                 WrittenSys(s, k, OnlyVersion(false, row)))
  {
    hide Step;
    var kv, t, v, ws := BegunKv(s), Txn(1, 0, []), OnlyVersion(false, row), [TxnWrite(k, 1)];
    assert WritePlan(kv, k, t, Insert(row)) == Install(0);
    var o, a, b, c := OraclePuts(1, 2, 2), PutVersion(k, v), PutHead(k, 1), PutTxn(1, TxnMeta(Open, 0, ws));
    assert WrittenAfter(kv, k, t, Install(0)) == ws;
    assert WritePuts(kv, k, t, Insert(row), Install(0)) == o + [a, b, c];
    assert ApplyAll(kv, o) == kv.(nextVid := 2);
    ApplyInstall(kv, kv.(nextVid := 2), o, a, b, c);
    WriteStep(kv, t, s.name, InsertRow(row), k, WrittenKv(s, k, v), Txn(1, 0, ws));
  }

  /** A later write of the same key goes into the same version. */
  lemma {:induction false} OverwriteStep(s: TableSchema, k: RowKey, v: Version, a: Action, v': Version)
    requires k.table == s.name && v.id == v'.id == 1 && v.prev == 0
    requires TargetKey(WrittenKv(s, k, v), s.name, a) == (Ok, k)
    requires OverwritePlan(WrittenKv(s, k, v), k, 1, ActionOp(a)) == Overwrite(v')
    ensures Step(WrittenSys(s, k, v), Do(Write(1, s.name, a)), WrittenSys(s, k, v'))
  {
    hide Step;
    var kv, t := WrittenKv(s, k, v), Txn(1, 0, [TxnWrite(k, 1)]);
    assert t.written[0].key == k && Holds(t.written, k) && HeldId(t.written, k) == 1;
    assert WritePlan(kv, k, t, ActionOp(a)) == Overwrite(v');
    assert ApplyAll(kv, [PutVersion(k, v')]) == WrittenKv(s, k, v');
    WriteStep(kv, t, s.name, a, k, WrittenKv(s, k, v'), t);
  }

  // ---- The runs ----------------------------------------------------------------------------------------

  /** One more step. */
  lemma {:induction false} RunSnoc(states: seq<Sys>, events: seq<Event>, e: Event, s': Sys)
    requires IsRun(states, events) && Step(states[|events|], e, s')
    ensures IsRun(states + [s'], events + [e])
  {
    var ss, es := states + [s'], events + [e];
    forall i | 0 <= i < |es| ensures Step(ss[i], es[i], ss[i + 1]) {
      if i < |events| { assert Step(states[i], events[i], states[i + 1]); }
    }
  }

  /** Open, create the table, begin, insert. */
  function InsertEvents(s: TableSchema, row: Row): seq<Event> {
    [Reopen, Do(CreateTable(s)), Do(Begin), Do(Write(1, s.name, InsertRow(row)))]
  }

  function InsertStates(s: TableSchema, k: RowKey, row: Row): seq<Sys> {
    [InitialSys, Sys(OpenedKv, true, map[], map[]), Sys(TableKv(s), true, map[], map[]),
     Sys(BegunKv(s), true, map[1 := Txn(1, 0, [])], map[]), WrittenSys(s, k, OnlyVersion(false, row))]
  }

  /** Every valid row of every valid table can be the only row its inserter sees. */
  lemma {:induction false} InsertRun(s: TableSchema, k: RowKey, row: Row)
    requires k.table == s.name && PrimaryKeyOf(row, s) == Some(k.pk)
    ensures IsRun(InsertStates(s, k, row), InsertEvents(s, row))
  {
    hide Step;
    var ss, es := InsertStates(s, k, row), InsertEvents(s, row);
    OpenStep();
    CreateStep(s);
    BeginStep(s);
    InsertStep(s, k, row);
    forall i | 0 <= i < |es| ensures Step(ss[i], es[i], ss[i + 1]) { }
  }

  lemma {:induction false} OnlyRowRead(s: TableSchema, k: RowKey, v: Version)
    requires v.startTs == 0 && v.createdBy == 1 && v.prev == 0
    ensures Descending(WrittenKv(s, k, v))
    ensures ReadRow(WrittenKv(s, k, v), k, 0, 1) == if v.tombstone then Missing else Found(v.row)
    ensures forall j | j != k :: ReadRow(WrittenKv(s, k, v), j, 0, 1) == Missing
  {
  }

  /** Insert, delete and update of one row in one transaction: the update succeeds and the row is
      back. */
  lemma {:induction false} ReviveRun(s: TableSchema, k: RowKey, row: Row) returns (states: seq<Sys>, events: seq<Event>)
    requires k.table == s.name && PrimaryKeyOf(row, s) == Some(k.pk)
    ensures IsRun(states, events) && |events| == 6 && events[5] == Do(Write(1, s.name, UpdateRow(row)))
    ensures states[5] == WrittenSys(s, k, OnlyVersion(true, []))
        && states[6] == WrittenSys(s, k, OnlyVersion(false, row))
    ensures events[4] == Do(Write(1, s.name, DeleteRow(k.pk)))
  {
    hide Step;
    states, events := InsertStates(s, k, row), InsertEvents(s, row);
    InsertRun(s, k, row);
    var live, dead := OnlyVersion(false, row), OnlyVersion(true, []);
    OverwriteStep(s, k, live, DeleteRow(k.pk), dead);
    RunSnoc(states, events, Do(Write(1, s.name, DeleteRow(k.pk))), WrittenSys(s, k, dead));
    states, events := states + [WrittenSys(s, k, dead)], events + [Do(Write(1, s.name, DeleteRow(k.pk)))];
    OverwriteStep(s, k, dead, UpdateRow(row), live);
    RunSnoc(states, events, Do(Write(1, s.name, UpdateRow(row))), WrittenSys(s, k, live));
    states, events := states + [WrittenSys(s, k, live)], events + [Do(Write(1, s.name, UpdateRow(row)))];
  }

  // ---- A table to try things on --------------------------------------------------------------------

  /** Table `t` with one integer column `i`, its key. */
  const SampleTable := TableSchema([0x74], [ColumnDef([0x69], Int64Type, true)])
  const SampleKey := RowKey([0x74], Int64(7))
  const SampleRow: Row := [Int64(7)]

  lemma {:induction false} SampleFits()
    ensures ValidSchema(SampleTable) && PkIndex(SampleTable.columns) == 0
    ensures PrimaryKeyOf(SampleRow, SampleTable) == Some(SampleKey.pk)
  {
    var cols := SampleTable.columns;
    assert cols[..0] == [] && CountPks(cols[..0]) == 0;
  }

  /** An update after the transaction's own delete: the row is missing, the update succeeds, and the row
      can be read again. */
  lemma {:induction false} UpdateRevives() returns (states: seq<Sys>, events: seq<Event>)
    ensures IsRun(states, events) && |events| == 6
    ensures events[4] == Do(Write(1, SampleTable.name, DeleteRow(SampleKey.pk)))
    ensures events[5] == Do(Write(1, SampleTable.name, UpdateRow(SampleRow)))
    ensures 1 in states[5].live && Descending(states[5].kv) && Descending(states[6].kv)
    ensures ReadRow(states[5].kv, SampleKey, states[5].live[1].startTs, 1) == Missing
    ensures CallOutcome(states[5].kv, states[5].live, events[5].op).status == Ok
    ensures 1 in states[6].live && ReadRow(states[6].kv, SampleKey, states[6].live[1].startTs, 1) == Found(SampleRow)
  {
    hide Step, ReadRow;
    SampleFits();
    states, events := ReviveRun(SampleTable, SampleKey, SampleRow);
    OnlyRowRead(SampleTable, SampleKey, OnlyVersion(true, []));
    OnlyRowRead(SampleTable, SampleKey, OnlyVersion(false, SampleRow));
    var kv, t := states[5].kv, states[5].live[1];
    assert t.written[0].key == SampleKey && Holds(t.written, SampleKey) && HeldId(t.written, SampleKey) == 1;
    assert WritePlan(kv, SampleKey, t, Update(SampleRow)) == Overwrite(OnlyVersion(false, SampleRow));
  }
}
