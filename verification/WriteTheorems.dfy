/** Insert, Update and Delete in every run: when they are accepted, by what the transaction reads before the
    call, and what every transaction reads after it. */
module WriteTheorems {
  import opened Values
  import opened VersionStore
  import opened DurableSteps
  import opened Protocol
  import opened CrashSafety
  import opened Reads
  import opened LiveTxns
  import opened Ddl
  import opened SnapshotIsolation
  import opened IsolationTheorems

  // ---- The row a call is about --------------------------------------------------------------------

  /** `k` is the key the call names: the table exists, and the key is the given one or the cell of a valid
      row in a column marked as primary key. */
  ghost predicate Targets(kv: Kv, table: Bytes, a: Action, k: RowKey) {
    && k.table == table && table in kv.catalog
    && var s := kv.catalog[table];
    match a
    case DeleteRow(pk) => k.pk == pk
    case InsertRow(row) => ValidateAgainst(row, s) && KeyCell(row, s.columns, k.pk)
    case UpdateRow(row) => ValidateAgainst(row, s) && KeyCell(row, s.columns, k.pk)
  }

  ghost predicate KeyCell(row: Row, cols: seq<ColumnDef>, pk: Value) {
    exists c | 0 <= c < |cols| && c < |row| :: cols[c].primaryKey && row[c] == pk
  }

  lemma {:induction false} KeyCellIs(row: Row, s: TableSchema, pk: Value)
    ensures PrimaryKeyOf(row, s) == Some(pk) <==> ValidateAgainst(row, s) && KeyCell(row, s.columns, pk)
  {
    PksCountedIsIndexed(s.columns);
    OnePk(s.columns);
  }

  lemma {:induction false} TargetMeans(kv: Kv, table: Bytes, a: Action, k: RowKey)
    ensures TargetKey(kv, table, a) == (Ok, k) <==> Targets(kv, table, a, k)
    ensures TargetKey(kv, table, a).0 ==
              if table !in kv.catalog then NotFound
              else if !a.DeleteRow? && !ValidateAgainst(a.row, kv.catalog[table]) then InvalidArgument else Ok
  {
    if table in kv.catalog && !a.DeleteRow? {
      KeyCellIs(a.row, kv.catalog[table], k.pk);
      if ValidateAgainst(a.row, kv.catalog[table]) { ValidRowHasPk(a.row, kv.catalog[table]); }
    }
  }

  // ---- When a write is accepted ---------------------------------------------------------------------

  /** Another open transaction has written the key. */
  ghost predicate TakenBy(live: map<TxnId, Txn>, t: TxnId, k: RowKey) {
    exists u :: u in live && u != t && Holds(live[u].written, k)
  }

  /** A version of the key was committed after the snapshot. */
  ghost predicate Overtaken(kv: Kv, k: RowKey, snapshot: Timestamp) {
    exists id :: CommittedVersion(kv, k, id) && Ver(kv, k, id).startTs > snapshot
  }

  /** What the call answers, by what the transaction reads of the key: a conflict comes first, an insert
      needs the row to be absent, the others need it to be there, but an update may follow a delete of the
      same transaction. */
  ghost function Answer(kv: Kv, live: map<TxnId, Txn>, t: TxnId, k: RowKey, op: WriteOp): Status
    requires Descending(kv) && t in live
  {
    var r := ReadRow(kv, k, live[t].startTs, t);
    if TakenBy(live, t, k) || Overtaken(kv, k, live[t].startTs) then Conflict
    else
      match op
      case Insert(_) => if r.Found? then InvalidArgument else Ok
      case Update(_) => if r.Found? || Holds(live[t].written, k) then Ok else NotFound
      case Delete => if r.Found? then Ok else NotFound
  }

  lemma {:induction false} OvertakenMeans(kv: Kv, k: RowKey, snapshot: Timestamp)
    requires DurableInv(kv)
    ensures var l := Latest(kv, k);
            Overtaken(kv, k, snapshot) <==> CommittedVersion(kv, k, l) && Ver(kv, k, l).startTs > snapshot
  {
    var l := Latest(kv, k);
    forall id | CommittedVersion(kv, k, id)
      ensures CommittedVersion(kv, k, l) && Ver(kv, k, id).startTs <= Ver(kv, k, l).startTs
    {
      assert VersionOk(kv, VKey(k, id)) && HeadOk(kv, k);
      assert k in kv.heads && VersionOk(kv, VKey(k, kv.heads[k]));
      assert PairOk(kv, k, id, l);
    }
  }

  /** A key held by its writer is in nobody's way. */
  lemma {:induction false} HeldFree(kv: Kv, live: map<TxnId, Txn>, t: TxnId, k: RowKey)
    requires UpInv(kv, live) && t in live && Holds(live[t].written, k)
    ensures !TakenBy(live, t, k) && !Overtaken(kv, k, live[t].startTs)
    ensures OwnHead(kv, k, t) && HeldId(live[t].written, k) == kv.heads[k]
  {
    var x := live[t];
    assert LiveOk(kv, x) && x.id == t;
    HoldsOwnHead(kv, x, k);
    HeldHas(kv, x, k, x.written);
    var w := TxnWrite(k, kv.heads[k]);
    assert HeldOk(kv, x, w) && VersionOk(kv, VKey(k, kv.heads[k])) && VersionOk(kv, VKey(k, 0));
    OvertakenMeans(kv, k, x.startTs);
    assert HeldId(x.written, k) == kv.heads[k] by {
      assert VersionOk(kv, VKey(k, HeldId(x.written, k)));
      assert HeldOk(kv, x, TxnWrite(k, HeldId(x.written, k)));
    }
    forall u | u in live && u != t ensures !Holds(live[u].written, k) {
      assert LiveOk(kv, live[u]) && live[u].id == u;
      HoldsOwnHead(kv, live[u], k);
    }
  }

  lemma {:induction false} OverwriteAnswer(kv: Kv, live: map<TxnId, Txn>, t: TxnId, k: RowKey, op: WriteOp)
    requires UpInv(kv, live) && t in live && Descending(kv) && Holds(live[t].written, k)
    ensures WriteOutcome(kv, k, live[t], op).status == Answer(kv, live, t, k, op)
  {
    HeldFree(kv, live, t, k);
    ReadRowCorrect(kv, k, live[t].startTs, t);
  }

  lemma {:induction false} TakenMeans(kv: Kv, live: map<TxnId, Txn>, t: TxnId, k: RowKey)
    requires UpInv(kv, live) && t in live && !Holds(live[t].written, k)
    ensures TakenBy(live, t, k) <==>
              && k in kv.heads && Has(kv, k, kv.heads[k]) && Ver(kv, k, kv.heads[k]).Provisional()
              && Ver(kv, k, kv.heads[k]).createdBy in kv.txns
              && kv.txns[Ver(kv, k, kv.heads[k]).createdBy].state == Open
    ensures !OwnHead(kv, k, t)
  {
    assert LiveOk(kv, live[t]) && live[t].id == t;
    HoldsOwnHead(kv, live[t], k);
    forall u | u in live && u != t && Holds(live[u].written, k) ensures OwnHead(kv, k, u) && OpenRecord(kv, u) {
      assert LiveOk(kv, live[u]) && live[u].id == u;
      HoldsOwnHead(kv, live[u], k);
    }
    if k in kv.heads && Has(kv, k, kv.heads[k]) && Ver(kv, k, kv.heads[k]).Provisional()
       && OpenRecord(kv, Ver(kv, k, kv.heads[k]).createdBy) {
      var u := Ver(kv, k, kv.heads[k]).createdBy;
      assert LiveOk(kv, live[u]) && live[u].id == u;
      HoldsOwnHead(kv, live[u], k);
    }
  }

  lemma {:induction false} InstallAnswer(kv: Kv, live: map<TxnId, Txn>, t: TxnId, k: RowKey, op: WriteOp)
    requires UpInv(kv, live) && t in live && Descending(kv) && !Holds(live[t].written, k)
    ensures WriteOutcome(kv, k, live[t], op).status == Answer(kv, live, t, k, op)
  {
    var x := live[t];
    assert x.id == t && HeadOk(kv, k) && VersionOk(kv, VKey(k, 0));
    TakenMeans(kv, live, t, k);
    OvertakenMeans(kv, k, x.startTs);
    ReadRowCorrect(kv, k, x.startTs, t);
    if k in kv.heads {
      assert VersionOk(kv, VKey(k, kv.heads[k])) && VersionOk(kv, VKey(k, Latest(kv, k)));
      WalkMeans(kv, live, k, x);
    }
  }

  // ---- What is read afterwards ----------------------------------------------------------------------

  /** What the call leaves for its own transaction to read. */
  function Leaves(op: WriteOp): Read { if op.Delete? then Missing else Found(op.row) }

  /** The key as one transaction finds it is the same in both stores. */
  lemma {:induction false} ReadStays(kv: Kv, kv': Kv, x: Txn, x': Txn, k: RowKey)
    requires DurableInv(kv) && DurableInv(kv') && Descending(kv) && Descending(kv') && LiveOk(kv, x) && LiveOk(kv', x')
    requires x.id == x'.id && x.startTs == x'.startTs && (Holds(x.written, k) <==> Holds(x'.written, k))
    requires Holds(x.written, k) ==>
               && k in kv.heads && k in kv'.heads && kv.heads[k] == kv'.heads[k]
               && Has(kv, k, kv.heads[k]) && Has(kv', k, kv.heads[k])
               && Ver(kv, k, kv.heads[k]) == Ver(kv', k, kv.heads[k])
    requires forall id :: SameAt(kv, kv', k, x.startTs, id)
    ensures ReadRow(kv, k, x.startTs, x.id) == ReadRow(kv', k, x.startTs, x.id)
  {
    ReadRowCorrect(kv, k, x.startTs, x.id);
    ReadRowCorrect(kv', k, x.startTs, x.id);
    HoldsOwnHead(kv, x, k);
    HoldsOwnHead(kv', x', k);
    SameSnapshot(kv, kv', k, x.startTs);
  }

  /** The store after an accepted write: one provisional version of the key is at its head, with the
      contents of the call, and no other key is touched. */
  ghost predicate Wrote(kv: Kv, kv': Kv, t: TxnId, k: RowKey, op: WriteOp) {
    && OwnHead(kv', k, t) && kv'.nextTs == kv.nextTs
    && Ver(kv', k, kv'.heads[k]).tombstone == op.Delete?
    && (!op.Delete? ==> Ver(kv', k, kv'.heads[k]).row == op.row)
    && forall j | j != k :: KeySame(kv, kv', j)
  }

  lemma {:induction false} ApplyOnePut(kv: Kv, p: Put)
    ensures ApplyAll(kv, [p]) == Apply(kv, p)
  {
    ApplySnoc(kv, [], p);
    assert [] + [p] == [p];
  }

  lemma {:induction false} OtherKeyUntouched(kv: Kv, kv': Kv, k: RowKey, v: Version, j: RowKey)
    requires kv'.versions == kv.versions[VKey(k, v.id) := v] && kv'.heads == kv.heads[k := v.id] && j != k
    ensures KeySame(kv, kv', j)
  {
  }

  lemma {:induction false} WroteVersion(kv: Kv, kv': Kv, t: TxnId, k: RowKey, op: WriteOp, v: Version)
    requires kv'.versions == kv.versions[VKey(k, v.id) := v] && kv'.heads == kv.heads[k := v.id]
    requires kv'.nextTs == kv.nextTs
    requires v.startTs == 0 && v.createdBy == t && v.tombstone == op.Delete? && (!op.Delete? ==> v.row == op.row)
    ensures Wrote(kv, kv', t, k, op)
  {
    hide KeySame;
    forall j | j != k ensures KeySame(kv, kv', j) { OtherKeyUntouched(kv, kv', k, v, j); }
  }

  lemma {:induction false} InstallOrRefuse(kv: Kv, k: RowKey, x: Txn, op: WriteOp)
    requires Descending(kv)
    ensures var p := InstallPlan(kv, k, x, op); p.Install? || (p.Refuse? && p.status != Ok)
  {
  }

  lemma {:induction false} AcceptedWrite(kv: Kv, live: map<TxnId, Txn>, t: TxnId, k: RowKey, op: WriteOp)
    requires UpInv(kv, live) && t in live && Descending(kv)
    requires WriteOutcome(kv, k, live[t], op).status == Ok
    ensures Wrote(kv, ApplyAll(kv, WriteOutcome(kv, k, live[t], op).puts), t, k, op)
  {
    hide Wrote, ApplyAll, InstallPlan;
    var x, p := live[t], WritePlan(kv, k, live[t], op);
    var kv' := ApplyAll(kv, WriteOutcome(kv, k, x, op).puts);
    assert x.id == t;
    InstallOrRefuse(kv, k, x, op);
    if p.Overwrite? {
      HeldFree(kv, live, t, k);
      assert VersionOk(kv, VKey(k, kv.heads[k]));
      ApplyOnePut(kv, PutVersion(k, p.version));
      assert kv'.heads == kv.heads[k := p.version.id];
      WroteVersion(kv, kv', t, k, op, p.version);
    } else {
      var v := NewVersion(kv.nextVid, p.prev, t, op);
      InstallEffect(kv, k, x, op, p.prev, v);
      WroteVersion(kv, kv', t, k, op, v);
    }
  }

  lemma {:induction false} RefusedWrite(kv: Kv, k: RowKey, x: Txn, op: WriteOp)
    requires Descending(kv) && WriteOutcome(kv, k, x, op).status != Ok
    ensures WriteOutcome(kv, k, x, op).puts == [] && WrittenAfter(kv, k, x, WritePlan(kv, k, x, op)) == x.written
  {
  }

  lemma {:induction false} WrittenHolds(kv: Kv, k: RowKey, x: Txn, op: WriteOp, j: RowKey)
    requires Descending(kv) && j != k
    ensures Holds(WrittenAfter(kv, k, x, WritePlan(kv, k, x, op)), j) <==> Holds(x.written, j)
  {
    hide WritePlan;
    var ws := WrittenAfter(kv, k, x, WritePlan(kv, k, x, op));
    assert forall n | 0 <= n < |x.written| :: ws[n] == x.written[n];
    if Holds(x.written, j) { var n :| 0 <= n < |x.written| && x.written[n].key == j; assert ws[n].key == j; }
  }

  /** Every read of every open transaction, after an accepted write by `t`. */
  ghost predicate ReadsAfter(kv: Kv, live: map<TxnId, Txn>, kv': Kv, live': map<TxnId, Txn>, t: TxnId, k: RowKey,
      op: WriteOp)
  {
    && Descending(kv) && Descending(kv') && t in live
    && (forall u | u in live :: u in live' && live'[u].startTs == live[u].startTs)
    && ReadRow(kv', k, live[t].startTs, t) == Leaves(op)
    && (forall u, j | u in live && !(u == t && j == k) ::
          ReadRow(kv', j, live[u].startTs, u) == ReadRow(kv, j, live[u].startTs, u))
    && kv.nextTs > 0 && kv'.nextTs > 0 && forall j :: NextRead(kv', j) == NextRead(kv, j)
  }

  lemma {:induction false} WriteReads(kv: Kv, live: map<TxnId, Txn>, t: TxnId, k: RowKey, op: WriteOp)
    requires UpInv(kv, live) && t in live && Descending(kv)
    requires k.table in kv.catalog && (!op.Delete? ==> RowOk(kv.catalog, k, op.row))
    requires WriteOutcome(kv, k, live[t], op).status == Ok
    ensures var kv' := ApplyAll(kv, WriteOutcome(kv, k, live[t], op).puts);
            var live' := live[t := live[t].(written := WrittenAfter(kv, k, live[t], WritePlan(kv, k, live[t], op)))];
            ReadsAfter(kv, live, kv', live', t, k, op)
  {
    hide WritePlan, WriteOutcome, Wrote;
    var ps := WriteOutcome(kv, k, live[t], op).puts;
    var kv' := ApplyAll(kv, ps);
    var live' := live[t := live[t].(written := WrittenAfter(kv, k, live[t], WritePlan(kv, k, live[t], op)))];
    AcceptedWrite(kv, live, t, k, op);
    WriteKeeps(kv, live, t, k, op);
    SafeEnds(kv, ps, {});
    DurableDescends(kv');
    OwnReadAfter(kv, kv', t, k, op, live[t].startTs);
    forall u, j | u in live && !(u == t && j == k)
      ensures ReadRow(kv', j, live[u].startTs, u) == ReadRow(kv, j, live[u].startTs, u)
    {
      if j != k { WrittenHolds(kv, k, live[t], op, j); }
      OtherReadAfter(kv, live, kv', live', t, k, op, u, j);
    }
    assert kv'.nextTs == kv.nextTs by { SameClock(kv, kv', t, k, op); }
    var now := kv.nextTs - 1;
    forall j ensures NextRead(kv', j) == NextRead(kv, j) {
      forall id ensures SameAt(kv, kv', j, now, id) { }
      NextStays(kv, kv', j, now);
    }
  }

  lemma {:induction false} SameClock(kv: Kv, kv': Kv, t: TxnId, k: RowKey, op: WriteOp)
    requires Wrote(kv, kv', t, k, op)
    ensures kv'.nextTs == kv.nextTs
  {
  }

  lemma {:induction false} OwnReadAfter(kv: Kv, kv': Kv, t: TxnId, k: RowKey, op: WriteOp, s: Timestamp)
    requires DurableInv(kv') && Descending(kv') && Wrote(kv, kv', t, k, op)
    ensures ReadRow(kv', k, s, t) == Leaves(op)
  {
    ReadRowCorrect(kv', k, s, t);
  }

  lemma {:induction false} OtherReadAfter(kv: Kv, live: map<TxnId, Txn>, kv': Kv, live': map<TxnId, Txn>, t: TxnId,
      k: RowKey, op: WriteOp, u: TxnId, j: RowKey)
    requires UpInv(kv, live) && UpInv(kv', live') && Descending(kv) && Descending(kv') && Keeps(kv, kv', {})
    requires Wrote(kv, kv', t, k, op) && u in live && u in live' && !(u == t && j == k)
    requires live'[u].startTs == live[u].startTs
    requires u != t ==> live'[u] == live[u]
    requires j != k ==> (Holds(live'[u].written, j) <==> Holds(live[u].written, j))
    ensures ReadRow(kv', j, live[u].startTs, u) == ReadRow(kv, j, live[u].startTs, u)
  {
    var x, x' := live[u], live'[u];
    assert LiveOk(kv, x) && LiveOk(kv', x') && x.id == u == x'.id;
    HoldsOwnHead(kv, x, j);
    HoldsOwnHead(kv', x', j);
    if j != k { assert KeySame(kv, kv', j); }
    forall id ensures SameAt(kv, kv', j, x.startTs, id) { }
    if Holds(x.written, j) { assert Has(kv, j, kv.heads[j]); }
    ReadStays(kv, kv', x, x', j);
  }

  // ---- The theorem -----------------------------------------------------------------------------------

  lemma {:induction false} WriteAnswer(kv: Kv, live: map<TxnId, Txn>, t: TxnId, k: RowKey, op: WriteOp)
    requires UpInv(kv, live) && t in live && Descending(kv)
    ensures WriteOutcome(kv, k, live[t], op).status == Answer(kv, live, t, k, op)
  {
    if Holds(live[t].written, k) { OverwriteAnswer(kv, live, t, k, op); } else { InstallAnswer(kv, live, t, k, op); }
  }

  /** A call on a running store: what it answered and what is read afterwards. */
  ghost predicate WriteMeant(kv: Kv, live: map<TxnId, Txn>, kv': Kv, live': map<TxnId, Txn>, t: TxnId, table: Bytes,
      a: Action, st: Status)
  {
    && Descending(kv) && t in live
    && (st != Ok ==> kv' == kv && live' == live)
    && ((forall k :: !Targets(kv, table, a, k)) ==> st == if table in kv.catalog then InvalidArgument else NotFound)
    && forall k | Targets(kv, table, a, k) ::
         && st == Answer(kv, live, t, k, ActionOp(a))
         && (st == Ok ==> ReadsAfter(kv, live, kv', live', t, k, ActionOp(a)))
  }

  lemma {:induction false} NoPuts(kv: Kv)
    ensures ApplyAll(kv, []) == kv
  {
  }

  lemma {:induction false} WriteMeans(kv: Kv, live: map<TxnId, Txn>, t: TxnId, table: Bytes, a: Action)
    requires UpInv(kv, live) && t in live && Descending(kv)
    ensures var op := Write(t, table, a);
            var o := CallOutcome(kv, live, op);
            WriteMeant(kv, live, ApplyAll(kv, o.puts), LiveAfter(kv, live, op), t, table, a, o.status)
  {
    hide Answer, ReadsAfter, WritePlan, WriteOutcome, WrittenAfter, Targets, ApplyAll;
    var op := Write(t, table, a);
    var o := CallOutcome(kv, live, op);
    var (st, key) := TargetKey(kv, table, a);
    TargetMeans(kv, table, a, key);
    NoPuts(kv);
    if o.status != Ok {
      if st == Ok { RefusedWrite(kv, key, live[t], ActionOp(a)); }
      assert live[t := live[t]] == live;
    }
    forall k | Targets(kv, table, a, k)
      ensures k == key && st == Ok && o.status == Answer(kv, live, t, k, ActionOp(a))
    {
      TargetMeans(kv, table, a, k);
      WriteAnswer(kv, live, t, k, ActionOp(a));
    }
    if st == Ok && o.status == Ok {
      assert !ActionOp(a).Delete? ==> RowOk(kv.catalog, key, ActionOp(a).row);
      WriteReads(kv, live, t, key, ActionOp(a));
    }
  }

  /** Insert, Update and Delete in every run. Without a target the call is refused; otherwise it answers by
      what the transaction reads. Refused, it changes nothing; accepted, its transaction reads the new row,
      or none after a delete, and every other read of every open transaction, and of the next one to begin,
      is as before. */
  lemma {:induction false} WriteEffect(states: seq<Sys>, events: seq<Event>, i: nat, t: TxnId, table: Bytes, a: Action)
    requires IsRun(states, events) && i < |events| && events[i] == Do(Write(t, table, a)) && t in states[i].live
    ensures Descending(states[i].kv)
    ensures var s, s' := states[i], states[i + 1];
            WriteMeant(s.kv, s.live, s'.kv, s'.live, t, table, a, CallOutcome(s.kv, s.live, events[i].op).status)
  {
    RunInv(states, events, i);
    assert Step(states[i], events[i], states[i + 1]);
    WriteMeans(states[i].kv, states[i].live, t, table, a);
  }
}
