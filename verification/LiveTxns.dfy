/** Live transactions between steps: what Begin, Write, Commit and Abort keep, and why the early
    conflict check makes every commit succeed. */
module LiveTxns {
  import opened Values
  import opened VersionStore
  import opened DurableSteps
  import opened Protocol
  import opened CrashSafety
  import opened RecoveryProof

  /** A listed write is still the provisional head of its key, and the committed version below it
      is no newer than the transaction's snapshot. */
  ghost predicate HeldOk(kv: Kv, t: Txn, w: TxnWrite) {
    && Has(kv, w.key, w.id) && w.key in kv.heads && kv.heads[w.key] == w.id
    && var v := Ver(kv, w.key, w.id);
    && v.Provisional() && v.createdBy == t.id
    && (v.prev != 0 ==> Has(kv, w.key, v.prev) && Ver(kv, w.key, v.prev).startTs <= t.startTs)
  }

  ghost predicate LiveOk(kv: Kv, t: Txn) {
    && t.id in kv.txns && kv.txns[t.id] == TxnMeta(Open, 0, t.written)
    && t.startTs < kv.nextTs
    && (forall w | w in t.written :: HeldOk(kv, t, w))
    && (forall vk | vk in kv.versions && kv.versions[vk].Provisional() && kv.versions[vk].createdBy == t.id ::
          TxnWrite(vk.key, vk.id) in t.written)
  }

  /** The invariant of a running database between calls. */
  ghost predicate UpInv(kv: Kv, live: map<TxnId, Txn>) {
    && DurableInv(kv) && NoneCommitting(kv)
    && kv.nextTs > 0 && kv.nextTxn > 0 && kv.nextVid > 0
    && (forall t {:trigger live[t]} | t in live :: live[t].id == t && LiveOk(kv, live[t]))
    && (forall t | t in kv.txns && kv.txns[t].state == Open :: t in live)
  }

  // ---- Begin --------------------------------------------------------------------

  lemma {:induction false} BeginKeeps(kv: Kv, live: map<TxnId, Txn>)
    requires UpInv(kv, live)
    ensures var t := Txn(kv.nextTxn, kv.nextTs - 1, []);
            kv.nextTxn !in live && UpInv(ApplyAll(kv, BeginPuts(kv)), live[kv.nextTxn := t])
  {
    BeginEffect(kv);
    BeginSafe(kv);
    SafeEnds(kv, BeginPuts(kv), {});
    var kv' := ApplyAll(kv, BeginPuts(kv));
    assert TxnOk(kv, kv.nextTxn);
    forall u ensures !CommittingTxn(kv', u) { assert !CommittingTxn(kv, u); }
    forall vk | vk in kv'.versions && kv'.versions[vk].Provisional() ensures kv'.versions[vk].createdBy != kv.nextTxn {
      assert VersionOk(kv, vk);
    }
    forall u | u in live ensures LiveOk(kv', live[u]) {
      assert LiveOk(kv, live[u]);
      forall w | w in live[u].written ensures HeldOk(kv', live[u], w) { assert HeldOk(kv, live[u], w); }
    }
  }

  // ---- Write --------------------------------------------------------------------

  /** An accepted new write goes on top of the newest committed version, which is no newer than
      the snapshot, and no live transaction holds the key. */
  lemma {:induction false} InstallFits(kv: Kv, live: map<TxnId, Txn>, t: TxnId, k: RowKey, op: WriteOp)
    requires UpInv(kv, live) && t in live && Descending(kv)
    requires WritePlan(kv, k, live[t], op).Install?
    ensures WritePlan(kv, k, live[t], op).prev == Latest(kv, k)
    ensures Latest(kv, k) != 0 ==>
        CommittedVersion(kv, k, Latest(kv, k)) && Ver(kv, k, Latest(kv, k)).startTs <= live[t].startTs
    ensures forall u, w | u in live && w in live[u].written :: w.key != k
  {
    var x := live[t];
    assert HeadOk(kv, k) && LiveOk(kv, x);
    if k in kv.heads {
      var h := Ver(kv, k, kv.heads[k]);
      assert VersionOk(kv, VKey(k, kv.heads[k]));
      if h.Provisional() {
        assert !CommittingTxn(kv, h.createdBy);
        assert WalkConflict(kv, k, kv.heads[k], x) == WalkConflict(kv, k, h.prev, x);
        if h.prev != 0 { assert VersionOk(kv, VKey(k, h.prev)); }
      }
    }
    forall u, w | u in live && w in live[u].written ensures w.key != k {
      assert LiveOk(kv, live[u]) && HeldOk(kv, live[u], w);
    }
  }

  /** First committer wins: the walk refuses exactly when the newest committed version is newer than the
      snapshot. */
  lemma {:induction false} WalkMeans(kv: Kv, live: map<TxnId, Txn>, k: RowKey, x: Txn)
    requires UpInv(kv, live) && Descending(kv) && k in kv.heads
    ensures var l := Latest(kv, k);
            WalkConflict(kv, k, kv.heads[k], x) == if Has(kv, k, l) && Ver(kv, k, l).startTs > x.startTs then Conflict
                else Ok
  {
    assert HeadOk(kv, k) && VersionOk(kv, VKey(k, kv.heads[k])) && VersionOk(kv, VKey(k, 0));
    var h := Ver(kv, k, kv.heads[k]);
    if h.Provisional() {
      assert !CommittingTxn(kv, h.createdBy);
      assert WalkConflict(kv, k, kv.heads[k], x) == WalkConflict(kv, k, h.prev, x);
      if h.prev != 0 { assert VersionOk(kv, VKey(k, h.prev)); }
    }
  }

  function InstalledKv(kv: Kv, k: RowKey, t: Txn, v: Version): Kv {
    kv.(nextVid := kv.nextVid + 1,
        versions := kv.versions[VKey(k, v.id) := v],
        heads := kv.heads[k := kv.nextVid],
        txns := kv.txns[t.id := TxnMeta(Open, 0, t.written + [TxnWrite(k, kv.nextVid)])])
  }

  lemma {:induction false} ApplyInstall(kv: Kv, kv1: Kv, o: seq<Put>, a: Put, b: Put, c: Put)
    requires ApplyAll(kv, o) == kv1
    ensures ApplyAll(kv, o + [a, b, c]) == Apply(Apply(Apply(kv1, a), b), c)
  {
    assert o + [a, b, c] == o + [a] + [b] + [c];
    ApplySnoc(kv, o, a);
    ApplySnoc(kv, o + [a], b);
    ApplySnoc(kv, o + [a] + [b], c);
  }

  lemma {:induction false} InstallEffect(kv: Kv, k: RowKey, t: Txn, op: WriteOp, prev: nat, v: Version)
    requires v == NewVersion(kv.nextVid, prev, t.id, op)
    ensures ApplyAll(kv, WritePuts(kv, k, t, op, Install(prev))) == InstalledKv(kv, k, t, v)
  {
    OracleEffect(kv, kv.nextTs, kv.nextTxn, kv.nextVid + 1);
    ApplyInstall(kv, kv.(nextVid := kv.nextVid + 1), OraclePuts(kv.nextTs, kv.nextTxn, kv.nextVid + 1),
                 PutVersion(k, v), PutHead(k, kv.nextVid), PutTxn(t.id,
                     TxnMeta(Open, 0, t.written + [TxnWrite(k, kv.nextVid)])));
  }

  lemma {:induction false} SafeThree(kv: Kv, kv1: Kv, o: seq<Put>, a: Put, b: Put, c: Put)
    requires Safe(kv, o, {}) && ApplyAll(kv, o) == kv1
    requires !a.PutTxn? && !b.PutTxn? && (c.PutTxn? ==> c.meta.state != Committed)
    requires Keeps(kv1, Apply(kv1, a), {})
    requires Keeps(Apply(kv1, a), Apply(Apply(kv1, a), b), {})
    requires Keeps(Apply(Apply(kv1, a), b), Apply(Apply(Apply(kv1, a), b), c), {})
    ensures Safe(kv, o + [a, b, c], {})
  {
    SafeSnoc(kv, o, a, {});
    SafeSnoc(kv, o + [a], b, {});
    SafeSnoc(kv, o + [a] + [b], c, {});
    assert o + [a, b, c] == o + [a] + [b] + [c];
  }

  /** The three puts of a new write, from the store with the raised counter. */
  lemma {:induction false} InstallSteps(kv: Kv, k: RowKey, t: Txn, v: Version, a: Put, b: Put, c: Put)
    requires DurableInv(kv) && NoneCommitting(kv) && t.id in kv.txns && kv.txns[t.id].state == Open
    requires WritesOwned(kv, t.id, t.written) && DistinctKeys(t.written) && forall w | w in t.written :: w.key != k
    requires v.startTs == v.endTs == 0 && v.createdBy == t.id && v.prev == Latest(kv, k) && v.prev < v.id
    requires !Has(kv, k, v.id) && 0 < v.id < kv.nextVid && (v.prev != 0 ==> CommittedVersion(kv, k, v.prev))
    requires k.table in kv.catalog && (!v.tombstone ==> RowOk(kv.catalog, k, v.row))
    requires a == PutVersion(k, v) && b == PutHead(k, v.id) && c ==
        PutTxn(t.id, TxnMeta(Open, 0, t.written + [TxnWrite(k, v.id)]))
    ensures Keeps(kv, Apply(kv, a), {})
    ensures Keeps(Apply(kv, a), Apply(Apply(kv, a), b), {})
    ensures Keeps(Apply(Apply(kv, a), b), Apply(Apply(Apply(kv, a), b), c), {})
  {
    var kv2, ws := Apply(kv, a), t.written + [TxnWrite(k, v.id)];
    InstallKeeps(kv, k, v);
    assert forall u :: CommittingTxn(kv2, u) <==> CommittingTxn(kv, u);
    PutProvisionalHeadKeeps(kv2, k, v.id);
    ListWritesKeeps(Apply(kv2, b), t.id, ws);
  }

  lemma {:induction false} RaisedVid(kv: Kv, kv1: Kv, o: seq<Put>)
    requires DurableInv(kv) && NoneCommitting(kv)
    requires o == OraclePuts(kv.nextTs, kv.nextTxn, kv.nextVid + 1) && kv1 == kv.(nextVid := kv.nextVid + 1)
    ensures ApplyAll(kv, o) == kv1 && Safe(kv, o, {}) && DurableInv(kv1) && NoneCommitting(kv1)
  {
    assert ApplyAll(kv, o) == kv1 by { OracleEffect(kv, kv.nextTs, kv.nextTxn, kv.nextVid + 1); }
    assert Safe(kv, o, {}) by { OraclePutsSafe(kv, kv.nextTs, kv.nextTxn, kv.nextVid + 1); }
    assert DurableInv(kv1) by { SafeEnds(kv, o, {}); }
    forall u ensures !CommittingTxn(kv1, u) { assert !CommittingTxn(kv, u); }
  }

  /** Every put of an accepted new write is safe. */
  lemma {:induction false} InstallSafe(kv: Kv, k: RowKey, t: Txn, op: WriteOp)
    requires DurableInv(kv) && NoneCommitting(kv) && LiveOk(kv, t) && 0 < kv.nextVid
    requires Latest(kv, k) != 0 ==> CommittedVersion(kv, k, Latest(kv, k))
    requires k.table in kv.catalog && (!op.Delete? ==> RowOk(kv.catalog, k, op.row))
    requires forall w | w in t.written :: w.key != k
    ensures Safe(kv, WritePuts(kv, k, t, op, Install(Latest(kv, k))), {})
  {
    hide Safe, ApplyAll;
    var v := NewVersion(kv.nextVid, Latest(kv, k), t.id, op);
    var o, a, b, c := OraclePuts(kv.nextTs, kv.nextTxn, kv.nextVid + 1), PutVersion(k, v), PutHead(k, kv.nextVid),
                      PutTxn(t.id, TxnMeta(Open, 0, t.written + [TxnWrite(k, kv.nextVid)]));
    var kv1 := kv.(nextVid := kv.nextVid + 1);
    RaisedVid(kv, kv1, o);
    assert VersionOk(kv, VKey(k, kv.nextVid)) && VersionOk(kv, VKey(k, Latest(kv, k))) && TxnOk(kv, t.id);
    assert Latest(kv1, k) == Latest(kv, k);
    InstallSteps(kv1, k, t, v, a, b, c);
    assert Safe(kv, o + [a, b, c], {}) by { SafeThree(kv, kv1, o, a, b, c); }
  }

  /** After an accepted new write the running invariant holds with the write listed. */
  lemma {:induction false} InstallKeepsLive(kv: Kv, live: map<TxnId, Txn>, t: TxnId, k: RowKey, op: WriteOp, kv': Kv)
    requires UpInv(kv, live) && t in live && Descending(kv)
    requires WritePlan(kv, k, live[t], op).Install?
    requires kv' == InstalledKv(kv, k, live[t], NewVersion(kv.nextVid, Latest(kv, k), t, op))
    requires DurableInv(kv')
    ensures UpInv(kv', live[t := live[t].(written := live[t].written + [TxnWrite(k, kv.nextVid)])])
  {
    InstallFits(kv, live, t, k, op);
    var x := live[t].(written := live[t].written + [TxnWrite(k, kv.nextVid)]);
    assert VersionOk(kv, VKey(k, kv.nextVid)) && VersionOk(kv, VKey(k, Latest(kv, k)));
    forall u ensures !CommittingTxn(kv', u) { assert !CommittingTxn(kv, u); }
    forall u | u in live && u != t ensures LiveOk(kv', live[u]) { InstallKeepsOther(kv, live, t, k, op, kv', u); }
    InstallKeepsOwn(kv, live[t], x, k, op, kv');
  }

  lemma {:induction false} InstallKeepsOwn(kv: Kv, t: Txn, x: Txn, k: RowKey, op: WriteOp, kv': Kv)
    requires LiveOk(kv, t) && Descending(kv) && x == t.(written := t.written + [TxnWrite(k, kv.nextVid)])
    requires kv' == InstalledKv(kv, k, t, NewVersion(kv.nextVid, Latest(kv, k), t.id, op)) && !Has(kv, k, kv.nextVid)
    requires forall w | w in t.written :: w.key != k
    requires Latest(kv, k) != 0 ==>
        CommittedVersion(kv, k, Latest(kv, k)) && Ver(kv, k, Latest(kv, k)).startTs <= t.startTs
    ensures LiveOk(kv', x)
  {
    forall w | w in x.written ensures HeldOk(kv', x, w) {
      if w in t.written { assert HeldOk(kv, t, w); }
    }
  }

  lemma {:induction false} InstallKeepsOther(kv: Kv, live: map<TxnId, Txn>, t: TxnId, k: RowKey, op: WriteOp, kv': Kv,
      u: TxnId)
    requires UpInv(kv, live) && t in live && u in live && u != t && Descending(kv)
    requires kv' == InstalledKv(kv, k, live[t], NewVersion(kv.nextVid, Latest(kv, k), t, op)) && !Has(kv, k, kv.nextVid)
    requires forall w | w in live[u].written :: w.key != k
    ensures LiveOk(kv', live[u])
  {
    assert LiveOk(kv, live[u]) && live[t].id == t && live[u].id == u;
    forall w | w in live[u].written ensures HeldOk(kv', live[u], w) { assert HeldOk(kv, live[u], w); }
  }

  /** A rewrite of the transaction's own provisional version. */
  lemma {:induction false} OverwriteSafe(kv: Kv, live: map<TxnId, Txn>, t: TxnId, k: RowKey, op: WriteOp)
    requires UpInv(kv, live) && t in live && Descending(kv)
    requires WritePlan(kv, k, live[t], op).Overwrite?
    requires !op.Delete? ==> RowOk(kv.catalog, k, op.row)
    ensures var ps := WritePuts(kv, k, live[t], op, WritePlan(kv, k, live[t], op));
            Safe(kv, ps, {}) && UpInv(ApplyAll(kv, ps), live)
  {
    var x := live[t];
    var id := HeldId(x.written, k);
    var v := WritePlan(kv, k, x, op).version;
    assert VersionOk(kv, VKey(k, id)) && id != 0;
    assert HeldOk(kv, x, TxnWrite(k, id)) by { assert LiveOk(kv, x); }
    var p := PutVersion(k, v);
    assert Keeps(kv, Apply(kv, p), {}) by { OverwriteKeeps(kv, k, v); }
    SafeOne(kv, p, {});
    assert ApplyAll(kv, [p]) == Apply(kv, p) by { ApplySnoc(kv, [], p); assert [] + [p] == [p]; }
    OverwriteKeepsLive(kv, live, k, v);
  }

  lemma {:induction false} OverwriteKeepsLive(kv: Kv, live: map<TxnId, Txn>, k: RowKey, v: Version)
    requires UpInv(kv, live) && DurableInv(Apply(kv, PutVersion(k, v)))
    requires Has(kv, k, v.id) && Ver(kv, k, v.id).Provisional()
    requires v == Ver(kv, k, v.id).(tombstone := v.tombstone, row := v.row)
    ensures UpInv(Apply(kv, PutVersion(k, v)), live)
  {
    var kv' := Apply(kv, PutVersion(k, v));
    forall u ensures !CommittingTxn(kv', u) { assert !CommittingTxn(kv, u); }
    forall u | u in live ensures LiveOk(kv', live[u]) {
      assert LiveOk(kv, live[u]);
      forall w | w in live[u].written ensures HeldOk(kv', live[u], w) { assert HeldOk(kv, live[u], w); }
    }
  }

  /** Transaction::Write as a whole: any outcome, every put safe, the running invariant kept. */
  lemma {:induction false} WriteKeeps(kv: Kv, live: map<TxnId, Txn>, t: TxnId, k: RowKey, op: WriteOp)
    requires UpInv(kv, live) && t in live && Descending(kv)
    requires k.table in kv.catalog && (!op.Delete? ==> RowOk(kv.catalog, k, op.row))
    ensures var ps := WriteOutcome(kv, k, live[t], op).puts;
            && Safe(kv, ps, {})
            && UpInv(ApplyAll(kv, ps), live[t := live[t].(written :=
                WrittenAfter(kv, k, live[t], WritePlan(kv, k, live[t], op)))])
  {
    var p := WritePlan(kv, k, live[t], op);
    match p
    case Refuse(_) =>
      SafeNone(kv, {});
      assert live[t := live[t]] == live;
    case Overwrite(_) =>
      OverwriteSafe(kv, live, t, k, op);
      assert live[t := live[t]] == live;
    case Install(prev) =>
      InstallFits(kv, live, t, k, op);
      assert LiveOk(kv, live[t]);
      InstallSafe(kv, k, live[t], op);
      var ps := WritePuts(kv, k, live[t], op, p);
      SafeEnds(kv, ps, {});
      InstallEffect(kv, k, live[t], op, prev, NewVersion(kv.nextVid, prev, t, op));
      InstallKeepsLive(kv, live, t, k, op, ApplyAll(kv, ps));
  }

  // ---- Abort --------------------------------------------------------------------

  lemma {:induction false} AbortKeeps(kv: Kv, live: map<TxnId, Txn>, t: TxnId)
    requires UpInv(kv, live) && t in live
    ensures AbortOutcome(kv, t, live[t].written).status == Ok
    ensures Safe(kv, AbortOutcome(kv, t, live[t].written).puts, {})
    ensures UpInv(ApplyAll(kv, AbortOutcome(kv, t, live[t].written).puts), live - {t})
  {
    var x := live[t];
    assert LiveOk(kv, x) && TxnOk(kv, t);
    AbortSafe(kv, t, x.written);
    var ps := AbortOutcome(kv, t, x.written).puts;
    SafeEnds(kv, ps, {});
    var kv' := ApplyAll(kv, ps);
    forall u ensures !CommittingTxn(kv', u) { assert !CommittingTxn(kv, u); }
    forall u | u in live && u != t ensures LiveOk(kv', live[u]) {
      assert LiveOk(kv, live[u]);
      forall w | w in live[u].written ensures HeldOk(kv', live[u], w) {
        assert HeldOk(kv, live[u], w);
        forall y | y in x.written ensures y.key != w.key { assert HeldOk(kv, x, y); }
      }
    }
  }

  // ---- Commit -------------------------------------------------------------------

  lemma {:induction false} HeldPasses(kv: Kv, t: Txn, ws: seq<TxnWrite>)
    requires forall w | w in ws :: HeldOk(kv, t, w)
    ensures CheckAll(kv, t.startTs, ws) == Pass
  {
    if ws != [] {
      assert HeldOk(kv, t, ws[0]);
      HeldPasses(kv, t, ws[1..]);
    }
  }

  /** Early conflict checks suffice: both conflict branches of Commit are unreachable. */
  lemma {:induction false} CommitNeverConflicts(kv: Kv, live: map<TxnId, Txn>, t: TxnId)
    requires UpInv(kv, live) && t in live
    ensures CheckAll(kv, live[t].startTs, live[t].written) == Pass
  {
    assert LiveOk(kv, live[t]);
    HeldPasses(kv, live[t], live[t].written);
  }

  function IntentKv(kv: Kv, t: Txn): Kv {
    kv.(txns := kv.txns[t.id := TxnMeta(Committing, kv.nextTs, t.written)])
  }

  function IntentPut(kv: Kv, t: Txn): Put {
    PutTxn(t.id, TxnMeta(Committing, kv.nextTs, t.written))
  }

  function StampPuts(kv: Kv, t: Txn): seq<Put> {
    ApplyWrites(IntentKv(kv, t), t.id, kv.nextTs, t.written).puts
  }

  lemma {:induction false} IntentSafe(kv: Kv, live: map<TxnId, Txn>, t: TxnId)
    requires UpInv(kv, live) && t in live
    ensures Keeps(kv, IntentKv(kv, live[t]), {}) && CommittingTxn(IntentKv(kv, live[t]), t)
  {
    var x := live[t];
    assert LiveOk(kv, x) && TxnOk(kv, t);
    forall w | w in x.written ensures HeldOk(kv, x, w) { }
    IntentKeeps(kv, t, x.written);
  }

  /** Commit succeeds, with exactly these puts: the intent, the stamps, the record, the clock. */
  lemma {:induction false} CommitPuts(kv: Kv, live: map<TxnId, Txn>, t: TxnId)
    requires UpInv(kv, live) && t in live
    ensures var x := live[t];
            && CommittingTxn(IntentKv(kv, x), t)
            && CommitOutcome(kv, x) ==
               Outcome([IntentPut(kv, x)] + StampPuts(kv, x) + FinishPuts(Redone(IntentKv(kv, x), t), t), Ok)
  {
    var x := live[t];
    CommitNeverConflicts(kv, live, t);
    IntentSafe(kv, live, t);
    var kv1 := IntentKv(kv, x);
    assert Apply(kv, IntentPut(kv, x)) == kv1;
    RedoStamps(kv1, t);
    var a, p, b := [IntentPut(kv, x)] + StampPuts(kv, x),
                   [PutTxn(t, TxnMeta(Committed, kv.nextTs, []))], OraclePuts(kv.nextTs + 1, kv.nextTxn, kv.nextVid);
    assert FinishPuts(Redone(kv1, t), t) == p + b;
    ConcatAssociative(a, p, b);
  }

  lemma {:induction false} CommitSafe(kv: Kv, live: map<TxnId, Txn>, t: TxnId)
    requires UpInv(kv, live) && t in live
    ensures Safe(kv, CommitOutcome(kv, live[t]).puts, KeysOf(live[t].written))
  {
    var x := live[t];
    var kv1, keys := IntentKv(kv, x), KeysOf(x.written);
    CommitPuts(kv, live, t);
    IntentSafe(kv, live, t);
    var i, a, f := IntentPut(kv, x), StampPuts(kv, x), FinishPuts(Redone(kv1, t), t);
    assert Apply(kv, i) == kv1;
    assert Safe(kv1, a + f, keys) by {
      RedoStamps(kv1, t);
      RedoPuts(kv1, t);
      RedoSafe(kv1, t);
    }
    KeepsMore(kv, kv1, {}, keys);
    SafeCons(kv, i, a + f, keys);
    ConcatAssociative([i], a, f);
  }

  /** The store after a commit: the record, the clock one on, and the stamped versions. */
  ghost predicate CommittedEffect(kv: Kv, kv': Kv, t: Txn) {
    && kv' == kv.(versions := kv'.versions, txns := kv.txns[t.id := TxnMeta(Committed, kv.nextTs, [])], nextTs :=
        kv.nextTs + 1)
    && Stamped(kv, kv', t.written)
  }

  lemma {:induction false} CommitSplit(kv: Kv, kv1: Kv, i: Put, a: seq<Put>, f: seq<Put>)
    requires Apply(kv, i) == kv1
    ensures ApplyAll(kv, [i] + a + f) == ApplyAll(ApplyAll(kv1, a), f)
  {
    ConcatAssociative([i], a, f);
    ApplyCons(kv, i, a + f);
    ApplyAllConcat(kv1, a, f);
  }

  lemma {:induction false} CommitEffect(kv: Kv, live: map<TxnId, Txn>, t: TxnId)
    requires UpInv(kv, live) && t in live
    ensures CommittedEffect(kv, ApplyAll(kv, CommitOutcome(kv, live[t]).puts), live[t])
  {
    var x := live[t];
    var kv1 := IntentKv(kv, x);
    CommitPuts(kv, live, t);
    IntentSafe(kv, live, t);
    RedoStamps(kv1, t);
    var kv' := ApplyAll(kv, CommitOutcome(kv, x).puts);
    assert kv' == ApplyAll(Redone(kv1, t), FinishPuts(Redone(kv1, t), t)) by {
      CommitSplit(kv, kv1, IntentPut(kv, x), StampPuts(kv, x), FinishPuts(Redone(kv1, t), t));
    }
    FinishEffect(Redone(kv1, t), t);
    forall vk | vk in kv.versions ensures StampedOne(kv, kv', x.written, vk) {
      assert StampedOne(kv1, Redone(kv1, t), x.written, vk);
    }
  }

  lemma {:induction false} CommitKeeps(kv: Kv, live: map<TxnId, Txn>, t: TxnId)
    requires UpInv(kv, live) && t in live
    ensures UpInv(ApplyAll(kv, CommitOutcome(kv, live[t]).puts), live - {t})
  {
    var x := live[t];
    var kv' := ApplyAll(kv, CommitOutcome(kv, x).puts);
    CommitEffect(kv, live, t);
    CommitSafe(kv, live, t);
    SafeEnds(kv, CommitOutcome(kv, x).puts, KeysOf(x.written));
    forall u ensures !CommittingTxn(kv', u) { assert !CommittingTxn(kv, u); }
    forall u | u in live && u != t ensures LiveOk(kv', live[u]) { CommitKeepsOther(kv, kv', live, t, u); }
  }

  /** A commit leaves every other live transaction's writes in place. */
  lemma {:induction false} CommitKeepsOther(kv: Kv, kv': Kv, live: map<TxnId, Txn>, t: TxnId, u: TxnId)
    requires UpInv(kv, live) && t in live && u in live && u != t
    requires CommittedEffect(kv, kv', live[t])
    ensures LiveOk(kv', live[u])
  {
    var x, y := live[t], live[u];
    assert LiveOk(kv, x) && LiveOk(kv, y);
    forall w | w in y.written ensures HeldOk(kv', y, w) {
      assert HeldOk(kv, y, w);
      assert StampedOne(kv, kv', x.written, VKey(w.key, w.id));
      forall z | z in x.written ensures z.key != w.key { assert HeldOk(kv, x, z); }
      if Ver(kv, w.key, w.id).prev != 0 {
        assert StampedOne(kv, kv', x.written, VKey(w.key, Ver(kv, w.key, w.id).prev));
      }
    }
    forall vk | vk in kv'.versions && kv'.versions[vk].Provisional() && kv'.versions[vk].createdBy == u
      ensures TxnWrite(vk.key, vk.id) in y.written
    {
      assert StampedOne(kv, kv', x.written, vk);
    }
  }
}
