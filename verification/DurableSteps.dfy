/** Each single put that the protocol issues keeps the durable invariant and the committed
    contents at every snapshot below the clock. */
module DurableSteps {
  import opened VersionStore

  /** Snapshot `s` sees version `id` of `k` in both stores or in neither, with equal contents. */
  ghost predicate SameAt(a: Kv, b: Kv, k: RowKey, s: Timestamp, id: nat) {
    && (VisibleAt(a, k, s, id) <==> VisibleAt(b, k, s, id))
    && (VisibleAt(a, k, s, id) ==>
          && Ver(a, k, id).startTs == Ver(b, k, id).startTs
          && Ver(a, k, id).tombstone == Ver(b, k, id).tombstone && Ver(a, k, id).row == Ver(b, k, id).row)
  }

  /** Nothing a snapshot below the clock can see has changed, and nothing at all on other keys
      than `keys`. */
  ghost predicate SameExcept(a: Kv, b: Kv, keys: set<RowKey>) {
    forall k, s: Timestamp, id {:trigger SameAt(a, b, k, s, id)} | s < a.nextTs || k !in keys :: SameAt(a, b, k, s, id)
  }

  ghost predicate Keeps(a: Kv, b: Kv, keys: set<RowKey>) {
    DurableInv(b) && a.nextTs <= b.nextTs && a.catalog == b.catalog && SameExcept(a, b, keys)
  }

  lemma {:induction false} KeepsTransitive(a: Kv, b: Kv, c: Kv, keys: set<RowKey>)
    requires Keeps(a, b, keys) && Keeps(b, c, keys)
    ensures Keeps(a, c, keys)
  {
    forall k, s: Timestamp, id | s < a.nextTs || k !in keys ensures SameAt(a, c, k, s, id) {
      assert SameAt(a, b, k, s, id) && SameAt(b, c, k, s, id);
    }
  }

  lemma {:induction false} KeepsMore(a: Kv, b: Kv, keys: set<RowKey>, more: set<RowKey>)
    requires Keeps(a, b, keys) && keys <= more
    ensures Keeps(a, b, more)
  {
  }

  /** PersistOracles: counters may only rise, and the clock stands still under a commit intent. */
  lemma {:induction false} RaiseCountersKeeps(kv: Kv, kv': Kv)
    requires DurableInv(kv)
    requires kv' == kv.(nextTs := kv'.nextTs, nextTxn := kv'.nextTxn, nextVid := kv'.nextVid)
    requires kv.nextTs <= kv'.nextTs && kv.nextTxn <= kv'.nextTxn && kv.nextVid <= kv'.nextVid
    requires kv.nextTs == kv'.nextTs || NoneCommitting(kv)
    ensures Keeps(kv, kv', {})
  {
    assert forall u :: CommittingTxn(kv', u) <==> CommittingTxn(kv, u);
    forall vk ensures VersionOk(kv', vk) { assert VersionOk(kv, vk); }
    forall k, a, b ensures PairOk(kv', k, a, b) { assert PairOk(kv, k, a, b); }
    forall k ensures HeadOk(kv', k) { assert HeadOk(kv, k); }
    forall t ensures TxnOk(kv', t) { assert TxnOk(kv, t) && (CommittingTxn(kv', t) <==> CommittingTxn(kv, t)); }
  }

  /** Begin: a new Open record. */
  lemma {:induction false} OpenTxnKeeps(kv: Kv, t: TxnId)
    requires DurableInv(kv) && t !in kv.txns && 0 < t < kv.nextTxn
    ensures Keeps(kv, Apply(kv, PutTxn(t, TxnMeta(Open, 0, []))), {})
  {
    var kv' := Apply(kv, PutTxn(t, TxnMeta(Open, 0, [])));
    assert forall u :: CommittingTxn(kv', u) <==> CommittingTxn(kv, u);
    forall vk ensures VersionOk(kv', vk) { assert VersionOk(kv, vk); }
    forall k, a, b ensures PairOk(kv', k, a, b) { assert PairOk(kv, k, a, b); }
    forall k ensures HeadOk(kv', k) { assert HeadOk(kv, k); }
    forall u ensures TxnOk(kv', u) { assert TxnOk(kv, u); }
  }

  /** Write: an Open record that lists more writes. */
  lemma {:induction false} ListWritesKeeps(kv: Kv, t: TxnId, ws: seq<TxnWrite>)
    requires DurableInv(kv) && t in kv.txns && kv.txns[t].state == Open
    requires WritesOwned(kv, t, ws) && DistinctKeys(ws)
    ensures Keeps(kv, Apply(kv, PutTxn(t, TxnMeta(Open, 0, ws))), {})
  {
    var kv' := Apply(kv, PutTxn(t, TxnMeta(Open, 0, ws)));
    assert forall u :: CommittingTxn(kv', u) <==> CommittingTxn(kv, u);
    forall vk ensures VersionOk(kv', vk) { assert VersionOk(kv, vk); }
    forall k, a, b ensures PairOk(kv', k, a, b) { assert PairOk(kv, k, a, b); }
    forall k ensures HeadOk(kv', k) { assert HeadOk(kv, k); }
    forall u ensures TxnOk(kv', u) { assert TxnOk(kv, u); }
  }

  /** Write: a fresh provisional version that no head points at yet. */
  lemma {:induction false} InstallKeeps(kv: Kv, k: RowKey, v: Version)
    requires DurableInv(kv) && !Has(kv, k, v.id) && 0 < v.id < kv.nextVid
    requires v.startTs == v.endTs == 0 && v.prev < v.id
    requires v.prev != 0 ==> CommittedVersion(kv, k, v.prev)
    requires v.createdBy in kv.txns && kv.txns[v.createdBy].state == Open
    requires k.table in kv.catalog && (!v.tombstone ==> RowOk(kv.catalog, k, v.row))
    ensures Keeps(kv, Apply(kv, PutVersion(k, v)), {})
    ensures Latest(Apply(kv, PutVersion(k, v)), k) == Latest(kv, k)
  {
    var kv' := Apply(kv, PutVersion(k, v));
    assert forall u :: CommittingTxn(kv', u) <==> CommittingTxn(kv, u);
    forall j ensures HeadOk(kv', j) && Latest(kv', j) == Latest(kv, j) { assert HeadOk(kv, j); }
    forall vk ensures VersionOk(kv', vk) { assert VersionOk(kv, vk); }
    forall j, a, b ensures PairOk(kv', j, a, b) { assert PairOk(kv, j, a, b); }
    forall u ensures TxnOk(kv', u) { assert TxnOk(kv, u); }
  }

  /** Write: the head moves to a provisional version that replaces the newest committed one. */
  lemma {:induction false} PutProvisionalHeadKeeps(kv: Kv, k: RowKey, id: nat)
    requires DurableInv(kv) && NoneCommitting(kv)
    requires Has(kv, k, id) && Ver(kv, k, id).Provisional() && Ver(kv, k, id).prev == Latest(kv, k)
    ensures Keeps(kv, Apply(kv, PutHead(k, id)), {})
    ensures Latest(Apply(kv, PutHead(k, id)), k) == Latest(kv, k)
  {
    var kv' := Apply(kv, PutHead(k, id));
    MoveHeadKeeps(kv, kv', k);
  }

  /** Any head change that leaves every key's newest committed version alone, and the heads of a
      commit in progress. */
  lemma {:induction false} MoveHeadKeeps(kv: Kv, kv': Kv, k: RowKey)
    requires DurableInv(kv) && kv' == kv.(heads := kv'.heads)
    requires forall j | j != k :: (j in kv.heads <==> j in kv'.heads) && (j in kv.heads ==> kv.heads[j] == kv'.heads[j])
    requires k in kv'.heads ==> Has(kv, k, kv'.heads[k])
    requires k in kv.heads && Has(kv, k, kv.heads[k]) && Ver(kv, k, kv.heads[k]).Provisional() ==>
        !CommittingTxn(kv, Ver(kv, k, kv.heads[k]).createdBy)
    requires Latest(kv', k) == Latest(kv, k)
    ensures Keeps(kv, kv', {})
  {
    assert forall u :: CommittingTxn(kv', u) <==> CommittingTxn(kv, u);
    assert forall j :: Latest(kv', j) == Latest(kv, j);
    forall vk ensures VersionOk(kv', vk) { assert VersionOk(kv, vk); }
    forall j, a, b ensures PairOk(kv', j, a, b) { assert PairOk(kv, j, a, b); }
    assert VersionOk(kv, VKey(k, 0));
    forall j ensures HeadOk(kv', j) { assert HeadOk(kv, j); }
    forall u ensures TxnOk(kv', u) { assert TxnOk(kv, u); }
  }

  /** Write on a key the transaction already holds: new contents in the same provisional version. */
  lemma {:induction false} OverwriteKeeps(kv: Kv, k: RowKey, v: Version)
    requires DurableInv(kv) && Has(kv, k, v.id) && Ver(kv, k, v.id).Provisional()
    requires v == Ver(kv, k, v.id).(tombstone := v.tombstone, row := v.row)
    requires !v.tombstone ==> RowOk(kv.catalog, k, v.row)
    ensures Keeps(kv, Apply(kv, PutVersion(k, v)), {})
  {
    var kv' := Apply(kv, PutVersion(k, v));
    assert forall u :: CommittingTxn(kv', u) <==> CommittingTxn(kv, u);
    assert forall j :: Latest(kv', j) == Latest(kv, j);
    forall vk ensures VersionOk(kv', vk) { assert VersionOk(kv, vk); }
    forall j, a, b ensures PairOk(kv', j, a, b) { assert PairOk(kv, j, a, b); }
    forall j ensures HeadOk(kv', j) { assert HeadOk(kv, j); }
    forall u ensures TxnOk(kv', u) { assert TxnOk(kv, u); }
  }

  /** Abort and recovery: an unfinished transaction becomes Aborted. */
  lemma {:induction false} AbortRecordKeeps(kv: Kv, t: TxnId)
    requires DurableInv(kv) && t in kv.txns && kv.txns[t].state == Open
    ensures Keeps(kv, Apply(kv, PutTxn(t, TxnMeta(Aborted, 0, []))), {})
  {
    var kv' := Apply(kv, PutTxn(t, TxnMeta(Aborted, 0, [])));
    assert forall u :: CommittingTxn(kv', u) <==> CommittingTxn(kv, u);
    forall vk ensures VersionOk(kv', vk) { assert VersionOk(kv, vk); }
    forall k, a, b ensures PairOk(kv', k, a, b) { assert PairOk(kv, k, a, b); }
    forall k ensures HeadOk(kv', k) { assert HeadOk(kv, k); }
    forall u ensures TxnOk(kv', u) { assert TxnOk(kv, u); }
  }

  /** Commit: the durable intent, at the current clock, listing every provisional version. */
  lemma {:induction false} IntentKeeps(kv: Kv, t: TxnId, ws: seq<TxnWrite>)
    requires DurableInv(kv) && NoneCommitting(kv) && kv.nextTs > 0
    requires t in kv.txns && kv.txns[t].state == Open
    requires WritesOwned(kv, t, ws) && DistinctKeys(ws)
    requires forall w | w in ws :: Ver(kv, w.key, w.id).Provisional() && w.key in kv.heads && kv.heads[w.key] == w.id
    requires forall vk | vk in kv.versions && kv.versions[vk].Provisional()
        && kv.versions[vk].createdBy == t :: TxnWrite(vk.key, vk.id) in ws
    ensures Keeps(kv, Apply(kv, PutTxn(t, TxnMeta(Committing, kv.nextTs, ws))), {})
  {
    var kv' := Apply(kv, PutTxn(t, TxnMeta(Committing, kv.nextTs, ws)));
    assert forall u :: CommittingTxn(kv', u) <==> CommittingTxn(kv, u) || u == t;
    forall vk ensures VersionOk(kv', vk) { assert VersionOk(kv, vk); }
    forall k, a, b ensures PairOk(kv', k, a, b) { assert PairOk(kv, k, a, b); }
    forall k ensures HeadOk(kv', k) { assert HeadOk(kv, k); }
    forall u ensures TxnOk(kv', u) { assert TxnOk(kv, u); }
  }

  /** Apply: the version under a provisional head of the commit in progress is closed. */
  lemma {:induction false} CloseKeeps(kv: Kv, k: RowKey, t: TxnId)
    requires DurableInv(kv) && CommittingTxn(kv, t)
    requires k in kv.heads && Has(kv, k, kv.heads[k])
    requires Ver(kv, k, kv.heads[k]).Provisional() && Ver(kv, k, kv.heads[k]).createdBy == t
    requires Has(kv, k, Latest(kv, k)) && Ver(kv, k, Latest(kv, k)).endTs == 0
    ensures Keeps(kv, Apply(kv, PutVersion(k, Ver(kv, k, Latest(kv, k)).(endTs := kv.nextTs))), {k})
  {
    var l := Latest(kv, k);
    assert VersionOk(kv, VKey(k, kv.heads[k])) && VersionOk(kv, VKey(k, l)) && TxnOk(kv, t);
    var kv' := Apply(kv, PutVersion(k, Ver(kv, k, l).(endTs := kv.nextTs)));
    assert forall u :: CommittingTxn(kv', u) <==> CommittingTxn(kv, u);
    assert forall j :: Latest(kv', j) == Latest(kv, j);
    ClosedVersions(kv, kv', k, t);
    ClosedPairs(kv, kv', k);
    forall j ensures HeadOk(kv', j) { assert HeadOk(kv, j); }
    forall u ensures TxnOk(kv', u) { assert TxnOk(kv, u); }
    forall j, s: Timestamp, id | s < kv.nextTs || j != k ensures SameAt(kv, kv', j, s, id) { }
  }

  lemma {:induction false} ClosedVersions(kv: Kv, kv': Kv, k: RowKey, t: TxnId)
    requires DurableInv(kv) && CommittingTxn(kv, t) && Has(kv, k, Latest(kv, k))
    requires CommittedVersion(kv, k, Latest(kv, k)) && Ver(kv, k, Latest(kv, k)).id == Latest(kv, k)
    requires Ver(kv, k, Latest(kv, k)).endTs == 0
    requires kv' == Apply(kv, PutVersion(k, Ver(kv, k, Latest(kv, k)).(endTs := kv.nextTs)))
    requires forall j :: Latest(kv', j) == Latest(kv, j)
    ensures forall vk :: VersionOk(kv', vk)
  {
    assert CommittingTxn(kv', t);
    forall vk ensures VersionOk(kv', vk) {
      assert VersionOk(kv, vk);
      if vk in kv.versions && vk.key == k && !kv.versions[vk].Provisional() {
        assert kv.versions[vk].prev < Latest(kv, k);
      }
    }
  }

  lemma {:induction false} ClosedPairs(kv: Kv, kv': Kv, k: RowKey)
    requires DurableInv(kv) && CommittedVersion(kv, k, Latest(kv, k)) && Ver(kv, k, Latest(kv, k)).id == Latest(kv, k)
    requires kv' == Apply(kv, PutVersion(k, Ver(kv, k, Latest(kv, k)).(endTs := kv.nextTs)))
    ensures forall j, a, b :: PairOk(kv', j, a, b)
  {
    forall j, a, b ensures PairOk(kv', j, a, b) {
      assert PairOk(kv, j, a, b);
      if j == k && a == Latest(kv, k) && CommittedVersion(kv, k, b) { assert VersionOk(kv, VKey(k, b)); }
    }
  }

  /** Apply: a provisional version whose predecessor is closed receives the commit timestamp. */
  lemma {:induction false} StampKeeps(kv: Kv, k: RowKey, t: TxnId)
    requires DurableInv(kv) && CommittingTxn(kv, t)
    requires k in kv.heads && Has(kv, k, kv.heads[k])
    requires Ver(kv, k, kv.heads[k]).Provisional() && Ver(kv, k, kv.heads[k]).createdBy == t
    requires Latest(kv, k) != 0 ==> Has(kv, k, Latest(kv, k)) && Ver(kv, k, Latest(kv, k)).endTs == kv.nextTs
    ensures Keeps(kv, Apply(kv, PutVersion(k, Ver(kv, k, kv.heads[k]).(startTs := kv.nextTs))), {k})
  {
    var h := kv.heads[k];
    assert VersionOk(kv, VKey(k, h)) && VersionOk(kv, VKey(k, Latest(kv, k))) && TxnOk(kv, t);
    var kv' := Apply(kv, PutVersion(k, Ver(kv, k, h).(startTs := kv.nextTs)));
    assert forall u :: CommittingTxn(kv', u) <==> CommittingTxn(kv, u);
    assert forall j | j != k :: Latest(kv', j) == Latest(kv, j);
    StampedVersions(kv, kv', k, t);
    StampedPairs(kv, kv', k, t);
    forall j ensures HeadOk(kv', j) { assert HeadOk(kv, j); }
    forall u ensures TxnOk(kv', u) { assert TxnOk(kv, u); }
    forall j, s: Timestamp, id | s < kv.nextTs || j != k ensures SameAt(kv, kv', j, s, id) { }
  }

  lemma {:induction false} StampedVersions(kv: Kv, kv': Kv, k: RowKey, t: TxnId)
    requires DurableInv(kv) && CommittingTxn(kv, t) && kv.nextTs > 0
    requires k in kv.heads && Has(kv, k, kv.heads[k]) && Ver(kv, k, kv.heads[k]).id == kv.heads[k]
    requires Ver(kv, k, kv.heads[k]).Provisional() && Ver(kv, k, kv.heads[k]).createdBy == t
    requires Latest(kv, k) != 0 ==> Has(kv, k, Latest(kv, k)) && Ver(kv, k, Latest(kv, k)).endTs == kv.nextTs
    requires kv' == Apply(kv, PutVersion(k, Ver(kv, k, kv.heads[k]).(startTs := kv.nextTs)))
    ensures forall vk :: VersionOk(kv', vk)
  {
    assert CommittingTxn(kv', t);
    assert forall j | j != k :: Latest(kv', j) == Latest(kv, j);
    assert VersionOk(kv, VKey(k, kv.heads[k])) && TxnOk(kv, t);
    forall vk ensures VersionOk(kv', vk) { assert VersionOk(kv, vk); }
  }

  lemma {:induction false} StampedPairs(kv: Kv, kv': Kv, k: RowKey, t: TxnId)
    requires DurableInv(kv) && CommittingTxn(kv, t)
    requires k in kv.heads && Has(kv, k, kv.heads[k]) && Ver(kv, k, kv.heads[k]).id == kv.heads[k]
    requires Ver(kv, k, kv.heads[k]).Provisional() && Ver(kv, k, kv.heads[k]).createdBy == t
    requires Latest(kv, k) != 0 ==> Has(kv, k, Latest(kv, k)) && Ver(kv, k, Latest(kv, k)).endTs == kv.nextTs
    requires kv' == Apply(kv, PutVersion(k, Ver(kv, k, kv.heads[k]).(startTs := kv.nextTs)))
    ensures forall j, a, b :: PairOk(kv', j, a, b)
  {
    var h, l := kv.heads[k], Latest(kv, k);
    assert VersionOk(kv, VKey(k, h)) && TxnOk(kv, t);
    forall j, a, b ensures PairOk(kv', j, a, b) {
      assert PairOk(kv, j, a, b);
      if j == k && b == h && CommittedVersion(kv, k, a) {
        assert VersionOk(kv, VKey(k, a)) && PairOk(kv, k, a, l) && VersionOk(kv, VKey(k, l));
      }
      if j == k && a == h && CommittedVersion(kv, k, b) { assert VersionOk(kv, VKey(k, b)); }
    }
  }

  /** Finish: the Committed record and the clock past it, as two puts. Only together do they keep
      the invariant. */
  lemma {:induction false} FinishKeeps(kv: Kv, t: TxnId)
    requires DurableInv(kv) && CommittingTxn(kv, t)
    requires forall w | w in kv.txns[t].writes :: Has(kv, w.key, w.id) && !Ver(kv, w.key, w.id).Provisional()
    ensures Keeps(kv, Apply(Apply(kv, PutTxn(t, TxnMeta(Committed, kv.nextTs, []))), PutNextTs(kv.nextTs + 1)), {})
    ensures NoneCommitting(Apply(Apply(kv, PutTxn(t, TxnMeta(Committed, kv.nextTs, []))), PutNextTs(kv.nextTs + 1)))
  {
    var kv' := Apply(Apply(kv, PutTxn(t, TxnMeta(Committed, kv.nextTs, []))), PutNextTs(kv.nextTs + 1));
    forall u ensures !CommittingTxn(kv', u) { assert CommittingTxn(kv', u) ==> CommittingTxn(kv, u); }
    assert forall j :: Latest(kv', j) == Latest(kv, j);
    assert TxnOk(kv, t);
    forall vk ensures VersionOk(kv', vk) { assert VersionOk(kv, vk); }
    forall k, a, b ensures PairOk(kv', k, a, b) { assert PairOk(kv, k, a, b); }
    forall k ensures HeadOk(kv', k) {
      assert HeadOk(kv, k);
      if k in kv.heads { assert VersionOk(kv, VKey(k, kv.heads[k])); }
    }
    forall u ensures TxnOk(kv', u) { assert TxnOk(kv, u) && !CommittingTxn(kv', u); }
  }
}
