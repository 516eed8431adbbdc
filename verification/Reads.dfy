/** What the chain walk returns, in any durable state: the reader's own provisional version if it
    is the head, else the one committed version whose lifetime holds the snapshot. */
module Reads {
  import opened VersionStore
  import opened DurableSteps

  lemma {:induction false} DurableDescends(kv: Kv)
    requires DurableInv(kv)
    ensures Descending(kv)
  {
    forall vk | vk in kv.versions ensures kv.versions[vk].prev < vk.id { assert VersionOk(kv, vk); }
  }

  /** Lifetimes tile time: a snapshot sees at most one version of a key. */
  lemma {:induction false} OneVisible(kv: Kv, k: RowKey, s: Timestamp, a: nat, b: nat)
    requires DurableInv(kv) && VisibleAt(kv, k, s, a) && VisibleAt(kv, k, s, b)
    ensures a == b
  {
    assert PairOk(kv, k, a, b) && PairOk(kv, k, b, a);
  }

  /** The contents of the committed version a snapshot sees, as a read result. */
  ghost function SnapshotRead(kv: Kv, k: RowKey, s: Timestamp): Read {
    match CommittedAt(kv, k, s)
    case Some(row) => Found(row)
    case None => Missing
  }

  lemma {:induction false} WalkCommitted(kv: Kv, k: RowKey, id: nat, s: Timestamp, reader: TxnId)
    requires DurableInv(kv) && Descending(kv)
    requires id == 0 || CommittedVersion(kv, k, id)
    requires forall v: nat :: VisibleAt(kv, k, s, v) ==> v <= id
    ensures ReadFrom(kv, k, id, s, reader) == SnapshotRead(kv, k, s)
    decreases id
  {
    assert VersionOk(kv, VKey(k, 0));
    if id != 0 {
      assert VersionOk(kv, VKey(k, id));
      if VisibleAt(kv, k, s, id) {
        forall v: nat | VisibleAt(kv, k, s, v) ensures v == id { OneVisible(kv, k, s, v, id); }
      } else {
        var p := Ver(kv, k, id).prev;
        forall v: nat | VisibleAt(kv, k, s, v) ensures v <= p { assert PairOk(kv, k, v, id); }
        WalkCommitted(kv, k, p, s, reader);
      }
    }
  }

  ghost predicate OwnHead(kv: Kv, k: RowKey, reader: TxnId) {
    && k in kv.heads && Has(kv, k, kv.heads[k])
    && Ver(kv, k, kv.heads[k]).Provisional() && Ver(kv, k, kv.heads[k]).createdBy == reader
  }

  /** GetRow: terminates, never reports corruption, and returns the reader's own write or else
      what was committed at the snapshot. */
  lemma {:induction false} ReadRowCorrect(kv: Kv, k: RowKey, s: Timestamp, reader: TxnId)
    requires DurableInv(kv) && Descending(kv)
    ensures OwnHead(kv, k, reader) ==>
              var v := Ver(kv, k, kv.heads[k]);
              ReadRow(kv, k, s, reader) == if v.tombstone then Missing else Found(v.row)
    ensures !OwnHead(kv, k, reader) ==> ReadRow(kv, k, s, reader) == SnapshotRead(kv, k, s)
  {
    assert HeadOk(kv, k) && VersionOk(kv, VKey(k, 0));
    forall v: nat | VisibleAt(kv, k, s, v) ensures v <= Latest(kv, k) { assert VersionOk(kv, VKey(k, v)); }
    if k in kv.heads {
      assert VersionOk(kv, VKey(k, kv.heads[k]));
      if !OwnHead(kv, k, reader) { WalkCommitted(kv, k, Latest(kv, k), s, reader); }
    }
  }

  /** Stores that agree on a snapshot give the same committed contents there. */
  lemma {:induction false} SameSnapshot(a: Kv, b: Kv, k: RowKey, s: Timestamp)
    requires DurableInv(a) && DurableInv(b)
    requires forall id :: SameAt(a, b, k, s, id)
    ensures CommittedAt(a, k, s) == CommittedAt(b, k, s)
  {
    if v :| VisibleAt(a, k, s, v) {
      assert SameAt(a, b, k, s, v);
      forall w | VisibleAt(a, k, s, w) ensures w == v { OneVisible(a, k, s, w, v); }
      forall w | VisibleAt(b, k, s, w) ensures w == v { OneVisible(b, k, s, w, v); }
    } else {
      forall w ensures !VisibleAt(b, k, s, w) { assert SameAt(a, b, k, s, w); }
    }
  }

  /** What a transaction that begins now reads. */
  ghost function NextRead(kv: Kv, k: RowKey): Read
    requires Descending(kv) && kv.nextTs > 0
  {
    ReadRow(kv, k, kv.nextTs - 1, kv.nextTxn)
  }

  /** No version belongs to a transaction still to begin, so it reads the committed state. */
  lemma {:induction false} NextIsSnapshot(kv: Kv, k: RowKey)
    requires DurableInv(kv) && Descending(kv) && kv.nextTs > 0
    ensures NextRead(kv, k) == SnapshotRead(kv, k, kv.nextTs - 1)
  {
    ReadRowCorrect(kv, k, kv.nextTs - 1, kv.nextTxn);
    assert TxnOk(kv, kv.nextTxn) && HeadOk(kv, k);
    if k in kv.heads { assert VersionOk(kv, VKey(k, kv.heads[k])); }
  }

  lemma {:induction false} NextStays(a: Kv, b: Kv, k: RowKey, s: Timestamp)
    requires DurableInv(a) && DurableInv(b) && Descending(a) && Descending(b) && a.nextTs == b.nextTs == s + 1
    requires forall id :: SameAt(a, b, k, s, id)
    ensures NextRead(a, k) == NextRead(b, k)
  {
    NextIsSnapshot(a, k);
    NextIsSnapshot(b, k);
    SameSnapshot(a, b, k, s);
  }
}
