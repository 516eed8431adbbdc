/** Recovery: from any durable state it finishes every transaction, redoing a durable commit
    intent and aborting the rest, and a second recovery changes nothing. */
module RecoveryProof {
  import opened Values
  import opened VersionStore
  import opened DurableSteps
  import opened Protocol
  import opened CrashSafety

  predicate Finished(m: TxnMeta) { m.state in {Committed, Aborted} }

  /** What recovery makes of a transaction record. */
  function Settle(m: TxnMeta): TxnMeta {
    match m.state
    case Committing => TxnMeta(Committed, m.commitTs, [])
    case Open => TxnMeta(Aborted, 0, [])
    case _ => m
  }

  /** Recovery's effect: records settled; versions stamped exactly when an intent was durable. */
  ghost predicate Settled(kv: Kv, kv': Kv) {
    && kv'.nextTxn == kv.nextTxn && kv'.nextVid == kv.nextVid && kv'.catalog == kv.catalog
    && kv'.txns.Keys == kv.txns.Keys
    && (forall t | t in kv.txns :: kv'.txns[t] == Settle(kv.txns[t]))
    && (NoneCommitting(kv) ==> kv'.versions == kv.versions && kv'.nextTs == kv.nextTs)
    && (forall t | CommittingTxn(kv, t) ::
          Stamped(kv, kv', kv.txns[t].writes) && kv'.nextTs == kv.nextTs + 1)
  }

  ghost predicate IntentKeys(kv: Kv, keys: set<RowKey>) {
    forall t | CommittingTxn(kv, t) :: KeysOf(kv.txns[t].writes) <= keys
  }

  /** Only the record of `t` may still be unsettled. */
  ghost predicate SettledOne(kv: Kv, kv': Kv, t: TxnId) {
    && kv'.nextTxn == kv.nextTxn && kv'.nextVid == kv.nextVid && kv'.catalog == kv.catalog
    && kv'.txns == (if t in kv.txns then kv.txns[t := Settle(kv.txns[t])] else kv.txns)
    && if CommittingTxn(kv, t)
       then Stamped(kv, kv', kv.txns[t].writes) && kv'.nextTs == kv.nextTs + 1
       else kv'.versions == kv.versions && kv'.nextTs == kv.nextTs
  }

  /** The store after the redo of an intent has stamped every version. */
  function Redone(kv: Kv, t: TxnId): Kv
    requires t in kv.txns
  {
    ApplyAll(kv, ApplyWrites(kv, t, kv.nextTs, kv.txns[t].writes).puts)
  }

  lemma {:induction false} RedoStamps(kv: Kv, t: TxnId)
    requires DurableInv(kv) && CommittingTxn(kv, t)
    ensures kv.txns[t].commitTs == kv.nextTs > 0
    ensures ApplyWrites(kv, t, kv.nextTs, kv.txns[t].writes).status == Ok
    ensures Redone(kv, t) == kv.(versions := Redone(kv, t).versions)
    ensures Stamped(kv, Redone(kv, t), kv.txns[t].writes)
  {
    assert TxnOk(kv, t);
    ApplyWritesSafe(kv, t, kv.txns[t].writes);
  }

  lemma {:induction false} RedoPuts(kv: Kv, t: TxnId)
    requires CommittingTxn(kv, t) && kv.txns[t].commitTs == kv.nextTs > 0
    requires ApplyWrites(kv, t, kv.nextTs, kv.txns[t].writes).status == Ok
    requires Redone(kv, t) == kv.(versions := Redone(kv, t).versions)
    ensures RecoverTxn(kv, t) ==
            Outcome(ApplyWrites(kv, t, kv.nextTs, kv.txns[t].writes).puts + FinishPuts(Redone(kv, t), t), Ok)
  {
    var a, p, b := ApplyWrites(kv, t, kv.nextTs, kv.txns[t].writes).puts,
                   [PutTxn(t, TxnMeta(Committed, kv.nextTs, []))], OraclePuts(kv.nextTs + 1, kv.nextTxn, kv.nextVid);
    assert FinishPuts(Redone(kv, t), t) == p + b;
    ConcatAssociative(a, p, b);
    assert RecoverTxn(kv, t) == Outcome(a + p + b, Ok);
  }

  lemma {:induction false} ConcatAssociative(a: seq<Put>, b: seq<Put>, c: seq<Put>)
    ensures a + b + c == a + (b + c)
  {
  }

  lemma {:induction false} RedoEffect(kv: Kv, t: TxnId)
    requires DurableInv(kv) && CommittingTxn(kv, t)
    ensures SettledOne(kv, ApplyAll(kv, RecoverTxn(kv, t).puts), t)
  {
    var kv1 := Redone(kv, t);
    RedoStamps(kv, t);
    RedoPuts(kv, t);
    ApplyAllConcat(kv, ApplyWrites(kv, t, kv.nextTs, kv.txns[t].writes).puts, FinishPuts(kv1, t));
    FinishEffect(kv1, t);
  }

  lemma {:induction false} RedoSafe(kv: Kv, t: TxnId)
    requires DurableInv(kv) && CommittingTxn(kv, t)
    ensures Safe(kv, RecoverTxn(kv, t).puts, KeysOf(kv.txns[t].writes))
  {
    var ws := kv.txns[t].writes;
    var keys, kv1, a := KeysOf(ws), Redone(kv, t), ApplyWrites(kv, t, kv.nextTs, ws).puts;
    RedoStamps(kv, t);
    RedoPuts(kv, t);
    ApplyWritesSafe(kv, t, ws);
    SafeEnds(kv, a, keys);
    assert TxnOk(kv, t);
    forall w | w in ws ensures Has(kv1, w.key, w.id) && !Ver(kv1, w.key, w.id).Provisional() {
      assert StampedOne(kv, kv1, ws, VKey(w.key, w.id));
    }
    FinishSafe(kv1, t);
    SafeMore(kv1, FinishPuts(kv1, t), {}, keys);
    SafeConcat(kv, a, FinishPuts(kv1, t), keys);
  }

  lemma {:induction false} RecoverTxnSafe(kv: Kv, t: TxnId, keys: set<RowKey>)
    requires DurableInv(kv) && IntentKeys(kv, keys)
    ensures RecoverTxn(kv, t).status == Ok
    ensures Safe(kv, RecoverTxn(kv, t).puts, keys)
    ensures SettledOne(kv, ApplyAll(kv, RecoverTxn(kv, t).puts), t)
  {
    if CommittingTxn(kv, t) {
      RedoStamps(kv, t);
      RedoPuts(kv, t);
      RedoEffect(kv, t);
      RedoSafe(kv, t);
      SafeMore(kv, RecoverTxn(kv, t).puts, KeysOf(kv.txns[t].writes), keys);
    } else if t in kv.txns && kv.txns[t].state == Open {
      assert TxnOk(kv, t);
      AbortSafe(kv, t, kv.txns[t].writes);
      SafeMore(kv, RecoverTxn(kv, t).puts, {}, keys);
    } else {
      SafeNone(kv, keys);
    }
  }

  lemma {:induction false} SettledStep(kv: Kv, kv1: Kv, kv': Kv, t: TxnId)
    requires DurableInv(kv) && SettledOne(kv, kv1, t) && Settled(kv1, kv')
    requires forall u | u in kv.txns && u < t :: Finished(kv.txns[u])
    ensures Settled(kv, kv')
  {
    forall u | u in kv.txns ensures kv'.txns[u] == Settle(kv.txns[u]) {
      assert u in kv1.txns && kv'.txns[u] == Settle(kv1.txns[u]);
    }
    forall u ensures CommittingTxn(kv1, u) <==> CommittingTxn(kv, u) && u != t { }
    if CommittingTxn(kv, t) {
      forall u ensures !CommittingTxn(kv1, u) { assert CommittingTxn(kv, u) && u != t ==> false; }
      assert NoneCommitting(kv1);
      forall vk | vk in kv.versions ensures StampedOne(kv, kv', kv.txns[t].writes, vk) {
        assert StampedOne(kv, kv1, kv.txns[t].writes, vk);
      }
      forall u | CommittingTxn(kv, u) ensures u == t { }
    } else {
      assert !NoneCommitting(kv) ==> exists u :: CommittingTxn(kv, u) && CommittingTxn(kv1, u);
      forall u | CommittingTxn(kv, u) ensures Stamped(kv, kv', kv.txns[u].writes) && kv'.nextTs == kv.nextTs + 1 {
        assert CommittingTxn(kv1, u);
        forall vk | vk in kv.versions ensures StampedOne(kv, kv', kv.txns[u].writes, vk) {
          assert StampedOne(kv1, kv', kv1.txns[u].writes, vk);
        }
      }
    }
  }

  lemma {:induction false} RecoverOne(kv: Kv, t: TxnId, keys: set<RowKey>, kv1: Kv)
    requires DurableInv(kv) && IntentKeys(kv, keys) && kv1 == ApplyAll(kv, RecoverTxn(kv, t).puts)
    requires forall u | u in kv.txns && u < t :: Finished(kv.txns[u])
    ensures RecoverTxn(kv, t).status == Ok && Safe(kv, RecoverTxn(kv, t).puts, keys)
    ensures SettledOne(kv, kv1, t) && DurableInv(kv1) && IntentKeys(kv1, keys)
    ensures forall u | u in kv1.txns && u < t + 1 :: Finished(kv1.txns[u])
  {
    RecoverTxnSafe(kv, t, keys);
    assert DurableInv(kv1) by { SafeEnds(kv, RecoverTxn(kv, t).puts, keys); }
    assert forall u | CommittingTxn(kv1, u) :: CommittingTxn(kv, u) && kv1.txns[u] == kv.txns[u];
  }

  lemma {:induction false} RecoverFromSafe(kv: Kv, t: TxnId, keys: set<RowKey>)
    requires DurableInv(kv) && IntentKeys(kv, keys) && t <= kv.nextTxn
    requires forall u | u in kv.txns && u < t :: Finished(kv.txns[u])
    ensures RecoverFrom(kv, t, kv.nextTxn).status == Ok
    ensures Safe(kv, RecoverFrom(kv, t, kv.nextTxn).puts, keys)
    ensures Settled(kv, ApplyAll(kv, RecoverFrom(kv, t, kv.nextTxn).puts))
    decreases kv.nextTxn - t
  {
    if t >= kv.nextTxn {
      SafeNone(kv, keys);
      forall u | u in kv.txns ensures Finished(kv.txns[u]) { assert TxnOk(kv, u); }
    } else {
      var kv1 := ApplyAll(kv, RecoverTxn(kv, t).puts);
      RecoverOne(kv, t, keys, kv1);
      RecoverFromSafe(kv1, t + 1, keys);
      RecoverFromStep(kv, t, keys, kv1, RecoverFrom(kv1, t + 1, kv.nextTxn).puts);
    }
  }

  lemma {:induction false} RecoverFromStep(kv: Kv, t: TxnId, keys: set<RowKey>, kv1: Kv, rest: seq<Put>)
    requires DurableInv(kv) && forall u | u in kv.txns && u < t :: Finished(kv.txns[u])
    requires kv1 == ApplyAll(kv, RecoverTxn(kv, t).puts) && SettledOne(kv, kv1, t)
    requires Safe(kv, RecoverTxn(kv, t).puts, keys) && Safe(kv1, rest, keys) && Settled(kv1, ApplyAll(kv1, rest))
    ensures Safe(kv, RecoverTxn(kv, t).puts + rest, keys)
    ensures Settled(kv, ApplyAll(kv, RecoverTxn(kv, t).puts + rest))
  {
    SettledStep(kv, kv1, ApplyAll(kv1, rest), t);
    SafeConcat(kv, RecoverTxn(kv, t).puts, rest, keys);
    ApplyAllConcat(kv, RecoverTxn(kv, t).puts, rest);
  }

  /** The store once InitOracles has run. */
  function Initialized(kv: Kv): Kv {
    kv.(nextTs := Counter(kv.nextTs), nextTxn := Counter(kv.nextTxn), nextVid := Counter(kv.nextVid))
  }

  lemma {:induction false} InitSafe(kv: Kv)
    requires DurableInv(kv)
    ensures Safe(kv, InitPuts(kv), {})
    ensures ApplyAll(kv, InitPuts(kv)) == Initialized(kv)
  {
    if kv.nextTs == 0 {
      forall t ensures !CommittingTxn(kv, t) { assert TxnOk(kv, t); }
    }
    OraclePutsSafe(kv, Counter(kv.nextTs), Counter(kv.nextTxn), Counter(kv.nextVid));
    OracleEffect(kv, Counter(kv.nextTs), Counter(kv.nextTxn), Counter(kv.nextVid));
  }

  /** From any durable state recovery succeeds, is itself safe at every put, and settles every
      transaction. */
  lemma {:induction false} RecoverySafe(kv: Kv, keys: set<RowKey>)
    requires DurableInv(kv) && IntentKeys(kv, keys)
    ensures Recovery(kv).status == Ok
    ensures Safe(kv, Recovery(kv).puts, keys)
    ensures Settled(Initialized(kv), Recovered(kv))
    ensures Keeps(kv, Recovered(kv), keys)
  {
    var kv1 := Initialized(kv);
    InitSafe(kv);
    SafeEnds(kv, InitPuts(kv), {});
    assert forall t :: CommittingTxn(kv1, t) <==> CommittingTxn(kv, t);
    forall u ensures u in kv1.txns ==> 1 <= u { assert TxnOk(kv, u); }
    RecoverFromSafe(kv1, 1, keys);
    var o := RecoverFrom(kv1, 1, kv1.nextTxn);
    SafeMore(kv, InitPuts(kv), {}, keys);
    SafeConcat(kv, InitPuts(kv), o.puts, keys);
    ApplyAllConcat(kv, InitPuts(kv), o.puts);
    SafeEnds(kv, Recovery(kv).puts, keys);
  }

  lemma {:induction false} NothingToRecover(kv: Kv, t: TxnId, limit: TxnId)
    requires forall u | u in kv.txns :: Finished(kv.txns[u])
    ensures RecoverFrom(kv, t, limit) == Outcome([], Ok)
    decreases limit - t
  {
    if t < limit { NothingToRecover(kv, t + 1, limit); }
  }

  /** Recovering twice is the same as recovering once. */
  lemma {:induction false} RecoveryIdempotent(kv: Kv)
    requires DurableInv(kv)
    ensures Recovered(Recovered(kv)) == Recovered(kv)
  {
    var kv1 := Recovered(kv);
    RecoverySafe(kv, set t, w | t in kv.txns && w in kv.txns[t].writes :: w.key);
    var init := Initialized(kv);
    forall u | u in kv1.txns ensures Finished(kv1.txns[u]) { assert u in init.txns; }
    assert kv1.nextTxn == Counter(kv.nextTxn) && kv1.nextVid == Counter(kv.nextVid) && kv1.nextTs > 0;
    InitSafe(kv1);
    assert Initialized(kv1) == kv1;
    NothingToRecover(kv1, 1, kv1.nextTxn);
    assert Recovery(kv1).puts == InitPuts(kv1) + [];
    assert InitPuts(kv1) + [] == InitPuts(kv1);
  }
}
