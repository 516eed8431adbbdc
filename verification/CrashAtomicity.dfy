/** A call cut short, then recovery, itself cut short any number of times: every transaction ends
    committed as a whole or as if it had never written. Here no cut falls right after a Committed record;
    `CrashAnywhere` takes up those. */
module CrashAtomicity {
  import opened Values
  import opened VersionStore
  import opened DurableSteps
  import opened Protocol
  import opened CrashSafety
  import opened RecoveryProof
  import opened Reads
  import opened LiveTxns
  import opened DdlProof
  import opened SnapshotIsolation
  import opened Lineage
  import opened IsolationTheorems

  /** Recovery that is cut short after `cuts[0]` puts, but not right after a Committed record, restarted,
      and so on, and in the end runs to completion. */
  ghost predicate Recovers(kv: Kv, cuts: seq<nat>, kv': Kv)
    decreases |cuts|
  {
    if cuts == [] then kv' == Recovered(kv)
    else
      var ps := Recovery(kv).puts;
      && cuts[0] <= |ps| && !AfterCommitRecord(ps, cuts[0])
      && Recovers(ApplyAll(kv, ps[..cuts[0]]), cuts[1..], kv')
  }

  /** Everyone unfinished is aborted and every snapshot reads what it read before. */
  ghost predicate Undone(kv: Kv, kv': Kv, live: map<TxnId, Txn>) {
    && Quiet(kv')
    && (forall u | u in kv'.txns :: Finished(kv'.txns[u]))
    && (forall u | u in live :: u in kv'.txns && kv'.txns[u].state == Aborted)
    && (forall k, s: Timestamp :: CommittedAt(kv', k, s) == CommittedAt(kv, k, s))
  }

  /** Every listed version is stamped and its predecessor closed at the commit timestamp. */
  ghost predicate StampedAt(kv: Kv, w: TxnWrite, c: Timestamp) {
    && Has(kv, w.key, w.id) && Ver(kv, w.key, w.id).startTs == c
    && var p := Ver(kv, w.key, w.id).prev;
       (p != 0 ==> Has(kv, w.key, p) && Ver(kv, w.key, p).endTs == c)
  }

  function Written(kv: Kv, w: TxnWrite): Option<Row>
    requires Has(kv, w.key, w.id)
  {
    AsOption(Contents(Ver(kv, w.key, w.id)))
  }

  /** `x` is committed at the timestamp the clock showed: from there on snapshots read its rows,
      and everything else reads as before. Everyone else unfinished is aborted. */
  ghost predicate CommitDone(kv: Kv, kv': Kv, live: map<TxnId, Txn>, x: Txn) {
    var c := kv.nextTs;
    && Quiet(kv')
    && (forall u | u in kv'.txns :: Finished(kv'.txns[u]))
    && (forall u | u in live && u != x.id :: u in kv'.txns && kv'.txns[u].state == Aborted)
    && x.id in kv'.txns && kv'.txns[x.id] == TxnMeta(Committed, c, []) && c < kv'.nextTs
    && (forall w | w in x.written :: StampedAt(kv', w, c))
    && (forall w, s: Timestamp | w in x.written && s >= c ::
          Has(kv, w.key, w.id) && CommittedAt(kv', w.key, s) == Written(kv, w))
    && (forall k, s: Timestamp | s < c || k !in KeysOf(x.written) :: CommittedAt(kv', k, s) == CommittedAt(kv, k, s))
  }

  // ---- Between the crash and the end of recovery ------------------------------------------

  /** Another transaction's record is as it was or settled. */
  ghost predicate Bystander(kv: Kv, kv': Kv, u: TxnId) {
    u in kv.txns ==> u in kv'.txns && kv'.txns[u] in {kv.txns[u], Settle(kv.txns[u])}
  }

  /** The intent of `x` is durable. */
  ghost predicate CommitPending(kv: Kv, x: Txn, kv': Kv) {
    && Keeps(kv, kv', KeysOf(x.written)) && AllKept(kv, kv')
    && x.id in kv'.txns
    && kv'.txns[x.id] in {TxnMeta(Committing, kv.nextTs, x.written), TxnMeta(Committed, kv.nextTs, [])}
    && (forall u | u != x.id :: Bystander(kv, kv', u))
    && (forall u | u in kv'.txns :: u in kv.txns)
  }

  /** No intent is durable: records that were open are open or aborted. */
  ghost predicate AbortPending(kv: Kv, kv': Kv) {
    && Keeps(kv, kv', {}) && NoneCommitting(kv')
    && (forall u | OpenRecord(kv, u) :: u in kv'.txns && kv'.txns[u].state in {Open, Aborted})
  }

  lemma {:induction false} CommitCut(kv: Kv, live: map<TxnId, Txn>, t: TxnId, n: nat)
    requires UpInv(kv, live) && t in live && 0 < n <= |CommitOutcome(kv, live[t]).puts|
    requires !AfterCommitRecord(CommitOutcome(kv, live[t]).puts, n)
    ensures CommitPending(kv, live[t], ApplyAll(kv, CommitOutcome(kv, live[t]).puts[..n]))
  {
    var x, ps := live[t], CommitOutcome(kv, live[t]).puts;
    var kv' := ApplyAll(kv, ps[..n]);
    assert live[t].id == t && LiveOk(kv, x);
    assert Keeps(kv, kv', KeysOf(x.written)) by {
      CommitSafe(kv, live, t);
      assert SafeAt(kv, ps, n, KeysOf(x.written));
    }
    CommitKept(kv, live, t, n);
    forall u | u != t ensures Bystander(kv, kv', u) && (u in kv'.txns ==> u in kv.txns) {
      CommitCutOther(kv, live, t, n, u);
    }
    CommitCutOwn(kv, live, t, n);
  }

  lemma {:induction false} CommitCutOther(kv: Kv, live: map<TxnId, Txn>, t: TxnId, n: nat, u: TxnId)
    requires UpInv(kv, live) && t in live && n <= |CommitOutcome(kv, live[t]).puts| && u != t
    ensures var kv' := ApplyAll(kv, CommitOutcome(kv, live[t]).puts[..n]);
            Bystander(kv, kv', u) && (u in kv'.txns ==> u in kv.txns)
  {
    var ps := CommitOutcome(kv, live[t]).puts;
    RecordFromPuts(kv, ps[..n], u);
    forall p | p in ps[..n] && p.PutTxn? ensures p.txn == t { assert p in ps; CommitRecords(kv, live, t, p); }
  }

  lemma {:induction false} CommitCutOwn(kv: Kv, live: map<TxnId, Txn>, t: TxnId, n: nat)
    requires UpInv(kv, live) && t in live && 0 < n <= |CommitOutcome(kv, live[t]).puts|
    ensures var kv' := ApplyAll(kv, CommitOutcome(kv, live[t]).puts[..n]);
            t in kv'.txns && kv'.txns[t] in {TxnMeta(Committing, kv.nextTs, live[t].written),
                TxnMeta(Committed, kv.nextTs, [])}
  {
    var ps := CommitOutcome(kv, live[t]).puts;
    assert ps[0] == IntentPut(kv, live[t]) && live[t].id == t by { CommitPuts(kv, live, t); }
    OwnRecord(kv, live, t, ps[0], ps[1..n]);
    assert ps[..n] == [ps[0]] + ps[1..n];
  }

  lemma {:induction false} OwnRecord(kv: Kv, live: map<TxnId, Txn>, t: TxnId, p: Put, ps: seq<Put>)
    requires UpInv(kv, live) && t in live && p == PutTxn(t, TxnMeta(Committing, kv.nextTs, live[t].written))
    requires forall q | q in ps :: q in CommitOutcome(kv, live[t]).puts
    ensures var kv' := ApplyAll(kv, [p] + ps);
            t in kv'.txns && kv'.txns[t] in {TxnMeta(Committing, kv.nextTs, live[t].written),
                TxnMeta(Committed, kv.nextTs, [])}
  {
    ApplyCons(kv, p, ps);
    var kv1 := Apply(kv, p);
    RecordFromPuts(kv1, ps, t);
    var q := PutTxn(t, ApplyAll(kv1, ps).txns[t]);
    if q in ps { CommitRecords(kv, live, t, q); }
  }

  /** Recovery never invents a record. */
  lemma {:induction false} RecoveryOldTxns(kv: Kv, n: nat, u: TxnId)
    requires n <= |Recovery(kv).puts| && u in ApplyAll(kv, Recovery(kv).puts[..n]).txns
    ensures u in kv.txns
  {
    var ps := Recovery(kv).puts;
    RecordFromPuts(kv, ps[..n], u);
    var q := PutTxn(u, ApplyAll(kv, ps[..n]).txns[u]);
    if u !in kv.txns {
      var init := Initialized(kv);
      OracleEffect(kv, Counter(kv.nextTs), Counter(kv.nextTxn), Counter(kv.nextVid));
      assert q in ps && q !in InitPuts(kv);
      RecoveryRecords(init, 1, init.nextTxn, q);
    }
  }

  lemma {:induction false} PendingIntent(kv: Kv, live: map<TxnId, Txn>, x: Txn, kv': Kv)
    requires UpInv(kv, live) && CommitPending(kv, x, kv')
    ensures IntentKeys(kv', KeysOf(x.written))
  {
    forall u | CommittingTxn(kv', u) ensures KeysOf(kv'.txns[u].writes) <= KeysOf(x.written) {
      assert !CommittingTxn(kv, u) && u in kv.txns;
      if u != x.id { assert Bystander(kv, kv', u); }
    }
  }

  lemma {:induction false} AllKeptTransitive(a: Kv, b: Kv, c: Kv)
    requires AllKept(a, b) && AllKept(b, c)
    ensures AllKept(a, c)
  {
    forall vk | vk in a.versions ensures VersionKept(a.versions[vk], c.versions[vk]) {
      assert VersionKept(a.versions[vk], b.versions[vk]) && VersionKept(b.versions[vk], c.versions[vk]);
    }
  }

  lemma {:induction false} CommitPendingCut(kv: Kv, live: map<TxnId, Txn>, x: Txn, kv1: Kv, n: nat)
    requires UpInv(kv, live) && CommitPending(kv, x, kv1)
    requires n <= |Recovery(kv1).puts| && !AfterCommitRecord(Recovery(kv1).puts, n)
    ensures CommitPending(kv, x, ApplyAll(kv1, Recovery(kv1).puts[..n]))
  {
    var keys, ps := KeysOf(x.written), Recovery(kv1).puts;
    var kv' := ApplyAll(kv1, ps[..n]);
    assert Keeps(kv, kv', keys) by {
      PendingIntent(kv, live, x, kv1);
      RecoverySafe(kv1, keys);
      assert SafeAt(kv1, ps, n, keys);
      KeepsTransitive(kv, kv1, kv', keys);
    }
    assert AllKept(kv, kv') by {
      RecoveryKept(kv1, n);
      AllKeptTransitive(kv, kv1, kv');
    }
    RecoveryTxns(kv1, n, x.id);
    forall u | u != x.id ensures Bystander(kv, kv', u) {
      assert Bystander(kv, kv1, u);
      if u in kv1.txns { RecoveryTxns(kv1, n, u); }
    }
    forall u | u in kv'.txns ensures u in kv.txns { RecoveryOldTxns(kv1, n, u); }
  }

  lemma {:induction false} RecoveredRecords(kv: Kv)
    requires DurableInv(kv)
    ensures Quiet(Recovered(kv))
    ensures Recovered(kv).txns.Keys == kv.txns.Keys
    ensures forall u | u in kv.txns :: Recovered(kv).txns[u] == Settle(kv.txns[u])
  {
    RecoveredQuiet(kv);
    RecoverySafe(kv, AllIntentKeys(kv));
    assert Initialized(kv).txns == kv.txns;
  }

  /** A write of a transaction whose commit is through: stamped, open, and over a closed
      predecessor. No version can have been chained on top of it. */
  lemma {:induction false} CommittedWrite(kv: Kv, live: map<TxnId, Txn>, t: TxnId, kv': Kv, w: TxnWrite)
    requires UpInv(kv, live) && t in live && w in live[t].written
    requires AllKept(kv, kv') && DurableInv(kv') && NoneCommitting(kv')
    requires t in kv'.txns && kv'.txns[t].state == Committed && kv'.txns[t].commitTs == kv.nextTs
    ensures StampedAt(kv', w, kv.nextTs) && Ver(kv', w.key, w.id).endTs == 0
    ensures Has(kv, w.key, w.id) && Contents(Ver(kv', w.key, w.id)) == Contents(Ver(kv, w.key, w.id))
  {
    var x, k := live[t], w.key;
    assert LiveOk(kv, x) && x.id == t && HeldOk(kv, x, w);
    assert VKey(k, w.id) in kv.versions && VersionKept(Ver(kv, k, w.id), Ver(kv', k, w.id));
    assert VersionOk(kv', VKey(k, w.id)) && TxnOk(kv', t);
    assert CommittedVersion(kv', k, w.id) && Ver(kv', k, w.id).startTs == kv.nextTs;
    QuietTiles(kv', k, w.id);
    assert VersionOk(kv, VKey(k, w.id));
    forall z | CommittedVersion(kv', k, z) ensures Ver(kv', k, z).prev != w.id {
      assert VKey(k, z) in kv.versions && VersionKept(Ver(kv, k, z), Ver(kv', k, z)) && VersionOk(kv, VKey(k, z));
    }
  }

  /** What snapshots read once the commit is through. */
  lemma {:induction false} CommittedReads(kv: Kv, live: map<TxnId, Txn>, t: TxnId, kv': Kv, w: TxnWrite, s: Timestamp)
    requires UpInv(kv, live) && t in live && w in live[t].written && s >= kv.nextTs
    requires AllKept(kv, kv') && DurableInv(kv') && NoneCommitting(kv')
    requires t in kv'.txns && kv'.txns[t].state == Committed && kv'.txns[t].commitTs == kv.nextTs
    ensures Has(kv, w.key, w.id) && CommittedAt(kv', w.key, s) == Written(kv, w)
  {
    CommittedWrite(kv, live, t, kv', w);
    assert VisibleAt(kv', w.key, s, w.id);
    forall b | VisibleAt(kv', w.key, s, b) ensures b == w.id { OneVisible(kv', w.key, s, b, w.id); }
  }

  /** Snapshots and keys outside a change read as before. */
  lemma {:induction false} KeptReads(kv: Kv, kv': Kv, keys: set<RowKey>, k: RowKey, s: Timestamp)
    requires DurableInv(kv) && Keeps(kv, kv', keys) && (s < kv.nextTs || k !in keys)
    ensures CommittedAt(kv', k, s) == CommittedAt(kv, k, s)
  {
    forall id ensures SameAt(kv, kv', k, s, id) { }
    SameSnapshot(kv, kv', k, s);
  }

  lemma {:induction false} FinalKept(kv: Kv, live: map<TxnId, Txn>, x: Txn, kv1: Kv)
    requires UpInv(kv, live) && CommitPending(kv, x, kv1)
    ensures Keeps(kv, Recovered(kv1), KeysOf(x.written)) && AllKept(kv, Recovered(kv1))
  {
    var ps := Recovery(kv1).puts;
    assert ps[..|ps|] == ps;
    PendingIntent(kv, live, x, kv1);
    RecoverySafe(kv1, KeysOf(x.written));
    KeepsTransitive(kv, kv1, Recovered(kv1), KeysOf(x.written));
    RecoveryKept(kv1, |ps|);
    AllKeptTransitive(kv, kv1, Recovered(kv1));
  }

  lemma {:induction false} FinalRecords(kv: Kv, live: map<TxnId, Txn>, t: TxnId, kv1: Kv)
    requires UpInv(kv, live) && t in live && CommitPending(kv, live[t], kv1)
    ensures var kv' := Recovered(kv1);
            && Quiet(kv') && (forall u | u in kv'.txns :: Finished(kv'.txns[u]))
            && t in kv'.txns && kv'.txns[t] == TxnMeta(Committed, kv.nextTs, []) && kv.nextTs < kv'.nextTs
            && (forall u | u in live && u != t :: u in kv'.txns && kv'.txns[u].state == Aborted)
  {
    hide Recovery, VersionOk, HeadOk, PairOk, HeldOk;
    var kv' := Recovered(kv1);
    assert live[t].id == t;
    RecoveredRecords(kv1);
    assert TxnOk(kv', t);
    forall u | u in live && u != t ensures u in kv'.txns && kv'.txns[u].state == Aborted {
      assert Bystander(kv, kv1, u) && LiveOk(kv, live[u]) && live[u].id == u;
    }
  }

  lemma {:induction false} CommitPendingEnds(kv: Kv, live: map<TxnId, Txn>, t: TxnId, kv1: Kv)
    requires UpInv(kv, live) && t in live && CommitPending(kv, live[t], kv1)
    ensures CommitDone(kv, Recovered(kv1), live, live[t])
  {
    var x, kv', c := live[t], Recovered(kv1), kv.nextTs;
    assert x.id == t;
    FinalRecords(kv, live, t, kv1);
    FinalKept(kv, live, x, kv1);
    forall w | w in x.written ensures StampedAt(kv', w, c) { CommittedWrite(kv, live, t, kv', w); }
    forall w, s: Timestamp | w in x.written && s >= c
      ensures Has(kv, w.key, w.id) && CommittedAt(kv', w.key, s) == Written(kv, w)
    {
      CommittedReads(kv, live, t, kv', w, s);
    }
    forall k, s: Timestamp | s < c || k !in KeysOf(x.written) ensures CommittedAt(kv', k, s) == CommittedAt(kv, k, s) {
      KeptReads(kv, kv', KeysOf(x.written), k, s);
    }
  }

  lemma {:induction false} CommitPendingRecovers(kv: Kv, live: map<TxnId, Txn>, t: TxnId, kv1: Kv, cuts: seq<nat>,
      kv': Kv)
    requires UpInv(kv, live) && t in live && CommitPending(kv, live[t], kv1) && Recovers(kv1, cuts, kv')
    ensures CommitDone(kv, kv', live, live[t])
    decreases |cuts|
  {
    if cuts == [] {
      CommitPendingEnds(kv, live, t, kv1);
    } else {
      CommitPendingCut(kv, live, live[t], kv1, cuts[0]);
      CommitPendingRecovers(kv, live, t, ApplyAll(kv1, Recovery(kv1).puts[..cuts[0]]), cuts[1..], kv');
    }
  }

  // ---- Calls without a durable intent ---------------------------------------------------------

  lemma {:induction false} CallCut(kv: Kv, live: map<TxnId, Txn>, op: Op, n: nat)
    requires UpInv(kv, live) && Descending(kv) && !op.IsDdl() && n <= |CallOutcome(kv, live, op).puts|
    requires op.Commit? && op.t in live ==> n == 0
    ensures AbortPending(kv, ApplyAll(kv, CallOutcome(kv, live, op).puts[..n]))
  {
    var ps := CallOutcome(kv, live, op).puts;
    var kv' := ApplyAll(kv, ps[..n]);
    if n == 0 {
      assert ps[..0] == [];
    } else {
      CallKeeps(kv, live, op);
      forall u ensures !CommittingTxn(kv', u) && (OpenRecord(kv, u) ==>
          u in kv'.txns && kv'.txns[u].state in {Open, Aborted}) {
        CallCutRecord(kv, live, op, n, u);
      }
      assert !AfterCommitRecord(ps, n) by {
        if AfterCommitRecord(ps, n) { CallRecords(kv, live, op, ps[n - 1]); assert false; }
      }
      assert SafeAt(kv, ps, n, {});
    }
  }

  lemma {:induction false} CallCutRecord(kv: Kv, live: map<TxnId, Txn>, op: Op, n: nat, u: TxnId)
    requires UpInv(kv, live) && Descending(kv) && !op.IsDdl() && n <= |CallOutcome(kv, live, op).puts|
    requires !(op.Commit? && op.t in live)
    ensures var kv' := ApplyAll(kv, CallOutcome(kv, live, op).puts[..n]);
            !CommittingTxn(kv', u) && (OpenRecord(kv, u) ==> u in kv'.txns && kv'.txns[u].state in {Open, Aborted})
  {
    var ps := CallOutcome(kv, live, op).puts;
    var kv' := ApplyAll(kv, ps[..n]);
    RecordFromPuts(kv, ps[..n], u);
    assert !CommittingTxn(kv, u);
    if u in kv'.txns && PutTxn(u, kv'.txns[u]) in ps[..n] {
      assert PutTxn(u, kv'.txns[u]) in ps;
      CallRecords(kv, live, op, PutTxn(u, kv'.txns[u]));
    }
  }

  lemma {:induction false} AbortPendingCut(kv: Kv, kv1: Kv, n: nat)
    requires AbortPending(kv, kv1) && n <= |Recovery(kv1).puts| && !AfterCommitRecord(Recovery(kv1).puts, n)
    ensures AbortPending(kv, ApplyAll(kv1, Recovery(kv1).puts[..n]))
  {
    var ps := Recovery(kv1).puts;
    var kv' := ApplyAll(kv1, ps[..n]);
    RecoverySafe(kv1, {});
    assert SafeAt(kv1, ps, n, {});
    KeepsTransitive(kv, kv1, kv', {});
    forall u ensures !CommittingTxn(kv', u) {
      if u in kv'.txns {
        RecoveryOldTxns(kv1, n, u);
        RecoveryTxns(kv1, n, u);
        assert !CommittingTxn(kv1, u);
      }
    }
    forall u | OpenRecord(kv, u) ensures u in kv'.txns && kv'.txns[u].state in {Open, Aborted} {
      RecoveryTxns(kv1, n, u);
    }
  }

  lemma {:induction false} AbortPendingEnds(kv: Kv, live: map<TxnId, Txn>, kv1: Kv)
    requires UpInv(kv, live) && AbortPending(kv, kv1)
    ensures Undone(kv, Recovered(kv1), live)
  {
    var kv' := Recovered(kv1);
    RecoveredRecords(kv1);
    assert Keeps(kv, kv', {}) by {
      RecoverySafe(kv1, {});
      KeepsTransitive(kv, kv1, kv', {});
    }
    forall u | u in live ensures u in kv'.txns && kv'.txns[u].state == Aborted {
      assert LiveOk(kv, live[u]) && live[u].id == u && OpenRecord(kv, u);
    }
    forall k, s: Timestamp ensures CommittedAt(kv', k, s) == CommittedAt(kv, k, s) { KeptReads(kv, kv', {}, k, s); }
  }

  lemma {:induction false} AbortPendingRecovers(kv: Kv, live: map<TxnId, Txn>, kv1: Kv, cuts: seq<nat>, kv': Kv)
    requires UpInv(kv, live) && AbortPending(kv, kv1) && Recovers(kv1, cuts, kv')
    ensures Undone(kv, kv', live)
    decreases |cuts|
  {
    if cuts == [] {
      AbortPendingEnds(kv, live, kv1);
    } else {
      AbortPendingCut(kv, kv1, cuts[0]);
      AbortPendingRecovers(kv, live, ApplyAll(kv1, Recovery(kv1).puts[..cuts[0]]), cuts[1..], kv');
    }
  }

  // ---- Crash atomicity over every run ---------------------------------------------------------

  ghost predicate Atomic(kv: Kv, live: map<TxnId, Txn>, op: Op, n: nat, kv': Kv) {
    if op.Commit? && op.t in live && n > 0 then CommitDone(kv, kv', live, live[op.t]) else Undone(kv, kv', live)
  }

  /** Cut any call after any put but the Committed record, in any state of any run, and recover, with
      interruptions of the same kind: a commit whose intent became durable is done as a whole, anything
      else never happened. */
  lemma {:induction false} CrashIsAtomic(states: seq<Sys>, events: seq<Event>, i: nat, op: Op, ps: seq<Put>, n: nat,
      cuts: seq<nat>, kv': Kv)
    requires IsRun(states, events) && i < |states| && states[i].up && Descending(states[i].kv) && !op.IsDdl()
    requires ps == CallOutcome(states[i].kv, states[i].live, op).puts && n <= |ps| && !AfterCommitRecord(ps, n)
    requires Recovers(ApplyAll(states[i].kv, ps[..n]), cuts, kv')
    ensures Atomic(states[i].kv, states[i].live, op, n, kv')
  {
    RunInv(states, events, i);
    var kv, live := states[i].kv, states[i].live;
    var kv1 := ApplyAll(kv, ps[..n]);
    if op.Commit? && op.t in live && n > 0 {
      CommitCut(kv, live, op.t, n);
      CommitPendingRecovers(kv, live, op.t, kv1, cuts, kv');
    } else {
      CallCut(kv, live, op, n);
      AbortPendingRecovers(kv, live, kv1, cuts, kv');
    }
  }
}
