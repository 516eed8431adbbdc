/** Begin, Commit and Abort in every run, by what is read: a transaction starts from the committed state,
    a commit puts exactly what the transaction reads of the keys it wrote into that state, an abort nothing,
    and no other open transaction notices either. */
module TxnTheorems {
  import opened Values
  import opened VersionStore
  import opened DurableSteps
  import opened Protocol
  import opened CrashSafety
  import opened Reads
  import opened LiveTxns
  import opened SnapshotIsolation
  import opened IsolationTheorems
  import opened WriteTheorems

  /** Transaction `u` stays open and reads every key as before. */
  ghost predicate Unmoved(s: Sys, s': Sys, u: TxnId) {
    && u in s.live && u in s'.live && Descending(s.kv) && Descending(s'.kv)
    && forall j :: Get(s', u, j) == Get(s, u, j)
  }

  ghost predicate Ready(s: Sys) { Descending(s.kv) && s.kv.nextTs > 0 }

  lemma {:induction false} RunReady(states: seq<Sys>, events: seq<Event>, i: nat)
    requires IsRun(states, events) && i < |states| && states[i].up
    ensures SysInv(states[i]) && Ready(states[i])
  {
    RunInv(states, events, i);
    DurableDescends(states[i].kv);
  }

  /** The head of the key and the version there are the same in both stores. */
  ghost predicate SameHead(kv: Kv, kv': Kv, k: RowKey) {
    && k in kv.heads && k in kv'.heads && kv.heads[k] == kv'.heads[k]
    && Has(kv, k, kv.heads[k]) && Has(kv', k, kv.heads[k])
    && Ver(kv, k, kv.heads[k]) == Ver(kv', k, kv.heads[k])
  }

  lemma {:induction false} KeysHeld(ws: seq<TxnWrite>, k: RowKey)
    ensures k in KeysOf(ws) <==> Holds(ws, k)
  {
    if Holds(ws, k) { var n :| 0 <= n < |ws| && ws[n].key == k; assert ws[n] in ws; }
  }

  /** Keys held by an open transaction are not among another's writes. */
  lemma {:induction false} HeldApart(kv: Kv, live: map<TxnId, Txn>, t: TxnId, u: TxnId, k: RowKey)
    requires UpInv(kv, live) && t in live && u in live && u != t && Holds(live[u].written, k)
    ensures k in kv.heads && Has(kv, k, kv.heads[k]) && k !in KeysOf(live[t].written)
  {
    HeldFree(kv, live, u, k);
    KeysHeld(live[t].written, k);
  }

  lemma {:induction false} CommitHeld(kv: Kv, live: map<TxnId, Txn>, t: TxnId, u: TxnId, k: RowKey)
    requires UpInv(kv, live) && t in live && u in live && u != t && Holds(live[u].written, k)
    ensures SameHead(kv, ApplyAll(kv, CommitOutcome(kv, live[t]).puts), k)
  {
    hide CommitOutcome;
    var kv' := ApplyAll(kv, CommitOutcome(kv, live[t]).puts);
    HeldApart(kv, live, t, u, k);
    CommitEffect(kv, live, t);
    assert StampedOne(kv, kv', live[t].written, VKey(k, kv.heads[k]));
  }

  lemma {:induction false} AbortHeld(kv: Kv, live: map<TxnId, Txn>, t: TxnId, u: TxnId, k: RowKey)
    requires UpInv(kv, live) && t in live && u in live && u != t && Holds(live[u].written, k)
    ensures SameHead(kv, ApplyAll(kv, AbortOutcome(kv, t, live[t].written).puts), k)
  {
    HeldApart(kv, live, t, u, k);
    assert LiveOk(kv, live[t]) && live[t].id == t && TxnOk(kv, t);
    AbortSafe(kv, t, live[t].written);
  }

  /** Reads of a transaction that stays open, when another ends. */
  lemma {:induction false} EndReads(kv: Kv, live: map<TxnId, Txn>, kv': Kv, t: TxnId, keys: set<RowKey>, u: TxnId,
      k: RowKey)
    requires UpInv(kv, live) && UpInv(kv', live - {t}) && Descending(kv) && Descending(kv') && Keeps(kv, kv', keys)
    requires u in live && u != t && (Holds(live[u].written, k) ==> SameHead(kv, kv', k))
    ensures ReadRow(kv', k, live[u].startTs, u) == ReadRow(kv, k, live[u].startTs, u)
  {
    var x, s := live[u], live[u].startTs;
    assert u in live - {t};
    assert LiveOk(kv, x) && LiveOk(kv', (live - {t})[u]) && x.id == u;
    forall id ensures SameAt(kv, kv', k, s, id) { }
    ReadStays(kv, kv', x, x, k);
  }

  // ---- Begin --------------------------------------------------------------------------------------

  lemma {:induction false} BeginOther(kv: Kv, live: map<TxnId, Txn>, kv': Kv, live': map<TxnId, Txn>, u: TxnId,
      k: RowKey)
    requires UpInv(kv, live) && UpInv(kv', live') && Descending(kv) && Descending(kv') && Keeps(kv, kv', {})
    requires kv'.heads == kv.heads && kv'.versions == kv.versions && u in live && u in live' && live'[u] == live[u]
    ensures ReadRow(kv', k, live[u].startTs, u) == ReadRow(kv, k, live[u].startTs, u)
  {
    hide ReadRow;
    var x, s := live[u], live[u].startTs;
    assert LiveOk(kv, x) && LiveOk(kv', live'[u]) && x.id == u;
    HoldsOwnHead(kv, x, k);
    forall id ensures SameAt(kv, kv', k, s, id) { }
    ReadStays(kv, kv', x, x, k);
  }

  /** The first reads of a handle that has written nothing. */
  lemma {:induction false} NewReads(kv: Kv, kv': Kv, live: map<TxnId, Txn>, k: RowKey)
    requires UpInv(kv', live) && Descending(kv') && kv'.nextTs > 0 && kv.nextTxn in live
    requires live[kv.nextTxn] == Txn(kv.nextTxn, kv'.nextTs - 1, [])
    ensures ReadRow(kv', k, kv'.nextTs - 1, kv.nextTxn) == NextRead(kv', k)
  {
    hide ReadRow, SnapshotRead;
    var x := live[kv.nextTxn];
    assert LiveOk(kv', x);
    HoldsOwnHead(kv', x, k);
    ReadRowCorrect(kv', k, x.startTs, x.id);
    NextIsSnapshot(kv', k);
  }

  /** Begin: a new handle that reads the committed state; nobody else notices. */
  lemma {:induction false} BeginReads(states: seq<Sys>, events: seq<Event>, i: nat)
    requires IsRun(states, events) && i < |events| && events[i] == Do(Begin)
    ensures var s, s' := states[i], states[i + 1];
            && Ready(s) && Ready(s') && CallOutcome(s.kv, s.live, Begin).status == Ok
            && s.kv.nextTxn !in s.live && s'.live.Keys == s.live.Keys + {s.kv.nextTxn}
            && s'.live[s.kv.nextTxn].written == []
            && (forall k :: Get(s', s.kv.nextTxn, k) == NextRead(s.kv, k) == NextRead(s'.kv, k))
            && forall u | u in s.live :: Unmoved(s, s', u)
  {
    hide ReadRow;
    var s, s', t := states[i], states[i + 1], states[i].kv.nextTxn;
    RunReady(states, events, i);
    assert Step(s, events[i], s');
    RunReady(states, events, i + 1);
    BeginKeeps(s.kv, s.live);
    BeginEffect(s.kv);
    BeginSafe(s.kv);
    SafeEnds(s.kv, BeginPuts(s.kv), {});
    var now := s.kv.nextTs - 1;
    forall k ensures Get(s', t, k) == NextRead(s.kv, k) == NextRead(s'.kv, k) {
      forall id ensures SameAt(s.kv, s'.kv, k, now, id) { }
      NextStays(s.kv, s'.kv, k, now);
      NewReads(s.kv, s'.kv, s'.live, k);
    }
    forall u, j | u in s.live ensures Get(s', u, j) == Get(s, u, j) {
      BeginOther(s.kv, s.live, s'.kv, s'.live, u, j);
    }
  }

  // ---- Commit -------------------------------------------------------------------------------------

  lemma {:induction false} SameVisible(kv: Kv, k: RowKey, a: Timestamp, b: Timestamp)
    requires DurableInv(kv) && forall id :: VisibleAt(kv, k, a, id) <==> VisibleAt(kv, k, b, id)
    ensures SnapshotRead(kv, k, a) == SnapshotRead(kv, k, b)
  {
    if v :| VisibleAt(kv, k, a, v) {
      forall w | VisibleAt(kv, k, b, w) ensures w == v { OneVisible(kv, k, b, v, w); }
    } else {
      assert forall w :: !VisibleAt(kv, k, b, w);
    }
  }

  /** Between calls nothing starts or ends at the clock, so the committed state is the same there. */
  lemma {:induction false} ClockRead(kv: Kv, k: RowKey)
    requires DurableInv(kv) && NoneCommitting(kv) && kv.nextTs > 0
    ensures SnapshotRead(kv, k, kv.nextTs) == SnapshotRead(kv, k, kv.nextTs - 1)
  {
    var c, d := kv.nextTs, kv.nextTs - 1;
    forall id ensures VisibleAt(kv, k, c, id) <==> VisibleAt(kv, k, d, id) {
      assert VersionOk(kv, VKey(k, id));
      if Has(kv, k, id) { assert !CommittingTxn(kv, Ver(kv, k, id).createdBy); }
    }
    SameVisible(kv, k, c, d);
  }

  /** A key the transaction did not write is committed as before. */
  lemma {:induction false} CommitOther(kv: Kv, kv': Kv, live: map<TxnId, Txn>, t: TxnId, k: RowKey)
    requires UpInv(kv, live) && t in live && DurableInv(kv') && Descending(kv) && Descending(kv')
    requires Keeps(kv, kv', KeysOf(live[t].written)) && kv'.nextTs == kv.nextTs + 1
    requires !Holds(live[t].written, k)
    ensures NextRead(kv', k) == NextRead(kv, k)
  {
    KeysHeld(live[t].written, k);
    NextIsSnapshot(kv, k);
    NextIsSnapshot(kv', k);
    ClockRead(kv, k);
    var c := kv.nextTs;
    forall id ensures SameAt(kv, kv', k, c, id) { }
    SameSnapshot(kv, kv', k, c);
  }

  /** A key the transaction wrote is committed as the transaction read it. */
  lemma {:induction false} CommitOwn(kv: Kv, kv': Kv, live: map<TxnId, Txn>, t: TxnId, k: RowKey)
    requires UpInv(kv, live) && t in live && DurableInv(kv') && Descending(kv) && Descending(kv')
    requires CommittedEffect(kv, kv', live[t]) && Holds(live[t].written, k)
    ensures NextRead(kv', k) == ReadRow(kv, k, live[t].startTs, t)
  {
    HeldFree(kv, live, t, k);
    ReadRowCorrect(kv, k, live[t].startTs, t);
    NextIsSnapshot(kv', k);
    var h, c := kv.heads[k], kv.nextTs;
    assert LiveOk(kv, live[t]) && live[t].id == t;
    HoldsOwnHead(kv, live[t], k);
    assert StampedOne(kv, kv', live[t].written, VKey(k, h));
    assert HeadOk(kv', k) && VersionOk(kv', VKey(k, h)) && !CommittingTxn(kv', t);
    assert VisibleAt(kv', k, c, h);
    forall b | VisibleAt(kv', k, c, b) ensures b == h { OneVisible(kv', k, c, h, b); }
  }

  /** Commit: what the transaction reads of the keys it wrote becomes the committed state of these keys;
      the other keys, and the reads of the transactions still open, stay. */
  lemma {:induction false} CommitReads(states: seq<Sys>, events: seq<Event>, i: nat, t: TxnId)
    requires IsRun(states, events) && i < |events| && events[i] == Do(Commit(t)) && t in states[i].live
    ensures var s, s' := states[i], states[i + 1];
            && Ready(s) && Ready(s') && CallOutcome(s.kv, s.live, Commit(t)).status == Ok
            && s'.live == s.live - {t}
            && (forall k :: NextRead(s'.kv, k) ==
                  if Holds(s.live[t].written, k) then Get(s, t, k) else NextRead(s.kv, k))
            && forall u | u in s'.live :: Unmoved(s, s', u)
  {
    hide ReadRow, CommitOutcome, CommittedEffect;
    var s, s' := states[i], states[i + 1];
    RunReady(states, events, i);
    assert Step(s, events[i], s');
    RunReady(states, events, i + 1);
    CommitAlwaysSucceeds(states, events, i, t);
    CommitEffect(s.kv, s.live, t);
    CommitSafe(s.kv, s.live, t);
    SafeEnds(s.kv, CommitOutcome(s.kv, s.live[t]).puts, KeysOf(s.live[t].written));
    assert s'.kv.nextTs == s.kv.nextTs + 1 by { CommitClock(s.kv, s'.kv, s.live[t]); }
    forall k ensures NextRead(s'.kv, k) == if Holds(s.live[t].written, k) then Get(s, t, k) else NextRead(s.kv, k) {
      if Holds(s.live[t].written, k) {
        CommitOwn(s.kv, s'.kv, s.live, t, k);
      } else {
        CommitOther(s.kv, s'.kv, s.live, t, k);
      }
    }
    forall u, j | u in s'.live ensures Get(s', u, j) == Get(s, u, j) {
      if Holds(s.live[u].written, j) { CommitHeld(s.kv, s.live, t, u, j); }
      EndReads(s.kv, s.live, s'.kv, t, KeysOf(s.live[t].written), u, j);
    }
  }

  lemma {:induction false} CommitClock(kv: Kv, kv': Kv, x: Txn)
    requires CommittedEffect(kv, kv', x)
    ensures kv'.nextTs == kv.nextTs + 1
  {
  }

  // ---- Abort --------------------------------------------------------------------------------------

  lemma {:induction false} AbortClock(kv: Kv, live: map<TxnId, Txn>, t: TxnId)
    requires UpInv(kv, live) && t in live
    ensures ApplyAll(kv, AbortOutcome(kv, t, live[t].written).puts).nextTs == kv.nextTs
  {
    assert LiveOk(kv, live[t]) && live[t].id == t && TxnOk(kv, t);
    AbortSafe(kv, t, live[t].written);
  }

  /** Abort: the transaction is gone and nothing anybody reads has changed. */
  lemma {:induction false} AbortReads(states: seq<Sys>, events: seq<Event>, i: nat, t: TxnId)
    requires IsRun(states, events) && i < |events| && events[i] == Do(Abort(t)) && t in states[i].live
    ensures var s, s' := states[i], states[i + 1];
            && Ready(s) && Ready(s') && CallOutcome(s.kv, s.live, Abort(t)).status == Ok
            && s'.live == s.live - {t}
            && (forall k :: NextRead(s'.kv, k) == NextRead(s.kv, k))
            && forall u | u in s'.live :: Unmoved(s, s', u)
  {
    hide ReadRow, AbortOutcome;
    var s, s' := states[i], states[i + 1];
    RunReady(states, events, i);
    assert Step(s, events[i], s');
    RunReady(states, events, i + 1);
    AbortKeeps(s.kv, s.live, t);
    AbortClock(s.kv, s.live, t);
    SafeEnds(s.kv, AbortOutcome(s.kv, t, s.live[t].written).puts, {});
    var now := s.kv.nextTs - 1;
    forall k ensures NextRead(s'.kv, k) == NextRead(s.kv, k) {
      forall id ensures SameAt(s.kv, s'.kv, k, now, id) { }
      NextStays(s.kv, s'.kv, k, now);
    }
    forall u, j | u in s'.live ensures Get(s', u, j) == Get(s, u, j) {
      if Holds(s.live[u].written, j) { AbortHeld(s.kv, s.live, t, u, j); }
      EndReads(s.kv, s.live, s'.kv, t, {}, u, j);
    }
  }
}
