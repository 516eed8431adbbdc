/** Does the clock stay past every commit after a crash? Only if the crash did not fall between
    the Committed record and the clock put behind it: exactly then recovery leaves the clock at
    the commit's own timestamp. */
module ClockWindow {
  import opened Values
  import opened VersionStore
  import opened Protocol
  import opened CrashSafety
  import opened RecoveryProof
  import opened LiveTxns
  import opened SnapshotIsolation

  /** A committed transaction whose timestamp the clock has not passed. */
  ghost predicate Behind(kv: Kv, t: TxnId) {
    t in kv.txns && kv.txns[t].state == Committed && kv.txns[t].commitTs >= kv.nextTs
  }

  ghost predicate ClockPast(kv: Kv) { forall t :: !Behind(kv, t) }

  lemma {:induction false} DurableClockPast(kv: Kv)
    requires DurableInv(kv)
    ensures ClockPast(kv)
  {
    forall t ensures !Behind(kv, t) { assert TxnOk(kv, t); }
  }

  // ---- Recovery without a durable intent never moves the clock --------------------------

  lemma {:induction false} ClockFromPuts(kv: Kv, ps: seq<Put>)
    requires forall p | p in ps :: !p.PutNextTs?
    ensures ApplyAll(kv, ps).nextTs == kv.nextTs
    decreases |ps|
  {
    if ps != [] {
      assert ps[0] in ps && forall p | p in ps[1..] :: p in ps;
      ClockFromPuts(Apply(kv, ps[0]), ps[1..]);
    }
  }

  lemma {:induction false} RestoreNoClock(kv: Kv, ws: seq<TxnWrite>)
    ensures forall p | p in RestoreHeads(kv, ws).puts :: !p.PutNextTs?
    decreases |ws|
  {
    if ws != [] { RestoreNoClock(ApplyAll(kv, RestoreOne(kv, ws[|ws| - 1]).puts), ws[..|ws| - 1]); }
  }

  lemma {:induction false} RecoverNoClock(kv: Kv, t: TxnId, limit: TxnId)
    requires NoneCommitting(kv)
    ensures forall p | p in RecoverFrom(kv, t, limit).puts :: !p.PutNextTs?
    decreases limit - t
  {
    if t < limit {
      var o := RecoverTxn(kv, t);
      assert !CommittingTxn(kv, t);
      if t in kv.txns { RestoreNoClock(kv, kv.txns[t].writes); }
      var kv1 := ApplyAll(kv, o.puts);
      forall u ensures !CommittingTxn(kv1, u) {
        RecordFromPuts(kv, o.puts, u);
        assert !CommittingTxn(kv, u);
        if u in kv1.txns && PutTxn(u, kv1.txns[u]) in o.puts { RecoverTxnRecord(kv, t, PutTxn(u, kv1.txns[u])); }
      }
      RecoverNoClock(kv1, t + 1, limit);
    }
  }

  /** Once behind, recovery leaves it behind. */
  lemma {:induction false} BehindStays(kv: Kv, t: TxnId)
    requires NoneCommitting(kv) && Behind(kv, t) && kv.nextTs > 0
    ensures Behind(Recovered(kv), t) && Recovered(kv).nextTs == kv.nextTs
  {
    var init, ps := Initialized(kv), Recovery(kv).puts;
    var o := RecoverFrom(init, 1, init.nextTxn);
    OracleEffect(kv, Counter(kv.nextTs), Counter(kv.nextTxn), Counter(kv.nextVid));
    forall u ensures !CommittingTxn(init, u) { assert !CommittingTxn(kv, u); }
    RecoverNoClock(init, 1, init.nextTxn);
    ApplyAllConcat(kv, InitPuts(kv), o.puts);
    ClockFromPuts(init, o.puts);
    RecordFromPuts(init, o.puts, t);
    var q := PutTxn(t, Recovered(kv).txns[t]);
    if q in o.puts { RecoveryRecords(init, 1, init.nextTxn, q); }
  }

  // ---- A commit cut short --------------------------------------------------------------------

  /** In a list made of an intent, stamps and a record with counters behind it, the one Committed
      record stands right after the stamps. */
  lemma {:induction false} RecordPosition(i: Put, a: seq<Put>, f: seq<Put>, n: nat)
    requires n <= |[i] + a + f| && AfterCommitRecord([i] + a + f, n)
    requires (i.PutTxn? ==> i.meta.state != Committed) && (forall p | p in a :: !p.PutTxn?)
    requires |f| > 0 && forall m | 1 <= m < |f| :: !f[m].PutTxn?
    ensures ([i] + a + f)[..n] == ([i] + a) + [f[0]]
  {
    var ps := [i] + a + f;
    forall m | 0 <= m < |ps| && m != |a| + 1 ensures !(ps[m].PutTxn? && ps[m].meta.state == Committed) {
      assert ps[m] == if m == 0 then i else if m <= |a| then a[m - 1] else f[m - 1 - |a|];
      assert 0 < m <= |a| ==> a[m - 1] in a;
    }
    assert n == |a| + 2;
  }

  lemma {:induction false} CommitWindowState(kv: Kv, live: map<TxnId, Txn>, t: TxnId, n: nat)
    requires UpInv(kv, live) && t in live && n <= |CommitOutcome(kv, live[t]).puts|
    requires AfterCommitRecord(CommitOutcome(kv, live[t]).puts, n)
    ensures var kv' := ApplyAll(kv, CommitOutcome(kv, live[t]).puts[..n]);
            NoneCommitting(kv') && Behind(kv', t) && kv'.nextTs == kv.nextTs > 0
  {
    var x, ps := live[t], CommitOutcome(kv, live[t]).puts;
    var kv1 := IntentKv(kv, x);
    CommitPuts(kv, live, t);
    IntentSafe(kv, live, t);
    RedoStamps(kv1, t);
    var i, a, f := IntentPut(kv, x), StampPuts(kv, x), FinishPuts(Redone(kv1, t), t);
    StampPutsVersions(kv1, t, kv.nextTs, x.written);
    RecordPosition(i, a, f, n);
    var kv' := ApplyAll(kv, ps[..n]);
    assert kv' == Apply(Redone(kv1, t), f[0]) by {
      ApplySnoc(kv, [i] + a, f[0]);
      ApplyCons(kv, i, a);
    }
    forall u ensures !CommittingTxn(kv', u) { assert !CommittingTxn(kv, u); }
  }

  /** Commit, exactly: stopped after `n` puts and recovered, the clock is past every commit if and
      only if the last put kept is not the Committed record. */
  lemma {:induction false} CommitClock(kv: Kv, live: map<TxnId, Txn>, t: TxnId, n: nat)
    requires UpInv(kv, live) && t in live && n <= |CommitOutcome(kv, live[t]).puts|
    ensures ClockPast(Recovered(ApplyAll(kv, CommitOutcome(kv, live[t]).puts[..n])))
            <==> !AfterCommitRecord(CommitOutcome(kv, live[t]).puts, n)
  {
    var ps := CommitOutcome(kv, live[t]).puts;
    var kv' := ApplyAll(kv, ps[..n]);
    if AfterCommitRecord(ps, n) {
      CommitWindowState(kv, live, t, n);
      BehindStays(kv', t);
      assert Behind(Recovered(kv'), t);
    } else {
      CommitSafe(kv, live, t);
      assert SafeAt(kv, ps, n, KeysOf(live[t].written));
      RecoveredQuiet(kv');
      DurableClockPast(Recovered(kv'));
    }
  }

  // ---- Recovery cut short --------------------------------------------------------------------

  ghost predicate OrderedRecords(ps: seq<Put>) {
    forall i, j | 0 <= i < j < |ps| && ps[i].PutTxn? && ps[j].PutTxn? :: ps[i].txn < ps[j].txn
  }

  lemma {:induction false} RecoverTxnOnce(kv: Kv, t: TxnId)
    ensures OrderedRecords(RecoverTxn(kv, t).puts)
  {
    if t in kv.txns {
      var m := kv.txns[t];
      StampPutsVersions(kv, t, m.commitTs, m.writes);
      RestorePutsHeads(kv, m.writes);
    }
  }

  lemma {:induction false} OrderedConcat(a: seq<Put>, b: seq<Put>, t: TxnId)
    requires OrderedRecords(a) && OrderedRecords(b)
    requires (forall p | p in a && p.PutTxn? :: p.txn <= t) && (forall p | p in b && p.PutTxn? :: p.txn > t)
    ensures OrderedRecords(a + b)
  {
    var c := a + b;
    forall i, j | 0 <= i < j < |c| && c[i].PutTxn? && c[j].PutTxn? ensures c[i].txn < c[j].txn {
      if i < |a| { assert c[i] in a; }
      if j >= |a| { assert c[j] in b; }
    }
  }

  /** Recovery writes at most one record per transaction. */
  lemma {:induction false} RecoverFromOnce(kv: Kv, t: TxnId, limit: TxnId)
    ensures OrderedRecords(RecoverFrom(kv, t, limit).puts)
    decreases limit - t
  {
    if t < limit && RecoverTxn(kv, t).status == Ok {
      var o := RecoverTxn(kv, t);
      var kv1 := ApplyAll(kv, o.puts);
      var rest := RecoverFrom(kv1, t + 1, limit);
      RecoverTxnOnce(kv, t);
      RecoverFromOnce(kv1, t + 1, limit);
      forall p | p in o.puts && p.PutTxn? ensures p.txn <= t { RecoverTxnRecord(kv, t, p); }
      forall p | p in rest.puts && p.PutTxn? ensures p.txn > t { RecoveryRecords(kv1, t + 1, limit, p); }
      OrderedConcat(o.puts, rest.puts, t);
    } else if t < limit {
      RecoverTxnOnce(kv, t);
    }
  }

  lemma {:induction false} RecoveryRecord(kv: Kv, p: Put)
    requires p in Recovery(kv).puts && p.PutTxn?
    ensures p.txn in kv.txns && !Finished(kv.txns[p.txn]) && p.meta == Settle(kv.txns[p.txn])
  {
    var init := Initialized(kv);
    OracleEffect(kv, Counter(kv.nextTs), Counter(kv.nextTxn), Counter(kv.nextVid));
    assert p !in InitPuts(kv);
    RecoveryRecords(init, 1, init.nextTxn, p);
  }

  lemma {:induction false} RecoveryOnce(kv: Kv)
    ensures OrderedRecords(Recovery(kv).puts)
  {
    var init := Initialized(kv);
    OracleEffect(kv, Counter(kv.nextTs), Counter(kv.nextTxn), Counter(kv.nextVid));
    RecoverFromOnce(init, 1, init.nextTxn);
    forall p | p in RecoverFrom(init, 1, init.nextTxn).puts && p.PutTxn? ensures p.txn > 0 {
      RecoveryRecords(init, 1, init.nextTxn, p);
    }
    OrderedConcat(InitPuts(kv), RecoverFrom(init, 1, init.nextTxn).puts, 0);
  }

  /** The store just before recovery writes the Committed record of `t`. */
  lemma {:induction false} BeforeRecord(kv: Kv, n: nat, t: TxnId)
    requires DurableInv(kv) && 0 < n <= |Recovery(kv).puts|
    requires AfterCommitRecord(Recovery(kv).puts, n) && Recovery(kv).puts[n - 1].txn == t
    ensures var kv1 := ApplyAll(kv, Recovery(kv).puts[..n - 1]);
            DurableInv(kv1) && CommittingTxn(kv1, t) && Recovery(kv).puts[n - 1].meta.commitTs == kv1.nextTs > 0
  {
    var ps := Recovery(kv).puts;
    var kv1 := ApplyAll(kv, ps[..n - 1]);
    RecoveryOnce(kv);
    RecoveryRecord(kv, ps[n - 1]);
    assert CommittingTxn(kv, t);
    RecoverySafe(kv, AllIntentKeys(kv));
    assert !AfterCommitRecord(ps, n - 1) by {
      if AfterCommitRecord(ps, n - 1) {
        RecoveryRecord(kv, ps[n - 2]);
        assert CommittingTxn(kv, ps[n - 2].txn);
        assert false;
      }
    }
    assert SafeAt(kv, ps, n - 1, AllIntentKeys(kv));
    RecordFromPuts(kv, ps[..n - 1], t);
    assert kv1.txns[t] == kv.txns[t];
    assert TxnOk(kv1, t);
  }

  /** Recovery itself, exactly: stopped after `n` puts and run again, the clock is past every
      commit if and only if the last put kept is not a Committed record. */
  lemma {:induction false} RecoveryClock(kv: Kv, n: nat)
    requires DurableInv(kv) && n <= |Recovery(kv).puts|
    ensures ClockPast(Recovered(ApplyAll(kv, Recovery(kv).puts[..n]))) <==> !AfterCommitRecord(Recovery(kv).puts, n)
  {
    var ps := Recovery(kv).puts;
    var kv' := ApplyAll(kv, ps[..n]);
    if AfterCommitRecord(ps, n) {
      var t := ps[n - 1].txn;
      BeforeRecord(kv, n, t);
      var kv1 := ApplyAll(kv, ps[..n - 1]);
      assert ps[..n] == ps[..n - 1] + [ps[n - 1]];
      ApplySnoc(kv, ps[..n - 1], ps[n - 1]);
      forall u ensures !CommittingTxn(kv', u) { assert CommittingTxn(kv', u) ==> CommittingTxn(kv1, u) && u != t; }
      BehindStays(kv', t);
      assert Behind(Recovered(kv'), t);
    } else {
      RecoverySafe(kv, AllIntentKeys(kv));
      assert SafeAt(kv, ps, n, AllIntentKeys(kv));
      RecoveredQuiet(kv');
      DurableClockPast(Recovered(kv'));
    }
  }
}
