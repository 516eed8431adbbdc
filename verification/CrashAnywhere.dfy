/** Crash atomicity without exception: any call cut after any put, the Committed record included, and
    recovery cut any number of times after any put. A commit whose intent became durable is always done
    as a whole. What the cut after the Committed record loses is the clock alone: it stands at the commit's
    own timestamp, so the next transaction cannot see the commit, cannot write its keys, and is given the
    same timestamp. */
module CrashAnywhere {
  import opened Values
  import opened VersionStore
  import opened DurableSteps
  import opened Protocol
  import opened CrashSafety
  import opened RecoveryProof
  import opened Reads
  import opened LiveTxns
  import opened DdlProof
  import opened SnapshotIsolation
  import opened CrashAtomicity
  import opened ClockWindow
  import opened SampleRuns

  /** Recovery that is cut short after `cuts[0]` puts, whichever they are, restarted, and so on, and in the
      end runs to completion. */
  ghost predicate RecoversAny(kv: Kv, cuts: seq<nat>, kv': Kv)
    decreases |cuts|
  {
    if cuts == [] then kv' == Recovered(kv)
    else cuts[0] <= |Recovery(kv).puts| && RecoversAny(ApplyAll(kv, Recovery(kv).puts[..cuts[0]]), cuts[1..], kv')
  }

  /** One of the cuts falls right after a Committed record. */
  ghost predicate LateCut(kv: Kv, cuts: seq<nat>)
    decreases |cuts|
  {
    cuts != [] && cuts[0] <= |Recovery(kv).puts| &&
    (AfterCommitRecord(Recovery(kv).puts, cuts[0]) || LateCut(ApplyAll(kv, Recovery(kv).puts[..cuts[0]]), cuts[1..]))
  }

  /** `x` is committed as a whole, everyone else unfinished is aborted, and every snapshot reads what it
      should; but the clock still shows the commit's timestamp. One further and all would be in order. */
  ghost predicate WindowDone(kv: Kv, kv': Kv, live: map<TxnId, Txn>, x: Txn) {
    var c := kv.nextTs;
    && kv'.nextTs == c && Quiet(kv'.(nextTs := c + 1))
    && (forall u | u in kv'.txns :: Finished(kv'.txns[u]))
    && (forall u | u in live && u != x.id :: u in kv'.txns && kv'.txns[u].state == Aborted)
    && x.id in kv'.txns && kv'.txns[x.id] == TxnMeta(Committed, c, [])
    && (forall w | w in x.written :: StampedAt(kv', w, c))
    && (forall w, s: Timestamp | w in x.written && s >= c ::
          Has(kv, w.key, w.id) && CommittedAt(kv', w.key, s) == Written(kv, w))
    && (forall k, s: Timestamp | s < c || k !in KeysOf(x.written) :: CommittedAt(kv', k, s) == CommittedAt(kv, k, s))
  }

  // ---- The clock put stands right behind the record --------------------------------------------------

  /** In a list of stamps, a Committed record and counters, the record is followed by the clock. */
  lemma {:induction false} ClockBehindRecord(a: seq<Put>, f: seq<Put>, n: nat)
    requires n <= |a + f| && AfterCommitRecord(a + f, n)
    requires (forall p | p in a :: p.PutTxn? ==> p.meta.state != Committed)
    requires |f| > 1 && f[1].PutNextTs? && forall m | 1 <= m < |f| :: !f[m].PutTxn?
    ensures n == |a| + 1 && n < |a + f| && (a + f)[n] == f[1] && (a + f)[n - 1] == f[0]
  {
    var ps := a + f;
    forall m | 0 <= m < |a| ensures ps[m].PutTxn? ==> ps[m].meta.state != Committed {
      assert ps[m] == a[m] && a[m] in a;
    }
    assert ps[n - 1] == f[n - 1 - |a|];
  }

  lemma {:induction false} CommitClockNext(kv: Kv, live: map<TxnId, Txn>, t: TxnId, n: nat)
    requires UpInv(kv, live) && t in live && n <= |CommitOutcome(kv, live[t]).puts|
    requires AfterCommitRecord(CommitOutcome(kv, live[t]).puts, n)
    ensures n < |CommitOutcome(kv, live[t]).puts| && CommitOutcome(kv, live[t]).puts[n] == PutNextTs(kv.nextTs + 1)
  {
    var x := live[t];
    var kv1 := IntentKv(kv, x);
    CommitPuts(kv, live, t);
    IntentSafe(kv, live, t);
    RedoStamps(kv1, t);
    StampPutsVersions(kv1, t, kv.nextTs, x.written);
    var a, f := [IntentPut(kv, x)] + StampPuts(kv, x), FinishPuts(Redone(kv1, t), t);
    ClockBehindRecord(a, f, n);
  }

  lemma {:induction false} RecoverTxnClockNext(kv: Kv, t: TxnId, n: nat)
    requires DurableInv(kv) && n <= |RecoverTxn(kv, t).puts| && AfterCommitRecord(RecoverTxn(kv, t).puts, n)
    ensures var ps := RecoverTxn(kv, t).puts;
            n < |ps| && ps[n] == PutNextTs(ps[n - 1].meta.commitTs + 1)
  {
    var ps := RecoverTxn(kv, t).puts;
    assert ps[n - 1] in ps;
    RecoverTxnRecord(kv, t, ps[n - 1]);
    assert CommittingTxn(kv, t);
    RedoStamps(kv, t);
    RedoPuts(kv, t);
    var ws := kv.txns[t].writes;
    StampPutsVersions(kv, t, kv.nextTs, ws);
    ClockBehindRecord(ApplyWrites(kv, t, kv.nextTs, ws).puts, FinishPuts(Redone(kv, t), t), n);
  }

  lemma {:induction false} RecoverFromClockNext(kv: Kv, t: TxnId, keys: set<RowKey>, n: nat)
    requires DurableInv(kv) && IntentKeys(kv, keys) && t <= kv.nextTxn
    requires forall u | u in kv.txns && u < t :: Finished(kv.txns[u])
    requires n <= |RecoverFrom(kv, t, kv.nextTxn).puts| && AfterCommitRecord(RecoverFrom(kv, t, kv.nextTxn).puts, n)
    ensures var ps := RecoverFrom(kv, t, kv.nextTxn).puts;
            n < |ps| && ps[n] == PutNextTs(ps[n - 1].meta.commitTs + 1)
    decreases kv.nextTxn - t
  {
    hide RecoverTxn, ApplyAll, VersionOk, PairOk, HeadOk, TxnOk;
    var o := RecoverTxn(kv, t);
    var kv1 := ApplyAll(kv, o.puts);
    RecoverOne(kv, t, keys, kv1);
    var rest := RecoverFrom(kv1, t + 1, kv.nextTxn).puts;
    var ps := RecoverFrom(kv, t, kv.nextTxn).puts;
    assert ps == o.puts + rest;
    if n <= |o.puts| {
      assert ps[n - 1] == o.puts[n - 1];
      RecoverTxnClockNext(kv, t, n);
      assert ps[n] == o.puts[n];
    } else {
      var m := n - |o.puts|;
      assert ps[n - 1] == rest[m - 1];
      RecoverFromClockNext(kv1, t + 1, keys, m);
      assert ps[n] == rest[m];
    }
  }

  lemma {:induction false} RecoveryClockNext(kv: Kv, n: nat)
    requires DurableInv(kv) && n <= |Recovery(kv).puts| && AfterCommitRecord(Recovery(kv).puts, n)
    ensures var ps := Recovery(kv).puts;
            n < |ps| && ps[n] == PutNextTs(ps[n - 1].meta.commitTs + 1)
  {
    var init, a := Initialized(kv), InitPuts(kv);
    InitSafe(kv);
    SafeEnds(kv, a, {});
    forall u ensures u in init.txns ==> 1 <= u { assert TxnOk(kv, u); }
    var rest := RecoverFrom(init, 1, init.nextTxn).puts;
    var ps := Recovery(kv).puts;
    assert ps == a + rest;
    forall m | 0 <= m < |a| ensures !ps[m].PutTxn? { assert ps[m] == a[m]; }
    var m := n - |a|;
    assert ps[n - 1] == rest[m - 1];
    RecoverFromClockNext(init, 1, AllIntentKeys(init), m);
    assert ps[n] == rest[m];
  }

  // ---- A clock that is behind changes nothing else ----------------------------------------------------

  lemma {:induction false} LowerOne(kv: Kv, c: nat, p: Put)
    requires !p.PutNextTs?
    ensures Apply(kv.(nextTs := c), p) == Apply(kv, p).(nextTs := c)
  {
  }

  lemma {:induction false} LowerApply(kv: Kv, c: nat, ps: seq<Put>)
    requires forall p | p in ps :: !p.PutNextTs?
    ensures ApplyAll(kv.(nextTs := c), ps) == ApplyAll(kv, ps).(nextTs := c)
    decreases |ps|
  {
    hide Apply;
    if ps != [] {
      assert ps[0] in ps && forall p | p in ps[1..] :: p in ps;
      LowerOne(kv, c, ps[0]);
      LowerApply(Apply(kv, ps[0]), c, ps[1..]);
    }
  }

  lemma {:induction false} LowerRestore(kv: Kv, c: nat, ws: seq<TxnWrite>)
    ensures RestoreHeads(kv.(nextTs := c), ws) == RestoreHeads(kv, ws)
    decreases |ws|
  {
    if ws != [] {
      var o := RestoreOne(kv, ws[|ws| - 1]);
      assert RestoreOne(kv.(nextTs := c), ws[|ws| - 1]) == o;
      LowerApply(kv, c, o.puts);
      LowerRestore(ApplyAll(kv, o.puts), c, ws[..|ws| - 1]);
    }
  }

  lemma {:induction false} LowerRecover(kv: Kv, c: nat, t: TxnId, limit: TxnId)
    requires NoneCommitting(kv)
    ensures RecoverFrom(kv.(nextTs := c), t, limit) == RecoverFrom(kv, t, limit)
    decreases limit - t
  {
    if t < limit {
      var o := RecoverTxn(kv, t);
      assert !CommittingTxn(kv, t);
      if t in kv.txns {
        RestoreNoClock(kv, kv.txns[t].writes);
        LowerRestore(kv, c, kv.txns[t].writes);
      }
      assert RecoverTxn(kv.(nextTs := c), t) == o;
      LowerApply(kv, c, o.puts);
      var kv1 := ApplyAll(kv, o.puts);
      forall u ensures !CommittingTxn(kv1, u) {
        RecordFromPuts(kv, o.puts, u);
        assert !CommittingTxn(kv, u);
        if u in kv1.txns && PutTxn(u, kv1.txns[u]) in o.puts { RecoverTxnRecord(kv, t, PutTxn(u, kv1.txns[u])); }
      }
      LowerRecover(kv1, c, t + 1, limit);
    }
  }

  /** Without a durable intent, recovery does the same whatever the clock shows, and leaves the clock. */
  lemma {:induction false} LowerRecovery(g: Kv, c: nat, n: nat)
    requires NoneCommitting(g) && g.nextTs > 0 && c > 0 && n <= |Recovery(g).puts|
    ensures |Recovery(g.(nextTs := c)).puts| == |Recovery(g).puts|
    ensures ApplyAll(g.(nextTs := c), Recovery(g.(nextTs := c)).puts[..n]) ==
        ApplyAll(g, Recovery(g).puts[..n]).(nextTs := c)
    ensures ApplyAll(g, Recovery(g).puts[..n]).nextTs == g.nextTs
  {
    var l, init := g.(nextTs := c), Initialized(g);
    OracleEffect(g, Counter(g.nextTs), Counter(g.nextTxn), Counter(g.nextVid));
    OracleEffect(l, Counter(l.nextTs), Counter(l.nextTxn), Counter(l.nextVid));
    forall u ensures !CommittingTxn(init, u) { assert !CommittingTxn(g, u); }
    LowerRecover(init, c, 1, init.nextTxn);
    RecoverNoClock(init, 1, init.nextTxn);
    var r := RecoverFrom(init, 1, init.nextTxn).puts;
    assert ApplyAll(l, InitPuts(l)) == init.(nextTs := c);
    var q := [PutNextTxn(Counter(g.nextTxn)), PutNextVid(Counter(g.nextVid))] + r;
    assert Recovery(g).puts == [PutNextTs(g.nextTs)] + q && Recovery(l).puts == [PutNextTs(c)] + q;
    if n > 0 {
      var m := n - 1;
      assert Recovery(g).puts[..n] == [PutNextTs(g.nextTs)] + q[..m]
          && Recovery(l).puts[..n] == [PutNextTs(c)] + q[..m];
      ApplyCons(g, PutNextTs(g.nextTs), q[..m]);
      ApplyCons(l, PutNextTs(c), q[..m]);
      forall p | p in q[..m] ensures !p.PutNextTs? { assert p in q; }
      LowerApply(g, c, q[..m]);
      ClockFromPuts(g, q[..m]);
    }
  }

  /** Without a durable intent, recovery writes no Committed record. */
  lemma {:induction false} NoLateCut(g: Kv, n: nat)
    requires NoneCommitting(g) && n <= |Recovery(g).puts|
    ensures !AfterCommitRecord(Recovery(g).puts, n) && NoneCommitting(ApplyAll(g, Recovery(g).puts[..n]))
  {
    var ps := Recovery(g).puts;
    var kv' := ApplyAll(g, ps[..n]);
    forall p | p in ps && p.PutTxn? ensures p.meta.state == Aborted {
      RecoveryRecord(g, p);
      assert !CommittingTxn(g, p.txn);
    }
    forall u ensures !CommittingTxn(kv', u) {
      RecordFromPuts(g, ps[..n], u);
      assert !CommittingTxn(g, u);
      if u in kv'.txns && PutTxn(u, kv'.txns[u]) in ps[..n] { assert PutTxn(u, kv'.txns[u]) in ps; }
    }
  }

  lemma {:induction false} LowerCommitted(g: Kv, c: nat, k: RowKey, s: Timestamp)
    requires DurableInv(g)
    ensures CommittedAt(g.(nextTs := c), k, s) == CommittedAt(g, k, s)
  {
    var l := g.(nextTs := c);
    forall id ensures VisibleAt(l, k, s, id) <==> VisibleAt(g, k, s, id) { }
    if id :| VisibleAt(g, k, s, id) {
      assert VisibleAt(l, k, s, id);
      forall b | VisibleAt(g, k, s, b) ensures b == id { OneVisible(g, k, s, b, id); }
    }
  }

  /** Take the clock back and the commit is done in all but the clock. */
  lemma {:induction false} LowerDone(kv: Kv, g: Kv, live: map<TxnId, Txn>, x: Txn, kv': Kv)
    requires CommitDone(kv, g, live, x) && g.nextTs == kv.nextTs + 1 && kv' == g.(nextTs := kv.nextTs)
    ensures WindowDone(kv, kv', live, x)
  {
    hide CommittedAt;
    var c := kv.nextTs;
    assert kv'.(nextTs := c + 1) == g;
    forall u | u in kv'.txns ensures Finished(kv'.txns[u]) { assert u in g.txns; }
    forall u | u in live && u != x.id ensures u in kv'.txns && kv'.txns[u].state == Aborted { assert u in g.txns; }
    forall w | w in x.written ensures StampedAt(kv', w, c) { assert StampedAt(g, w, c); }
    forall w | w in x.written ensures Has(kv, w.key, w.id) { var seen := CommittedAt(g, w.key, c); }
    forall w, s: Timestamp | w in x.written && s >= c ensures CommittedAt(kv', w.key, s) == Written(kv, w) {
      LowerCommitted(g, c, w.key, s);
    }
    forall k, s: Timestamp | s < c || k !in KeysOf(x.written) ensures CommittedAt(kv', k, s) == CommittedAt(kv, k, s) {
      LowerCommitted(g, c, k, s);
    }
  }

  // ---- From the crash to the end of recovery ----------------------------------------------------------

  /** The intent of `x` is durable; `late` says that the clock is behind its Committed record. */
  ghost predicate Pending(kv: Kv, x: Txn, kv1: Kv, late: bool) {
    if late then
      var g := kv1.(nextTs := kv.nextTs + 1);
      kv1.nextTs == kv.nextTs && CommitPending(kv, x, g) && NoneCommitting(g)
    else CommitPending(kv, x, kv1)
  }

  /** The state after the Committed record is the next one with the clock taken back. */
  lemma {:induction false} LatePending(kv: Kv, x: Txn, start: Kv, ps: seq<Put>, n: nat)
    requires n < |ps| && ps[n] == PutNextTs(kv.nextTs + 1)
    requires ApplyAll(start, ps[..n]).nextTs == kv.nextTs && NoneCommitting(ApplyAll(start, ps[..n]))
    requires CommitPending(kv, x, ApplyAll(start, ps[..n + 1]))
    ensures Pending(kv, x, ApplyAll(start, ps[..n]), true)
  {
    assert ps[..n + 1] == ps[..n] + [ps[n]];
    ApplySnoc(start, ps[..n], ps[n]);
    var kv1 := ApplyAll(start, ps[..n]);
    var g := kv1.(nextTs := kv.nextTs + 1);
    assert ApplyAll(start, ps[..n + 1]) == g;
    forall u ensures !CommittingTxn(g, u) { assert !CommittingTxn(kv1, u); }
  }

  lemma {:induction false} CommitCutAny(kv: Kv, live: map<TxnId, Txn>, t: TxnId, n: nat)
    requires UpInv(kv, live) && t in live && 0 < n <= |CommitOutcome(kv, live[t]).puts|
    ensures var ps := CommitOutcome(kv, live[t]).puts;
            Pending(kv, live[t], ApplyAll(kv, ps[..n]), AfterCommitRecord(ps, n))
  {
    var ps := CommitOutcome(kv, live[t]).puts;
    if AfterCommitRecord(ps, n) {
      CommitClockNext(kv, live, t, n);
      CommitWindowState(kv, live, t, n);
      CommitCut(kv, live, t, n + 1);
      LatePending(kv, live[t], kv, ps, n);
    } else {
      CommitCut(kv, live, t, n);
    }
  }

  lemma {:induction false} OnlyIntent(kv: Kv, live: map<TxnId, Txn>, x: Txn, kv1: Kv, u: TxnId)
    requires UpInv(kv, live) && CommitPending(kv, x, kv1) && CommittingTxn(kv1, u)
    ensures u == x.id && kv1.txns[u].commitTs == kv.nextTs
  {
    assert !CommittingTxn(kv, u) && u in kv.txns;
    assert u != x.id ==> Bystander(kv, kv1, u);
  }

  lemma {:induction false} RecoveryCutLate(kv: Kv, live: map<TxnId, Txn>, x: Txn, kv1: Kv, n: nat)
    requires UpInv(kv, live) && CommitPending(kv, x, kv1)
    requires n <= |Recovery(kv1).puts| && AfterCommitRecord(Recovery(kv1).puts, n)
    ensures Pending(kv, x, ApplyAll(kv1, Recovery(kv1).puts[..n]), true)
  {
    var ps := Recovery(kv1).puts;
    var p := ps[n - 1];
    RecoveryRecord(kv1, p);
    assert CommittingTxn(kv1, p.txn);
    OnlyIntent(kv, live, x, kv1, p.txn);
    BeforeRecord(kv1, n, p.txn);
    var before, kv2 := ApplyAll(kv1, ps[..n - 1]), ApplyAll(kv1, ps[..n]);
    assert ps[..n] == ps[..n - 1] + [p];
    ApplySnoc(kv1, ps[..n - 1], p);
    forall u ensures !CommittingTxn(kv2, u) { if u in before.txns { assert CommittingTxn(before, u) ==> u == p.txn; } }
    RecoveryClockNext(kv1, n);
    CommitPendingCut(kv, live, x, kv1, n + 1);
    LatePending(kv, x, kv1, ps, n);
  }

  lemma {:induction false} PendingCut(kv: Kv, live: map<TxnId, Txn>, x: Txn, kv1: Kv, late: bool, n: nat)
    requires UpInv(kv, live) && Pending(kv, x, kv1, late) && n <= |Recovery(kv1).puts|
    ensures Pending(kv, x, ApplyAll(kv1, Recovery(kv1).puts[..n]), late || AfterCommitRecord(Recovery(kv1).puts, n))
  {
    var ps := Recovery(kv1).puts;
    if late {
      var g := kv1.(nextTs := kv.nextTs + 1);
      assert kv1 == g.(nextTs := kv.nextTs);
      LowerRecovery(g, kv.nextTs, 0);
      LowerRecovery(g, kv.nextTs, n);
      NoLateCut(g, n);
      CommitPendingCut(kv, live, x, g, n);
      var g2 := ApplyAll(g, Recovery(g).puts[..n]);
      assert g2 == ApplyAll(kv1, ps[..n]).(nextTs := kv.nextTs + 1);
    } else if AfterCommitRecord(ps, n) {
      RecoveryCutLate(kv, live, x, kv1, n);
    } else {
      CommitPendingCut(kv, live, x, kv1, n);
    }
  }

  /** How a durable intent ends. */
  ghost predicate Done(kv: Kv, kv': Kv, live: map<TxnId, Txn>, x: Txn, late: bool) {
    if late then WindowDone(kv, kv', live, x) else CommitDone(kv, kv', live, x)
  }

  lemma {:induction false} PendingEnds(kv: Kv, live: map<TxnId, Txn>, t: TxnId, kv1: Kv, late: bool)
    requires UpInv(kv, live) && t in live && Pending(kv, live[t], kv1, late)
    ensures Done(kv, Recovered(kv1), live, live[t], late)
  {
    if late {
      var g := kv1.(nextTs := kv.nextTs + 1);
      assert kv1 == g.(nextTs := kv.nextTs);
      var m := |Recovery(g).puts|;
      LowerRecovery(g, kv.nextTs, m);
      assert Recovery(g).puts[..m] == Recovery(g).puts && Recovery(kv1).puts[..m] == Recovery(kv1).puts;
      CommitPendingEnds(kv, live, t, g);
      LowerDone(kv, Recovered(g), live, live[t], Recovered(kv1));
    } else {
      CommitPendingEnds(kv, live, t, kv1);
    }
  }

  lemma {:induction false} PendingRecovers(kv: Kv, live: map<TxnId, Txn>, t: TxnId, kv1: Kv, late: bool,
      cuts: seq<nat>, kv': Kv)
    requires UpInv(kv, live) && t in live && Pending(kv, live[t], kv1, late) && RecoversAny(kv1, cuts, kv')
    ensures Done(kv, kv', live, live[t], late || LateCut(kv1, cuts))
    decreases |cuts|
  {
    hide Done, Pending, Recovery;
    if cuts == [] {
      PendingEnds(kv, live, t, kv1, late);
    } else {
      var ps := Recovery(kv1).puts;
      PendingCut(kv, live, live[t], kv1, late, cuts[0]);
      PendingRecovers(kv, live, t, ApplyAll(kv1, ps[..cuts[0]]), late
          || AfterCommitRecord(ps, cuts[0]), cuts[1..], kv');
    }
  }

  /** Without a durable intent no cut is late. */
  lemma {:induction false} AbortRecoversAny(kv: Kv, live: map<TxnId, Txn>, kv1: Kv, cuts: seq<nat>, kv': Kv)
    requires UpInv(kv, live) && AbortPending(kv, kv1) && RecoversAny(kv1, cuts, kv')
    ensures Undone(kv, kv', live) && !LateCut(kv1, cuts)
    decreases |cuts|
  {
    hide Undone, Recovery;
    if cuts == [] {
      AbortPendingEnds(kv, live, kv1);
    } else {
      NoLateCut(kv1, cuts[0]);
      AbortPendingCut(kv, kv1, cuts[0]);
      AbortRecoversAny(kv, live, ApplyAll(kv1, Recovery(kv1).puts[..cuts[0]]), cuts[1..], kv');
    }
  }

  /** Cut any call after any put, in any state of any run, and recover, with recovery itself cut after any
      put any number of times: a commit whose intent became durable is done as a whole, anything else never
      happened. The clock is past the commit unless one of the cuts fell right after the Committed record. */
  lemma {:induction false} EveryCrashAtomic(states: seq<Sys>, events: seq<Event>, i: nat, op: Op, ps: seq<Put>, n: nat,
                                            cuts: seq<nat>, kv': Kv)
    requires IsRun(states, events) && i < |states| && states[i].up && Descending(states[i].kv) && !op.IsDdl()
    requires ps == CallOutcome(states[i].kv, states[i].live, op).puts && n <= |ps|
    requires RecoversAny(ApplyAll(states[i].kv, ps[..n]), cuts, kv')
    ensures var kv, live := states[i].kv, states[i].live;
            if op.Commit? && op.t in live && n > 0
            then Done(kv, kv', live, live[op.t], AfterCommitRecord(ps, n) || LateCut(ApplyAll(kv, ps[..n]), cuts))
            else Undone(kv, kv', live)
  {
    hide Done, Undone, Pending, Recovery;
    RunInv(states, events, i);
    var kv, live := states[i].kv, states[i].live;
    if op.Commit? && op.t in live && n > 0 {
      CommitCutAny(kv, live, op.t, n);
      PendingRecovers(kv, live, op.t, ApplyAll(kv, ps[..n]), AfterCommitRecord(ps, n), cuts, kv');
    } else {
      CallCut(kv, live, op, n);
      AbortRecoversAny(kv, live, ApplyAll(kv, ps[..n]), cuts, kv');
    }
  }

  // ---- What the window does to the next transaction -----------------------------------------------------

  lemma {:induction false} LowerWalk(kv: Kv, c: nat, k: RowKey, id: nat, s: Timestamp, reader: TxnId)
    requires Descending(kv)
    ensures Descending(kv.(nextTs := c)) && ReadFrom(kv.(nextTs := c), k, id, s, reader) ==
        ReadFrom(kv, k, id, s, reader)
    decreases id
  {
    if id != 0 && Has(kv, k, id) { LowerWalk(kv, c, k, Ver(kv, k, id).prev, s, reader); }
  }

  /** The next transaction of a store whose clock was taken back. */
  lemma {:induction false} LowerBegin(g: Kv, c: nat)
    ensures ApplyAll(g.(nextTs := c), BeginPuts(g.(nextTs := c))) == ApplyAll(g, BeginPuts(g)).(nextTs := c)
  {
    BeginEffect(g);
    BeginEffect(g.(nextTs := c));
  }

  /** Where the newest committed version of a key starts after the snapshot, a write of the key is refused. */
  lemma {:induction false} NewerRefuses(kv: Kv, live: map<TxnId, Txn>, k: RowKey, y: Txn, op: WriteOp)
    requires UpInv(kv, live) && Descending(kv) && !Holds(y.written, k) && y.id in live
    requires Has(kv, k, Latest(kv, k)) && Ver(kv, k, Latest(kv, k)).startTs > y.startTs
    requires forall vk | vk in kv.versions && kv.versions[vk].Provisional() :: kv.versions[vk].createdBy != y.id
    requires forall u | u in kv.txns && u != y.id :: Finished(kv.txns[u])
    ensures WritePlan(kv, k, y, op) == Refuse(Conflict)
  {
    var h := kv.heads[k];
    assert HeadOk(kv, k) && VersionOk(kv, VKey(k, h));
    var v := Ver(kv, k, h);
    if v.Provisional() {
      assert !CommittingTxn(kv, v.createdBy) && VersionOk(kv, VKey(k, v.prev));
      assert WalkConflict(kv, k, h, y) == WalkConflict(kv, k, v.prev, y);
    }
  }

  lemma {:induction false} LowerConflict(kv: Kv, c: nat, k: RowKey, walk: nat, y: Txn)
    requires Descending(kv)
    ensures Descending(kv.(nextTs := c)) && WalkConflict(kv.(nextTs := c), k, walk, y) == WalkConflict(kv, k, walk, y)
    decreases walk
  {
    if walk != 0 && Has(kv, k, walk) { LowerConflict(kv, c, k, Ver(kv, k, walk).prev, y); }
  }

  lemma {:induction false} LowerPlan(kv: Kv, c: nat, k: RowKey, y: Txn, op: WriteOp)
    requires Descending(kv)
    ensures Descending(kv.(nextTs := c)) && WritePlan(kv.(nextTs := c), k, y, op) == WritePlan(kv, k, y, op)
  {
    hide WalkConflict, ReadFrom;
    LowerDescends(kv, c);
    if k in kv.heads {
      LowerConflict(kv, c, k, kv.heads[k], y);
      LowerWalk(kv, c, k, kv.heads[k], y.startTs, y.id);
    }
  }

  lemma {:induction false} LowerDescends(kv: Kv, c: nat)
    requires Descending(kv)
    ensures Descending(kv.(nextTs := c))
  {
  }

  /** A write of the commit is the newest version of its key. */
  lemma {:induction false} WindowNewest(g: Kv, w: TxnWrite, c: Timestamp)
    requires Quiet(g) && g.nextTs == c + 1 && c > 0 && StampedAt(g, w, c)
    ensures Latest(g, w.key) == w.id
  {
    QuietKey(g, w.key);
    assert VersionOk(g, VKey(w.key, w.id)) && HeadOk(g, w.key);
    assert VersionOk(g, VKey(w.key, g.heads[w.key]));
    assert PairOk(g, w.key, w.id, Latest(g, w.key));
  }

  /** The window, from the next transaction's side: its snapshot lies before the commit, so it reads every
      key as it was; it cannot write any key the commit wrote; and its own commit is given the timestamp
      that was already used. */
  lemma {:induction false} WindowNext(kv: Kv, kv': Kv, live: map<TxnId, Txn>, x: Txn, y: Txn, kv2: Kv)
    requires UpInv(kv, live) && WindowDone(kv, kv', live, x)
    requires y == Txn(kv'.nextTxn, kv'.nextTs - 1, []) && kv2 == ApplyAll(kv', BeginPuts(kv'))
    ensures y.startTs == kv.nextTs - 1 && Descending(kv2)
    ensures forall k :: ReadRow(kv2, k, y.startTs, y.id) == SnapshotRead(kv, k, y.startTs)
    ensures forall w, op | w in x.written :: WritePlan(kv2, w.key, y, op) == Refuse(Conflict)
    ensures CommitOutcome(kv2, y).puts != [] && CommitOutcome(kv2, y).puts[0] ==
        PutTxn(y.id, TxnMeta(Committing, kv.nextTs, []))
  {
    hide ReadRow, WritePlan, CommittedAt;
    var c := kv.nextTs;
    var g := kv'.(nextTs := c + 1);
    assert kv' == g.(nextTs := c);
    LowerBegin(g, c);
    BeginKeeps(g, map[]);
    var g2 := ApplyAll(g, BeginPuts(g));
    BeginEffect(g);
    assert kv2 == g2.(nextTs := c) && g2.versions == g.versions && g2.heads == g.heads;
    DurableDescends(g2);
    LowerDescends(g2, c);
    forall k ensures ReadRow(kv2, k, y.startTs, y.id) == SnapshotRead(kv, k, y.startTs) {
      WindowRead(kv, g, g2, c, k, y);
    }
    forall w, op | w in x.written ensures WritePlan(kv2, w.key, y, op) == Refuse(Conflict) {
      assert StampedAt(kv', w, c) && StampedAt(g, w, c);
      WindowNewest(g, w, c);
      WindowRefuses(g, g2, c, w.key, y, op);
    }
  }

  lemma {:induction false} WindowRefuses(g: Kv, g2: Kv, c: Timestamp, k: RowKey, y: Txn, op: WriteOp)
    requires Quiet(g) && g.nextTs == c + 1 && c > 0 && g2 == ApplyAll(g, BeginPuts(g)) && y == Txn(g.nextTxn, c - 1, [])
    requires Has(g, k, Latest(g, k)) && Ver(g, k, Latest(g, k)).startTs == c
        && (forall u | u in g.txns :: Finished(g.txns[u]))
    ensures Descending(g2.(nextTs := c)) && WritePlan(g2.(nextTs := c), k, y, op) == Refuse(Conflict)
  {
    hide WritePlan;
    BeginKeeps(g, map[]);
    BeginEffect(g);
    DurableDescends(g2);
    forall vk | vk in g2.versions && g2.versions[vk].Provisional() ensures g2.versions[vk].createdBy != y.id {
      assert VersionOk(g, vk) && TxnOk(g, g2.versions[vk].createdBy);
    }
    NewerRefuses(g2, map[g.nextTxn := Txn(g.nextTxn, g.nextTs - 1, [])], k, y, op);
    LowerPlan(g2, c, k, y, op);
  }

  lemma {:induction false} WindowRead(kv: Kv, g: Kv, g2: Kv, c: Timestamp, k: RowKey, y: Txn)
    requires Quiet(g) && g.nextTs == c + 1 && c > 0 && g2 == ApplyAll(g, BeginPuts(g)) && y == Txn(g.nextTxn, c - 1, [])
    requires CommittedAt(g.(nextTs := c), k, c - 1) == CommittedAt(kv, k, c - 1)
    ensures Descending(g2.(nextTs := c)) && ReadRow(g2.(nextTs := c), k, y.startTs, y.id) ==
        SnapshotRead(kv, k, y.startTs)
  {
    hide CommittedAt, ReadFrom;
    BeginKeeps(g, map[]);
    BeginEffect(g);
    DurableDescends(g2);
    LowerDescends(g2, c);
    ReadRowCorrect(g2, k, y.startTs, y.id);
    forall vk | vk in g2.versions && g2.versions[vk].Provisional() ensures g2.versions[vk].createdBy != y.id {
      assert VersionOk(g, vk) && TxnOk(g, g2.versions[vk].createdBy);
    }
    assert !OwnHead(g2, k, y.id);
    SameVersions(g, g2, k, y.startTs);
    LowerCommitted(g, c, k, y.startTs);
    if k in g2.heads { LowerWalk(g2, c, k, g2.heads[k], y.startTs, y.id); }
  }

  lemma {:induction false} SameVersions(a: Kv, b: Kv, k: RowKey, s: Timestamp)
    requires DurableInv(a) && DurableInv(b) && a.versions == b.versions
    ensures CommittedAt(b, k, s) == CommittedAt(a, k, s)
  {
    forall id ensures SameAt(a, b, k, s, id) { }
    SameSnapshot(a, b, k, s);
  }

  // ---- An input that shows it -------------------------------------------------------------------------

  /** The store of a transaction that has inserted one row, as a run leaves it. */
  const InsertedSys := WrittenSys(SampleTable, SampleKey, OnlyVersion(false, SampleRow))
  const InsertedTxn := Txn(1, 0, [TxnWrite(SampleKey, 1)])

  lemma {:induction false} InsertedPuts()
    ensures IsRun(InsertStates(SampleTable, SampleKey, SampleRow), InsertEvents(SampleTable, SampleRow))
    ensures InsertStates(SampleTable, SampleKey, SampleRow)[4] == InsertedSys
    ensures CommitOutcome(InsertedSys.kv, InsertedTxn).puts ==
            [PutTxn(1, TxnMeta(Committing, 1, InsertedTxn.written)),
                PutVersion(SampleKey, OnlyVersion(false, SampleRow).(startTs := 1)),
             PutTxn(1, TxnMeta(Committed, 1, [])), PutNextTs(2), PutNextTxn(2), PutNextVid(2)]
  {
    hide IsRun;
    SampleFits();
    InsertRun(SampleTable, SampleKey, SampleRow);
    var kv, ws := InsertedSys.kv, InsertedTxn.written;
    assert ws[1..] == [] && CheckAll(kv, 0, ws) == Pass;
    var intent := PutTxn(1, TxnMeta(Committing, 1, ws));
    var kv1 := Apply(kv, intent);
    var o := ApplyOne(kv1, 1, 1, ws[0]);
    assert o == Outcome([PutVersion(SampleKey, OnlyVersion(false, SampleRow).(startTs := 1))], Ok);
    assert ApplyWrites(ApplyAll(kv1, o.puts), 1, 1, ws[1..]) == Outcome([], Ok);
    assert ApplyWrites(kv1, 1, 1, ws).puts == o.puts + [] == o.puts;
  }

  /** A commit of one inserted row, reached by a run, stopped after its third put: the row is committed at
      1, the clock shows 1, and the next commit is given 1 again. */
  lemma {:induction false} ClockFallsBehind()
    ensures IsRun(InsertStates(SampleTable, SampleKey, SampleRow), InsertEvents(SampleTable, SampleRow))
    ensures InsertStates(SampleTable, SampleKey, SampleRow)[4] == InsertedSys
        && InsertedSys.live == map[1 := InsertedTxn]
    ensures var ps := CommitOutcome(InsertedSys.kv, InsertedTxn).puts;
            && |ps| >= 3
            && var kv' := Recovered(ApplyAll(InsertedSys.kv, ps[..3]));
            && WindowDone(InsertedSys.kv, kv', InsertedSys.live, InsertedTxn) && !ClockPast(kv')
            && kv'.txns[1].commitTs == kv'.nextTs == 1
            && var next := CommitOutcome(ApplyAll(kv', BeginPuts(kv')), Txn(kv'.nextTxn, kv'.nextTs - 1, [])).puts;
            next != [] && next[0] == PutTxn(kv'.nextTxn, TxnMeta(Committing, 1, []))
  {
    hide IsRun, CommitOutcome, WindowDone, Recovery;
    InsertedPuts();
    RunInv(InsertStates(SampleTable, SampleKey, SampleRow), InsertEvents(SampleTable, SampleRow), 4);
    var kv, live, ps := InsertedSys.kv, InsertedSys.live, CommitOutcome(InsertedSys.kv, InsertedTxn).puts;
    CommitCutAny(kv, live, 1, 3);
    PendingEnds(kv, live, 1, ApplyAll(kv, ps[..3]), true);
    WindowIs(kv, live, 1, 3);
  }

  lemma {:induction false} WindowIs(kv: Kv, live: map<TxnId, Txn>, t: TxnId, n: nat)
    requires UpInv(kv, live) && t in live && n <= |CommitOutcome(kv, live[t]).puts|
        && AfterCommitRecord(CommitOutcome(kv, live[t]).puts, n)
    requires WindowDone(kv, Recovered(ApplyAll(kv, CommitOutcome(kv, live[t]).puts[..n])), live, live[t])
    ensures var kv' := Recovered(ApplyAll(kv, CommitOutcome(kv, live[t]).puts[..n]));
            && !ClockPast(kv') && t in kv'.txns && kv'.txns[t].commitTs == kv'.nextTs == kv.nextTs > 0
            && var next := CommitOutcome(ApplyAll(kv', BeginPuts(kv')), Txn(kv'.nextTxn, kv'.nextTs - 1, [])).puts;
            next != [] && next[0] == PutTxn(kv'.nextTxn, TxnMeta(Committing, kv.nextTs, []))
  {
    hide CommitOutcome, Recovered;
    var kv' := Recovered(ApplyAll(kv, CommitOutcome(kv, live[t]).puts[..n]));
    CommitClock(kv, live, t, n);
    assert live[t].id == t;
    WindowNext(kv, kv', live, live[t], Txn(kv'.nextTxn, kv'.nextTs - 1, []), ApplyAll(kv', BeginPuts(kv')));
  }
}
