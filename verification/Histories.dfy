/** The remembered history is the store's: every commit that the store knows is in it, so what is proved of
    the history holds of the records and versions on disk. */
module Histories {
  import opened VersionStore
  import opened Protocol
  import opened SnapshotIsolation
  import opened IsolationTheorems
  import opened CrashAtomicity

  ghost predicate Committed(kv: Kv, t: TxnId) {
    t in kv.txns && kv.txns[t].state in {TxnState.Committing, TxnState.Committed}
  }

  ghost predicate AllDone(s: Sys) { forall t :: Committed(s.kv, t) ==> t in s.done }

  /** A record that has become a commit is that of a live transaction, which the history takes up. */
  lemma {:induction false} CallDone(s: Sys, op: Op, n: nat, kv': Kv)
    requires SysInv(s) && s.up && AllDone(s) && Descending(s.kv) && !op.IsDdl()
        && n <= |CallOutcome(s.kv, s.live, op).puts|
    requires kv' == ApplyAll(s.kv, CallOutcome(s.kv, s.live, op).puts[..n])
    ensures forall t :: Committed(kv', t) ==> t in DoneAfter(s, kv')
  {
    var ps := CallOutcome(s.kv, s.live, op).puts;
    forall t | Committed(kv', t) ensures t in DoneAfter(s, kv') {
      RecordFromPuts(s.kv, ps[..n], t);
      var q := PutTxn(t, kv'.txns[t]);
      if q in ps[..n] {
        assert q in ps;
        CallRecords(s.kv, s.live, op, q);
      } else {
        assert Committed(s.kv, t);
      }
    }
  }

  lemma {:induction false} RecoveryDone(s: Sys, n: nat, kv': Kv)
    requires AllDone(s) && n <= |Recovery(s.kv).puts| && kv' == ApplyAll(s.kv, Recovery(s.kv).puts[..n])
    ensures forall t :: Committed(kv', t) ==> t in s.done
  {
    forall t | Committed(kv', t) ensures t in s.done {
      RecoveryOldTxns(s.kv, n, t);
      RecoveryTxns(s.kv, n, t);
      assert Committed(s.kv, t);
    }
  }

  lemma {:induction false} DoneStep(s: Sys, e: Event, s': Sys)
    requires SysInv(s) && AllDone(s) && Step(s, e, s')
    ensures AllDone(s')
  {
    hide SysInv, CallOutcome, Recovery;
    match e
    case Do(op) =>
      if op.IsDdl() {
        DdlDone(s, op, s');
      } else {
        var ps := CallOutcome(s.kv, s.live, op).puts;
        assert ps[..|ps|] == ps;
        CallDone(s, op, |ps|, s'.kv);
      }
    case Crash(op, n) => CallDone(s, op, n, s'.kv);
    case CrashInRecovery(n) => RecoveryDone(s, n, s'.kv);
    case Reopen =>
      var ps := Recovery(s.kv).puts;
      assert ps[..|ps|] == ps;
      RecoveryDone(s, |ps|, s'.kv);
  }

  lemma {:induction false} DdlDone(s: Sys, op: Op, s': Sys)
    requires SysInv(s) && AllDone(s) && Step(s, Do(op), s') && op.IsDdl()
    ensures AllDone(s')
  {
    if s.live == map[] {
      DdlKeeps(s.kv, op);
      forall t | Committed(s'.kv, t) ensures t in s'.done { assert Committed(s.kv, t); }
    } else {
      RefusedDdl(s, op, s');
    }
  }

  lemma {:induction false} RunDone(states: seq<Sys>, events: seq<Event>, i: nat)
    requires IsRun(states, events) && i < |states|
    ensures AllDone(states[i])
    decreases i
  {
    hide Step, SysInv;
    if i > 0 {
      RunDone(states, events, i - 1);
      RunInv(states, events, i - 1);
      DoneStep(states[i - 1], events[i - 1], states[i]);
    }
  }

  /** In every state of every run the history holds exactly the transactions whose commit the store knows,
      with the timestamp the store has. */
  lemma {:induction false} HistoryIsStore(states: seq<Sys>, events: seq<Event>, i: nat, t: TxnId)
    requires IsRun(states, events) && i < |states|
    ensures Committed(states[i].kv, t) <==> t in states[i].done
    ensures t in states[i].done ==> states[i].kv.txns[t].commitTs == states[i].done[t].commitTs
  {
    RunDone(states, events, i);
    RunInv(states, events, i);
    if t in states[i].done { assert DoneRecorded(states[i].kv, t, states[i].done[t]); }
  }

  /** First committer wins, on the store: of two committed versions of a key by different transactions, one
      writer had committed by the other's snapshot. */
  lemma {:induction false} VersionsOrdered(states: seq<Sys>, events: seq<Event>, i: nat, k: RowKey, a: nat, b: nat)
    requires IsRun(states, events) && i < |states|
    requires CommittedVersion(states[i].kv, k, a) && CommittedVersion(states[i].kv, k, b)
    requires Ver(states[i].kv, k, a).createdBy != 0 && Ver(states[i].kv, k, b).createdBy != 0
    requires Ver(states[i].kv, k, a).createdBy != Ver(states[i].kv, k, b).createdBy
    ensures var s, x, y := states[i], Ver(states[i].kv, k, a), Ver(states[i].kv, k, b);
            && x.createdBy in s.done && y.createdBy in s.done
            && (x.startTs <= s.done[y.createdBy].startTs || y.startTs <= s.done[x.createdBy].startTs)
  {
    NoLostUpdate(states, events, i, k, a);
    NoLostUpdate(states, events, i, k, b);
    var s := states[i];
    var t, u := Ver(s.kv, k, a).createdBy, Ver(s.kv, k, b).createdBy;
    assert k in s.done[t].keys * s.done[u].keys;
    FirstCommitterWins(states, events, i, t, u);
  }
}
