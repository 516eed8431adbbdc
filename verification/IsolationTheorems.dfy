/** What holds in every state of every run: commits succeed, reads are snapshot reads and repeat,
    lifetimes tile time, rows fit the schema, and no update is lost. */
module IsolationTheorems {
  import opened Values
  import opened VersionStore
  import opened DurableSteps
  import opened Protocol
  import opened CrashSafety
  import opened Reads
  import opened LiveTxns
  import opened SnapshotIsolation
  import opened Lineage

  /** Every write of a live transaction is still the head of its key over a version no newer than
      its snapshot, so neither Conflict branch of Commit can be taken and Commit succeeds. */
  lemma {:induction false} CommitAlwaysSucceeds(states: seq<Sys>, events: seq<Event>, i: nat, t: TxnId)
    requires IsRun(states, events) && i < |states| && t in states[i].live
    ensures var kv, x := states[i].kv, states[i].live[t];
            && (forall w | w in x.written :: HeldOk(kv, x, w))
            && CheckAll(kv, x.startTs, x.written) == Pass
            && CommitOutcome(kv, x).status == Ok
  {
    RunInv(states, events, i);
    var kv, live := states[i].kv, states[i].live;
    assert LiveOk(kv, live[t]);
    CommitNeverConflicts(kv, live, t);
    CommitPuts(kv, live, t);
  }

  // ---- Lifetimes ------------------------------------------------------------------------

  /** Below the newest version of a key, each committed version is the predecessor of another. */
  lemma {:induction false} Successor(kv: Kv, k: RowKey, a: nat, b: nat) returns (c: nat)
    requires DurableInv(kv) && CommittedVersion(kv, k, a) && CommittedVersion(kv, k, b) && a < b
    ensures CommittedVersion(kv, k, c) && Ver(kv, k, c).prev == a && Ver(kv, k, c).startTs == Ver(kv, k, a).endTs
    decreases b
  {
    assert PairOk(kv, k, a, b) && VersionOk(kv, VKey(k, b)) && VersionOk(kv, VKey(k, a));
    if Ver(kv, k, b).prev == a { c := b; } else { c := Successor(kv, k, a, Ver(kv, k, b).prev); }
  }

  /** The lifetime of a committed version: its predecessor is committed, started strictly earlier
      and ends where it starts; it ends where the next newer one starts, or is the newest and open. */
  ghost predicate Tiles(kv: Kv, k: RowKey, id: nat)
    requires Has(kv, k, id)
  {
    var v := Ver(kv, k, id);
    && (v.prev != 0 ==>
          && CommittedVersion(kv, k, v.prev)
          && Ver(kv, k, v.prev).startTs < v.startTs && Ver(kv, k, v.prev).endTs == v.startTs)
    && if v.endTs == 0 then id == Latest(kv, k)
       else exists c :: CommittedVersion(kv, k, c) && Ver(kv, k, c).prev == id && Ver(kv, k, c).startTs == v.endTs
  }

  lemma {:induction false} QuietTiles(kv: Kv, k: RowKey, id: nat)
    requires DurableInv(kv) && NoneCommitting(kv) && CommittedVersion(kv, k, id)
    ensures Tiles(kv, k, id)
    ensures (id == Latest(kv, k)) <==> Ver(kv, k, id).endTs == 0
  {
    var l := Latest(kv, k);
    assert VersionOk(kv, VKey(k, id)) && HeadOk(kv, k) && PairOk(kv, k, Ver(kv, k, id).prev, id);
    assert k in kv.heads && VersionOk(kv, VKey(k, kv.heads[k])) && VersionOk(kv, VKey(k, l));
    if id < l {
      assert PairOk(kv, k, id, l);
      var c := Successor(kv, k, id, l);
    } else {
      assert forall u :: !CommittingTxn(kv, u);
    }
  }

  /** Committed lifetimes tile time in every state between calls. */
  lemma {:induction false} LifetimesTile(states: seq<Sys>, events: seq<Event>, i: nat, k: RowKey, id: nat)
    requires IsRun(states, events) && i < |states| && states[i].up && CommittedVersion(states[i].kv, k, id)
    ensures Tiles(states[i].kv, k, id)
    ensures forall s: Timestamp, b | VisibleAt(states[i].kv, k, s, id) && VisibleAt(states[i].kv, k, s, b) :: b == id
  {
    RunInv(states, events, i);
    var kv := states[i].kv;
    QuietTiles(kv, k, id);
    forall s: Timestamp, b | VisibleAt(kv, k, s, id) && VisibleAt(kv, k, s, b) ensures b == id {
      OneVisible(kv, k, s, id, b);
    }
  }

  /** The version with the greatest start at or below the snapshot. */
  ghost predicate LatestBy(kv: Kv, k: RowKey, s: Timestamp, id: nat) {
    && CommittedVersion(kv, k, id) && Ver(kv, k, id).startTs <= s
    && forall b | CommittedVersion(kv, k, b) && Ver(kv, k, b).startTs <= s ::
        Ver(kv, k, b).startTs <= Ver(kv, k, id).startTs
  }

  /** The visible version is the latest committed at or before the snapshot. */
  lemma {:induction false} VisibleIsLatest(kv: Kv, k: RowKey, s: Timestamp, id: nat)
    requires DurableInv(kv) && NoneCommitting(kv)
    ensures VisibleAt(kv, k, s, id) <==> LatestBy(kv, k, s, id)
  {
    if CommittedVersion(kv, k, id) && Ver(kv, k, id).startTs <= s {
      assert VersionOk(kv, VKey(k, id));
      QuietTiles(kv, k, id);
      if VisibleAt(kv, k, s, id) {
        forall b | CommittedVersion(kv, k, b) && Ver(kv, k, b).startTs <= s
          ensures Ver(kv, k, b).startTs <= Ver(kv, k, id).startTs
        {
          assert PairOk(kv, k, b, id) && PairOk(kv, k, id, b);
        }
      } else {
        var c :| CommittedVersion(kv, k, c) && Ver(kv, k, c).prev == id
            && Ver(kv, k, c).startTs == Ver(kv, k, id).endTs;
        assert VersionOk(kv, VKey(k, c)) && PairOk(kv, k, id, c);
      }
    }
  }

  // ---- Reads ----------------------------------------------------------------------------

  function Contents(v: Version): Read { if v.tombstone then Missing else Found(v.row) }

  /** What a transaction must read: its own last write of the key, else the latest version
      committed by its snapshot. */
  ghost predicate CorrectRead(kv: Kv, x: Txn, k: RowKey, r: Read) {
    if Holds(x.written, k) then exists w | w in x.written && w.key == k ::
        Has(kv, k, w.id) && r == Contents(Ver(kv, k, w.id))
    else if exists id :: LatestBy(kv, k, x.startTs, id) then
      exists id :: LatestBy(kv, k, x.startTs, id) && r == Contents(Ver(kv, k, id))
    else r == Missing
  }

  lemma {:induction false} HoldsOwnHead(kv: Kv, x: Txn, k: RowKey)
    requires LiveOk(kv, x) && DurableInv(kv)
    ensures Holds(x.written, k) <==> OwnHead(kv, k, x.id)
    ensures Holds(x.written, k) ==> TxnWrite(k, kv.heads[k]) in x.written
  {
    if Holds(x.written, k) {
      var w :| w in x.written && w.key == k;
      assert HeldOk(kv, x, w);
    }
    if OwnHead(kv, k, x.id) {
      var w := TxnWrite(k, kv.heads[k]);
      assert VKey(k, kv.heads[k]) in kv.versions && w in x.written;
      var n :| 0 <= n < |x.written| && x.written[n] == w;
    }
  }

  lemma {:induction false} LiveRead(kv: Kv, x: Txn, k: RowKey)
    requires DurableInv(kv) && NoneCommitting(kv) && LiveOk(kv, x) && Descending(kv)
    ensures CorrectRead(kv, x, k, ReadRow(kv, k, x.startTs, x.id))
    ensures !Holds(x.written, k) ==> ReadRow(kv, k, x.startTs, x.id) == SnapshotRead(kv, k, x.startTs)
  {
    ReadRowCorrect(kv, k, x.startTs, x.id);
    HoldsOwnHead(kv, x, k);
    if Holds(x.written, k) {
      var w := TxnWrite(k, kv.heads[k]);
      assert w in x.written && w.key == k && Has(kv, k, w.id);
    } else {
      forall id ensures VisibleAt(kv, k, x.startTs, id) <==> LatestBy(kv, k, x.startTs, id) {
        VisibleIsLatest(kv, k, x.startTs, id);
      }
    }
  }

  /** Get: in every state of every run it returns the transaction's own write or the latest
      version committed by its snapshot, and never an error. */
  lemma {:induction false} GetReadsSnapshot(states: seq<Sys>, events: seq<Event>, i: nat, t: TxnId, k: RowKey)
    requires IsRun(states, events) && i < |states| && t in states[i].live
    ensures Descending(states[i].kv)
    ensures CorrectRead(states[i].kv, states[i].live[t], k, ReadRow(states[i].kv, k, states[i].live[t].startTs, t))
  {
    RunInv(states, events, i);
    DurableDescends(states[i].kv);
    assert LiveOk(states[i].kv, states[i].live[t]) && states[i].live[t].id == t;
    LiveRead(states[i].kv, states[i].live[t], k);
  }

  /** What live transaction `t` gets on `k` in state `s`. */
  ghost function Get(s: Sys, t: TxnId, k: RowKey): Read
    requires Descending(s.kv) && t in s.live
  {
    ReadRow(s.kv, k, s.live[t].startTs, t)
  }

  ghost predicate SameRead(s: Sys, s': Sys, t: TxnId, k: RowKey) {
    && t in s.live && t in s'.live && Descending(s.kv) && Descending(s'.kv)
    && s'.live[t].startTs == s.live[t].startTs && !Holds(s.live[t].written, k)
    && Get(s, t, k) == Get(s', t, k)
  }

  /** A call leaves what the snapshot of a live transaction holds. */
  lemma {:induction false} CallSnapshot(s: Sys, op: Op, s': Sys, t: TxnId, k: RowKey)
    requires SysInv(s) && SysInv(s') && Step(s, Do(op), s') && t in s.live
    ensures SnapshotRead(s.kv, k, s.live[t].startTs) == SnapshotRead(s'.kv, k, s.live[t].startTs)
  {
    var x := s.live[t];
    if !op.IsDdl() {
      assert LiveOk(s.kv, x);
      CallKeeps(s.kv, s.live, op);
      SafeEnds(s.kv, CallOutcome(s.kv, s.live, op).puts, CallKeys(s.live, op));
      forall id ensures SameAt(s.kv, s'.kv, k, x.startTs, id) { }
      SameSnapshot(s.kv, s'.kv, k, x.startTs);
    }
  }

  /** One step of anything leaves what a live transaction reads on keys it has not written. */
  lemma {:induction false} RepeatStep(s: Sys, e: Event, s': Sys, t: TxnId, k: RowKey)
    requires SysInv(s) && Step(s, e, s') && t in s.live && t in s'.live && !Holds(s'.live[t].written, k)
    ensures SameRead(s, s', t, k)
  {
    StepKeeps(s, e, s');
    DurableDescends(s.kv);
    DurableDescends(s'.kv);
    var op, x, x' := e.op, s.live[t], s'.live[t];
    assert LiveOk(s.kv, x) && x.id == t && LiveOk(s'.kv, x') && x'.id == t;
    LiveAfterStart(s.kv, s.live, op, t);
    WrittenGrows(s.kv, s.live, op, t, k);
    LiveRead(s.kv, x, k);
    LiveRead(s'.kv, x', k);
    CallSnapshot(s, op, s', t, k);
  }

  lemma {:induction false} WrittenGrows(kv: Kv, live: map<TxnId, Txn>, op: Op, t: TxnId, k: RowKey)
    requires UpInv(kv, live) && Descending(kv) && t in live && t in LiveAfter(kv, live, op)
    ensures Holds(live[t].written, k) ==> Holds(LiveAfter(kv, live, op)[t].written, k)
  {
    var ws, ws' := live[t].written, LiveAfter(kv, live, op)[t].written;
    if op.Begin? { BeginKeeps(kv, live); }
    assert ws <= ws';
    if Holds(ws, k) {
      var n :| 0 <= n < |ws| && ws[n].key == k;
      assert ws'[n].key == k;
    }
  }

  lemma {:induction false} RunRepeatStep(states: seq<Sys>, events: seq<Event>, j: nat, t: TxnId, k: RowKey)
    requires IsRun(states, events) && 0 < j < |states| && t in states[j - 1].live
    requires t in states[j].live && !Holds(states[j].live[t].written, k)
    ensures SameRead(states[j - 1], states[j], t, k)
  {
    RunInv(states, events, j - 1);
    RepeatStep(states[j - 1], events[j - 1], states[j], t, k);
  }

  lemma {:induction false} RunSameRead(states: seq<Sys>, events: seq<Event>, j: nat, t: TxnId, k: RowKey)
    requires IsRun(states, events) && j < |states| && t in states[j].live && !Holds(states[j].live[t].written, k)
    ensures SameRead(states[j], states[j], t, k)
  {
    RunInv(states, events, j);
    DurableDescends(states[j].kv);
  }

  /** Repeatable reads: while a transaction stays open, Get on a key it has not written gives the
      same answer at any two points of the run. */
  lemma {:induction false} RepeatableRead(states: seq<Sys>, events: seq<Event>, i: nat, j: nat, t: TxnId, k: RowKey)
    requires IsRun(states, events) && i <= j < |states|
    requires forall m | i <= m <= j :: t in states[m].live
    requires !Holds(states[j].live[t].written, k)
    ensures SameRead(states[i], states[j], t, k)
    decreases j - i
  {
    if i == j {
      RunSameRead(states, events, j, t, k);
    } else {
      assert t in states[j].live && t in states[j - 1].live;
      RunRepeatStep(states, events, j, t, k);
      RepeatableRead(states, events, i, j - 1, t, k);
    }
  }

  /** Every row a live transaction can read has the width, types and key of the current schema. */
  lemma {:induction false} ReadRowsFitSchema(states: seq<Sys>, events: seq<Event>, i: nat, t: TxnId, k: RowKey)
    requires IsRun(states, events) && i < |states| && t in states[i].live
    ensures Descending(states[i].kv)
    ensures var r := ReadRow(states[i].kv, k, states[i].live[t].startTs, t);
            r.Found? ==> RowOk(states[i].kv.catalog, k, r.row)
  {
    RunInv(states, events, i);
    var kv, x := states[i].kv, states[i].live[t];
    DurableDescends(kv);
    assert LiveOk(kv, x) && x.id == t && ShapesOk(kv, x);
    ReadRowCorrect(kv, k, x.startTs, t);
    HoldsOwnHead(kv, x, k);
    if OwnHead(kv, k, t) {
      assert VersionOk(kv, VKey(k, kv.heads[k]));
    } else if id :| VisibleAt(kv, k, x.startTs, id) {
      forall b | VisibleAt(kv, k, x.startTs, b) ensures b == id { OneVisible(kv, k, x.startTs, b, id); }
      assert ShapeAt(kv, k, x.startTs, id);
    }
  }

  /** An update of a row the transaction does not see is refused exactly when the transaction has not
      written the key itself: after its own delete an update brings the row back. */
  lemma {:induction false} UpdateMissing(states: seq<Sys>, events: seq<Event>, i: nat, t: TxnId, k: RowKey, row: Row)
    requires IsRun(states, events) && i < |states| && t in states[i].live
    ensures Descending(states[i].kv)
    ensures var kv, x := states[i].kv, states[i].live[t];
            ReadRow(kv, k, x.startTs, t) == Missing ==>
              && (WritePlan(kv, k, x, Update(row)).Refuse? <==> !Holds(x.written, k))
              && (Holds(x.written, k) ==>
                  WritePlan(kv, k, x, Update(row)).Overwrite? && !WritePlan(kv, k, x, Update(row)).version.tombstone)
  {
    RunInv(states, events, i);
    var kv, x := states[i].kv, states[i].live[t];
    DurableDescends(kv);
    assert LiveOk(kv, x) && x.id == t;
    if Holds(x.written, k) { HeldHas(kv, x, k, x.written); }
  }

  lemma {:induction false} HeldHas(kv: Kv, x: Txn, k: RowKey, ws: seq<TxnWrite>)
    requires LiveOk(kv, x) && Holds(ws, k) && forall w | w in ws :: w in x.written
    ensures Has(kv, k, HeldId(ws, k))
  {
    if ws[0].key == k {
      assert HeldOk(kv, x, ws[0]);
    } else {
      HeldHas(kv, x, k, ws[1..]);
    }
  }

  // ---- Histories --------------------------------------------------------------------------

  /** First committer wins: of two committed transactions that wrote a common key, one had
      committed by the other's snapshot. */
  lemma {:induction false} FirstCommitterWins(states: seq<Sys>, events: seq<Event>, i: nat, t: TxnId, u: TxnId)
    requires IsRun(states, events) && i < |states| && t in states[i].done && u in states[i].done && t != u
    requires states[i].done[t].keys * states[i].done[u].keys != {}
    ensures || states[i].done[t].commitTs <= states[i].done[u].startTs
            || states[i].done[u].commitTs <= states[i].done[t].startTs
    ensures t in states[i].kv.txns && states[i].done[t].commitTs == states[i].kv.txns[t].commitTs
  {
    RunInv(states, events, i);
    assert Ordered(states[i].done[t], states[i].done[u]);
    assert DoneRecorded(states[i].kv, t, states[i].done[t]);
  }

  /** No lost update: whatever version a committed write replaced had been committed by the
      writer's snapshot. Versions written by schema changes have writer 0. */
  lemma {:induction false} NoLostUpdate(states: seq<Sys>, events: seq<Event>, i: nat, k: RowKey, id: nat)
    requires IsRun(states, events) && i < |states|
    requires CommittedVersion(states[i].kv, k, id) && Ver(states[i].kv, k, id).createdBy != 0
    ensures var s, v := states[i], Ver(states[i].kv, k, id);
            && v.createdBy in s.done && k in s.done[v.createdBy].keys && s.done[v.createdBy].commitTs == v.startTs
            && (v.prev != 0 ==>
                  Has(s.kv, k, v.prev) && Ver(s.kv, k, v.prev).startTs <= s.done[v.createdBy].startTs < v.startTs)
  {
    RunInv(states, events, i);
    RunLineage(states, events, i);
    var s, v := states[i], Ver(states[i].kv, k, id);
    assert VersionOk(s.kv, VKey(k, id)) && LineageAt(s, VKey(k, id));
    assert DoneRecorded(s.kv, v.createdBy, s.done[v.createdBy]);
  }
}
