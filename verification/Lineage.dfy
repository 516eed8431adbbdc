/** What puts do to versions: commit and recovery only close and stamp existing versions. From
    that, over every run: no update is lost. */
module Lineage {
  import opened Values
  import opened VersionStore
  import opened Protocol
  import opened CrashSafety
  import opened RecoveryProof
  import opened LiveTxns
  import opened Ddl
  import opened DdlProof
  import opened SnapshotIsolation

  /** Only timestamps may differ, and a start once given stays. */
  ghost predicate VersionKept(v: Version, v': Version) {
    && v' == v.(startTs := v'.startTs, endTs := v'.endTs)
    && (!v.Provisional() ==> v'.startTs == v.startTs)
  }

  ghost predicate AllKept(kv: Kv, kv': Kv) {
    && kv'.versions.Keys == kv.versions.Keys
    && forall vk | vk in kv.versions :: VersionKept(kv.versions[vk], kv'.versions[vk])
  }

  ghost predicate IdsOk(kv: Kv) {
    forall vk | vk in kv.versions :: kv.versions[vk].id == vk.id
  }

  /** A put that at most closes or stamps a version the store already holds. */
  ghost predicate Restamps(kv: Kv, p: Put) {
    && !p.DeleteVersion?
    && (p.PutVersion? ==> Has(kv, p.key, p.version.id) && VersionKept(Ver(kv, p.key, p.version.id), p.version))
  }

  /** Every version after some puts was there before or was put. */
  lemma {:induction false} VersionFromPuts(kv: Kv, ps: seq<Put>, vk: VKey)
    requires forall p | p in ps :: !p.DeleteVersion?
    ensures vk in ApplyAll(kv, ps).versions ==>
              var v := ApplyAll(kv, ps).versions[vk];
              || (vk in kv.versions && v == kv.versions[vk])
              || (v.id == vk.id && PutVersion(vk.key, v) in ps)
    ensures vk in kv.versions ==> vk in ApplyAll(kv, ps).versions
    decreases |ps|
  {
    if ps != [] {
      assert ps[0] in ps && forall p | p in ps[1..] :: p in ps;
      VersionFromPuts(Apply(kv, ps[0]), ps[1..], vk);
    }
  }

  lemma {:induction false} KeptByPuts(kv: Kv, ps: seq<Put>)
    requires forall p | p in ps :: Restamps(kv, p)
    ensures AllKept(kv, ApplyAll(kv, ps))
  {
    var kv' := ApplyAll(kv, ps);
    forall vk ensures vk in kv.versions <==> vk in kv'.versions
              ensures vk in kv.versions ==> VersionKept(kv.versions[vk], kv'.versions[vk])
    {
      VersionFromPuts(kv, ps, vk);
      if vk in kv'.versions && PutVersion(vk.key, kv'.versions[vk]) in ps {
        assert Restamps(kv, PutVersion(vk.key, kv'.versions[vk]));
      }
    }
  }

  lemma {:induction false} RestampsEarlier(kv: Kv, kv1: Kv, p: Put)
    requires AllKept(kv, kv1) && Restamps(kv1, p)
    ensures Restamps(kv, p)
  {
    if p.PutVersion? { assert VKey(p.key, p.version.id) in kv.versions; }
  }

  lemma {:induction false} StampRestamps(kv: Kv, t: TxnId, c: Timestamp, ws: seq<TxnWrite>)
    requires IdsOk(kv)
    ensures forall p | p in ApplyWrites(kv, t, c, ws).puts :: Restamps(kv, p)
    decreases |ws|
  {
    if ws != [] {
      var o := ApplyOne(kv, t, c, ws[0]);
      forall p | p in o.puts ensures Restamps(kv, p) { }
      KeptByPuts(kv, o.puts);
      var kv1 := ApplyAll(kv, o.puts);
      StampRestamps(kv1, t, c, ws[1..]);
      forall p | p in ApplyWrites(kv1, t, c, ws[1..]).puts ensures Restamps(kv, p) { RestampsEarlier(kv, kv1, p); }
    }
  }

  lemma {:induction false} RestoreRestamps(kv: Kv, ws: seq<TxnWrite>)
    ensures forall p | p in RestoreHeads(kv, ws).puts :: p.PutHead? || p.ClearHead?
    decreases |ws|
  {
    if ws != [] { RestoreRestamps(ApplyAll(kv, RestoreOne(kv, ws[|ws| - 1]).puts), ws[..|ws| - 1]); }
  }

  lemma {:induction false} RecoverTxnRestamps(kv: Kv, t: TxnId)
    requires IdsOk(kv)
    ensures forall p | p in RecoverTxn(kv, t).puts :: Restamps(kv, p)
  {
    if t in kv.txns {
      StampRestamps(kv, t, kv.txns[t].commitTs, kv.txns[t].writes);
      RestoreRestamps(kv, kv.txns[t].writes);
    }
  }

  lemma {:induction false} RecoverFromRestamps(kv: Kv, t: TxnId, limit: TxnId)
    requires IdsOk(kv)
    ensures forall p | p in RecoverFrom(kv, t, limit).puts :: Restamps(kv, p)
    decreases limit - t
  {
    if t < limit {
      var o := RecoverTxn(kv, t);
      RecoverTxnRestamps(kv, t);
      KeptByPuts(kv, o.puts);
      var kv1 := ApplyAll(kv, o.puts);
      RecoverFromRestamps(kv1, t + 1, limit);
      forall p | p in RecoverFrom(kv1, t + 1, limit).puts ensures Restamps(kv, p) { RestampsEarlier(kv, kv1, p); }
    }
  }

  lemma {:induction false} DurableIds(kv: Kv)
    requires DurableInv(kv)
    ensures IdsOk(kv)
  {
    forall vk | vk in kv.versions ensures kv.versions[vk].id == vk.id { assert VersionOk(kv, vk); }
  }

  /** Any number of recovery's puts only close and stamp. */
  lemma {:induction false} RecoveryKept(kv: Kv, n: nat)
    requires DurableInv(kv) && n <= |Recovery(kv).puts|
    ensures AllKept(kv, ApplyAll(kv, Recovery(kv).puts[..n]))
  {
    var ps, init := Recovery(kv).puts, Initialized(kv);
    DurableIds(kv);
    OracleEffect(kv, Counter(kv.nextTs), Counter(kv.nextTxn), Counter(kv.nextVid));
    RecoverFromRestamps(init, 1, init.nextTxn);
    forall p | p in ps[..n] ensures Restamps(kv, p) {
      assert p in ps;
      assert p in InitPuts(kv) || Restamps(init, p);
    }
    KeptByPuts(kv, ps[..n]);
  }

  /** Any number of a commit's puts only close and stamp. */
  lemma {:induction false} CommitKept(kv: Kv, live: map<TxnId, Txn>, t: TxnId, n: nat)
    requires UpInv(kv, live) && t in live && n <= |CommitOutcome(kv, live[t]).puts|
    ensures AllKept(kv, ApplyAll(kv, CommitOutcome(kv, live[t]).puts[..n]))
  {
    var x, ps := live[t], CommitOutcome(kv, live[t]).puts;
    CommitPuts(kv, live, t);
    DurableIds(kv);
    StampRestamps(IntentKv(kv, x), t, kv.nextTs, x.written);
    forall p | p in ps[..n] ensures Restamps(kv, p) {
      assert p in ps;
      assert p in StampPuts(kv, x) ==> Restamps(IntentKv(kv, x), p);
    }
    KeptByPuts(kv, ps[..n]);
  }

  // ---- Who wrote which version ------------------------------------------------------

  /** The writer and the predecessor of a version never change, nor a start once given. */
  ghost predicate LinksKept(v: Version, v': Version) {
    v'.createdBy == v.createdBy && v'.prev == v.prev && (!v.Provisional() ==> v'.startTs == v.startTs)
  }

  /** Stores whose shared versions agree on their links; new versions have an unfinished writer
      or none. */
  ghost predicate LinksOk(kv: Kv, kv': Kv) {
    forall vk | vk in kv'.versions ::
      if vk in kv.versions then LinksKept(kv.versions[vk], kv'.versions[vk])
      else kv'.versions[vk].createdBy == 0
           || (kv'.versions[vk].createdBy in kv'.txns && kv'.txns[kv'.versions[vk].createdBy].state == Open)
  }

  lemma {:induction false} WritePut(kv: Kv, live: map<TxnId, Txn>, t: TxnId, k: RowKey, op: WriteOp, p: Put)
    requires UpInv(kv, live) && t in live && Descending(kv) && p in WriteOutcome(kv, k, live[t], op).puts
    ensures !p.DeleteVersion? && (p.PutTxn? ==> p.meta.state == Open)
    ensures p.PutVersion? ==>
              if Has(kv, p.key, p.version.id) then LinksKept(Ver(kv, p.key, p.version.id), p.version)
                  else p.version.createdBy == t
  {
    assert live[t].id == t;
    if Holds(live[t].written, k) {
      assert VersionOk(kv, VKey(k, HeldId(live[t].written, k)));
    } else {
      assert VersionOk(kv, VKey(k, kv.nextVid));
    }
  }

  lemma {:induction false} WriteLinks(kv: Kv, live: map<TxnId, Txn>, t: TxnId, k: RowKey, op: WriteOp, ps: seq<Put>)
    requires UpInv(kv, live) && t in live && Descending(kv)
    requires forall p | p in ps :: p in WriteOutcome(kv, k, live[t], op).puts
    ensures LinksOk(kv, ApplyAll(kv, ps))
  {
    var kv' := ApplyAll(kv, ps);
    RecordFromPuts(kv, ps, t);
    assert LiveOk(kv, live[t]) && live[t].id == t;
    forall p | p in ps ensures !p.DeleteVersion? { WritePut(kv, live, t, k, op, p); }
    if PutTxn(t, kv'.txns[t]) in ps { WritePut(kv, live, t, k, op, PutTxn(t, kv'.txns[t])); }
    forall vk | vk in kv'.versions
      ensures if vk in kv.versions then LinksKept(kv.versions[vk], kv'.versions[vk])
          else kv'.versions[vk].createdBy == t
    {
      VersionFromPuts(kv, ps, vk);
      if PutVersion(vk.key, kv'.versions[vk]) in ps {
        WritePut(kv, live, t, k, op, PutVersion(vk.key, kv'.versions[vk]));
      }
    }
  }

  lemma {:induction false} NoVersionPuts(kv: Kv, ps: seq<Put>)
    requires forall p | p in ps :: !p.PutVersion? && !p.DeleteVersion?
    ensures LinksOk(kv, ApplyAll(kv, ps))
  {
    forall vk | vk in ApplyAll(kv, ps).versions ensures vk in kv.versions
        && ApplyAll(kv, ps).versions[vk] == kv.versions[vk] {
      VersionFromPuts(kv, ps, vk);
    }
  }

  lemma {:induction false} CallLinks(kv: Kv, live: map<TxnId, Txn>, op: Op, n: nat)
    requires UpInv(kv, live) && Descending(kv) && !op.IsDdl() && n <= |CallOutcome(kv, live, op).puts|
    ensures LinksOk(kv, ApplyAll(kv, CallOutcome(kv, live, op).puts[..n]))
  {
    var ps := CallOutcome(kv, live, op).puts;
    assert forall p | p in ps[..n] :: p in ps;
    match op
    case Begin => NoVersionPuts(kv, ps[..n]);
    case Write(t, table, a) =>
      var (st, k) := TargetKey(kv, table, a);
      if t in live && st == Ok {
        WriteLinks(kv, live, t, k, ActionOp(a), ps[..n]);
      } else {
        NoVersionPuts(kv, ps[..n]);
      }
    case Commit(t) =>
      if t in live { CommitKept(kv, live, t, n); } else { NoVersionPuts(kv, ps[..n]); }
    case Abort(t) =>
      if t in live { RestoreRestamps(kv, live[t].written); }
      NoVersionPuts(kv, ps[..n]);
  }

  lemma {:induction false} DdlLinks(kv: Kv, op: Op)
    requires Quiet(kv) && Descending(kv) && op.IsDdl() && Enabled(kv, op)
    ensures LinksOk(kv, ApplyAll(kv, CallOutcome(kv, map[], op).puts))
  {
    match op
    case CreateTable(s) => CreateKeeps(kv, s);
    case DropTable(name, hs, vs) => if name in kv.catalog { DropEffect(kv, name, hs, vs); }
    case AlterAdd(table, col, v, ks) =>
      if AddColumnCheck(kv, table, col, v) == Ok { AlterLinks(kv, table, ks, AddColumn(col, v)); }
    case AlterDrop(table, column, ks) =>
      if DropColumnCheck(kv, table, column) == Ok {
        AlterLinks(kv, table, ks, DropColumn(DropIndex(kv, table, column)));
      }
  }

  lemma {:induction false} AlterLinks(kv: Kv, table: Bytes, ks: seq<RowKey>, a: Alteration)
    requires Quiet(kv) && AlterationOk(kv, table, a) && Descending(kv) && Distinct(ks)
    requires forall k :: k in ks <==> k in kv.heads && k.table == table
    ensures LinksOk(kv, ApplyAll(kv, AlterOutcome(kv, table, ks, a).puts))
  {
    AlterEffect(kv, table, ks, a);
    var kv' := ApplyAll(kv, AlterOutcome(kv, table, ks, a).puts);
    forall vk | vk in kv'.versions
      ensures if vk in kv.versions then LinksKept(kv.versions[vk], kv'.versions[vk])
          else kv'.versions[vk].createdBy == 0
    {
      AlteredLinks(kv, kv', table, a, vk.key, vk.id);
    }
  }

  lemma {:induction false} AlteredLinks(kv: Kv, kv': Kv, table: Bytes, a: Alteration, k: RowKey, id: nat)
    requires AlteredStore(kv, kv', table, a) && Has(kv', k, id)
    requires VersionOk(kv, VKey(k, id))
    ensures if Has(kv, k, id) then LinksKept(Ver(kv, k, id), Ver(kv', k, id)) else Ver(kv', k, id).createdBy == 0
  {
    if k in kv.heads && k.table == table {
      assert KeyAltered(kv, kv', k, kv.nextTs, kv.nextVid, kv'.nextVid, a);
    } else {
      assert KeySame(kv, kv', k);
    }
  }

  // ---- No lost updates, over every run ------------------------------------------------

  /** A version whose writer committed, or is committing: the writer is in the history with this
      key, and what the version replaced had been committed by the writer's snapshot. */
  ghost predicate LineageAt(s: Sys, vk: VKey) {
    vk in s.kv.versions ==>
      var v := s.kv.versions[vk];
      v.createdBy in s.kv.txns && s.kv.txns[v.createdBy].state in {Committing, Committed} ==>
        && v.createdBy in s.done
        && vk.key in s.done[v.createdBy].keys
        && (v.prev != 0 && Has(s.kv, vk.key, v.prev) ==>
              Ver(s.kv, vk.key, v.prev).startTs <= s.done[v.createdBy].startTs)
  }

  ghost predicate LineageInv(s: Sys) {
    forall vk {:trigger LineageAt(s, vk)} :: LineageAt(s, vk)
  }

  /** The invariant carries over when links are kept, history only grows, and records that have
      become committing are new in the history with all their writes. */
  lemma {:induction false} LineageCarries(s: Sys, s': Sys, vk: VKey)
    requires LineageInv(s) && DurableInv(s.kv) && DurableInv(s'.kv) && LinksOk(s.kv, s'.kv)
    requires vk in s'.kv.versions && vk in s.kv.versions
    requires var t := s'.kv.versions[vk].createdBy;
             && t in s.kv.txns && s.kv.txns[t].state in {Committing, Committed}
             && (t in s.done ==> t in s'.done && s'.done[t] == s.done[t])
    ensures LineageAt(s', vk)
  {
    assert LineageAt(s, vk) && VersionOk(s.kv, vk) && VersionOk(s'.kv, vk);
    var v := s'.kv.versions[vk];
    if v.prev != 0 { assert VKey(vk.key, v.prev) in s.kv.versions && VKey(vk.key, v.prev) in s'.kv.versions; }
  }

  /** A finished writer's entry in the history is not written again. */
  lemma {:induction false} DoneStands(s: Sys, op: Op, n: nat, t: TxnId)
    requires SysInv(s) && s.up && Descending(s.kv) && !op.IsDdl() && n <= |CallOutcome(s.kv, s.live, op).puts|
    requires t in s.kv.txns && s.kv.txns[t].state == Committed
    ensures var done := DoneAfter(s, ApplyAll(s.kv, CallOutcome(s.kv, s.live, op).puts[..n]));
            t in s.done ==> t in done && done[t] == s.done[t]
  {
    forall u | u in s.live ensures OpenRecord(s.kv, u) { assert LiveOk(s.kv, s.live[u]) && s.live[u].id == u; }
  }

  lemma {:induction false} CallLineage(s: Sys, op: Op, n: nat, s': Sys)
    requires SysInv(s) && LineageInv(s) && s.up && Descending(s.kv) && !op.IsDdl()
    requires n <= |CallOutcome(s.kv, s.live, op).puts|
    requires s'.kv == ApplyAll(s.kv, CallOutcome(s.kv, s.live, op).puts[..n]) && s'.done == DoneAfter(s, s'.kv)
    requires DurableInv(s'.kv)
    ensures LineageInv(s')
  {
    CallLinks(s.kv, s.live, op, n);
    var ps := CallOutcome(s.kv, s.live, op).puts;
    forall vk ensures LineageAt(s', vk) {
      if vk in s'.kv.versions {
        var t := s'.kv.versions[vk].createdBy;
        if t in s'.kv.txns && s'.kv.txns[t].state in {Committing, Committed} {
          CallFreshWriter(s, op, n, s', vk);
        }
      }
    }
  }

  lemma {:induction false} CallFreshWriter(s: Sys, op: Op, n: nat, s': Sys, vk: VKey)
    requires SysInv(s) && LineageInv(s) && s.up && Descending(s.kv) && !op.IsDdl()
    requires n <= |CallOutcome(s.kv, s.live, op).puts|
    requires s'.kv == ApplyAll(s.kv, CallOutcome(s.kv, s.live, op).puts[..n]) && s'.done == DoneAfter(s, s'.kv)
    requires DurableInv(s'.kv) && LinksOk(s.kv, s'.kv)
    requires vk in s'.kv.versions && s'.kv.versions[vk].createdBy in s'.kv.txns
    requires s'.kv.txns[s'.kv.versions[vk].createdBy].state in {Committing, Committed}
    ensures LineageAt(s', vk)
  {
    var t := s'.kv.versions[vk].createdBy;
    assert TxnOk(s'.kv, t);
    assert vk in s.kv.versions;
    if t in s.live {
      NewWriter(s, s', vk);
    } else {
      OldRecord(s.kv, s.live, op, n, t);
      DoneStands(s, op, n, t);
      LineageCarries(s, s', vk);
    }
  }

  /** Committed records of transactions that are not live are old ones. */
  lemma {:induction false} OldRecord(kv: Kv, live: map<TxnId, Txn>, op: Op, n: nat, t: TxnId)
    requires UpInv(kv, live) && Descending(kv) && !op.IsDdl() && n <= |CallOutcome(kv, live, op).puts| && t !in live
    requires var kv' := ApplyAll(kv, CallOutcome(kv, live, op).puts[..n]);
             t in kv'.txns && kv'.txns[t].state in {Committing, Committed}
    ensures t in kv.txns && kv.txns[t].state == Committed
  {
    var ps := CallOutcome(kv, live, op).puts;
    var q := PutTxn(t, ApplyAll(kv, ps[..n]).txns[t]);
    RecordFromPuts(kv, ps[..n], t);
    assert !CommittingTxn(kv, t);
    if q in ps[..n] {
      assert q in ps;
      CallRecords(kv, live, op, q);
    }
  }

  /** A live transaction that has just become committing. */
  lemma {:induction false} NewWriter(s: Sys, s': Sys, vk: VKey)
    requires SysInv(s) && s.up && LinksOk(s.kv, s'.kv) && s'.done == DoneAfter(s, s'.kv)
    requires vk in s'.kv.versions && s'.kv.versions[vk].createdBy in s.live
    requires var t := s'.kv.versions[vk].createdBy;
             t in s'.kv.txns && s'.kv.txns[t].state in {Committing, Committed}
    ensures LineageAt(s', vk)
  {
    var v := s'.kv.versions[vk];
    var x := s.live[v.createdBy];
    assert LiveOk(s.kv, x) && x.id == v.createdBy && TxnOk(s.kv, x.id) && VersionOk(s.kv, vk);
    assert TxnWrite(vk.key, vk.id) in x.written && HeldOk(s.kv, x, TxnWrite(vk.key, vk.id));
    if v.prev != 0 && Has(s'.kv, vk.key, v.prev) {
      assert VersionOk(s.kv, VKey(vk.key, v.prev)) && VKey(vk.key, v.prev) in s'.kv.versions;
    }
  }

  lemma {:induction false} RecoveryLineage(s: Sys, n: nat, s': Sys)
    requires SysInv(s) && LineageInv(s) && !s.up && n <= |Recovery(s.kv).puts|
    requires s'.kv == ApplyAll(s.kv, Recovery(s.kv).puts[..n]) && s'.done == s.done && DurableInv(s'.kv)
    ensures LineageInv(s')
  {
    RecoveryKept(s.kv, n);
    forall vk ensures LineageAt(s', vk) {
      if vk in s'.kv.versions && s'.kv.versions[vk].createdBy in s'.kv.txns {
        var t := s'.kv.versions[vk].createdBy;
        assert VersionOk(s.kv, vk);
        if t in s.kv.txns { RecoveryTxns(s.kv, n, t); }
        if s'.kv.txns[t].state in {Committing, Committed} && t in s.kv.txns {
          LineageCarries(s, s', vk);
        } else {
          assert t in s.kv.txns || t == 0;
          assert TxnOk(s'.kv, t);
        }
      }
    }
  }

  lemma {:induction false} QuietLineage(s: Sys, s': Sys)
    requires SysInv(s) && SysInv(s') && LineageInv(s) && LinksOk(s.kv, s'.kv)
    requires s'.kv.txns == s.kv.txns && s'.done == s.done && forall t :: !OpenRecord(s.kv, t)
    ensures LineageInv(s')
  {
    forall vk ensures LineageAt(s', vk) {
      if vk in s'.kv.versions && s'.kv.versions[vk].createdBy in s'.kv.txns {
        var t := s'.kv.versions[vk].createdBy;
        assert TxnOk(s.kv, t) && !OpenRecord(s.kv, t);
        if s.kv.txns[t].state in {Committing, Committed} { LineageCarries(s, s', vk); }
      }
    }
  }

  lemma {:induction false} DdlLineage(s: Sys, op: Op, s': Sys)
    requires SysInv(s) && LineageInv(s) && Step(s, Do(op), s') && op.IsDdl()
    ensures LineageInv(s')
  {
    DdlStep(s, op, s');
    if s.live == map[] {
      DdlLinks(s.kv, op);
      DdlKeeps(s.kv, op);
      assert s'.done == s.done;
      QuietLineage(s, s');
    } else {
      RefusedDdl(s, op, s');
    }
  }

  lemma {:induction false} LineageStep(s: Sys, e: Event, s': Sys)
    requires SysInv(s) && LineageInv(s) && Step(s, e, s')
    ensures LineageInv(s')
  {
    StepKeeps(s, e, s');
    match e
    case Do(op) =>
      if op.IsDdl() {
        DdlLineage(s, op, s');
      } else {
        var ps := CallOutcome(s.kv, s.live, op).puts;
        assert ps[..|ps|] == ps;
        CallLineage(s, op, |ps|, s');
      }
    case Crash(op, n) => CallLineage(s, op, n, s');
    case CrashInRecovery(n) => RecoveryLineage(s, n, s');
    case Reopen =>
      var ps := Recovery(s.kv).puts;
      assert ps[..|ps|] == ps;
      RecoveryLineage(s, |ps|, s');
  }

  lemma {:induction false} RunLineage(states: seq<Sys>, events: seq<Event>, i: nat)
    requires IsRun(states, events) && i < |states|
    ensures LineageInv(states[i])
    decreases i
  {
    if i > 0 {
      RunLineage(states, events, i - 1);
      RunInv(states, events, i - 1);
      LineageStep(states[i - 1], events[i - 1], states[i]);
    }
  }
}
