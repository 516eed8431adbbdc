/** Whole put lists: every operation keeps the durable invariant and the committed contents after
    each of its puts, so at every point where a crash can stop it. */
module CrashSafety {
  import opened Values
  import opened VersionStore
  import opened DurableSteps
  import opened Protocol

  /** The last put kept is a Committed record: the one gap in which the clock is behind. */
  predicate AfterCommitRecord(ps: seq<Put>, n: nat)
    requires n <= |ps|
  {
    n > 0 && ps[n - 1].PutTxn? && ps[n - 1].meta.state == Committed
  }

  ghost predicate SafeAt(kv: Kv, ps: seq<Put>, n: nat, keys: set<RowKey>)
    requires n <= |ps|
  {
    AfterCommitRecord(ps, n) || Keeps(kv, ApplyAll(kv, ps[..n]), keys)
  }

  /** Stopping after any number of the puts is safe, the gap aside; the list does not end in it. */
  ghost predicate Safe(kv: Kv, ps: seq<Put>, keys: set<RowKey>) {
    && (forall n {:trigger SafeAt(kv, ps, n, keys)} | 0 <= n <= |ps| :: SafeAt(kv, ps, n, keys))
    && !AfterCommitRecord(ps, |ps|)
  }

  function KeysOf(ws: seq<TxnWrite>): set<RowKey> { set w | w in ws :: w.key }

  lemma {:induction false} SafeEnds(kv: Kv, ps: seq<Put>, keys: set<RowKey>)
    requires Safe(kv, ps, keys)
    ensures Keeps(kv, ApplyAll(kv, ps), keys)
  {
    assert SafeAt(kv, ps, |ps|, keys);
    assert ps[..|ps|] == ps;
  }

  lemma {:induction false} SafeNone(kv: Kv, keys: set<RowKey>)
    requires DurableInv(kv)
    ensures Safe(kv, [], keys)
  {
  }

  lemma {:induction false} SafeOne(kv: Kv, p: Put, keys: set<RowKey>)
    requires DurableInv(kv) && Keeps(kv, Apply(kv, p), keys)
    requires p.PutTxn? ==> p.meta.state != Committed
    ensures Safe(kv, [p], keys)
  {
    forall n | 0 <= n <= 1 ensures SafeAt(kv, [p], n, keys) {
      assert [p][..n] == if n == 0 then [] else [p];
    }
  }

  lemma {:induction false} SafeConcatAt(kv: Kv, a: seq<Put>, b: seq<Put>, m: nat, keys: set<RowKey>)
    requires m <= |b| && Keeps(kv, ApplyAll(kv, a), keys) && SafeAt(ApplyAll(kv, a), b, m, keys)
    requires m == 0 ==> !AfterCommitRecord(a, |a|)
    ensures SafeAt(kv, a + b, |a| + m, keys)
  {
    var ab := a + b;
    assert ab[..|a| + m] == a + b[..m];
    ApplyAllConcat(kv, a, b[..m]);
    if !AfterCommitRecord(ab, |a| + m) {
      assert !AfterCommitRecord(b, m);
      KeepsTransitive(kv, ApplyAll(kv, a), ApplyAll(kv, ab[..|a| + m]), keys);
    }
  }

  lemma {:induction false} SafeFrontAt(kv: Kv, a: seq<Put>, b: seq<Put>, n: nat, keys: set<RowKey>)
    requires n <= |a| && SafeAt(kv, a, n, keys)
    ensures SafeAt(kv, a + b, n, keys)
  {
    var ab := a + b;
    assert ab[..n] == a[..n];
    assert n > 0 ==> ab[n - 1] == a[n - 1];
  }

  lemma {:induction false} SafeConcat(kv: Kv, a: seq<Put>, b: seq<Put>, keys: set<RowKey>)
    requires Safe(kv, a, keys) && Safe(ApplyAll(kv, a), b, keys)
    ensures Safe(kv, a + b, keys)
  {
    SafeEnds(kv, a, keys);
    var ab := a + b;
    forall n | 0 <= n <= |ab| ensures SafeAt(kv, ab, n, keys) { SafeConcatEach(kv, a, b, n, keys); }
  }

  lemma {:induction false} SafeConcatEach(kv: Kv, a: seq<Put>, b: seq<Put>, n: nat, keys: set<RowKey>)
    requires n <= |a| + |b| && Keeps(kv, ApplyAll(kv, a), keys) && !AfterCommitRecord(a, |a|)
    requires Safe(kv, a, keys) && Safe(ApplyAll(kv, a), b, keys)
    ensures SafeAt(kv, a + b, n, keys)
  {
    if n < |a| {
      assert SafeAt(kv, a, n, keys);
      SafeFrontAt(kv, a, b, n, keys);
    } else {
      assert SafeAt(ApplyAll(kv, a), b, n - |a|, keys);
      SafeConcatAt(kv, a, b, n - |a|, keys);
    }
  }

  lemma {:induction false} SafeMore(kv: Kv, ps: seq<Put>, keys: set<RowKey>, more: set<RowKey>)
    requires Safe(kv, ps, keys) && keys <= more
    ensures Safe(kv, ps, more)
  {
    forall n | 0 <= n <= |ps| ensures SafeAt(kv, ps, n, more) {
      assert SafeAt(kv, ps, n, keys);
      if !AfterCommitRecord(ps, n) { KeepsMore(kv, ApplyAll(kv, ps[..n]), keys, more); }
    }
  }

  /** Prepending one safe put. */
  lemma {:induction false} SafeCons(kv: Kv, p: Put, ps: seq<Put>, keys: set<RowKey>)
    requires DurableInv(kv) && Keeps(kv, Apply(kv, p), keys) && (p.PutTxn? ==> p.meta.state != Committed)
    requires Safe(Apply(kv, p), ps, keys)
    ensures Safe(kv, [p] + ps, keys)
    ensures ApplyAll(kv, [p] + ps) == ApplyAll(Apply(kv, p), ps)
  {
    SafeOne(kv, p, keys);
    assert ApplyAll(kv, [p]) == Apply(kv, p);
    SafeConcat(kv, [p], ps, keys);
  }

  /** Appending one safe put. */
  lemma {:induction false} SafeSnoc(kv: Kv, ps: seq<Put>, p: Put, keys: set<RowKey>)
    requires Safe(kv, ps, keys) && Keeps(ApplyAll(kv, ps), Apply(ApplyAll(kv, ps), p), keys)
    requires p.PutTxn? ==> p.meta.state != Committed
    ensures Safe(kv, ps + [p], keys)
    ensures ApplyAll(kv, ps + [p]) == Apply(ApplyAll(kv, ps), p)
  {
    SafeEnds(kv, ps, keys);
    var kv1 := ApplyAll(kv, ps);
    SafeOne(kv1, p, keys);
    SafeConcat(kv, ps, [p], keys);
    ApplyAllConcat(kv, ps, [p]);
    assert ApplyAll(kv1, [p]) == Apply(kv1, p);
  }

  lemma {:induction false} OracleEffect(kv: Kv, ts: nat, txn: nat, vid: nat)
    ensures ApplyAll(kv, OraclePuts(ts, txn, vid)) == kv.(nextTs := ts, nextTxn := txn, nextVid := vid)
  {
    var ps := OraclePuts(ts, txn, vid);
    assert ps[1..] == [PutNextTxn(txn), PutNextVid(vid)] && ps[1..][1..] == [PutNextVid(vid)];
    assert ApplyAll(Apply(Apply(kv, ps[0]), ps[1]), [PutNextVid(vid)]) ==
        kv.(nextTs := ts, nextTxn := txn, nextVid := vid);
  }

  lemma {:induction false} OraclePutsSafe(kv: Kv, ts: nat, txn: nat, vid: nat)
    requires DurableInv(kv) && ts >= kv.nextTs && txn >= kv.nextTxn && vid >= kv.nextVid
    requires ts == kv.nextTs || NoneCommitting(kv)
    ensures Safe(kv, OraclePuts(ts, txn, vid), {})
  {
    var kv1 := Apply(kv, PutNextTs(ts));
    var kv2 := Apply(kv1, PutNextTxn(txn));
    var kv3 := Apply(kv2, PutNextVid(vid));
    RaiseCountersKeeps(kv, kv1);
    RaiseCountersKeeps(kv1, kv2);
    RaiseCountersKeeps(kv2, kv3);
    SafeOne(kv2, PutNextVid(vid), {});
    assert ApplyAll(kv2, [PutNextVid(vid)]) == kv3;
    SafeCons(kv1, PutNextTxn(txn), [PutNextVid(vid)], {});
    assert [PutNextTxn(txn)] + [PutNextVid(vid)] == [PutNextTxn(txn), PutNextVid(vid)];
    SafeCons(kv, PutNextTs(ts), [PutNextTxn(txn), PutNextVid(vid)], {});
    assert [PutNextTs(ts)] + [PutNextTxn(txn), PutNextVid(vid)] == OraclePuts(ts, txn, vid);
  }

  lemma {:induction false} ApplySnoc(kv: Kv, ps: seq<Put>, p: Put)
    ensures ApplyAll(kv, ps + [p]) == Apply(ApplyAll(kv, ps), p)
  {
    ApplyAllConcat(kv, ps, [p]);
    assert ApplyAll(ApplyAll(kv, ps), [p]) == Apply(ApplyAll(kv, ps), p);
  }

  lemma {:induction false} ApplyTwo(kv: Kv, p: Put, q: Put)
    ensures ApplyAll(kv, [p, q]) == Apply(Apply(kv, p), q)
  {
    assert [p, q] == [p] + [q];
    ApplySnoc(kv, [p], q);
  }

  lemma {:induction false} BeginEffect(kv: Kv)
    ensures ApplyAll(kv, BeginPuts(kv)) == kv.(nextTxn := kv.nextTxn + 1, txns :=
        kv.txns[kv.nextTxn := TxnMeta(Open, 0, [])])
  {
    var a := OraclePuts(kv.nextTs, kv.nextTxn + 1, kv.nextVid);
    ApplySnoc(kv, a, PutTxn(kv.nextTxn, TxnMeta(Open, 0, [])));
    OracleEffect(kv, kv.nextTs, kv.nextTxn + 1, kv.nextVid);
  }

  lemma {:induction false} BeginSafe(kv: Kv)
    requires DurableInv(kv) && kv.nextTxn > 0
    ensures Safe(kv, BeginPuts(kv), {})
  {
    var a := OraclePuts(kv.nextTs, kv.nextTxn + 1, kv.nextVid);
    var kv1 := ApplyAll(kv, a);
    OraclePutsSafe(kv, kv.nextTs, kv.nextTxn + 1, kv.nextVid);
    OracleEffect(kv, kv.nextTs, kv.nextTxn + 1, kv.nextVid);
    SafeEnds(kv, a, {});
    assert TxnOk(kv, kv.nextTxn);
    OpenTxnKeeps(kv1, kv.nextTxn);
    SafeSnoc(kv, a, PutTxn(kv.nextTxn, TxnMeta(Open, 0, [])), {});
  }

  // ---- RestoreHeads -------------------------------------------------------------

  /** After the restore, each listed key whose head was the transaction's version has the version
      below as head, or none; nothing else has changed. */
  ghost predicate Restored(kv: Kv, kv': Kv, ws: seq<TxnWrite>) {
    && kv' == kv.(heads := kv'.heads)
    && (forall k | k !in KeysOf(ws) ::
        (k in kv.heads <==> k in kv'.heads) && (k in kv.heads ==> kv.heads[k] == kv'.heads[k]))
    && (forall w | w in ws && w.key in kv.heads && kv.heads[w.key] == w.id ::
          && Has(kv, w.key, w.id)
          && var p := Ver(kv, w.key, w.id).prev;
             if p == 0 then w.key !in kv'.heads else w.key in kv'.heads && kv'.heads[w.key] == p)
  }

  lemma {:induction false} RestoreOneSafe(kv: Kv, t: TxnId, w: TxnWrite)
    requires DurableInv(kv) && t in kv.txns && kv.txns[t].state == Open
    requires Has(kv, w.key, w.id) && Ver(kv, w.key, w.id).createdBy == t
    ensures RestoreOne(kv, w).status == Ok
    ensures Safe(kv, RestoreOne(kv, w).puts, {})
    ensures Restored(kv, ApplyAll(kv, RestoreOne(kv, w).puts), [w])
  {
    var o := RestoreOne(kv, w);
    if o.puts == [] {
      SafeNone(kv, {});
    } else {
      var p := o.puts[0];
      assert o.puts == [p];
      assert VersionOk(kv, VKey(w.key, w.id)) && TxnOk(kv, t);
      assert ApplyAll(kv, o.puts) == Apply(kv, p);
      MoveHeadKeeps(kv, Apply(kv, p), w.key);
      SafeOne(kv, p, {});
    }
  }

  lemma {:induction false} RestoredTransitive(a: Kv, b: Kv, c: Kv, w: TxnWrite, ws: seq<TxnWrite>)
    requires Restored(a, b, [w]) && Restored(b, c, ws)
    requires w.key !in KeysOf(ws)
    ensures Restored(a, c, ws + [w])
  {
    assert KeysOf(ws + [w]) == KeysOf(ws) + {w.key} && KeysOf([w]) == {w.key};
    forall x | x in ws + [w] && x.key in a.heads && a.heads[x.key] == x.id
      ensures Has(a, x.key, x.id)
      ensures var p := Ver(a, x.key, x.id).prev;
              if p == 0 then x.key !in c.heads else x.key in c.heads && c.heads[x.key] == p
    {
      if x in ws { assert x.key in KeysOf(ws) && x.key != w.key; } else { assert x == w; assert x in [w]; }
    }
  }

  lemma {:induction false} RestoreHeadsSafe(kv: Kv, t: TxnId, ws: seq<TxnWrite>)
    requires DurableInv(kv) && t in kv.txns && kv.txns[t].state == Open
    requires WritesOwned(kv, t, ws) && DistinctKeys(ws)
    ensures RestoreHeads(kv, ws).status == Ok
    ensures Safe(kv, RestoreHeads(kv, ws).puts, {})
    ensures Restored(kv, ApplyAll(kv, RestoreHeads(kv, ws).puts), ws)
    decreases |ws|
  {
    if ws == [] {
      SafeNone(kv, {});
    } else {
      var w, init := ws[|ws| - 1], ws[..|ws| - 1];
      assert ws == init + [w];
      var o := RestoreOne(kv, w);
      RestoreOneSafe(kv, t, w);
      SafeEnds(kv, o.puts, {});
      var kv1 := ApplyAll(kv, o.puts);
      RestoreHeadsSafe(kv1, t, init);
      var rest := RestoreHeads(kv1, init);
      SafeConcat(kv, o.puts, rest.puts, {});
      ApplyAllConcat(kv, o.puts, rest.puts);
      assert w.key !in KeysOf(init);
      RestoredTransitive(kv, kv1, ApplyAll(kv1, rest.puts), w, init);
    }
  }

  // ---- ApplyCommitWrites --------------------------------------------------------

  /** After the apply every listed version carries the commit timestamp; only versions of listed
      keys have changed, and of those only the timestamps. */
  ghost predicate Stamped(kv: Kv, kv': Kv, ws: seq<TxnWrite>) {
    && kv'.versions.Keys == kv.versions.Keys
    && forall vk | vk in kv.versions :: StampedOne(kv, kv', ws, vk)
  }

  ghost predicate StampedOne(kv: Kv, kv': Kv, ws: seq<TxnWrite>, vk: VKey)
    requires vk in kv.versions && vk in kv'.versions
  {
    var v, v' := kv.versions[vk], kv'.versions[vk];
    && v' == v.(startTs := v'.startTs, endTs := v'.endTs)
    && (vk.key !in KeysOf(ws) ==> v' == v)
    && if TxnWrite(vk.key, vk.id) in ws
       then !v'.Provisional() && v'.startTs == if v.Provisional() then kv.nextTs else v.startTs
       else v'.startTs == v.startTs
  }

  lemma {:induction false} StampedTransitive(a: Kv, b: Kv, c: Kv, w: TxnWrite, ws: seq<TxnWrite>)
    requires Stamped(a, b, [w]) && Stamped(b, c, ws) && a.nextTs == b.nextTs
    ensures Stamped(a, c, [w] + ws)
  {
    forall vk | vk in a.versions ensures StampedOne(a, c, [w] + ws, vk) {
      assert StampedOne(a, b, [w], vk) && StampedOne(b, c, ws, vk);
      assert KeysOf([w] + ws) == {w.key} + KeysOf(ws) && KeysOf([w]) == {w.key};
    }
  }

  /** The facts the apply of one intent write relies on: it is still the head over the newest
      committed version, which is open or already closed at the commit timestamp. */
  lemma {:induction false} IntentWrite(kv: Kv, t: TxnId, w: TxnWrite)
    requires DurableInv(kv) && CommittingTxn(kv, t) && w in kv.txns[t].writes
    ensures kv.nextTs > 0 && Has(kv, w.key, w.id) && Ver(kv, w.key, w.id).id == w.id
        && Ver(kv, w.key, w.id).createdBy == t
    ensures !Ver(kv, w.key, w.id).Provisional() ==> Ver(kv, w.key, w.id).startTs == kv.nextTs
    ensures Ver(kv, w.key, w.id).Provisional() ==>
              && w.key in kv.heads && kv.heads[w.key] == w.id
              && var p := Ver(kv, w.key, w.id).prev;
              && p == Latest(kv, w.key) && p < w.id
              && (p != 0 ==>
                    && CommittedVersion(kv, w.key, p) && Ver(kv, w.key, p).id == p
                    && Ver(kv, w.key, p).endTs in {0, kv.nextTs})
  {
    assert TxnOk(kv, t) && VersionOk(kv, VKey(w.key, w.id)) && IntentOk(kv, w, kv.nextTs);
    var v := Ver(kv, w.key, w.id);
    if v.Provisional() {
      assert HeadOk(kv, w.key);
      if v.prev != 0 { assert VersionOk(kv, VKey(w.key, v.prev)); }
    }
  }

  lemma {:induction false} ApplyOneStamped(kv: Kv, t: TxnId, w: TxnWrite)
    requires DurableInv(kv) && CommittingTxn(kv, t) && w in kv.txns[t].writes
    ensures ApplyOne(kv, t, kv.nextTs, w).status == Ok
    ensures var kv' := ApplyAll(kv, ApplyOne(kv, t, kv.nextTs, w).puts);
            kv' == kv.(versions := kv'.versions) && Stamped(kv, kv', [w])
  {
    IntentWrite(kv, t, w);
    var c := kv.nextTs;
    var o := ApplyOne(kv, t, c, w);
    var kv' := ApplyAll(kv, o.puts);
    assert KeysOf([w]) == {w.key};
    if |o.puts| == 2 {
      ApplyTwo(kv, o.puts[0], o.puts[1]);
      assert o.puts == [o.puts[0], o.puts[1]];
    } else if |o.puts| == 1 {
      ApplySnoc(kv, [], o.puts[0]);
      assert o.puts == [] + [o.puts[0]];
    }
    forall vk | vk in kv.versions ensures vk in kv'.versions && StampedOne(kv, kv', [w], vk) { }
  }

  lemma {:induction false} ApplyOneSafe(kv: Kv, t: TxnId, w: TxnWrite)
    requires DurableInv(kv) && CommittingTxn(kv, t) && w in kv.txns[t].writes
    ensures Safe(kv, ApplyOne(kv, t, kv.nextTs, w).puts, {w.key})
  {
    IntentWrite(kv, t, w);
    var c := kv.nextTs;
    var o := ApplyOne(kv, t, c, w);
    if o.puts == [] {
      SafeNone(kv, {w.key});
    } else if |o.puts| == 1 {
      StampKeeps(kv, w.key, t);
      SafeOne(kv, o.puts[0], {w.key});
      assert o.puts == [o.puts[0]];
    } else {
      CloseKeeps(kv, w.key, t);
      var kv1 := Apply(kv, o.puts[0]);
      StampKeeps(kv1, w.key, t);
      SafeOne(kv1, o.puts[1], {w.key});
      SafeCons(kv, o.puts[0], [o.puts[1]], {w.key});
      assert o.puts == [o.puts[0]] + [o.puts[1]];
    }
  }

  lemma {:induction false} ApplyWritesSafe(kv: Kv, t: TxnId, ws: seq<TxnWrite>)
    requires DurableInv(kv) && CommittingTxn(kv, t)
    requires forall w | w in ws :: w in kv.txns[t].writes
    ensures ApplyWrites(kv, t, kv.nextTs, ws).status == Ok
    ensures Safe(kv, ApplyWrites(kv, t, kv.nextTs, ws).puts, KeysOf(ws))
    ensures var kv' := ApplyAll(kv, ApplyWrites(kv, t, kv.nextTs, ws).puts);
            kv' == kv.(versions := kv'.versions) && Stamped(kv, kv', ws)
    decreases |ws|
  {
    if ws == [] {
      SafeNone(kv, KeysOf(ws));
    } else {
      var w, tail := ws[0], ws[1..];
      assert ws == [w] + tail;
      var o := ApplyOne(kv, t, kv.nextTs, w);
      ApplyOneSafe(kv, t, w);
      ApplyOneStamped(kv, t, w);
      SafeEnds(kv, o.puts, {w.key});
      var kv1 := ApplyAll(kv, o.puts);
      ApplyWritesSafe(kv1, t, tail);
      var rest := ApplyWrites(kv1, t, kv.nextTs, tail);
      StampedTransitive(kv, kv1, ApplyAll(kv1, rest.puts), w, tail);
      assert KeysOf(ws) == {w.key} + KeysOf(tail);
      SafeMore(kv, o.puts, {w.key}, KeysOf(ws));
      SafeMore(kv1, rest.puts, KeysOf(tail), KeysOf(ws));
      SafeConcat(kv, o.puts, rest.puts, KeysOf(ws));
      ApplyAllConcat(kv, o.puts, rest.puts);
    }
  }

  /** A transaction record, then the counters with the clock one step on. */
  function RecordPuts(kv: Kv, p: Put): seq<Put> {
    [p] + OraclePuts(kv.nextTs + 1, kv.nextTxn, kv.nextVid)
  }

  /** The Committed record and the counters behind it, for a fully stamped commit. */
  function FinishPuts(kv: Kv, t: TxnId): seq<Put> {
    RecordPuts(kv, PutTxn(t, TxnMeta(Committed, kv.nextTs, [])))
  }

  lemma {:induction false} ApplyCons(kv: Kv, p: Put, ps: seq<Put>)
    ensures ApplyAll(kv, [p] + ps) == ApplyAll(Apply(kv, p), ps)
  {
    assert ([p] + ps)[1..] == ps;
  }

  lemma {:induction false} ConsEffect(kv: Kv, p: Put, ps: seq<Put>, kv1: Kv, kv2: Kv)
    requires Apply(kv, p) == kv1 && ApplyAll(kv1, ps) == kv2
    ensures ApplyAll(kv, [p] + ps) == kv2
  {
    ApplyCons(kv, p, ps);
  }

  lemma {:induction false} RecordEffect(kv: Kv, t: TxnId, m: TxnMeta, p: Put)
    requires p == PutTxn(t, m)
    ensures ApplyAll(kv, RecordPuts(kv, p)) == kv.(nextTs := kv.nextTs + 1, txns := kv.txns[t := m])
  {
    var kv1, o := kv.(txns := kv.txns[t := m]), OraclePuts(kv.nextTs + 1, kv.nextTxn, kv.nextVid);
    var kv2 := kv.(nextTs := kv.nextTs + 1, txns := kv.txns[t := m]);
    assert ApplyAll(kv1, o) == kv2 by { OracleEffect(kv1, kv.nextTs + 1, kv.nextTxn, kv.nextVid); }
    assert ApplyAll(kv, RecordPuts(kv, p)) == kv2 by { ConsEffect(kv, p, o, kv1, kv2); }
  }

  lemma {:induction false} FinishEffect(kv: Kv, t: TxnId)
    ensures ApplyAll(kv, FinishPuts(kv, t)) == kv.(nextTs := kv.nextTs + 1, txns :=
        kv.txns[t := TxnMeta(Committed, kv.nextTs, [])])
  {
    var m := TxnMeta(Committed, kv.nextTs, []);
    RecordEffect(kv, t, m, PutTxn(t, m));
  }

  lemma {:induction false} FinishSafe(kv: Kv, t: TxnId)
    requires DurableInv(kv) && CommittingTxn(kv, t)
    requires forall w | w in kv.txns[t].writes :: Has(kv, w.key, w.id) && !Ver(kv, w.key, w.id).Provisional()
    ensures Safe(kv, FinishPuts(kv, t), {})
  {
    var ps := FinishPuts(kv, t);
    var kv1 := Apply(kv, ps[0]);
    var kv2 := Apply(kv1, ps[1]);
    FinishKeeps(kv, t);
    var kv3 := Apply(kv2, ps[2]);
    RaiseCountersKeeps(kv2, kv3);
    assert kv3 == kv2 && Apply(kv3, ps[3]) == kv3;
    forall n | 0 <= n <= |ps| ensures SafeAt(kv, ps, n, {}) {
      if n == 0 {
        assert ps[..0] == [];
      } else if n >= 2 {
        FinishPrefix(kv, ps, n);
      }
    }
  }

  lemma {:induction false} FinishPrefix(kv: Kv, ps: seq<Put>, n: nat)
    requires |ps| == 4 && 2 <= n <= 4
    requires Apply(Apply(Apply(kv, ps[0]), ps[1]), ps[2]) == Apply(Apply(kv, ps[0]), ps[1])
    requires Apply(Apply(Apply(kv, ps[0]), ps[1]), ps[3]) == Apply(Apply(kv, ps[0]), ps[1])
    ensures ApplyAll(kv, ps[..n]) == Apply(Apply(kv, ps[0]), ps[1])
  {
    assert ps[..2] == [ps[0]] + [ps[1]];
    ApplySnoc(kv, [ps[0]], ps[1]);
    assert ApplyAll(kv, [ps[0]]) == Apply(kv, ps[0]);
    if n >= 3 { assert ps[..3] == ps[..2] + [ps[2]]; ApplySnoc(kv, ps[..2], ps[2]); }
    if n == 4 { assert ps[..4] == ps[..3] + [ps[3]]; ApplySnoc(kv, ps[..3], ps[3]); }
  }

  // ---- Abort --------------------------------------------------------------------

  lemma {:induction false} AbortPuts(kv: Kv, t: TxnId, ws: seq<TxnWrite>)
    requires RestoreHeads(kv, ws).status == Ok
    ensures AbortOutcome(kv, t, ws) == Outcome(RestoreHeads(kv, ws).puts + [PutTxn(t, TxnMeta(Aborted, 0, []))], Ok)
    ensures var kv1 := ApplyAll(kv, RestoreHeads(kv, ws).puts);
            ApplyAll(kv, AbortOutcome(kv, t, ws).puts) == kv1.(txns := kv1.txns[t := TxnMeta(Aborted, 0, [])])
  {
    ApplySnoc(kv, RestoreHeads(kv, ws).puts, PutTxn(t, TxnMeta(Aborted, 0, [])));
  }

  lemma {:induction false} AbortSafe(kv: Kv, t: TxnId, ws: seq<TxnWrite>)
    requires DurableInv(kv) && t in kv.txns && kv.txns[t].state == Open
    requires WritesOwned(kv, t, ws) && DistinctKeys(ws)
    ensures AbortOutcome(kv, t, ws).status == Ok
    ensures Safe(kv, AbortOutcome(kv, t, ws).puts, {})
    ensures var kv' := ApplyAll(kv, AbortOutcome(kv, t, ws).puts);
            && kv'.txns == kv.txns[t := TxnMeta(Aborted, 0, [])]
            && Restored(kv, kv'.(txns := kv.txns), ws)
  {
    RestoreHeadsSafe(kv, t, ws);
    AbortPuts(kv, t, ws);
    var ps := RestoreHeads(kv, ws).puts;
    SafeEnds(kv, ps, {});
    AbortRecordKeeps(ApplyAll(kv, ps), t);
    SafeSnoc(kv, ps, PutTxn(t, TxnMeta(Aborted, 0, [])), {});
  }
}
