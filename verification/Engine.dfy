/** The database and transaction objects: the source's loops and field updates. Each method issues
    exactly the puts of its protocol function, in order, and so is one step of the machine. */
module Engine {
  import opened Values
  import opened VersionStore
  import opened Protocol
  import opened CrashSafety
  import opened RecoveryProof
  import opened LiveTxns
  import opened Ddl
  import opened DdlProof
  import opened SnapshotIsolation
  import opened IsolationTheorems
  import opened WriteTheorems
  import opened SchemaTheorems
  import opened KeyOrder

  /** A run that has issued `done` and is left with `rest`. */
  ghost predicate Continues(whole: Outcome, done: seq<Put>, rest: Outcome) {
    whole.puts == done + rest.puts && whole.status == rest.status
  }

  /** Between two iterations: `done` is issued and what is left is `rest`. */
  ghost predicate Progress(start: Kv, whole: Outcome, done: seq<Put>, kv: Kv, rest: Outcome) {
    kv == ApplyAll(start, done) && Continues(whole, done, rest)
  }

  lemma {:induction false} ProgressStep(start: Kv, whole: Outcome, done: seq<Put>, kv: Kv, mid: Outcome, ps: seq<Put>,
      kv': Kv, rest: Outcome)
    requires Progress(start, whole, done, kv, mid) && kv' == ApplyAll(kv, ps) && Continues(mid, ps, rest)
    ensures Progress(start, whole, done + ps, kv', rest)
  {
    ApplyAllConcat(start, done, ps);
  }

  lemma {:induction false} ProgressEnds(start: Kv, whole: Outcome, done: seq<Put>, kv: Kv, rest: Outcome)
    requires Progress(start, whole, done, kv, rest) && rest.puts == []
    ensures kv == ApplyAll(start, whole.puts) && done == whole.puts && whole.status == rest.status
  {
  }

  /** One iteration of the restore loop. */
  lemma {:induction false} RestoreIteration(start: Kv, ws: seq<TxnWrite>, i: nat, done: seq<Put>, kv: Kv, o: Outcome,
      kv': Kv)
    requires i < |ws| && Progress(start, RestoreHeads(start, ws), done, kv, RestoreHeads(kv, ws[..i + 1]))
    requires o == RestoreOne(kv, ws[i]) && kv' == ApplyAll(kv, o.puts)
    ensures o.status == Ok ==> Progress(start, RestoreHeads(start, ws), done + o.puts, kv', RestoreHeads(kv', ws[..i]))
    ensures o.status != Ok ==>
        kv' == ApplyAll(start, done + o.puts) && RestoreHeads(start, ws) == Outcome(done + o.puts, o.status)
  {
    assert ws[..i + 1][..i] == ws[..i];
    var rest := if o.status == Ok then RestoreHeads(kv', ws[..i]) else Outcome([], o.status);
    ProgressStep(start, RestoreHeads(start, ws), done, kv, RestoreHeads(kv, ws[..i + 1]), o.puts, kv', rest);
  }

  /** One iteration of the commit loop. */
  lemma {:induction false} ApplyIteration(start: Kv, t: TxnId, c: Timestamp, ws: seq<TxnWrite>, i: nat, done: seq<Put>,
      kv: Kv, o: Outcome, kv': Kv)
    requires i < |ws| && Progress(start, ApplyWrites(start, t, c, ws), done, kv, ApplyWrites(kv, t, c, ws[i..]))
    requires o == ApplyOne(kv, t, c, ws[i]) && kv' == ApplyAll(kv, o.puts)
    ensures o.status == Ok ==> Progress(start, ApplyWrites(start, t, c, ws), done + o.puts, kv',
        ApplyWrites(kv', t, c, ws[i + 1..]))
    ensures o.status != Ok ==>
        kv' == ApplyAll(start, done + o.puts) && ApplyWrites(start, t, c, ws) == Outcome(done + o.puts, o.status)
  {
    assert ws[i..][1..] == ws[i + 1..];
    var rest := if o.status == Ok then ApplyWrites(kv', t, c, ws[i + 1..]) else Outcome([], o.status);
    ProgressStep(start, ApplyWrites(start, t, c, ws), done, kv, ApplyWrites(kv, t, c, ws[i..]), o.puts, kv', rest);
  }

  predicate Seen(o: Outcome) { true }

  /** The recovery loop before transaction `id`. The bound variable keeps the unfolding of
      recovery out of proofs that only carry this fact along. */
  ghost predicate Recovering(start: Kv, whole: Outcome, done: seq<Put>, kv: Kv, id: TxnId, limit: TxnId) {
    forall rest {:trigger Seen(rest)} :: rest == RecoverFrom(kv, id, limit) ==> Progress(start, whole, done, kv, rest)
  }

  lemma {:induction false} RecoveringFirst(kv: Kv, limit: TxnId)
    ensures Recovering(kv, RecoverFrom(kv, 1, limit), [], kv, 1, limit)
  {
    forall rest | rest == RecoverFrom(kv, 1, limit) ensures Progress(kv, RecoverFrom(kv, 1, limit), [], kv, rest) {
      assert [] + rest.puts == rest.puts;
    }
  }

  lemma {:induction false} RecoveringNext(start: Kv, whole: Outcome, done: seq<Put>, kv: Kv, id: TxnId, limit: TxnId,
      o: Outcome, kv': Kv)
    requires id < limit && Recovering(start, whole, done, kv, id, limit)
    requires o == RecoverTxn(kv, id) && kv' == ApplyAll(kv, o.puts)
    ensures o.status == Ok ==> Recovering(start, whole, done + o.puts, kv', id + 1, limit)
    ensures o.status != Ok ==> kv' == ApplyAll(start, done + o.puts) && whole == Outcome(done + o.puts, o.status)
  {
    assert Seen(RecoverFrom(kv, id, limit));
    var rest := if o.status == Ok then RecoverFrom(kv', id + 1, limit) else Outcome([], o.status);
    ProgressStep(start, whole, done, kv, RecoverFrom(kv, id, limit), o.puts, kv', rest);
    if o.status != Ok { ProgressEnds(start, whole, done + o.puts, kv', rest); }
  }

  lemma {:induction false} RecoveringLast(start: Kv, whole: Outcome, done: seq<Put>, kv: Kv, id: TxnId, limit: TxnId)
    requires id >= limit && Recovering(start, whole, done, kv, id, limit)
    ensures kv == ApplyAll(start, done) && whole == Outcome(done, Ok)
  {
    assert Seen(RecoverFrom(kv, id, limit));
    ProgressEnds(start, whole, done, kv, Outcome([], Ok));
  }

  predicate CounterPut(p: Put) { p.PutNextTs? || p.PutNextTxn? || p.PutNextVid? }

  lemma {:induction false} SameCounters(kv: Kv, ps: seq<Put>)
    requires forall p | p in ps :: !CounterPut(p)
    ensures var kv' := ApplyAll(kv, ps);
            kv'.nextTs == kv.nextTs && kv'.nextTxn == kv.nextTxn && kv'.nextVid == kv.nextVid
    decreases |ps|
  {
    if ps != [] {
      assert ps[0] in ps && forall p | p in ps[1..] :: p in ps;
      SameCounters(Apply(kv, ps[0]), ps[1..]);
    }
  }

  lemma {:induction false} StampsNoCounter(kv: Kv, t: TxnId, c: Timestamp, ws: seq<TxnWrite>)
    ensures forall p | p in ApplyWrites(kv, t, c, ws).puts :: !CounterPut(p)
    decreases |ws|
  {
    if ws != [] { StampsNoCounter(ApplyAll(kv, ApplyOne(kv, t, c, ws[0]).puts), t, c, ws[1..]); }
  }

  lemma {:induction false} RestoresNoCounter(kv: Kv, ws: seq<TxnWrite>)
    ensures forall p | p in RestoreHeads(kv, ws).puts :: !CounterPut(p)
    decreases |ws|
  {
    if ws != [] { RestoresNoCounter(ApplyAll(kv, RestoreOne(kv, ws[|ws| - 1]).puts), ws[..|ws| - 1]); }
  }

  lemma {:induction false} RestoreStatus(kv: Kv, ws: seq<TxnWrite>)
    ensures RestoreHeads(kv, ws).status in {Ok, NotFound}
    decreases |ws|
  {
    if ws != [] { RestoreStatus(ApplyAll(kv, RestoreOne(kv, ws[|ws| - 1]).puts), ws[..|ws| - 1]); }
  }

  lemma {:induction false} ApplyStatus(kv: Kv, t: TxnId, c: Timestamp, ws: seq<TxnWrite>)
    ensures ApplyWrites(kv, t, c, ws).status in {Ok, NotFound, Corruption}
    decreases |ws|
  {
    if ws != [] { ApplyStatus(ApplyAll(kv, ApplyOne(kv, t, c, ws[0]).puts), t, c, ws[1..]); }
  }

  lemma {:induction false} JoinIssued(kv: Kv, log: seq<Put>, a: seq<Put>, p: Put, b: seq<Put>)
    ensures ApplyAll(kv, a + [p] + b) == ApplyAll(ApplyAll(kv, a), [p] + b)
    ensures log + (a + [p] + b) == log + a + ([p] + b)
  {
    assert a + [p] + b == a + ([p] + b);
    ApplyAllConcat(kv, a, [p] + b);
  }

  lemma {:induction false} JoinTail(kv: Kv, log: seq<Put>, a: seq<Put>, b: seq<Put>, p: Put)
    ensures ApplyAll(kv, a + b + [p]) == ApplyAll(ApplyAll(kv, a), b + [p])
    ensures log + (a + b + [p]) == log + a + b + [p]
  {
    assert a + b + [p] == a + (b + [p]);
    ApplyAllConcat(kv, a, b + [p]);
  }

  lemma {:induction false} AddLive(live: map<TxnId, Txn>, t: TxnId, x: Txn)
    ensures |live[t := x]| == if t in live then |live| else |live| + 1
  {
    assert live[t := x].Keys == live.Keys + {t};
  }

  lemma {:induction false} RemoveLive(live: map<TxnId, Txn>, t: TxnId)
    requires t in live
    ensures |live - {t}| == |live| - 1
  {
    assert (live - {t}).Keys == live.Keys - {t};
  }

  lemma {:induction false} OpensReady(contents: Kv)
    requires DurableInv(contents)
    ensures Recovery(contents).status == Ok && UpInv(Recovered(contents), map[])
  {
    RecoverySafe(contents, AllIntentKeys(contents));
    RecoveredQuiet(contents);
  }

  lemma {:induction false} NoneLive(live: map<TxnId, Txn>)
    requires |live| == 0
    ensures live == map[]
  {
    assert live.Keys == {};
  }

  /** A schema change that passes its checks succeeds and leaves a quiet store. */
  lemma {:induction false} AlterReady(kv: Kv, live: map<TxnId, Txn>, op: Op)
    requires UpInv(kv, live) && live == map[] && Descending(kv) && Enabled(kv, op)
    requires op.AlterAdd? ==> AddColumnCheck(kv, op.table, op.col, op.value) == Ok
    requires op.AlterDrop? ==> DropColumnCheck(kv, op.table, op.column) == Ok
    requires op.AlterAdd? || op.AlterDrop?
    ensures CallOutcome(kv, live, op).status == Ok
    ensures UpInv(ApplyAll(kv, CallOutcome(kv, live, op).puts), live)
  {
    if op.AlterAdd? {
      AlterKeeps(kv, op.table, op.keys, AddColumn(op.col, op.value));
    } else {
      AlterKeeps(kv, op.table, op.keys, DropColumn(DropIndex(kv, op.table, op.column)));
    }
  }

  /** Version ids match their keys, fall along prev links and lie below the counter. */
  ghost predicate Tidy(kv: Kv, vid: nat) {
    forall vk | vk in kv.versions :: kv.versions[vk].id == vk.id && kv.versions[vk].prev < vk.id < vid
  }

  /** A valid database meets what the schema changes ask for. */
  lemma {:induction false} ValidIsTidy(kv: Kv, live: map<TxnId, Txn>)
    requires UpInv(kv, live)
    ensures Tidy(kv, kv.nextVid) && Descending(kv)
  {
    forall vk | vk in kv.versions ensures kv.versions[vk].id == vk.id && kv.versions[vk].prev < vk.id < kv.nextVid {
      assert VersionOk(kv, vk);
    }
  }

  lemma {:induction false} PriorHeld(kv: Kv, k: RowKey, id: nat)
    requires Descending(kv)
    ensures var p := Prior(kv, k, id);
            p.Some? && !p.value.tombstone ==> exists i ::
                Has(kv, k, i) && Ver(kv, k, i) == p.value && !p.value.Provisional()
    decreases id
  {
    if Has(kv, k, id) && Ver(kv, k, id).Provisional() && Ver(kv, k, id).prev != 0 {
      PriorHeld(kv, k, Ver(kv, k, id).prev);
    }
  }

  lemma {:induction false} AlterOneTidy(kv: Kv, k: RowKey, c: Timestamp, vid: nat, was: TableSchema, a: Alteration)
    requires Descending(kv) && Tidy(kv, vid)
    ensures var o := AlterOne(kv, k, c, vid, was, a);
            Tidy(ApplyAll(kv, o.puts), if o.puts == [] then vid else vid + 1)
  {
    var o := AlterOne(kv, k, c, vid, was, a);
    if o.puts != [] {
      PriorHeld(kv, k, kv.heads[k]);
      var p := Prior(kv, k, kv.heads[k]).value;
      ApplyRewrite(kv, k, p.(endTs := c), Version(vid, c, 0, p.id, 0, false, NewRow(p.row, a)));
    }
  }

  predicate SeenPair(r: (Outcome, nat)) { true }

  /** The rewrite loop before key `i`. */
  ghost predicate Rewriting(start: Kv, whole: (Outcome, nat), done: seq<Put>, kv: Kv, ks: seq<RowKey>, i: nat,
                            c: Timestamp, vid: nat, was: TableSchema, a: Alteration)
    requires i <= |ks|
  {
    forall r {:trigger SeenPair(r)} :: r == AlterAll(kv, ks[i..], c, vid, was, a) ==>
      Progress(start, whole.0, done, kv, r.0) && whole.1 == r.1
  }

  lemma {:induction false} RewritingFirst(kv: Kv, ks: seq<RowKey>, c: Timestamp, vid: nat, was: TableSchema,
      a: Alteration)
    ensures Rewriting(kv, AlterAll(kv, ks, c, vid, was, a), [], kv, ks, 0, c, vid, was, a)
  {
    assert ks[0..] == ks;
    forall r | r == AlterAll(kv, ks, c, vid, was, a) ensures Progress(kv, AlterAll(kv, ks, c, vid, was, a).0, [], kv,
        r.0) {
      assert [] + r.0.puts == r.0.puts;
    }
  }

  lemma {:induction false} RewritingNext(start: Kv, whole: (Outcome, nat), done: seq<Put>, kv: Kv, ks: seq<RowKey>,
                                         i: nat, c: Timestamp, vid: nat, was: TableSchema, a: Alteration, o: Outcome,
                                         kv': Kv, vid': nat)
    requires i < |ks| && Rewriting(start, whole, done, kv, ks, i, c, vid, was, a) && Descending(kv)
    requires o == AlterOne(kv, ks[i], c, vid, was, a) && kv' == ApplyAll(kv, o.puts)
    requires vid' == if o.puts == [] then vid else vid + 1
    ensures o.status == Ok ==> Rewriting(start, whole, done + o.puts, kv', ks, i + 1, c, vid', was, a)
    ensures o.status != Ok ==> kv' == ApplyAll(start, done + o.puts) && whole.0 == Outcome(done + o.puts, o.status)
  {
    var mid := AlterAll(kv, ks[i..], c, vid, was, a);
    assert SeenPair(mid) && ks[i..][1..] == ks[i + 1..];
    var rest := if o.status == Ok then AlterAll(kv', ks[i + 1..], c, vid', was, a).0 else Outcome([], o.status);
    ProgressStep(start, whole.0, done, kv, mid.0, o.puts, kv', rest);
    if o.status != Ok { ProgressEnds(start, whole.0, done + o.puts, kv', rest); }
  }

  lemma {:induction false} RewritingLast(start: Kv, whole: (Outcome, nat), done: seq<Put>, kv: Kv, ks: seq<RowKey>,
                      c: Timestamp, vid: nat, was: TableSchema, a: Alteration)
    requires Rewriting(start, whole, done, kv, ks, |ks|, c, vid, was, a)
    ensures kv == ApplyAll(start, done) && whole == (Outcome(done, Ok), vid)
  {
    assert SeenPair(AlterAll(kv, ks[|ks|..], c, vid, was, a));
    ProgressEnds(start, whole.0, done, kv, Outcome([], Ok));
  }

  lemma {:induction false} InstallCounters(kv: Kv, a: Put, b: Put, c: Put)
    requires a.PutVersion? && b.PutHead? && c.PutTxn?
    ensures var kv' := Apply(Apply(Apply(kv, a), b), c);
            kv'.nextTs == kv.nextTs && kv'.nextTxn == kv.nextTxn && kv'.nextVid == kv.nextVid
  {
  }

  lemma {:induction false} ApplyNone(kv: Kv)
    ensures ApplyAll(kv, []) == kv
  {
  }

  class Database {
    var kv: Kv
    var nextTs: nat
    var nextTxnId: nat
    var nextVersionId: nat
    var openTxnCount: nat
    var ddlInProgress: bool
    /** Every put ever issued, in order: what a crash keeps is a prefix. */
    ghost var log: seq<Put>
    ghost var live: map<TxnId, Txn>

    constructor (contents: Kv)
      ensures kv == contents && log == [] && live == map[]
      ensures nextTs == nextTxnId == nextVersionId == 0 && openTxnCount == 0 && !ddlInProgress
    {
      kv, nextTs, nextTxnId, nextVersionId := contents, 0, 0, 0;
      openTxnCount, ddlInProgress, log, live := 0, false, [], map[];
    }

    /** The counters in memory are the durable ones. */
    ghost predicate Synced()
      reads this
    {
      kv.nextTs == nextTs && kv.nextTxn == nextTxnId && kv.nextVid == nextVersionId
    }

    ghost predicate Counted()
      reads this
    {
      Synced() && openTxnCount == |live|
    }

    /** What holds between calls. */
    ghost predicate Valid()
      reads this
    {
      Counted() && !ddlInProgress && UpInv(kv, live)
    }

    /** Since the start of the call exactly these puts were issued. */
    twostate predicate Issued(ps: seq<Put>)
      reads this
    {
      kv == ApplyAll(old(kv), ps) && log == old(log) + ps
    }

    method Put(p: Put)
      modifies `kv, `log
      ensures kv == Apply(old(kv), p) && log == old(log) + [p]
    {
      kv, log := Apply(kv, p), log + [p];
    }

    method PersistOracles()
      modifies `kv, `log
      ensures Issued(OraclePuts(nextTs, nextTxnId, nextVersionId))
      ensures kv == old(kv).(nextTs := nextTs, nextTxn := nextTxnId, nextVid := nextVersionId)
    {
      Put(PutNextTs(nextTs));
      Put(PutNextTxn(nextTxnId));
      Put(PutNextVid(nextVersionId));
      OracleEffect(old(kv), nextTs, nextTxnId, nextVersionId);
    }

    method InitOracles()
      modifies `kv, `log, `nextTs, `nextTxnId, `nextVersionId
      ensures Issued(InitPuts(old(kv))) && Synced() && kv == Initialized(old(kv))
    {
      nextTs := if kv.nextTs == 0 then 1 else kv.nextTs;
      nextTxnId := if kv.nextTxn == 0 then 1 else kv.nextTxn;
      nextVersionId := if kv.nextVid == 0 then 1 else kv.nextVid;
      PersistOracles();
    }

    /** Move one head back if it is still the listed version. */
    method RestoreHead(w: TxnWrite) returns (st: Status)
      modifies `kv, `log
      ensures Issued(RestoreOne(old(kv), w).puts) && st == RestoreOne(old(kv), w).status
    {
      if w.key !in kv.heads || kv.heads[w.key] != w.id { return Ok; }
      if !Has(kv, w.key, w.id) { return NotFound; }
      var prev := Ver(kv, w.key, w.id).prev;
      if prev == 0 {
        Put(ClearHead(w.key));
      } else {
        Put(PutHead(w.key, prev));
      }
      st := Ok;
    }

    /** Newest write first. */
    method RestoreHeads(ws: seq<TxnWrite>) returns (st: Status)
      modifies `kv, `log
      ensures Issued(Protocol.RestoreHeads(old(kv), ws).puts)
      ensures st == Protocol.RestoreHeads(old(kv), ws).status
    {
      hide RestoreOne, ApplyAll;
      ApplyNone(kv);
      var i := |ws|;
      ghost var start, whole, done: seq<Put> := kv, Protocol.RestoreHeads(kv, ws), [];
      assert ws[..|ws|] == ws;
      while i > 0
        invariant 0 <= i <= |ws|
        invariant log == old(log) + done
        invariant Progress(start, whole, done, kv, Protocol.RestoreHeads(kv, ws[..i]))
      {
        i := i - 1;
        ghost var before := kv;
        st := RestoreHead(ws[i]);
        ghost var o := RestoreOne(before, ws[i]);
        RestoreIteration(start, ws, i, done, before, o, kv);
        done := done + o.puts;
        if st != Ok { return; }
      }
      ProgressEnds(start, whole, done, kv, Outcome([], Ok));
      st := Ok;
    }

    /** Close the predecessor of one write, then stamp it, unless that was done before. */
    method StampWrite(t: TxnId, c: Timestamp, w: TxnWrite) returns (st: Status)
      modifies `kv, `log
      ensures Issued(ApplyOne(old(kv), t, c, w).puts) && st == ApplyOne(old(kv), t, c, w).status
    {
      if !Has(kv, w.key, w.id) { return NotFound; }
      var v := Ver(kv, w.key, w.id);
      if v.createdBy != t { return Corruption; }
      if !v.Provisional() {
        if v.startTs != c { return Corruption; }
        return Ok;
      }
      var stamp := PutVersion(w.key, v.(startTs := c));
      if v.prev != 0 && Has(kv, w.key, v.prev) {
        var prev := Ver(kv, w.key, v.prev);
        if !prev.Provisional() && prev.endTs == 0 {
          var close := PutVersion(w.key, prev.(endTs := c));
          Put(close);
          ApplyTwo(old(kv), close, stamp);
        }
      }
      Put(stamp);
      st := Ok;
    }

    /** Idempotent: a second run over the same writes changes nothing. */
    method ApplyCommitWrites(t: TxnId, c: Timestamp, ws: seq<TxnWrite>) returns (st: Status)
      modifies `kv, `log
      ensures Issued(ApplyWrites(old(kv), t, c, ws).puts)
      ensures st == ApplyWrites(old(kv), t, c, ws).status
    {
      hide ApplyOne, ApplyAll;
      ApplyNone(kv);
      var i := 0;
      ghost var start, whole, done: seq<Put> := kv, ApplyWrites(kv, t, c, ws), [];
      while i < |ws|
        invariant 0 <= i <= |ws|
        invariant log == old(log) + done
        invariant Progress(start, whole, done, kv, ApplyWrites(kv, t, c, ws[i..]))
      {
        ghost var before, o := kv, ApplyOne(kv, t, c, ws[i]);
        st := StampWrite(t, c, ws[i]);
        assert Progress(start, whole, done, before, ApplyWrites(before, t, c, ws[i..]));
        assert kv == ApplyAll(before, o.puts) && st == o.status;
        ApplyIteration(start, t, c, ws, i, done, before, o, kv);
        done, i := done + o.puts, i + 1;
        if st != Ok { return; }
      }
      assert ws[i..] == [];
      ProgressEnds(start, whole, done, kv, Outcome([], Ok));
      st := Ok;
    }

    /** Redo a durable intent and pass the clock over it. */
    method RedoCommit(id: TxnId, m: TxnMeta) returns (st: Status)
      requires Synced() && id in kv.txns && kv.txns[id] == m && m.state == Committing && m.commitTs != 0
      modifies `kv, `log, `nextTs
      ensures Issued(Protocol.RecoverTxn(old(kv), id).puts) && st == Protocol.RecoverTxn(old(kv), id).status
      ensures st == Ok ==> Synced()
    {
      st := ApplyCommitWrites(id, m.commitTs, m.writes);
      if st != Ok { return; }
      ghost var a, p := ApplyWrites(old(kv), id, m.commitTs, m.writes).puts,
          PutTxn(id, TxnMeta(Committed, m.commitTs, []));
      StampsNoCounter(old(kv), id, m.commitTs, m.writes);
      SameCounters(old(kv), a);
      Put(PutTxn(id, TxnMeta(Committed, m.commitTs, [])));
      ApplySnoc(old(kv), a, p);
      if m.commitTs >= nextTs {
        nextTs := m.commitTs + 1;
        ApplyAllConcat(old(kv), a + [p], OraclePuts(nextTs, nextTxnId, nextVersionId));
        PersistOracles();
      } else {
        assert a + [p] + [] == a + [p];
      }
    }

    /** Put the heads back, then mark aborted. */
    method RollBack(id: TxnId, ws: seq<TxnWrite>) returns (st: Status)
      modifies `kv, `log
      ensures Issued(AbortOutcome(old(kv), id, ws).puts) && st == AbortOutcome(old(kv), id, ws).status
      ensures st == Ok && old(Synced()) ==> Synced()
    {
      st := RestoreHeads(ws);
      if st != Ok { return; }
      ghost var a := Protocol.RestoreHeads(old(kv), ws).puts;
      RestoresNoCounter(old(kv), ws);
      SameCounters(old(kv), a);
      Put(PutTxn(id, TxnMeta(Aborted, 0, [])));
      ApplySnoc(old(kv), a, PutTxn(id, TxnMeta(Aborted, 0, [])));
    }

    /** Finish one transaction found on reopening. */
    method RecoverTxn(id: TxnId) returns (st: Status)
      requires Synced()
      modifies `kv, `log, `nextTs
      ensures Issued(Protocol.RecoverTxn(old(kv), id).puts) && st == Protocol.RecoverTxn(old(kv), id).status
      ensures st == Ok ==> Synced()
    {
      if id !in kv.txns { return Ok; }
      var m := kv.txns[id];
      if m.state == Committing {
        if m.commitTs == 0 { return Corruption; }
        st := RedoCommit(id, m);
      } else if m.state == TxnState.Open {
        st := RollBack(id, m.writes);
      } else {
        st := Ok;
      }
    }

    method RecoverTxns() returns (st: Status)
      requires Synced()
      modifies `kv, `log, `nextTs
      ensures Issued(RecoverFrom(old(kv), 1, nextTxnId).puts) && st == RecoverFrom(old(kv), 1, nextTxnId).status
      ensures st == Ok ==> Synced()
    {
      var id := 1;
      ghost var start, whole, done: seq<Put> := kv, RecoverFrom(kv, 1, nextTxnId), [];
      RecoveringFirst(kv, nextTxnId);
      while id < nextTxnId
        invariant 1 <= id && Synced()
        invariant log == old(log) + done
        invariant Recovering(start, whole, done, kv, id, nextTxnId)
      {
        ghost var before, o := kv, Protocol.RecoverTxn(kv, id);
        st := RecoverTxn(id);
        assert kv == ApplyAll(before, o.puts) && st == o.status;
        RecoveringNext(start, whole, done, before, id, nextTxnId, o, kv);
        done, id := done + o.puts, id + 1;
        if st != Ok { return; }
      }
      RecoveringLast(start, whole, done, kv, id, nextTxnId);
      st := Ok;
    }

    /** Open an existing store. From any contents a crash can leave, it succeeds and the database
        is ready to run. */
    static method Open(contents: Kv) returns (st: Status, db: Database)
      ensures fresh(db) && db.log == Recovery(contents).puts && db.kv == Recovered(contents)
      ensures st == Recovery(contents).status
      ensures DurableInv(contents) ==> st == Ok && db.Valid() && db.live == map[]
    {
      hide RecoverFrom, ApplyAll, UpInv, DurableInv;
      db := new Database(contents);
      db.InitOracles();
      st := db.RecoverTxns();
      ApplyAllConcat(contents, InitPuts(contents), RecoverFrom(Initialized(contents), 1, db.nextTxnId).puts);
      if DurableInv(contents) { OpensReady(contents); }
    }

    /** A fresh snapshot just below the clock; refused while a schema change runs. */
    method Begin() returns (st: Status, txn: Transaction?)
      requires Counted() && nextTs > 0 && nextTxnId !in live
      modifies `kv, `log, `nextTxnId, `openTxnCount, `live
      ensures ddlInProgress ==> st == InvalidArgument && txn == null && unchanged(this)
      ensures !ddlInProgress ==>
                && st == Ok && txn != null && fresh(txn) && txn.db == this && txn.Handle() && !txn.finished
                && txn.txnId == old(nextTxnId) && txn.startTs == nextTs - 1 && txn.written == []
                && Counted() && Issued(BeginPuts(old(kv)))
                && live == old(live)[old(nextTxnId) := Txn(old(nextTxnId), nextTs - 1, [])]
      ensures old(Valid()) ==> Valid()
    {
      hide UpInv;
      if ddlInProgress { return InvalidArgument, null; }
      var id, startTs := nextTxnId, nextTs - 1;
      nextTxnId := nextTxnId + 1;
      PersistOracles();
      Put(PutTxn(id, TxnMeta(TxnState.Open, 0, [])));
      ApplySnoc(old(kv), OraclePuts(nextTs, nextTxnId, nextVersionId), PutTxn(id, TxnMeta(TxnState.Open, 0, [])));
      txn := new Transaction(this, id, startTs);
      AddLive(live, id, Txn(id, startTs, []));
      live := live[id := Txn(id, startTs, [])];
      openTxnCount := openTxnCount + 1;
      st := Ok;
      if old(Valid()) { BeginKeeps(old(kv), old(live)); }
    }

    method MarkFinished(txn: Transaction)
      requires txn.db == this && txn.Handle() && !txn.finished && openTxnCount == |live|
      modifies `openTxnCount, `live, txn`finished
      ensures txn.finished && live == old(live) - {txn.txnId} && openTxnCount == |live| && txn.Handle()
    {
      RemoveLive(live, txn.txnId);
      txn.finished, live, openTxnCount := true, live - {txn.txnId}, openTxnCount - 1;
    }

    /** The re-check of every write before a commit timestamp is taken. */
    method CheckWrites(startTs: Timestamp, ws: seq<TxnWrite>) returns (c: Check)
      ensures c == CheckAll(kv, startTs, ws)
      ensures c.Fail? ==> c.status == NotFound
    {
      for i := 0 to |ws|
        invariant CheckAll(kv, startTs, ws) == CheckAll(kv, startTs, ws[i..])
      {
        var w := ws[i];
        assert ws[i..][0] == w && ws[i..][1..] == ws[i + 1..];
        if w.key !in kv.heads { return Fail(NotFound); }
        if kv.heads[w.key] != w.id { return Lost; }
        if !Has(kv, w.key, w.id) { return Fail(NotFound); }
        var p := Ver(kv, w.key, w.id).prev;
        if p != 0 && Has(kv, w.key, p) {
          var prev := Ver(kv, w.key, p);
          if !prev.Provisional() && prev.startTs > startTs { return Lost; }
        }
      }
      c := Pass;
    }

    /** The durable intent before any stamp. */
    method Prepare(t: TxnId, c: Timestamp, ws: seq<TxnWrite>) returns (st: Status)
      modifies `kv, `log
      ensures var intent := PutTxn(t, TxnMeta(Committing, c, ws));
              var o := ApplyWrites(Apply(old(kv), intent), t, c, ws);
              Issued([intent] + o.puts) && st == o.status && st in {Ok, NotFound, Corruption}
    {
      var intent := PutTxn(t, TxnMeta(Committing, c, ws));
      Put(intent);
      ghost var a := ApplyWrites(kv, t, c, ws).puts;
      ApplyStatus(kv, t, c, ws);
      ApplyCons(old(kv), intent, a);
      st := ApplyCommitWrites(t, c, ws);
      assert log == old(log) + ([intent] + a);
    }

    /** The record, then the counters with the clock past it. */
    method Record(p: Put)
      modifies `kv, `log
      ensures Issued([p] + OraclePuts(nextTs, nextTxnId, nextVersionId)) && Synced()
    {
      Put(p);
      ghost var b := OraclePuts(nextTs, nextTxnId, nextVersionId);
      PersistOracles();
      ApplyCons(old(kv), p, b);
      assert log == old(log) + ([p] + b);
    }

    /** The intent, the stamps, the record, the counters. */
    method FinishCommit(x: Txn) returns (st: Status)
      requires Synced()
      modifies `kv, `log, `nextTs
      ensures Issued(FinishOutcome(old(kv), x).puts) && st == FinishOutcome(old(kv), x).status
      ensures st == Ok ==> Synced()
      ensures st in {Ok, NotFound, Corruption}
    {
      var c := nextTs;
      nextTs := nextTs + 1;
      st := Prepare(x.id, c, x.written);
      if st != Ok { return; }
      ghost var intent := PutTxn(x.id, TxnMeta(Committing, c, x.written));
      ghost var a := [intent] + ApplyWrites(Apply(old(kv), intent), x.id, c, x.written).puts;
      assert kv == ApplyAll(old(kv), a) && log == old(log) + a;
      var record := PutTxn(x.id, TxnMeta(Committed, c, []));
      Record(record);
      ghost var b := OraclePuts(nextTs, nextTxnId, nextVersionId);
      JoinIssued(old(kv), old(log), a, record, b);
    }

    /** Walk the chain of a row to what the reader may see. */
    method GetRow(k: RowKey, snapshot: Timestamp, reader: TxnId) returns (r: Read)
      requires Descending(kv)
      ensures r == ReadRow(kv, k, snapshot, reader)
      ensures r.Failed? ==> r.status == Corruption
    {
      if k !in kv.heads { return Missing; }
      var id := kv.heads[k];
      while id != 0
        invariant ReadRow(kv, k, snapshot, reader) == ReadFrom(kv, k, id, snapshot, reader)
        decreases id
      {
        if !Has(kv, k, id) { return Missing; }
        var v := Ver(kv, k, id);
        var visible := false;
        if v.Provisional() {
          if v.createdBy == reader {
            visible := true;
          } else {
            if v.createdBy !in kv.txns { return Missing; }
            if kv.txns[v.createdBy].state == Committed { return Failed(Corruption); }
          }
        } else {
          visible := IsCommittedVisible(v, snapshot);
        }
        if visible { return if v.tombstone then Missing else Found(v.row); }
        id := v.prev;
      }
      r := Missing;
    }

    /** First committer wins: the newest committed version must not be newer than the snapshot. */
    method CheckChain(k: RowKey, head: nat, x: Txn) returns (st: Status)
      requires Descending(kv)
      ensures st == WalkConflict(kv, k, head, x)
    {
      var walk := head;
      while walk != 0
        invariant WalkConflict(kv, k, head, x) == WalkConflict(kv, k, walk, x)
        decreases walk
      {
        if !Has(kv, k, walk) { return NotFound; }
        var v := Ver(kv, k, walk);
        if !v.Provisional() {
          if v.startTs > x.startTs { return Conflict; }
          return Ok;
        }
        if v.createdBy != x.id {
          if v.createdBy !in kv.txns { return NotFound; }
          var m := kv.txns[v.createdBy];
          if m.state == Committed && m.commitTs > x.startTs { return Conflict; }
        }
        walk := v.prev;
      }
      st := Ok;
    }

    /** Whether a key the transaction does not hold yet may be written, and on top of what. */
    method CheckInstall(k: RowKey, x: Txn, op: WriteOp) returns (st: Status, prev: nat)
      requires Descending(kv)
      ensures InstallPlan(kv, k, x, op) == if st == Ok then Install(prev) else Refuse(st)
    {
      if k !in kv.heads { return if op.Insert? then Ok else NotFound, 0; }
      var head := kv.heads[k];
      prev := head;
      if !Has(kv, k, head) { return NotFound, 0; }
      var h := Ver(kv, k, head);
      if h.Provisional() {
        if h.createdBy !in kv.txns { return NotFound, 0; }
        var state := kv.txns[h.createdBy].state;
        if state == TxnState.Open && h.createdBy != x.id { return Conflict, 0; }
        if state == TxnState.Open && h.createdBy == x.id { return Corruption, 0; }
        if state == Aborted { prev := h.prev; }
      }
      st := CheckChain(k, head, x);
      if st != Ok { return; }
      var g := GetRow(k, x.startTs, x.id);
      if op.Insert? {
        if g.Found? { return InvalidArgument, 0; }
        if g.Failed? { return g.status, 0; }
      } else {
        if g.Missing? { return NotFound, 0; }
        if g.Failed? { return g.status, 0; }
      }
    }

    /** Commit. In a running database it always succeeds and the running invariant stays. */
    method CommitTransaction(txn: Transaction) returns (st: Status)
      requires txn.db == this && txn.Handle() && Counted()
      modifies `kv, `log, `nextTs, `openTxnCount, `live, txn`finished
      ensures old(txn.finished) ==> st == InvalidArgument && unchanged(this) && unchanged(txn)
      ensures !old(txn.finished) ==>
                var o := CommitOutcome(old(kv), Txn(txn.txnId, txn.startTs, txn.written));
                Issued(o.puts) && st == o.status
      ensures !old(txn.finished) && st in {Ok, Conflict} ==>
                txn.finished && live == old(live) - {txn.txnId} && Counted() && txn.Handle()
      ensures !old(txn.finished) && old(Valid()) ==> st == Ok && Valid()
    {
      if txn.finished { return InvalidArgument; }
      var x := Txn(txn.txnId, txn.startTs, txn.written);
      if Valid() {
        CommitPuts(kv, live, x.id);
        CommitKeeps(kv, live, x.id);
      }
      var check := CheckWrites(x.startTs, x.written);
      if check.Fail? { return check.status; }
      if check == Lost {
        RestoreStatus(kv, x.written);
        st := RollBack(x.id, x.written);
        if st != Ok { return; }
        MarkFinished(txn);
        return Conflict;
      }
      st := FinishCommit(x);
      if st != Ok { return; }
      MarkFinished(txn);
    }

    /** Abort. Finished already is fine. */
    method AbortTransaction(txn: Transaction) returns (st: Status)
      requires txn.db == this && txn.Handle() && Counted()
      modifies `kv, `log, `openTxnCount, `live, txn`finished
      ensures old(txn.finished) ==> st == Ok && unchanged(this) && unchanged(txn)
      ensures !old(txn.finished) ==>
                var o := AbortOutcome(old(kv), txn.txnId, txn.written);
                Issued(o.puts) && st == o.status
      ensures !old(txn.finished) && st == Ok ==>
                txn.finished && live == old(live) - {txn.txnId} && Counted() && txn.Handle()
      ensures !old(txn.finished) && old(Valid()) ==> st == Ok && Valid()
    {
      if txn.finished { return Ok; }
      if Valid() { AbortKeeps(kv, live, txn.txnId); }
      st := RollBack(txn.txnId, txn.written);
      if st != Ok { return; }
      MarkFinished(txn);
    }

    // ---- Schema changes ---------------------------------------------------------------

    /** The row keys under a table's head prefix, each once, in the order of their encoding. */
    method CollectHeads(table: Bytes) returns (ks: seq<RowKey>)
      ensures Distinct(ks) && KeyOrdered(ks) && forall k :: k in ks <==> k in kv.heads && k.table == table
    {
      var all := set k | k in kv.heads && k.table == table;
      var rest := all;
      ks := [];
      while rest != {}
        invariant rest <= all && Distinct(ks) && KeyOrdered(ks)
        invariant forall k :: k in all <==> k in rest || k in ks
        invariant forall k | k in ks :: k !in rest
        invariant forall j, k | j in ks && k in rest :: !KeyBefore(k, j)
        decreases |rest|
      {
        HasFirst(rest);
        var k :| k in rest && IsFirst(rest, k);
        OrderedSnoc(ks, k);
        ks, rest := ks + [k], rest - {k};
      }
    }

    method CollectVersions(table: Bytes) returns (vks: seq<VKey>)
      ensures forall vk :: vk in vks <==> vk in kv.versions && vk.key.table == table
    {
      var all := set vk | vk in kv.versions && vk.key.table == table;
      var rest := all;
      vks := [];
      while rest != {}
        invariant rest <= all
        invariant forall vk :: vk in all <==> vk in rest || vk in vks
        decreases |rest|
      {
        var vk :| vk in rest;
        vks, rest := vks + [vk], rest - {vk};
      }
    }

    /** Issue a list of puts one by one. */
    method PutAll(ps: seq<Put>)
      modifies `kv, `log
      ensures Issued(ps)
    {
      for i := 0 to |ps|
        invariant Issued(ps[..i])
      {
        ApplySnoc(old(kv), ps[..i], ps[i]);
        assert ps[..i + 1] == ps[..i] + [ps[i]];
        Put(ps[i]);
      }
      assert ps[..|ps|] == ps;
    }

    method CreateTable(schema: TableSchema) returns (st: Status)
      requires Counted() && Descending(kv)
      modifies `kv, `log, `ddlInProgress
      ensures old(ddlInProgress) ==> st == InvalidArgument && unchanged(this)
      ensures !old(ddlInProgress) ==>
                var o := CallOutcome(old(kv), live, Op.CreateTable(schema));
                st == o.status && Issued(o.puts)
      ensures ddlInProgress == old(ddlInProgress) && (old(Valid()) ==> Valid())
    {
      if openTxnCount != 0 { return InvalidArgument; }
      if ddlInProgress { return InvalidArgument; }
      assert live == map[] by { NoneLive(live); }
      if Valid() { DdlKeeps(kv, Op.CreateTable(schema)); }
      ddlInProgress := true;
      if !ValidSchema(schema) || schema.name in kv.catalog {
        st := InvalidArgument;
      } else {
        Put(PutTable(schema));
        st := Ok;
      }
      ddlInProgress := false;
    }

    /** The keys under both prefixes of a table. */
    method CollectTable(name: Bytes) returns (hs: seq<RowKey>, vs: seq<VKey>)
      ensures Collected(kv, name, hs, vs)
    {
      hs := CollectHeads(name);
      vs := CollectVersions(name);
    }

    /** The catalog entry goes first, then heads, then versions. */
    method DropTable(name: Bytes) returns (st: Status, ghost op: Op)
      requires Counted() && Descending(kv)
      modifies `kv, `log, `ddlInProgress
      ensures old(ddlInProgress) || openTxnCount != 0 ==> st == InvalidArgument && unchanged(this)
      ensures !old(ddlInProgress) && openTxnCount == 0 ==>
                var o := CallOutcome(old(kv), live, op);
                op.DropTable? && op.table == name && Enabled(old(kv), op) && st == o.status && Issued(o.puts)
      ensures ddlInProgress == old(ddlInProgress) && (old(Valid()) ==> Valid())
    {
      hide UpInv, ApplyAll, Collected, DeletePuts;
      ApplyNone(kv);
      op := Op.Begin;
      if openTxnCount != 0 { return InvalidArgument, op; }
      if ddlInProgress { return InvalidArgument, op; }
      assert live == map[] by { NoneLive(live); }
      ghost var wasQuiet := UpInv(kv, live);
      ddlInProgress := true;
      var hs, vs := CollectTable(name);
      op := Op.DropTable(name, hs, vs);
      if name !in kv.catalog {
        st := NotFound;
      } else {
        if wasQuiet { DropKeeps(kv, name); }
        EraseTable(name, hs, vs);
        st := Ok;
      }
      ddlInProgress := false;
    }

    method EraseTable(name: Bytes, hs: seq<RowKey>, vs: seq<VKey>)
      requires name in kv.catalog && Collected(kv, name, hs, vs)
      modifies `kv, `log
      ensures Issued(DropOutcome(old(kv), name, hs, vs).puts) && kv == DroppedKv(old(kv), name)
    {
      var ps := DeletePuts(hs, vs);
      DropEffect(kv, name, hs, vs);
      ApplyCons(kv, DeleteTable(name), ps);
      Put(DeleteTable(name));
      PutAll(ps);
      assert log == old(log) + ([DeleteTable(name)] + ps);
    }

    /** Step below provisional versions. */
    method FindPrior(k: RowKey, head: nat) returns (p: Option<Version>)
      requires Descending(kv)
      ensures p == Prior(kv, k, head)
    {
      if !Has(kv, k, head) { return None; }
      var id, prior := head, Ver(kv, k, head);
      while prior.Provisional()
        invariant Has(kv, k, id) && prior == Ver(kv, k, id) && Prior(kv, k, head) == Prior(kv, k, id)
        decreases id
      {
        if prior.prev == 0 { return Some(prior.(tombstone := true)); }
        if !Has(kv, k, prior.prev) { return None; }
        id := prior.prev;
        prior := Ver(kv, k, id);
      }
      p := Some(prior);
    }

    /** The cells of a row at the new width. */
    method AlteredCells(row: Row, a: Alteration) returns (cells: Row)
      ensures cells == NewRow(row, a)
    {
      match a {
        case AddColumn(_, v) => cells := row + [v];
        case DropColumn(drop) =>
          cells := [];
          for i := 0 to |row|
            invariant cells == if drop < i then RemoveAt(row[..i], drop) else row[..i]
          {
            if i != drop { cells := cells + [row[i]]; }
          }
          assert row[..|row|] == row;
      }
    }

    /** Rewrite the newest committed version of one row at the new width. */
    method RewriteRow(k: RowKey, c: Timestamp, was: TableSchema, a: Alteration) returns (st: Status)
      requires Descending(kv)
      modifies `kv, `log, `nextVersionId
      ensures var o := AlterOne(old(kv), k, c, old(nextVersionId), was, a);
              && st == o.status && Issued(o.puts)
              && nextVersionId == if o.puts == [] then old(nextVersionId) else old(nextVersionId) + 1
    {
      if k !in kv.heads { return NotFound; }
      var found := FindPrior(k, kv.heads[k]);
      if found.None? { return NotFound; }
      var prior, neu := found.value, NewSchema(was, a);
      if prior.tombstone || prior.endTs != 0 { return Ok; }
      if |prior.row| == |neu.columns| { return Ok; }
      if |prior.row| != |was.columns| { return Corruption; }
      var row := AlteredCells(prior.row, a);
      if !ValidateAgainst(row, neu) { return InvalidArgument; }
      var close, newest := PutVersion(k, prior.(endTs := c)), Version(nextVersionId, c, 0, prior.id, 0, false, row);
      Put(close);
      nextVersionId := nextVersionId + 1;
      Put(PutVersion(k, newest));
      Put(PutHead(k, newest.id));
      ApplyRewrite(old(kv), k, prior.(endTs := c), newest);
      assert log == old(log) + [close, PutVersion(k, newest), PutHead(k, newest.id)];
      st := Ok;
    }

    method RewriteRows(ks: seq<RowKey>, c: Timestamp, was: TableSchema, a: Alteration) returns (st: Status)
      requires Tidy(kv, nextVersionId)
      modifies `kv, `log, `nextVersionId
      ensures var r := AlterAll(old(kv), ks, c, old(nextVersionId), was, a);
              st == r.0.status && Issued(r.0.puts) && (st == Ok ==> nextVersionId == r.1)
    {
      hide AlterAll, AlterOne, ApplyAll, Rewriting;
      ghost var start, whole, done: seq<Put> := kv, AlterAll(kv, ks, c, nextVersionId, was, a), [];
      RewritingFirst(kv, ks, c, nextVersionId, was, a);
      for i := 0 to |ks|
        invariant Tidy(kv, nextVersionId) && log == old(log) + done
        invariant Rewriting(start, whole, done, kv, ks, i, c, nextVersionId, was, a)
      {
        assert Descending(kv);
        ghost var before, vid, o := kv, nextVersionId, AlterOne(kv, ks[i], c, nextVersionId, was, a);
        AlterOneTidy(kv, ks[i], c, vid, was, a);
        st := RewriteRow(ks[i], c, was, a);
        assert kv == ApplyAll(before, o.puts) && st == o.status;
        RewritingNext(start, whole, done, before, ks, i, c, vid, was, a, o, kv, nextVersionId);
        done := done + o.puts;
        if st != Ok { return; }
      }
      RewritingLast(start, whole, done, kv, ks, c, nextVersionId, was, a);
      st := Ok;
    }

    /** The rewrite, then the counters, then the new schema. */
    method AlterTable(table: Bytes, ks: seq<RowKey>, a: Alteration) returns (st: Status)
      requires Synced() && Tidy(kv, nextVersionId) && table in kv.catalog
      modifies `kv, `log, `nextTs, `nextVersionId
      ensures st == AlterOutcome(old(kv), table, ks, a).status && Issued(AlterOutcome(old(kv), table, ks, a).puts)
      ensures st == Ok ==> Synced()
    {
      var was, c := kv.catalog[table], nextTs;
      nextTs := nextTs + 1;
      st := RewriteRows(ks, c, was, a);
      if st != Ok { return; }
      ghost var kv1, ps := kv, AlterAll(old(kv), ks, c, old(nextVersionId), was, a).0.puts;
      PersistOracles();
      Put(PutTable(NewSchema(was, a)));
      ghost var b, p := OraclePuts(nextTs, nextTxnId, nextVersionId), PutTable(NewSchema(was, a));
      ApplySnoc(kv1, b, p);
      JoinTail(old(kv), old(log), ps, b, p);
    }

    /** ADD COLUMN: argument checks, the gate, the schema checks, the rewrite. */
    method AlterTableAddColumn(table: Bytes, col: ColumnDef, value: Value) returns (st: Status, ghost op: Op)
      requires Counted() && Tidy(kv, nextVersionId) && Descending(kv)
      modifies `kv, `log, `nextTs, `nextVersionId, `ddlInProgress
      ensures old(ddlInProgress) || openTxnCount != 0 ==> st == InvalidArgument && unchanged(this)
      ensures !old(ddlInProgress) && openTxnCount == 0 ==>
                && op.AlterAdd? && op.table == table && op.col == col && op.value == value && Enabled(old(kv), op)
                && st == CallOutcome(old(kv), live, op).status && Issued(CallOutcome(old(kv), live, op).puts)
      ensures st == Ok && old(Valid()) ==> Altered(old(kv), kv, table, AddColumn(col, value))
      ensures ddlInProgress == old(ddlInProgress) && (old(Valid()) ==> Valid())
    {
      op := Op.Begin;
      if openTxnCount != 0 || ddlInProgress { return InvalidArgument, op; }
      var ks := CollectHeads(table);
      op := AlterAdd(table, col, value, ks);
      assert live == map[] by { NoneLive(live); }
      if col.name == [] || col.primaryKey || value == Null || value.Type() != col.typ { return InvalidArgument, op; }
      if table !in kv.catalog { return NotFound, op; }
      if ColumnIndex(kv.catalog[table].columns, col.name) >= 0 { return InvalidArgument, op; }
      if !ValidSchema(NewSchema(kv.catalog[table], AddColumn(col, value))) { return InvalidArgument, op; }
      if Valid() {
        AlterReady(kv, live, op);
        AlterMeans(kv, table, ks, AddColumn(col, value));
      }
      ddlInProgress := true;
      st := AlterTable(table, ks, AddColumn(col, value));
      ddlInProgress := false;
    }

    /** DROP COLUMN: the same with the column's cell removed. */
    method AlterTableDropColumn(table: Bytes, column: Bytes) returns (st: Status, ghost op: Op)
      requires Counted() && Tidy(kv, nextVersionId) && Descending(kv)
      modifies `kv, `log, `nextTs, `nextVersionId, `ddlInProgress
      ensures old(ddlInProgress) || openTxnCount != 0 ==> st == InvalidArgument && unchanged(this)
      ensures !old(ddlInProgress) && openTxnCount == 0 ==>
                && op.AlterDrop? && op.table == table && op.column == column && Enabled(old(kv), op)
                && st == CallOutcome(old(kv), live, op).status && Issued(CallOutcome(old(kv), live, op).puts)
      ensures st == Ok && old(Valid()) ==>
                Altered(old(kv), kv, table, DropColumn(DropIndex(old(kv), table, column)))
      ensures ddlInProgress == old(ddlInProgress) && (old(Valid()) ==> Valid())
    {
      op := Op.Begin;
      if openTxnCount != 0 || ddlInProgress { return InvalidArgument, op; }
      var ks := CollectHeads(table);
      op := AlterDrop(table, column, ks);
      assert live == map[] by { NoneLive(live); }
      if column == [] { return InvalidArgument, op; }
      if table !in kv.catalog { return NotFound, op; }
      var i := ColumnIndex(kv.catalog[table].columns, column);
      if i < 0 || kv.catalog[table].columns[i].primaryKey { return InvalidArgument, op; }
      if !ValidSchema(NewSchema(kv.catalog[table], DropColumn(i))) { return InvalidArgument, op; }
      if Valid() {
        AlterReady(kv, live, op);
        AlterMeans(kv, table, ks, DropColumn(i));
      }
      ddlInProgress := true;
      st := AlterTable(table, ks, DropColumn(i));
      ddlInProgress := false;
    }
  }

  class Transaction {
    const db: Database
    const txnId: TxnId
    const startTs: Timestamp
    var finished: bool
    var written: seq<TxnWrite>

    constructor (db: Database, txnId: TxnId, startTs: Timestamp)
      ensures this.db == db && this.txnId == txnId && this.startTs == startTs && !finished && written == []
    {
      this.db, this.txnId, this.startTs, finished, written := db, txnId, startTs, false, [];
    }

    /** The database knows this handle as it is. */
    ghost predicate Handle()
      reads this, db
    {
      if finished then txnId !in db.live
      else txnId in db.live && db.live[txnId] == Txn(txnId, startTs, written)
    }

    method FindWritten(k: RowKey) returns (found: bool, id: nat)
      ensures found == Holds(written, k) && (found ==> id == HeldId(written, k))
    {
      for i := 0 to |written|
        invariant forall j | 0 <= j < i :: written[j].key != k
        invariant HeldId(written, k) == HeldId(written[i..], k)
      {
        if written[i].key == k { return true, written[i].id; }
        assert written[i..][1..] == written[i + 1..];
      }
      found, id := false, 0;
    }

    /** A second write of a key goes into the same provisional version. */
    method Overwrite(k: RowKey, id: nat, op: WriteOp) returns (st: Status)
      modifies db`kv, db`log
      ensures var p := OverwritePlan(old(db.kv), k, id, op);
              && st == (if p.Refuse? then p.status else Ok)
              && db.Issued(if p.Overwrite? then [PutVersion(k, p.version)] else [])
      ensures old(db.Synced()) ==> db.Synced()
    {
      if !Has(db.kv, k, id) { return NotFound; }
      var v := Ver(db.kv, k, id);
      if op.Insert? && !v.tombstone { return InvalidArgument; }
      if op.Delete? {
        if v.tombstone { return NotFound; }
        v := v.(tombstone := true, row := []);
      } else {
        v := v.(tombstone := false, row := op.row);
      }
      db.Put(PutVersion(k, v));
      st := Ok;
    }

    /** A new provisional version on top of `prev`, listed durably. */
    method InstallVersion(k: RowKey, prev: nat, op: WriteOp)
      requires !finished && Handle() && db.Counted()
      modifies db`kv, db`log, db`nextVersionId, db`live, this`written
      ensures var x := Txn(txnId, startTs, old(written));
              && db.Issued(WritePuts(old(db.kv), k, x, op, Install(prev)))
              && written == WrittenAfter(old(db.kv), k, x, Install(prev))
      ensures Handle() && db.Counted() && db.live == old(db.live)[txnId := Txn(txnId, startTs, written)]
    {
      hide ApplyAll, Apply;
      var vid := db.nextVersionId;
      db.nextVersionId := vid + 1;
      db.PersistOracles();
      ghost var kv1, o := db.kv, OraclePuts(db.nextTs, db.nextTxnId, db.nextVersionId);
      var v := Version(vid, 0, 0, prev, txnId, op.Delete?, if op.Delete? then [] else op.row);
      written := written + [TxnWrite(k, vid)];
      var record := PutTxn(txnId, TxnMeta(TxnState.Open, 0, written));
      db.Put(PutVersion(k, v));
      db.Put(PutHead(k, vid));
      db.Put(record);
      ApplyInstall(old(db.kv), kv1, o, PutVersion(k, v), PutHead(k, vid), record);
      InstallCounters(kv1, PutVersion(k, v), PutHead(k, vid), record);
      AddLive(db.live, txnId, Txn(txnId, startTs, written));
      db.live := db.live[txnId := Txn(txnId, startTs, written)];
    }

    /** The write path. */
    method Write(k: RowKey, op: WriteOp) returns (st: Status)
      requires Handle() && db.Counted() && Descending(db.kv)
      modifies db`kv, db`log, db`nextVersionId, db`live, this`written
      ensures finished ==> st == InvalidArgument && unchanged(db) && unchanged(this)
      ensures !finished ==>
                var x := Txn(txnId, startTs, old(written));
                var o := WriteOutcome(old(db.kv), k, x, op);
                && st == o.status && db.Issued(o.puts)
                && written == WrittenAfter(old(db.kv), k, x, WritePlan(old(db.kv), k, x, op))
                && db.live == old(db.live)[txnId := Txn(txnId, startTs, written)]
      ensures Handle() && db.Counted()
    {
      if finished { return InvalidArgument; }
      ghost var x := Txn(txnId, startTs, written);
      assert db.live[txnId := x] == db.live;
      var found, id := FindWritten(k);
      if found {
        st := Overwrite(k, id, op);
        return;
      }
      var prev;
      st, prev := db.CheckInstall(k, Txn(txnId, startTs, written), op);
      if st != Ok { return; }
      InstallVersion(k, prev, op);
    }

    /** Insert, Update and Delete: the table must exist and the row fit it; then the write path
        under the row's key. In a running database this is one step of the machine. */
    method WriteAction(table: Bytes, a: Action) returns (st: Status)
      requires Handle() && db.Counted() && Descending(db.kv)
      modifies db`kv, db`log, db`nextVersionId, db`live, this`written
      ensures TargetKey(old(db.kv), table, a).0 != Ok ==>
          st == TargetKey(old(db.kv), table, a).0 && unchanged(db) && unchanged(this)
      ensures TargetKey(old(db.kv), table, a).0 == Ok && finished ==>
          st == InvalidArgument && unchanged(db) && unchanged(this)
      ensures !finished ==>
                var o := CallOutcome(old(db.kv), old(db.live), Op.Write(txnId, table, a));
                st == o.status && db.Issued(o.puts) && db.live ==
                    LiveAfter(old(db.kv), old(db.live), Op.Write(txnId, table, a))
      ensures Handle() && db.Counted()
      ensures !finished && old(db.Valid()) ==> db.Valid()
      ensures !finished && old(db.Valid()) ==>
                WriteMeant(old(db.kv), old(db.live), db.kv, db.live, txnId, table, a, st)
    {
      hide UpInv, ApplyAll, WriteMeant;
      ApplyNone(db.kv);
      ghost var op, wasValid := Op.Write(txnId, table, a), !finished && db.Valid();
      ghost var kv', live' := ApplyAll(db.kv, CallOutcome(db.kv, db.live, op).puts), LiveAfter(db.kv, db.live, op);
      ghost var status := CallOutcome(db.kv, db.live, op).status;
      assert wasValid ==> UpInv(kv', live') by { if wasValid { CallKeeps(db.kv, db.live, op); } }
      assert wasValid ==> WriteMeant(db.kv, db.live, kv', live', txnId, table, a, status) by {
        if wasValid { WriteMeans(db.kv, db.live, txnId, table, a); }
      }
      if table !in db.kv.catalog { return NotFound; }
      var pk;
      if a.DeleteRow? {
        pk := a.pk;
      } else {
        var key := PrimaryKeyOf(a.row, db.kv.catalog[table]);
        if key.None? { return InvalidArgument; }
        pk := key.value;
      }
      st := Write(RowKey(table, pk), ActionOp(a));
      assert !finished ==> db.kv == kv' && db.live == live';
    }

    /** The reader's own write, or the latest version committed by the snapshot. */
    method Get(table: Bytes, pk: Value) returns (r: Read)
      requires Handle() && Descending(db.kv)
      ensures finished ==> r == Failed(InvalidArgument)
      ensures !finished && table !in db.kv.catalog ==> r == Missing
      ensures !finished && table in db.kv.catalog ==> r == ReadRow(db.kv, RowKey(table, pk), startTs, txnId)
      ensures !finished && table in db.kv.catalog && db.Valid() ==>
                CorrectRead(db.kv, Txn(txnId, startTs, written), RowKey(table, pk), r)
    {
      if finished { return Failed(InvalidArgument); }
      if table !in db.kv.catalog { return Missing; }
      r := db.GetRow(RowKey(table, pk), startTs, txnId);
      if db.Valid() { LiveRead(db.kv, db.live[txnId], RowKey(table, pk)); }
    }
  }
}
