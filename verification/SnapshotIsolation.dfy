/** The database as a state machine: calls, crashes, and reopening, in any order. A crash may fall after
    any put except the Committed record of a commit; behind that one the clock would be lost.

    A run starts from an empty store. The theorems hold in every state of every run. */
module SnapshotIsolation {
  import opened Values
  import opened VersionStore
  import opened DurableSteps
  import opened Protocol
  import opened CrashSafety
  import opened RecoveryProof
  import opened LiveTxns
  import opened Ddl
  import opened DdlProof

  datatype Action = InsertRow(row: Row) | UpdateRow(row: Row) | DeleteRow(pk: Value)

  datatype Op =
    | Begin
    | Write(t: TxnId, table: Bytes, action: Action)
    | Commit(t: TxnId)
    | Abort(t: TxnId)
    | CreateTable(schema: TableSchema)
    | DropTable(table: Bytes, heads: seq<RowKey>, versions: seq<VKey>)
    | AlterAdd(table: Bytes, col: ColumnDef, value: Value, keys: seq<RowKey>)
    | AlterDrop(table: Bytes, column: Bytes, keys: seq<RowKey>)
  {
    predicate IsDdl() { CreateTable? || DropTable? || AlterAdd? || AlterDrop? }
  }

  /** A committed transaction, remembered for statements about whole histories. */
  datatype Done = Done(startTs: Timestamp, commitTs: Timestamp, keys: set<RowKey>)

  datatype Sys = Sys(kv: Kv, up: bool, live: map<TxnId, Txn>, done: map<TxnId, Done>)

  datatype Event = Do(op: Op) | Crash(op: Op, n: nat) | CrashInRecovery(n: nat) | Reopen

  const InitialSys := Sys(EmptyKv, false, map[], map[])

  // ---- Calls ------------------------------------------------------------------------

  function ActionOp(a: Action): WriteOp {
    match a
    case InsertRow(row) => Insert(row)
    case UpdateRow(row) => Update(row)
    case DeleteRow(_) => Delete
  }

  /** Insert, Update and Delete: find the table, check the row, take its primary key. */
  function TargetKey(kv: Kv, table: Bytes, a: Action): (r: (Status, RowKey))
    ensures r.0 == Ok ==> r.1.table == table && table in kv.catalog
  {
    if table !in kv.catalog then (NotFound, RowKey(table, Null))
    else if a.DeleteRow? then (Ok, RowKey(table, a.pk))
    else
      match PrimaryKeyOf(a.row, kv.catalog[table])
      case None => (InvalidArgument, RowKey(table, Null))
      case Some(pk) => (Ok, RowKey(table, pk))
  }

  function DropIndex(kv: Kv, table: Bytes, column: Bytes): nat
  {
    if table in kv.catalog && ColumnIndex(kv.catalog[table].columns, column) >= 0
    then ColumnIndex(kv.catalog[table].columns, column) else 0
  }

  function CallOutcome(kv: Kv, live: map<TxnId, Txn>, op: Op): Outcome
    requires Descending(kv)
  {
    if op.IsDdl() && live != map[] then Outcome([], InvalidArgument)
    else
      match op
      case Begin => Outcome(BeginPuts(kv), Ok)
      case Write(t, table, a) =>
        if t !in live then Outcome([], InvalidArgument)
        else
          var (st, k) := TargetKey(kv, table, a);
          if st != Ok then Outcome([], st) else WriteOutcome(kv, k, live[t], ActionOp(a))
      case Commit(t) => if t !in live then Outcome([], InvalidArgument) else CommitOutcome(kv, live[t])
      case Abort(t) => if t !in live then Outcome([], Ok) else AbortOutcome(kv, t, live[t].written)
      case CreateTable(s) => CreateOutcome(kv, s)
      case DropTable(name, hs, vs) => DropOutcome(kv, name, hs, vs)
      case AlterAdd(table, col, v, ks) =>
        var st := AddColumnCheck(kv, table, col, v);
        if st != Ok then Outcome([], st) else AlterOutcome(kv, table, ks, AddColumn(col, v))
      case AlterDrop(table, column, ks) =>
        var st := DropColumnCheck(kv, table, column);
        if st != Ok then Outcome([], st) else AlterOutcome(kv, table, ks, DropColumn(DropIndex(kv, table, column)))
  }

  /** The live handles after a completed call. */
  function LiveAfter(kv: Kv, live: map<TxnId, Txn>, op: Op): map<TxnId, Txn>
    requires Descending(kv)
  {
    match op
    case Begin => if kv.nextTs > 0 then live[kv.nextTxn := Txn(kv.nextTxn, kv.nextTs - 1, [])] else live
    case Write(t, table, a) =>
      if t in live && TargetKey(kv, table, a).0 == Ok then
        var k := TargetKey(kv, table, a).1;
        live[t := live[t].(written := WrittenAfter(kv, k, live[t], WritePlan(kv, k, live[t], ActionOp(a))))]
      else live
    case Commit(t) => live - {t}
    case Abort(t) => live - {t}
    case _ => live
  }

  /** The collected key lists of a DDL call are what the store holds. */
  ghost predicate Enabled(kv: Kv, op: Op) {
    match op
    case DropTable(name, hs, vs) => Collected(kv, name, hs, vs)
    case AlterAdd(table, _, _, ks) => Distinct(ks) && forall k :: k in ks <==> k in kv.heads && k.table == table
    case AlterDrop(table, _, ks) => Distinct(ks) && forall k :: k in ks <==> k in kv.heads && k.table == table
    case _ => true
  }

  /** Transactions whose commit intent or record has become durable. */
  function DoneAfter(s: Sys, kv': Kv): map<TxnId, Done> {
    s.done + map t | t in s.live && t in kv'.txns && kv'.txns[t].state in {Committing, Committed} ::
      Done(s.live[t].startTs, kv'.txns[t].commitTs, KeysOf(s.live[t].written))
  }

  // ---- Transitions --------------------------------------------------------------------

  ghost predicate Step(s: Sys, e: Event, s': Sys) {
    && Descending(s.kv)
    && match e
       case Do(op) =>
         && s.up && Enabled(s.kv, op)
         && var kv' := ApplyAll(s.kv, CallOutcome(s.kv, s.live, op).puts);
         s' == Sys(kv', true, LiveAfter(s.kv, s.live, op), DoneAfter(s, kv'))
       case Crash(op, n) =>
         && s.up && !op.IsDdl()
         && var ps := CallOutcome(s.kv, s.live, op).puts;
         && n <= |ps| && !AfterCommitRecord(ps, n)
         && var kv' := ApplyAll(s.kv, ps[..n]);
         s' == Sys(kv', false, map[], DoneAfter(s, kv'))
       case CrashInRecovery(n) =>
         && !s.up
         && var ps := Recovery(s.kv).puts;
         && n <= |ps| && !AfterCommitRecord(ps, n)
         && s' == s.(kv := ApplyAll(s.kv, ps[..n]))
       case Reopen => !s.up && s' == s.(kv := Recovered(s.kv), up := true)
  }

  ghost predicate IsRun(states: seq<Sys>, events: seq<Event>) {
    && |states| == |events| + 1
    && states[0] == InitialSys
    && forall i | 0 <= i < |events| :: Step(states[i], events[i], states[i + 1])
  }

  // ---- The invariant ------------------------------------------------------------------

  /** Start timestamp of the newest committed version, 0 when there is none. */
  ghost function NewestTs(kv: Kv, k: RowKey): Timestamp {
    if Has(kv, k, Latest(kv, k)) then Ver(kv, k, Latest(kv, k)).startTs else 0
  }

  /** Two committed writers of one key: one had committed by the other's snapshot. */
  ghost predicate Ordered(x: Done, y: Done) {
    x.keys * y.keys != {} ==> x.commitTs <= y.startTs || y.commitTs <= x.startTs
  }

  /** A live transaction either began after `d` committed or will find its version in the way. */
  ghost predicate SeenBy(kv: Kv, d: Done, t: Txn) {
    d.commitTs <= t.startTs || forall k | k in d.keys :: d.commitTs <= NewestTs(kv, k)
  }

  ghost predicate DoneRecorded(kv: Kv, t: TxnId, d: Done) {
    && t in kv.txns && kv.txns[t].state in {Committing, Committed}
    && kv.txns[t].commitTs == d.commitTs && d.startTs < d.commitTs
  }

  ghost predicate HistoryOk(s: Sys) {
    && (forall t {:trigger s.done[t]} | t in s.done :: DoneRecorded(s.kv, t, s.done[t]))
    && (forall t, u | t in s.done && u in s.done && t != u :: Ordered(s.done[t], s.done[u]))
    && (forall t, u | t in s.done && u in s.live :: SeenBy(s.kv, s.done[t], s.live[u]))
  }

  /** Every version a live snapshot can see fits the current schema. */
  ghost predicate ShapeAt(kv: Kv, k: RowKey, s: Timestamp, id: nat) {
    VisibleAt(kv, k, s, id) && !Ver(kv, k, id).tombstone ==> RowOk(kv.catalog, k, Ver(kv, k, id).row)
  }

  ghost predicate ShapesOk(kv: Kv, t: Txn) {
    forall k, id {:trigger ShapeAt(kv, k, t.startTs, id)} :: ShapeAt(kv, k, t.startTs, id)
  }

  ghost predicate SysInv(s: Sys) {
    && (if s.up then UpInv(s.kv, s.live) else DurableInv(s.kv) && s.live == map[])
    && (forall t {:trigger s.live[t]} | t in s.live :: ShapesOk(s.kv, s.live[t]))
    && HistoryOk(s)
  }

  // ---- Calls keep the running invariant -------------------------------------------------

  /** The keys whose committed contents a call may change. */
  function CallKeys(live: map<TxnId, Txn>, op: Op): set<RowKey> {
    if op.Commit? && op.t in live then KeysOf(live[op.t].written) else {}
  }

  lemma {:induction false} CallKeeps(kv: Kv, live: map<TxnId, Txn>, op: Op)
    requires UpInv(kv, live) && Descending(kv) && !op.IsDdl()
    ensures Safe(kv, CallOutcome(kv, live, op).puts, CallKeys(live, op))
    ensures UpInv(ApplyAll(kv, CallOutcome(kv, live, op).puts), LiveAfter(kv, live, op))
  {
    match op
    case Begin =>
      BeginSafe(kv);
      BeginKeeps(kv, live);
    case Write(t, table, a) =>
      var (st, k) := TargetKey(kv, table, a);
      if t in live && st == Ok { WriteKeeps(kv, live, t, k, ActionOp(a)); } else { SafeNone(kv, {}); }
    case Commit(t) =>
      if t in live {
        CommitSafe(kv, live, t);
        CommitKeeps(kv, live, t);
      } else {
        SafeNone(kv, {});
        assert live - {t} == live;
      }
    case Abort(t) =>
      if t in live {
        AbortKeeps(kv, live, t);
      } else {
        SafeNone(kv, {});
        assert live - {t} == live;
      }
  }

  lemma {:induction false} DdlKeeps(kv: Kv, op: Op)
    requires Quiet(kv) && Descending(kv) && op.IsDdl() && Enabled(kv, op)
    ensures var kv' := ApplyAll(kv, CallOutcome(kv, map[], op).puts);
            Quiet(kv') && kv'.txns == kv.txns
  {
    match op
    case CreateTable(s) => CreateKeeps(kv, s);
    case DropTable(name, hs, vs) =>
      if name in kv.catalog {
        DropEffect(kv, name, hs, vs);
        DropKeeps(kv, name);
      }
    case AlterAdd(table, col, v, ks) =>
      if AddColumnCheck(kv, table, col, v) == Ok { AlterKeeps(kv, table, ks, AddColumn(col, v)); }
    case AlterDrop(table, column, ks) =>
      if DropColumnCheck(kv, table, column) == Ok {
        AlterKeeps(kv, table, ks, DropColumn(DropIndex(kv, table, column)));
      }
  }

  // ---- Transaction records written by a call ----------------------------------------------

  lemma {:induction false} RecordFromPuts(kv: Kv, ps: seq<Put>, t: TxnId)
    ensures t in ApplyAll(kv, ps).txns ==>
              || (t in kv.txns && ApplyAll(kv, ps).txns[t] == kv.txns[t])
              || PutTxn(t, ApplyAll(kv, ps).txns[t]) in ps
    ensures t in kv.txns ==> t in ApplyAll(kv, ps).txns
    decreases |ps|
  {
    if ps != [] {
      RecordFromPuts(Apply(kv, ps[0]), ps[1..], t);
      assert ps[0] in ps && forall p | p in ps[1..] :: p in ps;
    }
  }

  lemma {:induction false} RestorePutsHeads(kv: Kv, ws: seq<TxnWrite>)
    ensures forall p | p in RestoreHeads(kv, ws).puts :: !p.PutTxn?
    decreases |ws|
  {
    if ws != [] { RestorePutsHeads(ApplyAll(kv, RestoreOne(kv, ws[|ws| - 1]).puts), ws[..|ws| - 1]); }
  }

  lemma {:induction false} StampPutsVersions(kv: Kv, t: TxnId, c: Timestamp, ws: seq<TxnWrite>)
    ensures forall p | p in ApplyWrites(kv, t, c, ws).puts :: !p.PutTxn?
    decreases |ws|
  {
    if ws != [] { StampPutsVersions(ApplyAll(kv, ApplyOne(kv, t, c, ws[0]).puts), t, c, ws[1..]); }
  }

  /** A record a call may write: its own transaction's, and a commit's carry the clock. */
  ghost predicate CallRecord(kv: Kv, live: map<TxnId, Txn>, op: Op, t: TxnId, m: TxnMeta) {
    || (op.Begin? && t == kv.nextTxn && m.state == Open)
    || (op.Write? && t == op.t && t in live && m.state == Open)
    || (op.Abort? && t == op.t && t in live && m.state == Aborted)
    || (op.Commit? && t == op.t && t in live && m.state in {Committing, Committed} && m.commitTs == kv.nextTs)
  }

  lemma {:induction false} CommitRecords(kv: Kv, live: map<TxnId, Txn>, t: TxnId, p: Put)
    requires UpInv(kv, live) && t in live
    requires p in CommitOutcome(kv, live[t]).puts && p.PutTxn?
    ensures p.txn == t
    ensures p.meta in {TxnMeta(Committing, kv.nextTs, live[t].written), TxnMeta(Committed, kv.nextTs, [])}
  {
    var x := live[t];
    CommitPuts(kv, live, t);
    assert p !in StampPuts(kv, x) by { StampPutsVersions(IntentKv(kv, x), t, kv.nextTs, x.written); }
    assert Redone(IntentKv(kv, x), t).nextTs == kv.nextTs by {
      IntentSafe(kv, live, t);
      RedoStamps(IntentKv(kv, x), t);
    }
    assert p in [IntentPut(kv, x)] || p in FinishPuts(Redone(IntentKv(kv, x), t), t);
  }

  lemma {:induction false} CallRecords(kv: Kv, live: map<TxnId, Txn>, op: Op, p: Put)
    requires UpInv(kv, live) && Descending(kv) && !op.IsDdl()
    requires p in CallOutcome(kv, live, op).puts && p.PutTxn?
    ensures CallRecord(kv, live, op, p.txn, p.meta)
  {
    match op
    case Begin =>
    case Write(t, table, a) =>
      assert live[t].id == t;
    case Commit(t) =>
      CommitRecords(kv, live, t, p);
    case Abort(t) =>
      RestorePutsHeads(kv, live[t].written);
  }

  // ---- History ------------------------------------------------------------------------------

  /** The newest committed timestamp of a key never falls while transactions are live. */
  lemma {:induction false} NewestMonotone(a: Kv, b: Kv, k: RowKey)
    requires DurableInv(a) && NoneCommitting(a) && DurableInv(b)
    requires forall s: Timestamp, id | s < a.nextTs :: SameAt(a, b, k, s, id)
    ensures NewestTs(a, k) <= NewestTs(b, k)
  {
    var l := Latest(a, k);
    if Has(a, k, l) {
      assert HeadOk(a, k) && VersionOk(a, VKey(k, l)) && VersionOk(a, VKey(k, 0));
      assert k in a.heads && VersionOk(a, VKey(k, a.heads[k]));
      assert CommittedVersion(a, k, l);
      assert !CommittingTxn(a, Ver(a, k, l).createdBy);
      assert Ver(a, k, l).endTs == 0 by { assert forall u :: !CommittingTxn(a, u); }
      assert VisibleAt(a, k, a.nextTs - 1, l);
      assert SameAt(a, b, k, a.nextTs - 1, l);
      var m := Latest(b, k);
      assert VersionOk(b, VKey(k, l)) && HeadOk(b, k) && PairOk(b, k, l, m);
      assert k in b.heads && VersionOk(b, VKey(k, b.heads[k])) && VersionOk(b, VKey(k, m));
    }
  }

  /** After any number of a call's puts: finished records stand, and a live transaction is on its
      way to committed only by its own Commit. */
  lemma {:induction false} CallTxns(kv: Kv, live: map<TxnId, Txn>, op: Op, n: nat, t: TxnId)
    requires UpInv(kv, live) && Descending(kv) && !op.IsDdl() && n <= |CallOutcome(kv, live, op).puts|
    ensures var kv' := ApplyAll(kv, CallOutcome(kv, live, op).puts[..n]);
            && (t in kv.txns && kv.txns[t].state == Committed ==> t in kv'.txns && kv'.txns[t] == kv.txns[t])
            && (t in live && t in kv'.txns && kv'.txns[t].state in {Committing, Committed} ==>
                  op == Commit(t) && kv'.txns[t].commitTs == kv.nextTs)
  {
    var ps := CallOutcome(kv, live, op).puts;
    var kv' := ApplyAll(kv, ps[..n]);
    RecordFromPuts(kv, ps[..n], t);
    assert TxnOk(kv, t);
    if t in live { assert LiveOk(kv, live[t]) && live[t].id == t; }
    if t in kv'.txns && PutTxn(t, kv'.txns[t]) in ps[..n] {
      assert PutTxn(t, kv'.txns[t]) in ps;
      CallRecords(kv, live, op, PutTxn(t, kv'.txns[t]));
    }
  }

  /** What a live transaction replaces is no newer than its snapshot. */
  lemma {:induction false} HeldNewest(kv: Kv, x: Txn, w: TxnWrite)
    requires DurableInv(kv) && LiveOk(kv, x) && w in x.written
    ensures NewestTs(kv, w.key) <= x.startTs
  {
    assert HeldOk(kv, x, w) && VersionOk(kv, VKey(w.key, w.id)) && VersionOk(kv, VKey(w.key, 0));
    assert Latest(kv, w.key) == Ver(kv, w.key, w.id).prev;
  }

  /** A transaction that commits comes after every earlier committed writer of its keys. */
  lemma {:induction false} CommitOrdered(s: Sys, t: TxnId, u: TxnId)
    requires SysInv(s) && s.up && t in s.live && u in s.done
    ensures Ordered(s.done[u], Done(s.live[t].startTs, s.kv.nextTs, KeysOf(s.live[t].written)))
  {
    var x, d := s.live[t], s.done[u];
    assert SeenBy(s.kv, d, x) && LiveOk(s.kv, x);
    forall w | w in x.written ensures NewestTs(s.kv, w.key) <= x.startTs { HeldNewest(s.kv, x, w); }
    if k :| k in d.keys && k in KeysOf(x.written) {
      var w :| w in x.written && w.key == k;
      assert NewestTs(s.kv, w.key) <= x.startTs;
    }
  }

  /** A history entry after a call: an old one, or the transaction whose Commit this is. */
  lemma {:induction false} DoneEntry(s: Sys, op: Op, n: nat, t: TxnId)
    requires SysInv(s) && s.up && Descending(s.kv) && !op.IsDdl() && n <= |CallOutcome(s.kv, s.live, op).puts|
    requires t in DoneAfter(s, ApplyAll(s.kv, CallOutcome(s.kv, s.live, op).puts[..n]))
    ensures var kv' := ApplyAll(s.kv, CallOutcome(s.kv, s.live, op).puts[..n]);
            var d := DoneAfter(s, kv')[t];
            && DoneRecorded(kv', t, d)
            && ((t in s.done && d == s.done[t])
                || (op == Commit(t) && t in s.live && d == Done(s.live[t].startTs, s.kv.nextTs,
                    KeysOf(s.live[t].written))))
  {
    CallTxns(s.kv, s.live, op, n, t);
    if t in s.done { assert DoneRecorded(s.kv, t, s.done[t]) && !CommittingTxn(s.kv, t); }
    if t in s.live { assert LiveOk(s.kv, s.live[t]); }
  }

  /** History after a call, complete or cut short by a crash. */
  lemma {:induction false} CallHistory(s: Sys, op: Op, n: nat)
    requires SysInv(s) && s.up && Descending(s.kv) && !op.IsDdl() && n <= |CallOutcome(s.kv, s.live, op).puts|
    ensures var kv' := ApplyAll(s.kv, CallOutcome(s.kv, s.live, op).puts[..n]);
            HistoryOk(Sys(kv', false, map[], DoneAfter(s, kv')))
  {
    var kv' := ApplyAll(s.kv, CallOutcome(s.kv, s.live, op).puts[..n]);
    var done := DoneAfter(s, kv');
    forall t | t in done ensures DoneRecorded(kv', t, done[t]) { DoneEntry(s, op, n, t); }
    forall t, u | t in done && u in done && t != u ensures Ordered(done[t], done[u]) {
      DoneEntry(s, op, n, t);
      DoneEntry(s, op, n, u);
      if op == Commit(t) && t in s.live && u in s.done { CommitOrdered(s, t, u); }
      if op == Commit(u) && u in s.live && t in s.done { CommitOrdered(s, u, t); }
    }
  }

  /** Handles keep their snapshot; a new one starts just below the clock. */
  lemma {:induction false} LiveAfterStart(kv: Kv, live: map<TxnId, Txn>, op: Op, u: TxnId)
    requires UpInv(kv, live) && Descending(kv) && u in LiveAfter(kv, live, op)
    ensures if u in live then LiveAfter(kv, live, op)[u].startTs == live[u].startTs
            else op.Begin? && LiveAfter(kv, live, op)[u].startTs == kv.nextTs - 1
  {
    if op.Begin? { BeginKeeps(kv, live); }
  }

  /** After a completed commit its timestamp is the newest on every key it wrote. */
  lemma {:induction false} CommitNewest(kv: Kv, live: map<TxnId, Txn>, t: TxnId, k: RowKey)
    requires UpInv(kv, live) && t in live && k in KeysOf(live[t].written)
    ensures NewestTs(ApplyAll(kv, CommitOutcome(kv, live[t]).puts), k) == kv.nextTs
  {
    var x := live[t];
    var kv' := ApplyAll(kv, CommitOutcome(kv, x).puts);
    CommitEffect(kv, live, t);
    var w :| w in x.written && w.key == k;
    assert LiveOk(kv, x) && HeldOk(kv, x, w);
    assert StampedOne(kv, kv', x.written, VKey(k, w.id));
  }

  lemma {:induction false} CallNewest(kv: Kv, live: map<TxnId, Txn>, op: Op, k: RowKey)
    requires UpInv(kv, live) && Descending(kv) && !op.IsDdl()
    ensures NewestTs(kv, k) <= NewestTs(ApplyAll(kv, CallOutcome(kv, live, op).puts), k)
  {
    var ps := CallOutcome(kv, live, op).puts;
    CallKeeps(kv, live, op);
    SafeEnds(kv, ps, CallKeys(live, op));
    NewestMonotone(kv, ApplyAll(kv, ps), k);
  }

  lemma {:induction false} OldSeen(s: Sys, op: Op, t: TxnId, u: TxnId)
    requires SysInv(s) && s.up && Descending(s.kv) && !op.IsDdl() && t in s.done && u in LiveAfter(s.kv, s.live, op)
    ensures SeenBy(ApplyAll(s.kv, CallOutcome(s.kv, s.live, op).puts), s.done[t], LiveAfter(s.kv, s.live, op)[u])
  {
    var kv', d := ApplyAll(s.kv, CallOutcome(s.kv, s.live, op).puts), s.done[t];
    assert DoneRecorded(s.kv, t, d) && TxnOk(s.kv, t) && !CommittingTxn(s.kv, t);
    LiveAfterStart(s.kv, s.live, op, u);
    forall k ensures NewestTs(s.kv, k) <= NewestTs(kv', k) { CallNewest(s.kv, s.live, op, k); }
    if u in s.live { assert SeenBy(s.kv, d, s.live[u]); }
  }

  lemma {:induction false} CallSeen(s: Sys, op: Op, t: TxnId, u: TxnId)
    requires SysInv(s) && s.up && Descending(s.kv) && !op.IsDdl()
    requires var kv' := ApplyAll(s.kv, CallOutcome(s.kv, s.live, op).puts);
             t in DoneAfter(s, kv') && u in LiveAfter(s.kv, s.live, op)
    ensures var kv' := ApplyAll(s.kv, CallOutcome(s.kv, s.live, op).puts);
            SeenBy(kv', DoneAfter(s, kv')[t], LiveAfter(s.kv, s.live, op)[u])
  {
    var ps := CallOutcome(s.kv, s.live, op).puts;
    var kv' := ApplyAll(s.kv, ps);
    assert ps[..|ps|] == ps;
    DoneEntry(s, op, |ps|, t);
    var d := DoneAfter(s, kv')[t];
    if t in s.done && d == s.done[t] {
      OldSeen(s, op, t, u);
    } else {
      forall k | k in d.keys ensures s.kv.nextTs <= NewestTs(kv', k) { CommitNewest(s.kv, s.live, t, k); }
    }
  }

  /** A snapshot just below the clock sees only versions of the current shape. */
  lemma {:induction false} FreshShape(kv: Kv, k: RowKey, id: nat)
    requires DurableInv(kv) && kv.nextTs > 0
    ensures ShapeAt(kv, k, kv.nextTs - 1, id)
  {
    assert VersionOk(kv, VKey(k, id));
  }

  lemma {:induction false} CallShapes(s: Sys, op: Op, u: TxnId)
    requires SysInv(s) && s.up && Descending(s.kv) && !op.IsDdl() && u in LiveAfter(s.kv, s.live, op)
    ensures ShapesOk(ApplyAll(s.kv, CallOutcome(s.kv, s.live, op).puts), LiveAfter(s.kv, s.live, op)[u])
  {
    var ps := CallOutcome(s.kv, s.live, op).puts;
    var kv', x := ApplyAll(s.kv, ps), LiveAfter(s.kv, s.live, op)[u];
    LiveAfterStart(s.kv, s.live, op, u);
    CallKeeps(s.kv, s.live, op);
    SafeEnds(s.kv, ps, CallKeys(s.live, op));
    forall k, id ensures ShapeAt(kv', k, x.startTs, id) {
      if u in s.live {
        assert LiveOk(s.kv, s.live[u]) && ShapesOk(s.kv, s.live[u]);
        assert ShapeAt(s.kv, k, s.live[u].startTs, id);
      } else {
        FreshShape(s.kv, k, id);
      }
      assert SameAt(s.kv, kv', k, x.startTs, id);
    }
  }

  // ---- Recovery -----------------------------------------------------------------------------

  lemma {:induction false} RecoverTxnRecord(kv: Kv, t: TxnId, p: Put)
    requires p in RecoverTxn(kv, t).puts && p.PutTxn?
    ensures t in kv.txns && p.txn == t && !Finished(kv.txns[t]) && p.meta == Settle(kv.txns[t])
  {
    var m := kv.txns[t];
    RestorePutsHeads(kv, m.writes);
    StampPutsVersions(kv, t, m.commitTs, m.writes);
  }

  lemma {:induction false} RecoveryRecords(kv: Kv, t: TxnId, limit: TxnId, p: Put)
    requires p in RecoverFrom(kv, t, limit).puts && p.PutTxn?
    ensures p.txn in kv.txns && p.txn >= t && !Finished(kv.txns[p.txn]) && p.meta == Settle(kv.txns[p.txn])
    decreases limit - t
  {
    var o := RecoverTxn(kv, t);
    if p in o.puts {
      RecoverTxnRecord(kv, t, p);
    } else {
      var kv1 := ApplyAll(kv, o.puts);
      RecoveryRecords(kv1, t + 1, limit, p);
      RecordFromPuts(kv, o.puts, p.txn);
      var q := PutTxn(p.txn, kv1.txns[p.txn]);
      if q in o.puts { RecoverTxnRecord(kv, t, q); }
    }
  }

  /** After any number of recovery's puts a record is as it was or settled. */
  lemma {:induction false} RecoveryTxns(kv: Kv, n: nat, t: TxnId)
    requires n <= |Recovery(kv).puts| && t in kv.txns
    ensures var kv' := ApplyAll(kv, Recovery(kv).puts[..n]);
            t in kv'.txns && kv'.txns[t] in {kv.txns[t], Settle(kv.txns[t])}
  {
    var ps := Recovery(kv).puts;
    var kv' := ApplyAll(kv, ps[..n]);
    RecordFromPuts(kv, ps[..n], t);
    var q := PutTxn(t, kv'.txns[t]);
    if q in ps[..n] {
      var init := Initialized(kv);
      OracleEffect(kv, Counter(kv.nextTs), Counter(kv.nextTxn), Counter(kv.nextVid));
      assert q in ps && q !in InitPuts(kv);
      RecoveryRecords(init, 1, init.nextTxn, q);
    }
  }

  lemma {:induction false} RecoveryHistory(s: Sys, n: nat)
    requires SysInv(s) && !s.up && n <= |Recovery(s.kv).puts|
    ensures HistoryOk(s.(kv := ApplyAll(s.kv, Recovery(s.kv).puts[..n])))
  {
    var kv' := ApplyAll(s.kv, Recovery(s.kv).puts[..n]);
    forall t | t in s.done ensures DoneRecorded(kv', t, s.done[t]) {
      assert DoneRecorded(s.kv, t, s.done[t]);
      RecoveryTxns(s.kv, n, t);
    }
  }

  ghost function AllIntentKeys(kv: Kv): set<RowKey> {
    set t, w | t in kv.txns && w in kv.txns[t].writes :: w.key
  }

  /** The recovered store is a running one with no live transaction. */
  lemma {:induction false} RecoveredQuiet(kv: Kv)
    requires DurableInv(kv)
    ensures Quiet(Recovered(kv))
  {
    RecoverySafe(kv, AllIntentKeys(kv));
    var init, kv' := Initialized(kv), Recovered(kv);
    forall t | t in kv'.txns ensures Finished(kv'.txns[t]) { assert t in init.txns; }
    forall t ensures !CommittingTxn(kv', t) { }
    assert kv'.nextTs > 0;
  }

  // ---- The invariant holds in every state of every run ------------------------------------------

  lemma {:induction false} CallStep(s: Sys, op: Op, s': Sys)
    requires SysInv(s) && Step(s, Do(op), s') && !op.IsDdl()
    ensures SysInv(s')
  {
    var ps := CallOutcome(s.kv, s.live, op).puts;
    assert ps[..|ps|] == ps;
    CallKeeps(s.kv, s.live, op);
    CallHistory(s, op, |ps|);
    forall t, u | t in s'.done && u in s'.live ensures SeenBy(s'.kv, s'.done[t], s'.live[u]) { CallSeen(s, op, t, u); }
    forall u | u in s'.live ensures ShapesOk(s'.kv, s'.live[u]) { CallShapes(s, op, u); }
    var down := Sys(s'.kv, false, map[], s'.done);
    assert HistoryOk(down);
    forall t | t in s'.done ensures DoneRecorded(s'.kv, t, s'.done[t]) {
      assert DoneRecorded(down.kv, t, down.done[t]);
    }
  }

  ghost predicate OpenRecord(kv: Kv, t: TxnId) { t in kv.txns && kv.txns[t].state == Open }

  /** The gate: with transactions open a schema change does nothing. */
  lemma {:induction false} RefusedDdl(s: Sys, op: Op, s': Sys)
    requires SysInv(s) && Step(s, Do(op), s') && op.IsDdl() && s.live != map[]
    ensures s' == s
  {
    forall t | t in s.live ensures OpenRecord(s.kv, t) { assert LiveOk(s.kv, s.live[t]) && s.live[t].id == t; }
    assert DoneAfter(s, s'.kv) == s.done;
  }

  lemma {:induction false} DdlStep(s: Sys, op: Op, s': Sys)
    requires SysInv(s) && Step(s, Do(op), s') && op.IsDdl()
    ensures SysInv(s')
  {
    if s.live == map[] {
      DdlKeeps(s.kv, op);
      assert DoneAfter(s, s'.kv) == s.done;
      forall t | t in s'.done ensures DoneRecorded(s'.kv, t, s'.done[t]) { assert DoneRecorded(s.kv, t, s.done[t]); }
    } else {
      RefusedDdl(s, op, s');
    }
  }

  lemma {:induction false} CrashStep(s: Sys, op: Op, n: nat, s': Sys)
    requires SysInv(s) && Step(s, Crash(op, n), s')
    ensures SysInv(s')
  {
    CallKeeps(s.kv, s.live, op);
    CallHistory(s, op, n);
    assert SafeAt(s.kv, CallOutcome(s.kv, s.live, op).puts, n, CallKeys(s.live, op));
  }

  lemma {:induction false} RecoveryStep(s: Sys, e: Event, s': Sys)
    requires SysInv(s) && Step(s, e, s') && (e.CrashInRecovery? || e.Reopen?)
    ensures SysInv(s')
  {
    var ps := Recovery(s.kv).puts;
    RecoverySafe(s.kv, AllIntentKeys(s.kv));
    if e.CrashInRecovery? {
      RecoveryHistory(s, e.n);
      assert SafeAt(s.kv, ps, e.n, AllIntentKeys(s.kv));
    } else {
      assert ps[..|ps|] == ps;
      RecoveryHistory(s, |ps|);
      RecoveredQuiet(s.kv);
    }
  }

  lemma {:induction false} StepKeeps(s: Sys, e: Event, s': Sys)
    requires SysInv(s) && Step(s, e, s')
    ensures SysInv(s')
  {
    match e
    case Do(op) => if op.IsDdl() { DdlStep(s, op, s'); } else { CallStep(s, op, s'); }
    case Crash(op, n) => CrashStep(s, op, n, s');
    case CrashInRecovery(n) => RecoveryStep(s, e, s');
    case Reopen => RecoveryStep(s, e, s');
  }

  /** The invariant holds in every state of every run. */
  lemma {:induction false} RunInv(states: seq<Sys>, events: seq<Event>, i: nat)
    requires IsRun(states, events) && i < |states|
    ensures SysInv(states[i])
    decreases i
  {
    if i > 0 {
      RunInv(states, events, i - 1);
      StepKeeps(states[i - 1], events[i - 1], states[i]);
    }
  }
}
