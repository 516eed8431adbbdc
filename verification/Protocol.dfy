/** The transaction protocol: for every operation, the exact list of puts it issues and the
    status it returns, as functions of the store and the transaction. */
module Protocol {
  import opened Values
  import opened VersionStore

  /** A live transaction handle. */
  datatype Txn = Txn(id: TxnId, startTs: Timestamp, written: seq<TxnWrite>)

  /** The puts an operation issued, in order, and how it ended. */
  datatype Outcome = Outcome(puts: seq<Put>, status: Status)

  /** InitOracles: a counter that was never written starts at 1. */
  function Counter(n: nat): (r: nat)
    ensures r > 0
  {
    if n == 0 then 1 else n
  }

  function OraclePuts(ts: nat, txn: nat, vid: nat): seq<Put> {
    [PutNextTs(ts), PutNextTxn(txn), PutNextVid(vid)]
  }

  function BeginPuts(kv: Kv): seq<Put> {
    OraclePuts(kv.nextTs, kv.nextTxn + 1, kv.nextVid) + [PutTxn(kv.nextTxn, TxnMeta(Open, 0, []))]
  }

  // ---- Write ------------------------------------------------------------------

  datatype WriteOp = Insert(row: Row) | Update(row: Row) | Delete

  /** What a write will do: rewrite its own provisional version, install a new one on top of
      version `prev`, or fail without touching the store. */
  datatype Plan = Overwrite(version: Version) | Install(prev: nat) | Refuse(status: Status)

  /** The version id under which the transaction already holds `k`, 0 if it does not. */
  function HeldId(ws: seq<TxnWrite>, k: RowKey): (id: nat)
    ensures id != 0 ==> TxnWrite(k, id) in ws
  {
    if ws == [] then 0
    else if ws[0].key == k then ws[0].id
    else HeldId(ws[1..], k)
  }

  predicate Holds(ws: seq<TxnWrite>, k: RowKey) {
    exists i | 0 <= i < |ws| :: ws[i].key == k
  }

  function OverwritePlan(kv: Kv, k: RowKey, id: nat, op: WriteOp): Plan {
    if !Has(kv, k, id) then Refuse(NotFound)
    else
      var v := Ver(kv, k, id);
      match op
      case Insert(row) =>
        if !v.tombstone then Refuse(InvalidArgument) else Overwrite(v.(tombstone := false, row := row))
      case Update(row) => Overwrite(v.(tombstone := false, row := row))
      case Delete =>
        if v.tombstone then Refuse(NotFound) else Overwrite(v.(tombstone := true, row := []))
  }

  /** First-committer-wins: walk from the head to the newest committed version. */
  function WalkConflict(kv: Kv, k: RowKey, walk: nat, t: Txn): Status
    requires Descending(kv)
    decreases walk
  {
    if walk == 0 then Ok
    else if !Has(kv, k, walk) then NotFound
    else
      var v := Ver(kv, k, walk);
      if !v.Provisional() then (if v.startTs > t.startTs then Conflict else Ok)
      else if v.createdBy != t.id && v.createdBy !in kv.txns then NotFound
      else if v.createdBy != t.id && kv.txns[v.createdBy].state == Committed
              && kv.txns[v.createdBy].commitTs > t.startTs then Conflict
      else WalkConflict(kv, k, v.prev, t)
  }

  /** The early conflict check on a provisional head, and the version to chain to. */
  function HeadPlan(kv: Kv, k: RowKey, t: Txn): Plan {
    if k !in kv.heads then Install(0)
    else if !Has(kv, k, kv.heads[k]) then Refuse(NotFound)
    else
      var h := Ver(kv, k, kv.heads[k]);
      if !h.Provisional() then Install(kv.heads[k])
      else if h.createdBy !in kv.txns then Refuse(NotFound)
      else if kv.txns[h.createdBy].state == Open then
        Refuse(if h.createdBy != t.id then Conflict else Corruption)
      else Install(if kv.txns[h.createdBy].state == Aborted then h.prev else kv.heads[k])
  }

  function ExistenceStatus(op: WriteOp, r: Read): Status {
    match r
    case Found(_) => if op.Insert? then InvalidArgument else Ok
    case Missing => if op.Insert? then Ok else NotFound
    case Failed(st) => st
  }

  function InstallPlan(kv: Kv, k: RowKey, t: Txn, op: WriteOp): Plan
    requires Descending(kv)
  {
    if k !in kv.heads then (if op.Insert? then Install(0) else Refuse(NotFound))
    else
      var p := HeadPlan(kv, k, t);
      if !p.Install? then p
      else
        var st := WalkConflict(kv, k, kv.heads[k], t);
        if st != Ok then Refuse(st)
        else
          var ex := ExistenceStatus(op, ReadRow(kv, k, t.startTs, t.id));
          if ex != Ok then Refuse(ex) else p
  }

  /** The decision of Transaction::Write. */
  function WritePlan(kv: Kv, k: RowKey, t: Txn, op: WriteOp): Plan
    requires Descending(kv)
  {
    if Holds(t.written, k) then OverwritePlan(kv, k, HeldId(t.written, k), op)
    else InstallPlan(kv, k, t, op)
  }

  function NewVersion(id: nat, prev: nat, t: TxnId, op: WriteOp): Version {
    Version(id, 0, 0, prev, t, op.Delete?, if op.Delete? then [] else op.row)
  }

  function WrittenAfter(kv: Kv, k: RowKey, t: Txn, p: Plan): seq<TxnWrite> {
    if p.Install? then t.written + [TxnWrite(k, kv.nextVid)] else t.written
  }

  function WritePuts(kv: Kv, k: RowKey, t: Txn, op: WriteOp, p: Plan): seq<Put> {
    match p
    case Overwrite(v) => [PutVersion(k, v)]
    case Install(prev) =>
      OraclePuts(kv.nextTs, kv.nextTxn, kv.nextVid + 1)
      + [PutVersion(k, NewVersion(kv.nextVid, prev, t.id, op)),
         PutHead(k, kv.nextVid),
         PutTxn(t.id, TxnMeta(Open, 0, WrittenAfter(kv, k, t, p)))]
    case Refuse(_) => []
  }

  function WriteOutcome(kv: Kv, k: RowKey, t: Txn, op: WriteOp): Outcome
    requires Descending(kv)
  {
    var p := WritePlan(kv, k, t, op);
    Outcome(WritePuts(kv, k, t, op, p), if p.Refuse? then p.status else Ok)
  }

  // ---- Abort ------------------------------------------------------------------

  function RestoreOne(kv: Kv, w: TxnWrite): Outcome {
    if w.key !in kv.heads || kv.heads[w.key] != w.id then Outcome([], Ok)
    else if !Has(kv, w.key, w.id) then Outcome([], NotFound)
    else if Ver(kv, w.key, w.id).prev == 0 then Outcome([ClearHead(w.key)], Ok)
    else Outcome([PutHead(w.key, Ver(kv, w.key, w.id).prev)], Ok)
  }

  /** RestoreHeads: newest write first. */
  function RestoreHeads(kv: Kv, ws: seq<TxnWrite>): Outcome
    decreases |ws|
  {
    if ws == [] then Outcome([], Ok)
    else
      var o := RestoreOne(kv, ws[|ws| - 1]);
      if o.status != Ok then o
      else
        var rest := RestoreHeads(ApplyAll(kv, o.puts), ws[..|ws| - 1]);
        Outcome(o.puts + rest.puts, rest.status)
  }

  function AbortOutcome(kv: Kv, t: TxnId, ws: seq<TxnWrite>): Outcome {
    var o := RestoreHeads(kv, ws);
    if o.status != Ok then o else Outcome(o.puts + [PutTxn(t, TxnMeta(Aborted, 0, []))], Ok)
  }

  // ---- Commit -----------------------------------------------------------------

  datatype Check = Pass | Lost | Fail(status: Status)

  /** The re-check of one write before a commit timestamp is allocated. */
  function CheckOne(kv: Kv, startTs: Timestamp, w: TxnWrite): Check {
    if w.key !in kv.heads then Fail(NotFound)
    else if kv.heads[w.key] != w.id then Lost
    else if !Has(kv, w.key, w.id) then Fail(NotFound)
    else
      var p := Ver(kv, w.key, w.id).prev;
      if p != 0 && Has(kv, w.key, p) && !Ver(kv, w.key, p).Provisional()
         && Ver(kv, w.key, p).startTs > startTs then Lost
      else Pass
  }

  function CheckAll(kv: Kv, startTs: Timestamp, ws: seq<TxnWrite>): Check {
    if ws == [] then Pass
    else
      var c := CheckOne(kv, startTs, ws[0]);
      if c != Pass then c else CheckAll(kv, startTs, ws[1..])
  }

  /** ApplyCommitWrites on one write: close the predecessor, then stamp. */
  function ApplyOne(kv: Kv, t: TxnId, c: Timestamp, w: TxnWrite): Outcome {
    if !Has(kv, w.key, w.id) then Outcome([], NotFound)
    else
      var v := Ver(kv, w.key, w.id);
      if v.createdBy != t then Outcome([], Corruption)
      else if !v.Provisional() then Outcome([], if v.startTs != c then Corruption else Ok)
      else
        var stamp := [PutVersion(w.key, v.(startTs := c))];
        if v.prev != 0 && Has(kv, w.key, v.prev)
           && !Ver(kv, w.key, v.prev).Provisional() && Ver(kv, w.key, v.prev).endTs == 0
        then Outcome([PutVersion(w.key, Ver(kv, w.key, v.prev).(endTs := c))] + stamp, Ok)
        else Outcome(stamp, Ok)
  }

  function ApplyWrites(kv: Kv, t: TxnId, c: Timestamp, ws: seq<TxnWrite>): Outcome
    decreases |ws|
  {
    if ws == [] then Outcome([], Ok)
    else
      var o := ApplyOne(kv, t, c, ws[0]);
      if o.status != Ok then o
      else
        var rest := ApplyWrites(ApplyAll(kv, o.puts), t, c, ws[1..]);
        Outcome(o.puts + rest.puts, rest.status)
  }

  /** Commit once the re-check has passed: intent, stamps, record, counters. */
  function FinishOutcome(kv: Kv, t: Txn): Outcome {
    var c := kv.nextTs;
    var intent := PutTxn(t.id, TxnMeta(Committing, c, t.written));
    var o := ApplyWrites(Apply(kv, intent), t.id, c, t.written);
    if o.status != Ok then Outcome([intent] + o.puts, o.status)
    else
      Outcome([intent] + o.puts + [PutTxn(t.id, TxnMeta(Committed, c, []))]
              + OraclePuts(c + 1, kv.nextTxn, kv.nextVid), Ok)
  }

  function CommitOutcome(kv: Kv, t: Txn): Outcome {
    var check := CheckAll(kv, t.startTs, t.written);
    if check.Fail? then Outcome([], check.status)
    else if check == Lost then
      var o := AbortOutcome(kv, t.id, t.written);
      Outcome(o.puts, if o.status == Ok then Conflict else o.status)
    else FinishOutcome(kv, t)
  }

  // ---- Recovery ---------------------------------------------------------------

  function RecoverTxn(kv: Kv, t: TxnId): Outcome {
    if t !in kv.txns then Outcome([], Ok)
    else
      var m := kv.txns[t];
      match m.state
      case Committing =>
        if m.commitTs == 0 then Outcome([], Corruption)
        else
          var o := ApplyWrites(kv, t, m.commitTs, m.writes);
          if o.status != Ok then o
          else
            Outcome(o.puts + [PutTxn(t, TxnMeta(Committed, m.commitTs, []))]
                    + (if m.commitTs >= kv.nextTs then OraclePuts(m.commitTs + 1, kv.nextTxn, kv.nextVid) else []), Ok)
      case Open => AbortOutcome(kv, t, m.writes)
      case _ => Outcome([], Ok)
  }

  function RecoverFrom(kv: Kv, t: TxnId, limit: TxnId): Outcome
    decreases limit - t
  {
    if t >= limit then Outcome([], Ok)
    else
      var o := RecoverTxn(kv, t);
      if o.status != Ok then o
      else
        var rest := RecoverFrom(ApplyAll(kv, o.puts), t + 1, limit);
        Outcome(o.puts + rest.puts, rest.status)
  }

  function InitPuts(kv: Kv): seq<Put> {
    OraclePuts(Counter(kv.nextTs), Counter(kv.nextTxn), Counter(kv.nextVid))
  }

  /** Database::Open on an existing store: InitOracles, then RecoverTxns. */
  function Recovery(kv: Kv): Outcome {
    var o := RecoverFrom(ApplyAll(kv, InitPuts(kv)), 1, Counter(kv.nextTxn));
    Outcome(InitPuts(kv) + o.puts, o.status)
  }

  function Recovered(kv: Kv): Kv { ApplyAll(kv, Recovery(kv).puts) }
}
