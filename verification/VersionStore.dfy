/** The relational layer's view of the key-value store, one map per key prefix, and the
    version-chain reads on it.

    Every change goes through a `Put`; an operation is the list of puts it issues, and a crash
    keeps a prefix of that list. */
module VersionStore {
  import opened Values

  type Timestamp = nat
  type TxnId = nat

  datatype RowKey = RowKey(table: Bytes, pk: Value)
  datatype VKey = VKey(key: RowKey, id: nat)

  /** One physical version of a row; `startTs == 0` is provisional, `endTs == 0` is live. */
  datatype Version = Version(
    id: nat, startTs: Timestamp, endTs: Timestamp, prev: nat, createdBy: TxnId,
    tombstone: bool, row: Row)
  {
    predicate Provisional() { startTs == 0 }
  }

  datatype TxnState = Open | Committed | Aborted | Committing
  datatype TxnWrite = TxnWrite(key: RowKey, id: nat)
  datatype TxnMeta = TxnMeta(state: TxnState, commitTs: Timestamp, writes: seq<TxnWrite>)

  /** The durable contents. A counter that was never written reads as 0. */
  datatype Kv = Kv(
    heads: map<RowKey, nat>,           // d/<table>/<pk>
    versions: map<VKey, Version>,      // v/<table>/<pk>/<id>
    txns: map<TxnId, TxnMeta>,         // m/txn/<id>
    nextTs: nat, nextTxn: nat, nextVid: nat,
    catalog: map<Bytes, TableSchema>)  // c/t/<table>

  const EmptyKv := Kv(map[], map[], map[], 0, 0, 0, map[])

  datatype Put =
    | PutHead(key: RowKey, id: nat)
    | ClearHead(key: RowKey)
    | PutVersion(key: RowKey, version: Version)
    | DeleteVersion(key: RowKey, id: nat)
    | PutTxn(txn: TxnId, meta: TxnMeta)
    | PutNextTs(n: nat)
    | PutNextTxn(n: nat)
    | PutNextVid(n: nat)
    | PutTable(schema: TableSchema)
    | DeleteTable(name: Bytes)

  function Apply(kv: Kv, p: Put): Kv {
    match p
    case PutHead(k, id) => kv.(heads := kv.heads[k := id])
    case ClearHead(k) => kv.(heads := kv.heads - {k})
    case PutVersion(k, v) => kv.(versions := kv.versions[VKey(k, v.id) := v])
    case DeleteVersion(k, id) => kv.(versions := kv.versions - {VKey(k, id)})
    case PutTxn(t, m) => kv.(txns := kv.txns[t := m])
    case PutNextTs(n) => kv.(nextTs := n)
    case PutNextTxn(n) => kv.(nextTxn := n)
    case PutNextVid(n) => kv.(nextVid := n)
    case PutTable(s) => kv.(catalog := kv.catalog[s.name := s])
    case DeleteTable(n) => kv.(catalog := kv.catalog - {n})
  }

  function ApplyAll(kv: Kv, ps: seq<Put>): Kv
    decreases |ps|
  {
    if ps == [] then kv else ApplyAll(Apply(kv, ps[0]), ps[1..])
  }

  lemma {:induction false} ApplyAllConcat(kv: Kv, a: seq<Put>, b: seq<Put>)
    ensures ApplyAll(kv, a + b) == ApplyAll(ApplyAll(kv, a), b)
    decreases |a|
  {
    if a == [] {
      assert a + b == b;
    } else {
      ApplyAllConcat(Apply(kv, a[0]), a[1..], b);
      assert (a + b)[1..] == a[1..] + b;
    }
  }

  predicate Has(kv: Kv, k: RowKey, id: nat) { VKey(k, id) in kv.versions }

  function Ver(kv: Kv, k: RowKey, id: nat): Version
    requires Has(kv, k, id)
  {
    kv.versions[VKey(k, id)]
  }

  /** Version ids fall strictly along every prev link. */
  predicate Descending(kv: Kv) {
    forall vk | vk in kv.versions :: kv.versions[vk].prev < vk.id
  }

  predicate IsCommittedVisible(v: Version, snapshot: Timestamp) {
    && !v.Provisional()
    && v.startTs <= snapshot
    && !(v.endTs != 0 && v.endTs <= snapshot)
  }

  /** What a point read returns: a row, `Missing` (NotFound), or another status. */
  datatype Read = Found(row: Row) | Missing | Failed(status: Status)

  /** The chain walk of MvccStore::GetRow from version `id` towards older versions. */
  function ReadFrom(kv: Kv, k: RowKey, id: nat, snapshot: Timestamp, reader: TxnId): Read
    requires Descending(kv)
    decreases id
  {
    if id == 0 || !Has(kv, k, id) then Missing
    else
      var v := Ver(kv, k, id);
      if v.Provisional() && v.createdBy != reader then
        if v.createdBy !in kv.txns then Missing
        else if kv.txns[v.createdBy].state == Committed then Failed(Corruption)
        else ReadFrom(kv, k, v.prev, snapshot, reader)
      else if v.Provisional() || IsCommittedVisible(v, snapshot) then
        if v.tombstone then Missing else Found(v.row)
      else ReadFrom(kv, k, v.prev, snapshot, reader)
  }

  function ReadRow(kv: Kv, k: RowKey, snapshot: Timestamp, reader: TxnId): Read
    requires Descending(kv)
  {
    if k !in kv.heads then Missing else ReadFrom(kv, k, kv.heads[k], snapshot, reader)
  }

  /** Id of the newest committed version of a key: the head, or what a provisional head
      replaces; 0 when there is none. */
  function Latest(kv: Kv, k: RowKey): nat {
    if k !in kv.heads || !Has(kv, k, kv.heads[k]) then 0
    else if Ver(kv, k, kv.heads[k]).Provisional() then Ver(kv, k, kv.heads[k]).prev
    else kv.heads[k]
  }

  predicate CommittedVersion(kv: Kv, k: RowKey, id: nat) {
    Has(kv, k, id) && !Ver(kv, k, id).Provisional()
  }

  /** Version `id` is the one a snapshot sees, by timestamps alone. */
  predicate VisibleAt(kv: Kv, k: RowKey, snapshot: Timestamp, id: nat) {
    Has(kv, k, id) && IsCommittedVisible(Ver(kv, k, id), snapshot)
  }

  /** The committed contents of a key at a snapshot, without any chain: the row of the version
      whose lifetime holds the snapshot. */
  ghost function CommittedAt(kv: Kv, k: RowKey, snapshot: Timestamp): Option<Row> {
    if exists id :: VisibleAt(kv, k, snapshot, id) then
      var id :| VisibleAt(kv, k, snapshot, id);
      if Ver(kv, k, id).tombstone then None else Some(Ver(kv, k, id).row)
    else None
  }

  function AsOption(r: Read): Option<Row> {
    if r.Found? then Some(r.row) else None
  }

  // ---------------------------------------------------------------------------
  // The durable invariant: holds after every single put, so also after a crash.
  // ---------------------------------------------------------------------------

  ghost predicate CommittingTxn(kv: Kv, t: TxnId) {
    t in kv.txns && kv.txns[t].state == Committing
  }

  ghost predicate NoneCommitting(kv: Kv) {
    forall t :: !CommittingTxn(kv, t)
  }

  /** A provisional version belongs to a transaction that is unfinished or aborted; once the
      commit intent is durable it is on the intent's write list. */
  ghost predicate ProvisionalOk(kv: Kv, vk: VKey)
    requires vk in kv.versions
  {
    var v := kv.versions[vk];
    && v.endTs == 0
    && v.createdBy in kv.txns
    && kv.txns[v.createdBy].state != Committed
    && (kv.txns[v.createdBy].state == Committing ==> TxnWrite(vk.key, vk.id) in kv.txns[v.createdBy].writes)
  }

  /** A committed version is reached from the head, its predecessor ends exactly where it starts,
      and its timestamps lie below the clock unless they are those of the commit in progress. */
  ghost predicate CommittedOk(kv: Kv, vk: VKey)
    requires vk in kv.versions
  {
    var v := kv.versions[vk];
    && vk.id <= Latest(kv, vk.key)
    && (v.createdBy == 0
        || (v.createdBy in kv.txns && kv.txns[v.createdBy].state in {Committing, Committed}
            && v.startTs == kv.txns[v.createdBy].commitTs))
    && (v.prev != 0 ==> Has(kv, vk.key, v.prev) && Ver(kv, vk.key, v.prev).endTs == v.startTs)
    && (v.startTs == kv.nextTs ==>
          CommittingTxn(kv, v.createdBy) && TxnWrite(vk.key, vk.id) in kv.txns[v.createdBy].writes)
    && (v.endTs == kv.nextTs ==> !NoneCommitting(kv))
  }

  /** A row fits its key: its table exists, its cells match the schema, its key cell is the key. */
  ghost predicate RowOk(catalog: map<Bytes, TableSchema>, k: RowKey, row: Row) {
    && k.table in catalog
    && ValidateAgainst(row, catalog[k.table])
    && PrimaryKeyOf(row, catalog[k.table]) == Some(k.pk)
  }

  /** The version may still be read: it is live or being closed, or its writer may yet commit. */
  ghost predicate Current(kv: Kv, vk: VKey)
    requires vk in kv.versions
  {
    var v := kv.versions[vk];
    if v.Provisional() then v.createdBy in kv.txns && kv.txns[v.createdBy].state in {Open, Committing}
    else v.endTs == 0 || v.endTs >= kv.nextTs
  }

  ghost predicate VersionOk(kv: Kv, vk: VKey) {
    vk in kv.versions ==>
      var v := kv.versions[vk];
      && vk.key.table in kv.catalog
      && (Current(kv, vk) && !v.tombstone ==> RowOk(kv.catalog, vk.key, v.row))
      && v.id == vk.id && 0 < vk.id < kv.nextVid
      && v.prev < vk.id
      && (v.prev != 0 ==> CommittedVersion(kv, vk.key, v.prev))
      && v.startTs <= kv.nextTs && v.endTs <= kv.nextTs
      && if v.Provisional() then ProvisionalOk(kv, vk) else CommittedOk(kv, vk)
  }

  /** Of two committed versions of a key the one with the larger id starts later, and the other's
      lifetime has ended by then. */
  ghost predicate PairOk(kv: Kv, k: RowKey, a: nat, b: nat) {
    CommittedVersion(kv, k, a) && CommittedVersion(kv, k, b) && a < b ==>
      && a <= Ver(kv, k, b).prev
      && Ver(kv, k, a).startTs < Ver(kv, k, b).startTs
      && 0 < Ver(kv, k, a).endTs <= Ver(kv, k, b).startTs
  }

  /** The head is a provisional write of the commit in progress, at timestamp `c`. */
  ghost predicate Closing(kv: Kv, k: RowKey, c: Timestamp) {
    && k in kv.heads && Has(kv, k, kv.heads[k])
    && var v := Ver(kv, k, kv.heads[k]);
    && v.Provisional() && CommittingTxn(kv, v.createdBy)
    && kv.txns[v.createdBy].commitTs == c
  }

  /** The newest committed version is live, unless a commit in progress has already closed it. */
  ghost predicate HeadOk(kv: Kv, k: RowKey) {
    k in kv.heads ==>
      && Has(kv, k, kv.heads[k])
      && (Has(kv, k, Latest(kv, k)) ==>
            || Ver(kv, k, Latest(kv, k)).endTs == 0
            || Closing(kv, k, Ver(kv, k, Latest(kv, k)).endTs))
  }

  ghost predicate DistinctKeys(ws: seq<TxnWrite>) {
    forall i, j | 0 <= i < j < |ws| :: ws[i].key != ws[j].key
  }

  ghost predicate WritesOwned(kv: Kv, t: TxnId, ws: seq<TxnWrite>) {
    forall w | w in ws :: Has(kv, w.key, w.id) && Ver(kv, w.key, w.id).createdBy == t
  }

  /** A write of a commit in progress is either still the provisional head or stamped. */
  ghost predicate IntentOk(kv: Kv, w: TxnWrite, c: Timestamp) {
    Has(kv, w.key, w.id) ==>
      if Ver(kv, w.key, w.id).Provisional()
      then w.key in kv.heads && kv.heads[w.key] == w.id
      else Ver(kv, w.key, w.id).startTs == c
  }

  ghost predicate TxnOk(kv: Kv, t: TxnId) {
    t in kv.txns ==>
      var m := kv.txns[t];
      && 0 < t < kv.nextTxn
      && WritesOwned(kv, t, m.writes)
      && DistinctKeys(m.writes)
      && (m.state == Committing ==>
            && m.commitTs == kv.nextTs > 0
            && forall w | w in m.writes :: IntentOk(kv, w, m.commitTs))
      && (m.state == Committed ==> m.commitTs < kv.nextTs)
      && (m.state in {Committed, Aborted} ==> m.writes == [])
  }

  ghost predicate OneCommitting(kv: Kv) {
    forall t, u | CommittingTxn(kv, t) && CommittingTxn(kv, u) :: t == u
  }

  ghost predicate DurableInv(kv: Kv) {
    && (forall vk {:trigger VersionOk(kv, vk)} :: VersionOk(kv, vk))
    && (forall k, a, b {:trigger PairOk(kv, k, a, b)} :: PairOk(kv, k, a, b))
    && (forall k {:trigger HeadOk(kv, k)} :: HeadOk(kv, k))
    && (forall t {:trigger TxnOk(kv, t)} :: TxnOk(kv, t))
    && OneCommitting(kv)
    && (forall name | name in kv.catalog :: kv.catalog[name].name == name)
  }
}
