/** DDL keeps the running invariant, and with it the shape of every row that can still be read. */
module DdlProof {
  import opened Values
  import opened VersionStore
  import opened DurableSteps
  import opened Protocol
  import opened CrashSafety
  import opened LiveTxns
  import opened Ddl

  ghost predicate AlterationOk(kv: Kv, table: Bytes, a: Alteration) {
    && table in kv.catalog
    && var s := kv.catalog[table];
    match a
    case AddColumn(col, v) => !col.primaryKey && v != Null && v.Type() == col.typ && ValidSchema(NewSchema(s, a))
    case DropColumn(i) => i < |s.columns| && !s.columns[i].primaryKey
  }

  /** A row that fits the old schema fits the new one after the rewrite, under the same key. */
  lemma {:induction false} NewRowOk(kv: Kv, k: RowKey, row: Row, a: Alteration, catalog: map<Bytes, TableSchema>)
    requires AlterationOk(kv, k.table, a) && RowOk(kv.catalog, k, row)
    requires k.table in catalog && catalog[k.table] == NewSchema(kv.catalog[k.table], a)
    ensures RowOk(catalog, k, NewRow(row, a))
    ensures |row| == |kv.catalog[k.table].columns| != |NewSchema(kv.catalog[k.table], a).columns|
  {
    match a
    case AddColumn(col, v) => AddColumnKeepsPk(row, kv.catalog[k.table], col, v);
    case DropColumn(i) => DropColumnKeepsPk(row, kv.catalog[k.table], i);
  }

  ghost predicate Quiet(kv: Kv) { UpInv(kv, map[]) }

  lemma {:induction false} QuietKeyReady(kv: Kv, k: RowKey, a: Alteration)
    requires Quiet(kv) && k in kv.heads && AlterationOk(kv, k.table, a)
    ensures KeyReady(kv, k, kv.catalog[k.table], a, kv.nextVid)
  {
    assert HeadOk(kv, k) && VersionOk(kv, VKey(k, kv.heads[k])) && VersionOk(kv, VKey(k, 0));
    forall id: nat | Has(kv, k, id) ensures id < kv.nextVid { assert VersionOk(kv, VKey(k, id)); }
    var l := Latest(kv, k);
    if NeedsRewrite(kv, k) {
      assert VersionOk(kv, VKey(k, l));
      assert Ver(kv, k, l).endTs == 0 by {
        assert forall u :: !CommittingTxn(kv, u);
      }
      NewRowOk(kv, k, Ver(kv, k, l).row, a, kv.catalog[k.table := NewSchema(kv.catalog[k.table], a)]);
    }
  }

  /** The store after ALTER, key by key. */
  ghost predicate AlteredStore(kv: Kv, kv': Kv, table: Bytes, a: Alteration) {
    && table in kv.catalog
    && kv' == kv.(heads := kv'.heads, versions := kv'.versions, nextVid := kv'.nextVid,
                  nextTs := kv.nextTs + 1, catalog := kv.catalog[table := NewSchema(kv.catalog[table], a)])
    && kv.nextVid <= kv'.nextVid
    && (forall k {:trigger KeyAltered(kv, kv', k, kv.nextTs, kv.nextVid, kv'.nextVid, a)} | k in kv.heads
        && k.table == table ::
          KeyAltered(kv, kv', k, kv.nextTs, kv.nextVid, kv'.nextVid, a))
    && (forall k {:trigger KeySame(kv, kv', k)} | !(k in kv.heads && k.table == table) :: KeySame(kv, kv', k))
  }

  lemma {:induction false} KeyAlteredCounters(kv: Kv, kv1: Kv, kv2: Kv, k: RowKey, c: Timestamp, lo: nat, hi: nat,
      a: Alteration)
    requires kv2.heads == kv1.heads && kv2.versions == kv1.versions && KeyAltered(kv, kv1, k, c, lo, hi, a)
    ensures KeyAltered(kv, kv2, k, c, lo, hi, a)
  {
    KeyAlteredVia(kv, kv1, kv2, k, c, lo, hi, a);
  }

  lemma {:induction false} AlterTail(kv: Kv, kv1: Kv, ps: seq<Put>, ts: nat, txn: nat, vid: nat, p: Put, s: TableSchema)
    requires ApplyAll(kv, ps) == kv1 && p == PutTable(s)
    ensures ApplyAll(kv, ps + OraclePuts(ts, txn, vid) + [p]) ==
            kv1.(nextTs := ts, nextTxn := txn, nextVid := vid, catalog := kv1.catalog[s.name := s])
  {
    ApplySnoc(kv, ps + OraclePuts(ts, txn, vid), p);
    ApplyAllConcat(kv, ps, OraclePuts(ts, txn, vid));
    OracleEffect(kv1, ts, txn, vid);
  }

  lemma {:induction false} AlterRewrites(kv: Kv, table: Bytes, ks: seq<RowKey>, a: Alteration)
    requires Quiet(kv) && AlterationOk(kv, table, a) && Descending(kv) && Distinct(ks)
    requires forall k :: k in ks <==> k in kv.heads && k.table == table
    ensures var (o, vid) := AlterAll(kv, ks, kv.nextTs, kv.nextVid, kv.catalog[table], a);
            var kv1 := ApplyAll(kv, o.puts);
            && o.status == Ok && kv.nextVid <= vid
            && kv1 == kv.(heads := kv1.heads, versions := kv1.versions)
            && (forall k | k in ks :: KeyAltered(kv, kv1, k, kv.nextTs, kv.nextVid, vid, a))
            && (forall k | k !in ks :: KeySame(kv, kv1, k))
  {
    forall k | k in ks ensures KeyReady(kv, k, kv.catalog[table], a, kv.nextVid) { QuietKeyReady(kv, k, a); }
    AlterAllEffect(kv, ks, kv.nextTs, kv.nextVid, kv.catalog[table], a);
  }

  lemma {:induction false} AlteredStoreFrom(kv: Kv, kv1: Kv, kv': Kv, table: Bytes, ks: seq<RowKey>, vid: nat,
      a: Alteration)
    requires table in kv.catalog && kv.nextVid <= vid
    requires forall k :: k in ks <==> k in kv.heads && k.table == table
    requires kv1 == kv.(heads := kv1.heads, versions := kv1.versions)
    requires forall k | k in ks :: KeyAltered(kv, kv1, k, kv.nextTs, kv.nextVid, vid, a)
    requires forall k | k !in ks :: KeySame(kv, kv1, k)
    requires kv' == kv1.(nextTs := kv.nextTs + 1, nextTxn := kv.nextTxn, nextVid := vid,
                         catalog := kv.catalog[table := NewSchema(kv.catalog[table], a)])
    ensures AlteredStore(kv, kv', table, a)
  {
    forall k | k in kv.heads && k.table == table ensures KeyAltered(kv, kv', k, kv.nextTs, kv.nextVid, vid, a) {
      KeyAlteredCounters(kv, kv1, kv', k, kv.nextTs, kv.nextVid, vid, a);
    }
    forall k | !(k in kv.heads && k.table == table) ensures KeySame(kv, kv', k) { assert KeySame(kv, kv1, k); }
  }

  lemma {:induction false} AlterEffect(kv: Kv, table: Bytes, ks: seq<RowKey>, a: Alteration)
    requires Quiet(kv) && AlterationOk(kv, table, a) && Descending(kv) && Distinct(ks)
    requires forall k :: k in ks <==> k in kv.heads && k.table == table
    ensures AlterOutcome(kv, table, ks, a).status == Ok
    ensures AlteredStore(kv, ApplyAll(kv, AlterOutcome(kv, table, ks, a).puts), table, a)
  {
    var r := AlterAll(kv, ks, kv.nextTs, kv.nextVid, kv.catalog[table], a);
    var kv1, s := ApplyAll(kv, r.0.puts), NewSchema(kv.catalog[table], a);
    AlterRewrites(kv, table, ks, a);
    assert s.name == table by { assert kv.catalog[table].name == table; }
    var p := PutTable(s);
    var kv' := kv1.(nextTs := kv.nextTs + 1, nextTxn := kv.nextTxn, nextVid := r.1, catalog := kv.catalog[table := s]);
    assert ApplyAll(kv, AlterOutcome(kv, table, ks, a).puts) == kv' by {
      AlterTail(kv, kv1, r.0.puts, kv.nextTs + 1, kv.nextTxn, r.1, p, s);
    }
    AlteredStoreFrom(kv, kv1, kv', table, ks, r.1, a);
  }

  // ---- The altered store keeps the invariant -----------------------------------------

  lemma {:induction false} QuietKey(kv: Kv, k: RowKey)
    requires Quiet(kv)
    ensures k in kv.heads && Has(kv, k, Latest(kv, k)) ==>
              && CommittedVersion(kv, k, Latest(kv, k)) && Ver(kv, k, Latest(kv, k)).endTs == 0
              && Ver(kv, k, Latest(kv, k)).startTs < kv.nextTs && Latest(kv, k) > 0
    ensures forall id: nat | CommittedVersion(kv, k, id) ::
        id <= Latest(kv, k) && Ver(kv, k, id).startTs < kv.nextTs && Ver(kv, k, id).endTs < kv.nextTs
    ensures forall id: nat | CommittedVersion(kv, k, id) && id != Latest(kv, k) :: 0 < Ver(kv, k, id).endTs
  {
    assert forall u :: !CommittingTxn(kv, u);
    assert HeadOk(kv, k) && VersionOk(kv, VKey(k, 0));
    if k in kv.heads { assert VersionOk(kv, VKey(k, kv.heads[k])) && VersionOk(kv, VKey(k, Latest(kv, k))); }
    forall id: nat | CommittedVersion(kv, k, id)
      ensures id <= Latest(kv, k) && Ver(kv, k, id).startTs < kv.nextTs && Ver(kv, k, id).endTs < kv.nextTs
      ensures id != Latest(kv, k) ==> 0 < Ver(kv, k, id).endTs
    {
      assert VersionOk(kv, VKey(k, id));
      if id != Latest(kv, k) { assert PairOk(kv, k, id, Latest(kv, k)); }
    }
  }

  /** With no live transaction every provisional version is an aborted leftover. */
  lemma {:induction false} QuietLeftover(kv: Kv, vk: VKey)
    requires Quiet(kv) && vk in kv.versions && kv.versions[vk].Provisional()
    ensures kv.versions[vk].createdBy in kv.txns && kv.txns[kv.versions[vk].createdBy].state == Aborted
  {
    assert VersionOk(kv, vk) && !CommittingTxn(kv, kv.versions[vk].createdBy);
  }

  lemma {:induction false} RewrittenHead(kv: Kv, kv': Kv, table: Bytes, a: Alteration, k: RowKey)
    requires Quiet(kv) && AlterationOk(kv, table, a) && AlteredStore(kv, kv', table, a)
    requires k in kv.heads && k.table == table && NeedsRewrite(kv, k)
    ensures k in kv'.heads && Has(kv', k, kv'.heads[k]) && Latest(kv', k) == kv'.heads[k]
    ensures VersionOk(kv', VKey(k, kv'.heads[k]))
  {
    QuietKey(kv, k);
    assert KeyAltered(kv, kv', k, kv.nextTs, kv.nextVid, kv'.nextVid, a);
    var l, n := Latest(kv, k), kv'.heads[k];
    assert Has(kv', k, n) && Has(kv', k, l);
    assert VersionOk(kv, VKey(k, l));
    assert RowOk(kv'.catalog, k, Ver(kv', k, n).row) by { NewRowOk(kv, k, Ver(kv, k, l).row, a, kv'.catalog); }
  }

  /** What the rewrite leaves of an older version: its place, and a lifetime that has ended. */
  lemma {:induction false} RewrittenBelow(kv: Kv, kv': Kv, table: Bytes, a: Alteration, k: RowKey, id: nat)
    requires Quiet(kv) && AlterationOk(kv, table, a) && AlteredStore(kv, kv', table, a)
    requires k in kv.heads && k.table == table && NeedsRewrite(kv, k)
    requires Has(kv', k, id) && k in kv'.heads && id != kv'.heads[k]
    ensures Has(kv, k, id)
    ensures Ver(kv', k, id) == Ver(kv, k, id).(endTs := if id == Latest(kv, k) then kv.nextTs else Ver(kv, k, id).endTs)
    ensures !Current(kv', VKey(k, id))
    ensures var p := Ver(kv, k, id).prev;
            p != 0 ==>
              && Has(kv, k, p) && CommittedVersion(kv', k, p)
              && (CommittedVersion(kv, k, id) ==> Ver(kv', k, p).endTs == Ver(kv, k, p).endTs)
  {
    assert KeyAltered(kv, kv', k, kv.nextTs, kv.nextVid, kv'.nextVid, a);
    QuietKey(kv, k);
    assert VersionOk(kv, VKey(k, id));
    assert Has(kv, k, id);
    if Ver(kv, k, id).Provisional() { QuietLeftover(kv, VKey(k, id)); }
    var p := Ver(kv, k, id).prev;
    if p != 0 { assert Has(kv', k, p) && VersionOk(kv, VKey(k, p)) && VersionOk(kv, VKey(k, kv'.heads[k])); }
  }

  lemma {:induction false} RewrittenVersion(kv: Kv, kv': Kv, table: Bytes, a: Alteration, k: RowKey, id: nat)
    requires Quiet(kv) && AlterationOk(kv, table, a) && AlteredStore(kv, kv', table, a)
    requires k in kv.heads && k.table == table && NeedsRewrite(kv, k) && Has(kv', k, id)
    ensures VersionOk(kv', VKey(k, id))
  {
    RewrittenHead(kv, kv', table, a, k);
    if id != kv'.heads[k] {
      RewrittenBelow(kv, kv', table, a, k, id);
      QuietKey(kv, k);
      assert VersionOk(kv, VKey(k, id));
      assert Latest(kv, k) < kv'.heads[k] by {
        assert KeyAltered(kv, kv', k, kv.nextTs, kv.nextVid, kv'.nextVid, a) && VersionOk(kv, VKey(k, Latest(kv, k)));
      }
    }
  }

  lemma {:induction false} UntouchedVersion(kv: Kv, kv': Kv, table: Bytes, a: Alteration, vk: VKey)
    requires Quiet(kv) && AlteredStore(kv, kv', table, a) && KeySame(kv, kv', vk.key) && vk in kv'.versions
    requires vk.key in kv.heads && vk.key.table == table ==> !NeedsRewrite(kv, vk.key)
    ensures VersionOk(kv', vk)
  {
    var k := vk.key;
    assert vk == VKey(k, vk.id) && Has(kv, k, vk.id);
    assert VersionOk(kv, vk) && HeadOk(kv, k);
    QuietKey(kv, k);
    assert Latest(kv', k) == Latest(kv, k);
    var v := kv.versions[vk];
    if v.prev != 0 { assert Has(kv', k, v.prev); }
    if v.Provisional() { QuietLeftover(kv, vk); }
    if k.table == table && !v.tombstone { assert !Current(kv', vk); }
  }

  lemma {:induction false} AlteredVersion(kv: Kv, kv': Kv, table: Bytes, a: Alteration, vk: VKey)
    requires Quiet(kv) && AlterationOk(kv, table, a) && AlteredStore(kv, kv', table, a)
    ensures VersionOk(kv', vk)
  {
    var k := vk.key;
    assert vk == VKey(k, vk.id);
    if vk in kv'.versions {
      if k in kv.heads && k.table == table && NeedsRewrite(kv, k) {
        RewrittenVersion(kv, kv', table, a, k, vk.id);
      } else {
        assert KeySame(kv, kv', k) by {
          if k in kv.heads && k.table == table { assert KeyAltered(kv, kv', k, kv.nextTs, kv.nextVid, kv'.nextVid, a); }
        }
        UntouchedVersion(kv, kv', table, a, vk);
      }
    }
  }

  lemma {:induction false} AlteredPair(kv: Kv, kv': Kv, table: Bytes, a: Alteration, k: RowKey, x: nat, y: nat)
    requires Quiet(kv) && AlterationOk(kv, table, a) && AlteredStore(kv, kv', table, a)
    ensures PairOk(kv', k, x, y)
  {
    QuietKey(kv, k);
    var l := Latest(kv, k);
    assert PairOk(kv, k, x, y) && PairOk(kv, k, x, l) && VersionOk(kv, VKey(k, x)) && VersionOk(kv, VKey(k, y));
    if k in kv.heads && k.table == table {
      assert KeyAltered(kv, kv', k, kv.nextTs, kv.nextVid, kv'.nextVid, a);
    } else {
      assert KeySame(kv, kv', k);
    }
    assert Has(kv', k, x) || !Has(kv', k, x);
    assert Has(kv', k, y) || !Has(kv', k, y);
  }

  lemma {:induction false} AlteredHead(kv: Kv, kv': Kv, table: Bytes, a: Alteration, k: RowKey)
    requires Quiet(kv) && AlterationOk(kv, table, a) && AlteredStore(kv, kv', table, a)
    ensures HeadOk(kv', k)
  {
    QuietKey(kv, k);
    assert HeadOk(kv, k) && VersionOk(kv, VKey(k, Latest(kv, k)));
    assert forall u :: !CommittingTxn(kv, u);
    if k in kv.heads && k.table == table {
      assert KeyAltered(kv, kv', k, kv.nextTs, kv.nextVid, kv'.nextVid, a);
      if !NeedsRewrite(kv, k) {
        assert Has(kv', k, kv.heads[k]) && Latest(kv', k) == Latest(kv, k);
        assert Has(kv', k, Latest(kv, k)) || !Has(kv', k, Latest(kv, k));
      } else {
        assert Has(kv', k, kv'.heads[k]);
      }
    } else {
      assert KeySame(kv, kv', k);
      if k in kv.heads {
        assert Has(kv', k, kv.heads[k]) && Latest(kv', k) == Latest(kv, k);
        assert Has(kv', k, Latest(kv, k)) || !Has(kv', k, Latest(kv, k));
      }
    }
  }

  /** Snapshots taken before the ALTER see what they saw. */
  lemma {:induction false} AlteredSame(kv: Kv, kv': Kv, table: Bytes, a: Alteration, k: RowKey, s: Timestamp, id: nat)
    requires Quiet(kv) && AlterationOk(kv, table, a) && AlteredStore(kv, kv', table, a) && s < kv.nextTs
    ensures SameAt(kv, kv', k, s, id)
  {
    QuietKey(kv, k);
    assert VersionOk(kv, VKey(k, id));
    if k in kv.heads && k.table == table {
      assert KeyAltered(kv, kv', k, kv.nextTs, kv.nextVid, kv'.nextVid, a);
    } else {
      assert KeySame(kv, kv', k);
    }
    assert Has(kv', k, id) || !Has(kv', k, id);
  }

  /** ALTER TABLE keeps the running invariant under the new schema, and every older snapshot. */
  lemma {:induction false} AlterKeeps(kv: Kv, table: Bytes, ks: seq<RowKey>, a: Alteration)
    requires Quiet(kv) && AlterationOk(kv, table, a) && Descending(kv) && Distinct(ks)
    requires forall k :: k in ks <==> k in kv.heads && k.table == table
    ensures AlterOutcome(kv, table, ks, a).status == Ok
    ensures var kv' := ApplyAll(kv, AlterOutcome(kv, table, ks, a).puts);
            && Quiet(kv') && kv'.nextTs == kv.nextTs + 1
            && kv'.catalog == kv.catalog[table := NewSchema(kv.catalog[table], a)]
            && kv'.txns == kv.txns
            && forall k, s: Timestamp, id | s < kv.nextTs :: SameAt(kv, kv', k, s, id)
  {
    AlterEffect(kv, table, ks, a);
    var kv' := ApplyAll(kv, AlterOutcome(kv, table, ks, a).puts);
    AlteredQuiet(kv, kv', table, a);
    forall k, s: Timestamp, id | s < kv.nextTs ensures SameAt(kv, kv', k, s, id) {
      AlteredSame(kv, kv', table, a, k, s, id);
    }
  }

  lemma {:induction false} AlteredQuiet(kv: Kv, kv': Kv, table: Bytes, a: Alteration)
    requires Quiet(kv) && AlterationOk(kv, table, a) && AlteredStore(kv, kv', table, a)
    ensures Quiet(kv')
  {
    forall vk ensures VersionOk(kv', vk) { AlteredVersion(kv, kv', table, a, vk); }
    forall k, x, y ensures PairOk(kv', k, x, y) { AlteredPair(kv, kv', table, a, k, x, y); }
    forall k ensures HeadOk(kv', k) { AlteredHead(kv, kv', table, a, k); }
    forall u ensures !CommittingTxn(kv', u) { assert !CommittingTxn(kv, u); }
    forall t ensures TxnOk(kv', t) {
      assert TxnOk(kv, t) && !CommittingTxn(kv, t);
      assert t in kv.txns ==> kv.txns[t].state != Open;
    }
  }

  // ---- CREATE and DROP ------------------------------------------------------------

  lemma {:induction false} CreateKeeps(kv: Kv, schema: TableSchema)
    requires Quiet(kv)
    ensures var o := CreateOutcome(kv, schema);
            var kv' := ApplyAll(kv, o.puts);
            && Quiet(kv')
            && kv' == (if o.status == Ok then kv.(catalog := kv.catalog[schema.name := schema]) else kv)
  {
    var o := CreateOutcome(kv, schema);
    if o.status == Ok {
      var kv' := kv.(catalog := kv.catalog[schema.name := schema]);
      assert [] + [PutTable(schema)] == [PutTable(schema)];
      ApplySnoc(kv, [], PutTable(schema));
      forall vk ensures VersionOk(kv', vk) {
        assert VersionOk(kv, vk);
        if vk in kv.versions { assert vk.key.table != schema.name; }
      }
      forall k, x, y ensures PairOk(kv', k, x, y) { assert PairOk(kv, k, x, y); }
      forall k ensures HeadOk(kv', k) { assert HeadOk(kv, k); }
      forall u ensures !CommittingTxn(kv', u) { assert !CommittingTxn(kv, u); }
      forall t ensures TxnOk(kv', t) { assert TxnOk(kv, t); }
    }
  }

  lemma {:induction false} ClearsEffect(kv: Kv, ks: seq<RowKey>)
    ensures ApplyAll(kv, seq(|ks|, i requires 0 <= i < |ks| => ClearHead(ks[i]))) ==
        kv.(heads := kv.heads - set k | k in ks)
    decreases |ks|
  {
    var ps := seq(|ks|, i requires 0 <= i < |ks| => ClearHead(ks[i]));
    if ks == [] {
      assert ps == [] && kv.heads - (set k | k in ks) == kv.heads;
    } else {
      var init, last := ks[..|ks| - 1], ks[|ks| - 1];
      ClearsEffect(kv, init);
      var qs := seq(|init|, i requires 0 <= i < |init| => ClearHead(init[i]));
      assert ps == qs + [ClearHead(last)];
      ApplySnoc(kv, qs, ClearHead(last));
      assert (set k | k in ks) == (set k | k in init) + {last};
      assert kv.heads - (set k | k in init) - {last} == kv.heads - (set k | k in ks);
    }
  }

  lemma {:induction false} DeletesEffect(kv: Kv, vs: seq<VKey>)
    ensures ApplyAll(kv, seq(|vs|, i requires 0 <= i < |vs| => DeleteVersion(vs[i].key, vs[i].id))) ==
        kv.(versions := kv.versions - set v | v in vs)
    decreases |vs|
  {
    var ps := seq(|vs|, i requires 0 <= i < |vs| => DeleteVersion(vs[i].key, vs[i].id));
    if vs == [] {
      assert ps == [] && kv.versions - (set v | v in vs) == kv.versions;
    } else {
      var init, last := vs[..|vs| - 1], vs[|vs| - 1];
      DeletesEffect(kv, init);
      var qs := seq(|init|, i requires 0 <= i < |init| => DeleteVersion(init[i].key, init[i].id));
      var p := DeleteVersion(last.key, last.id);
      assert ps == qs + [p];
      ApplySnoc(kv, qs, p);
      assert VKey(last.key, last.id) == last;
      assert (set v | v in vs) == (set v | v in init) + {last};
      assert kv.versions - (set v | v in init) - {last} == kv.versions - (set v | v in vs);
    }
  }

  function DroppedKv(kv: Kv, table: Bytes): Kv {
    kv.(catalog := kv.catalog - {table},
        heads := map k | k in kv.heads && k.table != table :: kv.heads[k],
        versions := map vk | vk in kv.versions && vk.key.table != table :: kv.versions[vk])
  }

  lemma {:induction false} DropEffect(kv: Kv, table: Bytes, heads: seq<RowKey>, versions: seq<VKey>)
    requires table in kv.catalog && Collected(kv, table, heads, versions)
    ensures ApplyAll(kv, DropOutcome(kv, table, heads, versions).puts) == DroppedKv(kv, table)
  {
    var p := DeleteTable(table);
    var a := seq(|heads|, i requires 0 <= i < |heads| => ClearHead(heads[i]));
    var b := seq(|versions|, i requires 0 <= i < |versions| => DeleteVersion(versions[i].key, versions[i].id));
    var kv1 := Apply(kv, p);
    ApplyCons(kv, p, a + b);
    ApplyAllConcat(kv1, a, b);
    ClearsEffect(kv1, heads);
    var kv2 := kv1.(heads := kv.heads - set k | k in heads);
    DeletesEffect(kv2, versions);
    assert kv.heads - (set k | k in heads) == DroppedKv(kv, table).heads;
    assert kv.versions - (set v | v in versions) == DroppedKv(kv, table).versions;
  }

  lemma {:induction false} DropKeeps(kv: Kv, table: Bytes)
    requires Quiet(kv)
    ensures Quiet(DroppedKv(kv, table))
  {
    var kv' := DroppedKv(kv, table);
    assert forall k: RowKey | k.table != table :: Latest(kv', k) == Latest(kv, k);
    forall vk ensures VersionOk(kv', vk) { assert VersionOk(kv, vk); }
    forall k, x, y ensures PairOk(kv', k, x, y) { assert PairOk(kv, k, x, y); }
    forall k ensures HeadOk(kv', k) { assert HeadOk(kv, k); }
    forall u ensures !CommittingTxn(kv', u) { assert !CommittingTxn(kv, u); }
    forall t ensures TxnOk(kv', t) {
      assert TxnOk(kv, t) && !CommittingTxn(kv, t);
      assert t in kv.txns ==> kv.txns[t].state != Open;
    }
  }
}
