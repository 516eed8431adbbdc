/** DDL under the gate: CREATE and DROP TABLE, and ALTER TABLE ADD/DROP COLUMN, which rewrites the
    newest version of every live row at the new width and leaves the old versions as they are. */
module Ddl {
  import opened Values
  import opened VersionStore
  import opened Protocol
  import opened CrashSafety

  // ---- CREATE / DROP ------------------------------------------------------------

  function CreateOutcome(kv: Kv, schema: TableSchema): Outcome {
    if !ValidSchema(schema) || schema.name in kv.catalog then Outcome([], InvalidArgument)
    else Outcome([PutTable(schema)], Ok)
  }

  function DeletePuts(heads: seq<RowKey>, versions: seq<VKey>): seq<Put> {
    seq(|heads|, i requires 0 <= i < |heads| => ClearHead(heads[i]))
    + seq(|versions|, i requires 0 <= i < |versions| => DeleteVersion(versions[i].key, versions[i].id))
  }

  /** `heads` and `versions` are the keys collected under the table's two prefixes. */
  predicate Collected(kv: Kv, table: Bytes, heads: seq<RowKey>, versions: seq<VKey>) {
    && (set k | k in heads) == (set k | k in kv.heads && k.table == table)
    && (set vk | vk in versions) == (set vk | vk in kv.versions && vk.key.table == table)
  }

  function DropOutcome(kv: Kv, table: Bytes, heads: seq<RowKey>, versions: seq<VKey>): Outcome {
    if table !in kv.catalog then Outcome([], NotFound)
    else Outcome([DeleteTable(table)] + DeletePuts(heads, versions), Ok)
  }

  // ---- ALTER --------------------------------------------------------------------

  datatype Alteration = AddColumn(col: ColumnDef, default: Value) | DropColumn(index: nat)

  function NewSchema(s: TableSchema, a: Alteration): TableSchema {
    match a
    case AddColumn(col, _) => s.(columns := s.columns + [col])
    case DropColumn(i) => if i < |s.columns| then s.(columns := RemoveAt(s.columns, i)) else s
  }

  function NewRow(row: Row, a: Alteration): Row {
    match a
    case AddColumn(_, v) => row + [v]
    case DropColumn(i) => if i < |row| then RemoveAt(row, i) else row
  }

  /** The checks before any rewrite. */
  function AddColumnCheck(kv: Kv, table: Bytes, col: ColumnDef, default: Value): Status {
    if col.name == [] || col.primaryKey || default == Null || default.Type() != col.typ then InvalidArgument
    else if table !in kv.catalog then NotFound
    else if ColumnIndex(kv.catalog[table].columns, col.name) >= 0 then InvalidArgument
    else if !ValidSchema(NewSchema(kv.catalog[table], AddColumn(col, default))) then InvalidArgument
    else Ok
  }

  function DropColumnCheck(kv: Kv, table: Bytes, name: Bytes): Status {
    if name == [] then InvalidArgument
    else if table !in kv.catalog then NotFound
    else
      var i := ColumnIndex(kv.catalog[table].columns, name);
      if i < 0 || kv.catalog[table].columns[i].primaryKey then InvalidArgument
      else if !ValidSchema(NewSchema(kv.catalog[table], DropColumn(i))) then InvalidArgument
      else Ok
  }

  /** Walk below provisional versions; when only provisional ones remain the last of them counts
      as a tombstone. None when a version is missing. */
  function Prior(kv: Kv, k: RowKey, id: nat): Option<Version>
    requires Descending(kv)
    decreases id
  {
    if !Has(kv, k, id) then None
    else if !Ver(kv, k, id).Provisional() then Some(Ver(kv, k, id))
    else if Ver(kv, k, id).prev == 0 then Some(Ver(kv, k, id).(tombstone := true))
    else Prior(kv, k, Ver(kv, k, id).prev)
  }

  function AlterOne(kv: Kv, k: RowKey, c: Timestamp, vid: nat, was: TableSchema, a: Alteration): Outcome
    requires Descending(kv)
  {
    if k !in kv.heads then Outcome([], NotFound)
    else
      match Prior(kv, k, kv.heads[k])
      case None => Outcome([], NotFound)
      case Some(p) =>
        var neu := NewSchema(was, a);
        if p.tombstone || p.endTs != 0 || |p.row| == |neu.columns| then Outcome([], Ok)
        else if |p.row| != |was.columns| then Outcome([], Corruption)
        else if !ValidateAgainst(NewRow(p.row, a), neu) then Outcome([], InvalidArgument)
        else
          Outcome([PutVersion(k, p.(endTs := c)),
                   PutVersion(k, Version(vid, c, 0, p.id, 0, false, NewRow(p.row, a))),
                   PutHead(k, vid)], Ok)
  }

  /** The rewrite loop; `vid` is the in-memory version counter. */
  function AlterAll(kv: Kv, ks: seq<RowKey>, c: Timestamp, vid: nat, was: TableSchema,
      a: Alteration): (r: (Outcome, nat))
    decreases |ks|
  {
    if ks == [] || !Descending(kv) then (Outcome([], Ok), vid)
    else
      var o := AlterOne(kv, ks[0], c, vid, was, a);
      if o.status != Ok then (o, vid)
      else
        var (rest, vid') := AlterAll(ApplyAll(kv, o.puts), ks[1..], c, if o.puts == [] then vid else vid + 1, was, a);
        (Outcome(o.puts + rest.puts, rest.status), vid')
  }

  function AlterOutcome(kv: Kv, table: Bytes, ks: seq<RowKey>, a: Alteration): Outcome
    requires table in kv.catalog
  {
    var (o, vid) := AlterAll(kv, ks, kv.nextTs, kv.nextVid, kv.catalog[table], a);
    if o.status != Ok then o
    else
      Outcome(o.puts + OraclePuts(kv.nextTs + 1, kv.nextTxn, vid) + [PutTable(NewSchema(kv.catalog[table], a))], Ok)
  }

  // ---- Effect of the rewrite ------------------------------------------------------

  ghost predicate KeySame(kv: Kv, kv': Kv, k: RowKey) {
    && (k in kv.heads <==> k in kv'.heads) && (k in kv.heads ==> kv.heads[k] == kv'.heads[k])
    && (forall id :: Has(kv, k, id) <==> Has(kv', k, id))
    && (forall id | Has(kv, k, id) :: Ver(kv, k, id) == Ver(kv', k, id))
  }

  ghost predicate NeedsRewrite(kv: Kv, k: RowKey) {
    Has(kv, k, Latest(kv, k)) && !Ver(kv, k, Latest(kv, k)).tombstone
  }

  /** Key `k` has a new head `n` at timestamp `c` over its closed newest version, or is as before
      when there is no live row. */
  ghost predicate KeyAltered(kv: Kv, kv': Kv, k: RowKey, c: Timestamp, lo: nat, hi: nat, a: Alteration) {
    if !NeedsRewrite(kv, k) then KeySame(kv, kv', k)
    else
      var l := Latest(kv, k);
      && k in kv'.heads
      && var n := kv'.heads[k];
      && lo <= n < hi && n != l
      && (forall id :: Has(kv', k, id) <==> Has(kv, k, id) || id == n)
      && (forall id | Has(kv, k, id) && id != n && id != l :: Ver(kv', k, id) == Ver(kv, k, id))
      && Ver(kv', k, l) == Ver(kv, k, l).(endTs := c)
      && Ver(kv', k, n) == Version(n, c, 0, l, 0, false, NewRow(Ver(kv, k, l).row, a))
  }

  /** What a key must look like for the rewrite of it to succeed. */
  ghost predicate KeyReady(kv: Kv, k: RowKey, was: TableSchema, a: Alteration, lo: nat) {
    && k in kv.heads && Has(kv, k, kv.heads[k])
    && (forall id: nat | Has(kv, k, id) :: id < lo)
    && var h := Ver(kv, k, kv.heads[k]);
    && (h.Provisional() && h.prev != 0 ==> Has(kv, k, h.prev) && !Ver(kv, k, h.prev).Provisional())
    && (Latest(kv, k) == 0 ==> !Has(kv, k, 0))
    && (NeedsRewrite(kv, k) ==>
          var p := Ver(kv, k, Latest(kv, k));
          && p.id == Latest(kv, k) && p.endTs == 0 && |p.row| == |was.columns| != |NewSchema(was, a).columns|
          && ValidateAgainst(NewRow(p.row, a), NewSchema(was, a)))
  }

  function Rewritten(kv: Kv, k: RowKey, p: Version, n: Version): Kv {
    kv.(versions := kv.versions[VKey(k, p.id) := p][VKey(k, n.id) := n], heads := kv.heads[k := n.id])
  }

  lemma {:induction false} AlterOnePuts(kv: Kv, k: RowKey, c: Timestamp, vid: nat, was: TableSchema, a: Alteration)
    requires Descending(kv) && KeyReady(kv, k, was, a, vid)
    ensures AlterOne(kv, k, c, vid, was, a).status == Ok
    ensures !NeedsRewrite(kv, k) ==> AlterOne(kv, k, c, vid, was, a).puts == []
    ensures NeedsRewrite(kv, k) ==>
              var p := Ver(kv, k, Latest(kv, k));
              var n := Version(vid, c, 0, p.id, 0, false, NewRow(p.row, a));
              AlterOne(kv, k, c, vid, was, a).puts == [PutVersion(k, p.(endTs := c)), PutVersion(k, n), PutHead(k, vid)]
  {
    var l := Latest(kv, k);
    assert Prior(kv, k, kv.heads[k]) == Some(if l == 0 then Ver(kv, k, kv.heads[k]).(tombstone := true)
        else Ver(kv, k, l));
  }

  lemma {:induction false} ApplyRewrite(kv: Kv, k: RowKey, p: Version, n: Version)
    ensures ApplyAll(kv, [PutVersion(k, p), PutVersion(k, n), PutHead(k, n.id)]) == Rewritten(kv, k, p, n)
  {
    var x, y, z := PutVersion(k, p), PutVersion(k, n), PutHead(k, n.id);
    assert [x, y, z] == [x, y] + [z];
    ApplySnoc(kv, [x, y], z);
    ApplyTwo(kv, x, y);
  }

  /** The rewrite of one key touches nothing else. */
  lemma {:induction false} AlterOneEffect(kv: Kv, k: RowKey, c: Timestamp, vid: nat, was: TableSchema, a: Alteration)
    requires Descending(kv) && KeyReady(kv, k, was, a, vid)
    ensures var o := AlterOne(kv, k, c, vid, was, a);
            var kv' := ApplyAll(kv, o.puts);
            && o.status == Ok
            && kv' == kv.(heads := kv'.heads, versions := kv'.versions)
            && KeyAltered(kv, kv', k, c, vid, if o.puts == [] then vid else vid + 1, a)
            && (forall j | j != k :: KeySame(kv, kv', j))
            && Descending(kv')
  {
    AlterOnePuts(kv, k, c, vid, was, a);
    if NeedsRewrite(kv, k) {
      var p := Ver(kv, k, Latest(kv, k)).(endTs := c);
      var n := Version(vid, c, 0, p.id, 0, false, NewRow(p.row, a));
      ApplyRewrite(kv, k, p, n);
      RewrittenEffect(kv, k, c, p, n, a);
    }
  }

  lemma {:induction false} RewrittenEffect(kv: Kv, k: RowKey, c: Timestamp, p: Version, n: Version, a: Alteration)
    requires Descending(kv) && NeedsRewrite(kv, k) && p == Ver(kv, k, Latest(kv, k)).(endTs := c)
    requires p.id == Latest(kv, k) && !Has(kv, k, n.id) && p.id < n.id
    requires n == Version(n.id, c, 0, p.id, 0, false, NewRow(p.row, a))
    ensures var kv' := Rewritten(kv, k, p, n);
            KeyAltered(kv, kv', k, c, n.id, n.id + 1, a) && (forall j | j != k :: KeySame(kv, kv', j))
                && Descending(kv')
  {
    var kv' := Rewritten(kv, k, p, n);
    forall id ensures Has(kv', k, id) <==> Has(kv, k, id) || id == n.id { }
    forall vk | vk in kv'.versions ensures kv'.versions[vk].prev < vk.id {
      assert vk in kv.versions || vk == VKey(k, n.id);
    }
  }

  lemma {:induction false} KeyAlteredWider(kv: Kv, kv': Kv, k: RowKey, c: Timestamp, lo: nat, hi: nat, lo': nat,
      hi': nat, a: Alteration)
    requires KeyAltered(kv, kv', k, c, lo, hi, a) && lo' <= lo && hi <= hi'
    ensures KeyAltered(kv, kv', k, c, lo', hi', a)
  {
  }

  lemma {:induction false} KeyAlteredVia(kv: Kv, kv1: Kv, kv2: Kv, k: RowKey, c: Timestamp, lo: nat, hi: nat,
      a: Alteration)
    requires || (KeySame(kv, kv1, k) && KeyAltered(kv1, kv2, k, c, lo, hi, a))
             || (KeyAltered(kv, kv1, k, c, lo, hi, a) && KeySame(kv1, kv2, k))
    ensures KeyAltered(kv, kv2, k, c, lo, hi, a)
  {
    if KeySame(kv, kv1, k) {
      assert Latest(kv, k) == Latest(kv1, k);
    }
    if NeedsRewrite(kv, k) && KeySame(kv1, kv2, k) {
      forall id ensures Has(kv2, k, id) <==> Has(kv1, k, id) { }
    }
  }

  ghost predicate Distinct<T>(s: seq<T>) {
    forall i, j | 0 <= i < j < |s| :: s[i] != s[j]
  }

  /** The whole rewrite: every listed key altered, every other key as before. */
  lemma {:induction false} AlterAllEffect(kv: Kv, ks: seq<RowKey>, c: Timestamp, vid: nat, was: TableSchema,
      a: Alteration)
    requires Descending(kv) && Distinct(ks)
    requires forall k | k in ks :: KeyReady(kv, k, was, a, vid)
    ensures var (o, vid') := AlterAll(kv, ks, c, vid, was, a);
            var kv' := ApplyAll(kv, o.puts);
            && o.status == Ok && vid <= vid'
            && kv' == kv.(heads := kv'.heads, versions := kv'.versions)
            && (forall k | k in ks :: KeyAltered(kv, kv', k, c, vid, vid', a))
            && (forall k | k !in ks :: KeySame(kv, kv', k))
    decreases |ks|
  {
    if ks != [] {
      var k0, tail := ks[0], ks[1..];
      AlterOneEffect(kv, k0, c, vid, was, a);
      var o := AlterOne(kv, k0, c, vid, was, a);
      var kv1, vid1 := ApplyAll(kv, o.puts), if o.puts == [] then vid else vid + 1;
      assert k0 !in tail;
      forall k | k in tail ensures KeyReady(kv1, k, was, a, vid1) {
        assert KeySame(kv, kv1, k) && KeyReady(kv, k, was, a, vid);
        assert Latest(kv1, k) == Latest(kv, k);
      }
      AlterAllEffect(kv1, tail, c, vid1, was, a);
      var (rest, vid') := AlterAll(kv1, tail, c, vid1, was, a);
      ApplyAllConcat(kv, o.puts, rest.puts);
      var kv' := ApplyAll(kv1, rest.puts);
      forall k | k in ks ensures KeyAltered(kv, kv', k, c, vid, vid', a) {
        if k == k0 {
          KeyAlteredVia(kv, kv1, kv', k, c, vid, vid1, a);
          KeyAlteredWider(kv, kv', k, c, vid, vid1, vid, vid', a);
        } else {
          KeyAlteredVia(kv, kv1, kv', k, c, vid1, vid', a);
          KeyAlteredWider(kv, kv', k, c, vid1, vid', vid, vid', a);
        }
      }
      forall k | k !in ks ensures KeySame(kv, kv', k) { assert KeySame(kv, kv1, k) && KeySame(kv1, kv', k); }
    }
  }
}
