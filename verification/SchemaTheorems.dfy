/** What the next transaction finds after a schema change, in every run: the new columns, and every row it
    could have read before, cell by cell. */
module SchemaTheorems {
  import opened Values
  import opened VersionStore
  import opened Protocol
  import opened CrashSafety
  import opened RecoveryProof
  import opened Reads
  import opened LiveTxns
  import opened Ddl
  import opened DdlProof
  import opened SnapshotIsolation

  // ---- Reading between transactions ---------------------------------------------------------------

  lemma {:induction false} QuietVisible(kv: Kv, k: RowKey, id: nat)
    requires Quiet(kv)
    ensures VisibleAt(kv, k, kv.nextTs - 1, id) <==> k in kv.heads && id == Latest(kv, k) && Has(kv, k, id)
  {
    QuietKey(kv, k);
    assert VersionOk(kv, VKey(k, id)) && VersionOk(kv, VKey(k, 0));
  }

  lemma {:induction false} QuietRead(kv: Kv, k: RowKey)
    requires Quiet(kv) && Descending(kv)
    ensures NextRead(kv, k) ==
            if k in kv.heads && NeedsRewrite(kv, k) then Found(Ver(kv, k, Latest(kv, k)).row) else Missing
  {
    NextIsSnapshot(kv, k);
    forall id ensures VisibleAt(kv, k, kv.nextTs - 1, id) <==> k in kv.heads && id == Latest(kv, k) && Has(kv, k, id) {
      QuietVisible(kv, k, id);
    }
  }

  // ---- The rows and columns after ALTER ------------------------------------------------------------

  /** One more cell at the end, the others as they were. */
  ghost predicate Widened<T>(was: seq<T>, now: seq<T>, last: T) {
    |now| == |was| + 1 && now[|was|] == last && forall j | 0 <= j < |was| :: now[j] == was[j]
  }

  /** Cell `i` gone, the cells behind it one place forward. */
  ghost predicate Narrowed<T>(was: seq<T>, now: seq<T>, i: nat) {
    && i < |was| == |now| + 1
    && (forall j | 0 <= j < i :: now[j] == was[j])
    && forall j | i <= j < |now| :: now[j] == was[j + 1]
  }

  /** The row a reader finds in place of `was`. */
  ghost predicate RowAltered(was: Row, now: Row, a: Alteration) {
    match a
    case AddColumn(_, v) => Widened(was, now, v)
    case DropColumn(i) => Narrowed(was, now, i)
  }

  ghost predicate ColumnsAltered(was: TableSchema, now: TableSchema, a: Alteration) {
    && now.name == was.name
    && match a
       case AddColumn(col, _) => Widened(was.columns, now.columns, col)
       case DropColumn(i) => Narrowed(was.columns, now.columns, i)
  }

  /** A key of the altered table reads its old row altered, or nothing if it read nothing. */
  ghost predicate ReadAltered(was: Read, now: Read, a: Alteration) {
    if was.Found? then now.Found? && RowAltered(was.row, now.row, a) else was == now == Missing
  }

  /** The whole table: its columns, and what the next transaction reads of it; other tables stay. */
  ghost predicate Altered(kv: Kv, kv': Kv, table: Bytes, a: Alteration) {
    && Descending(kv) && Descending(kv') && kv.nextTs > 0 && kv'.nextTs > 0
    && table in kv.catalog && table in kv'.catalog
    && ColumnsAltered(kv.catalog[table], kv'.catalog[table], a)
    && (forall name | name != table :: (name in kv.catalog <==> name in kv'.catalog)
          && (name in kv.catalog ==> kv'.catalog[name] == kv.catalog[name]))
    && (forall k: RowKey {:trigger NextRead(kv', k)} | k.table == table ::
          ReadAltered(NextRead(kv, k), NextRead(kv', k), a))
    && (forall k: RowKey {:trigger NextRead(kv', k)} | k.table != table :: NextRead(kv, k) == NextRead(kv', k))
  }

  lemma {:induction false} KeySameLatest(kv: Kv, kv': Kv, k: RowKey)
    requires KeySame(kv, kv', k)
    ensures k in kv.heads ==> Latest(kv', k) == Latest(kv, k)
    ensures k in kv.heads ==> (NeedsRewrite(kv, k) <==> NeedsRewrite(kv', k))
    ensures k in kv.heads && NeedsRewrite(kv, k) ==>
              Ver(kv', k, Latest(kv', k)).row == Ver(kv, k, Latest(kv, k)).row
  {
    if k in kv.heads {
      assert Has(kv, k, kv.heads[k]) || !Has(kv, k, kv.heads[k]);
      assert Has(kv, k, Latest(kv, k)) || !Has(kv, k, Latest(kv, k));
    }
  }

  lemma {:induction false} NewRowCells(row: Row, a: Alteration)
    requires a.DropColumn? ==> a.index < |row|
    ensures RowAltered(row, NewRow(row, a), a)
  {
  }

  lemma {:induction false} RewrittenRow(kv: Kv, kv': Kv, table: Bytes, a: Alteration, k: RowKey)
    requires Quiet(kv) && AlterationOk(kv, table, a) && AlteredStore(kv, kv', table, a)
    requires k in kv.heads && k.table == table && NeedsRewrite(kv, k)
    ensures k in kv'.heads && NeedsRewrite(kv', k)
    ensures RowAltered(Ver(kv, k, Latest(kv, k)).row, Ver(kv', k, Latest(kv', k)).row, a)
  {
    hide RowAltered, NewRow;
    var l := Latest(kv, k);
    RewrittenHead(kv, kv', table, a, k);
    assert KeyAltered(kv, kv', k, kv.nextTs, kv.nextVid, kv'.nextVid, a);
    QuietKey(kv, k);
    assert VersionOk(kv, VKey(k, l));
    NewRowCells(Ver(kv, k, l).row, a);
  }

  lemma {:induction false} AlteredRead(kv: Kv, kv': Kv, table: Bytes, a: Alteration, k: RowKey)
    requires Quiet(kv) && Quiet(kv') && Descending(kv) && Descending(kv')
    requires AlterationOk(kv, table, a) && AlteredStore(kv, kv', table, a)
    ensures if k.table == table then ReadAltered(NextRead(kv, k), NextRead(kv', k), a)
            else NextRead(kv, k) == NextRead(kv', k)
  {
    QuietRead(kv, k);
    QuietRead(kv', k);
    if k in kv.heads && k.table == table && NeedsRewrite(kv, k) {
      RewrittenRow(kv, kv', table, a, k);
    } else {
      assert KeySame(kv, kv', k) by {
        if k in kv.heads && k.table == table { assert KeyAltered(kv, kv', k, kv.nextTs, kv.nextVid, kv'.nextVid, a); }
      }
      hide NextRead, NeedsRewrite, Latest, AlteredStore, UpInv;
      KeySameLatest(kv, kv', k);
    }
  }

  /** The whole of ALTER TABLE, as the next transaction sees it. */
  lemma {:induction false} AlterMeans(kv: Kv, table: Bytes, ks: seq<RowKey>, a: Alteration)
    requires Quiet(kv) && AlterationOk(kv, table, a) && Descending(kv) && Distinct(ks)
    requires forall k :: k in ks <==> k in kv.heads && k.table == table
    ensures var o := AlterOutcome(kv, table, ks, a);
            var kv' := ApplyAll(kv, o.puts);
            o.status == Ok && Altered(kv, kv', table, a)
  {
    hide NextRead, ReadAltered;
    AlterEffect(kv, table, ks, a);
    AlterKeeps(kv, table, ks, a);
    var kv' := ApplyAll(kv, AlterOutcome(kv, table, ks, a).puts);
    DurableDescends(kv');
    forall k: RowKey
      ensures k.table == table ==> ReadAltered(NextRead(kv, k), NextRead(kv', k), a)
      ensures k.table != table ==> NextRead(kv, k) == NextRead(kv', k)
    {
      AlteredRead(kv, kv', table, a, k);
    }
  }

  // ---- The catalog in every run --------------------------------------------------------------------

  ghost predicate CatalogOk(kv: Kv) { forall name | name in kv.catalog :: ValidSchema(kv.catalog[name]) }

  lemma {:induction false} DdlCatalog(kv: Kv, op: Op)
    requires Quiet(kv) && Descending(kv) && op.IsDdl() && Enabled(kv, op) && CatalogOk(kv)
    ensures CatalogOk(ApplyAll(kv, CallOutcome(kv, map[], op).puts))
  {
    match op
    case CreateTable(s) => CreateKeeps(kv, s);
    case DropTable(name, hs, vs) => if name in kv.catalog { DropEffect(kv, name, hs, vs); }
    case AlterAdd(table, col, v, ks) =>
      if AddColumnCheck(kv, table, col, v) == Ok { AlterKeeps(kv, table, ks, AddColumn(col, v)); }
    case AlterDrop(table, column, ks) =>
      if DropColumnCheck(kv, table, column) == Ok {
        AlterKeeps(kv, table, ks, DropColumn(DropIndex(kv, table, column)));
      }
  }

  lemma {:induction false} StepCatalog(s: Sys, e: Event, s': Sys)
    requires SysInv(s) && Step(s, e, s') && CatalogOk(s.kv)
    ensures CatalogOk(s'.kv)
  {
    hide CatalogOk;
    match e
    case Do(op) =>
      if op.IsDdl() {
        if s.live == map[] { DdlCatalog(s.kv, op); } else { RefusedDdl(s, op, s'); }
      } else {
        CallKeeps(s.kv, s.live, op);
        SafeEnds(s.kv, CallOutcome(s.kv, s.live, op).puts, CallKeys(s.live, op));
        SameCatalog(s.kv, s'.kv);
      }
    case Crash(op, n) =>
      CallKeeps(s.kv, s.live, op);
      assert SafeAt(s.kv, CallOutcome(s.kv, s.live, op).puts, n, CallKeys(s.live, op));
      SameCatalog(s.kv, s'.kv);
    case CrashInRecovery(n) =>
      RecoverySafe(s.kv, AllIntentKeys(s.kv));
      assert SafeAt(s.kv, Recovery(s.kv).puts, n, AllIntentKeys(s.kv));
      SameCatalog(s.kv, s'.kv);
    case Reopen =>
      RecoverySafe(s.kv, AllIntentKeys(s.kv));
      SameCatalog(s.kv, s'.kv);
  }

  lemma {:induction false} SameCatalog(a: Kv, b: Kv)
    requires CatalogOk(a) && a.catalog == b.catalog
    ensures CatalogOk(b)
  {
  }

  /** Every table of every state of a run has a valid schema. */
  lemma {:induction false} RunCatalog(states: seq<Sys>, events: seq<Event>, i: nat)
    requires IsRun(states, events) && i < |states|
    ensures CatalogOk(states[i].kv)
    decreases i
  {
    if i > 0 {
      RunCatalog(states, events, i - 1);
      RunInv(states, events, i - 1);
      StepCatalog(states[i - 1], events[i - 1], states[i]);
    }
  }

  // ---- The theorems ----------------------------------------------------------------------------------

  /** A schema change that does nothing, or takes effect on a store without transactions. */
  lemma {:induction false} DdlCall(states: seq<Sys>, events: seq<Event>, i: nat, op: Op)
    requires IsRun(states, events) && i < |events| && events[i] == Do(op) && op.IsDdl()
    ensures var s, s', o := states[i], states[i + 1], CallOutcome(states[i].kv, states[i].live, op);
            && Descending(s.kv) && Descending(s'.kv) && s.kv.nextTs > 0 && s'.kv.nextTs > 0
            && Enabled(s.kv, op) && CatalogOk(s.kv)
            && s'.kv == ApplyAll(s.kv, o.puts)
            && (o.puts == [] ==> s' == s)
            && (s.live == map[] ==> Quiet(s.kv) && Quiet(s'.kv))
            && (s.live != map[] ==> o == Outcome([], InvalidArgument))
  {
    var s, s' := states[i], states[i + 1];
    RunInv(states, events, i);
    RunInv(states, events, i + 1);
    RunCatalog(states, events, i);
    assert Step(s, events[i], s');
    DurableDescends(s'.kv);
    if s.live == map[] {
      assert DoneAfter(s, s'.kv) == s.done;
    } else {
      RefusedDdl(s, op, s');
    }
  }

  /** When ADD COLUMN is accepted: nobody is working, and a new named column that is not the key comes with
      a value of its type. */
  ghost predicate CanAdd(s: Sys, table: Bytes, col: ColumnDef, v: Value) {
    && s.live == map[] && col.name != [] && !col.primaryKey && v != Null && v.Type() == col.typ
    && table in s.kv.catalog
    && forall j | 0 <= j < |s.kv.catalog[table].columns| :: s.kv.catalog[table].columns[j].name != col.name
  }

  lemma {:induction false} AddColumnSchema(s: TableSchema, col: ColumnDef)
    requires ValidSchema(s) && col.name != [] && !col.primaryKey && col.typ != NullType
    requires forall j | 0 <= j < |s.columns| :: s.columns[j].name != col.name
    ensures ValidSchema(s.(columns := s.columns + [col]))
  {
    AppendColumnPks(s.columns, col);
  }

  /** ADD COLUMN in every run: accepted exactly when it can be, and then the next transaction reads every
      row with the default behind its old cells. */
  lemma {:induction false} AddColumnEffect(states: seq<Sys>, events: seq<Event>, i: nat, table: Bytes, col: ColumnDef,
      v: Value, ks: seq<RowKey>)
    requires IsRun(states, events) && i < |events| && events[i] == Do(AlterAdd(table, col, v, ks))
    ensures Descending(states[i].kv)
    ensures var s, s' := states[i], states[i + 1];
            var st := CallOutcome(s.kv, s.live, events[i].op).status;
            && (st == Ok <==> CanAdd(s, table, col, v))
            && (st == Ok ==> Altered(s.kv, s'.kv, table, AddColumn(col, v)))
            && (st != Ok ==> s' == s && st == if table !in s.kv.catalog && s.live == map[] && col.name != []
                  && !col.primaryKey && v != Null && v.Type() == col.typ then NotFound else InvalidArgument)
  {
    hide NextRead, Altered, Step;
    var s, op := states[i], AlterAdd(table, col, v, ks);
    DdlCall(states, events, i, op);
    if CanAdd(s, table, col, v) { AddColumnSchema(s.kv.catalog[table], col); }
    if s.live == map[] && AddColumnCheck(s.kv, table, col, v) == Ok { AlterMeans(s.kv, table, ks, AddColumn(col, v)); }
  }

  /** When DROP COLUMN is accepted: nobody is working, and column `c` has the name and is not the key. */
  ghost predicate CanDrop(s: Sys, table: Bytes, column: Bytes, c: nat) {
    && s.live == map[] && table in s.kv.catalog && c < |s.kv.catalog[table].columns|
    && s.kv.catalog[table].columns[c].name == column && !s.kv.catalog[table].columns[c].primaryKey
  }

  lemma {:induction false} CanDropIndex(s: Sys, table: Bytes, column: Bytes, c: nat)
    requires CatalogOk(s.kv) && CanDrop(s, table, column, c)
    ensures DropColumnCheck(s.kv, table, column) == Ok && DropIndex(s.kv, table, column) == c
  {
    RemoveColumnSchema(s.kv.catalog[table], c);
  }

  /** DROP COLUMN in every run: the same without the cell of that column. */
  lemma {:induction false} DropColumnEffect(states: seq<Sys>, events: seq<Event>, i: nat, table: Bytes, column: Bytes,
      ks: seq<RowKey>)
    requires IsRun(states, events) && i < |events| && events[i] == Do(AlterDrop(table, column, ks))
    ensures Descending(states[i].kv)
    ensures var s, s' := states[i], states[i + 1];
            var st := CallOutcome(s.kv, s.live, events[i].op).status;
            && (st == Ok <==> exists c :: CanDrop(s, table, column, c))
            && (forall c | CanDrop(s, table, column, c) :: Altered(s.kv, s'.kv, table, DropColumn(c)))
            && (st != Ok ==> s' == s && st == if table !in s.kv.catalog && s.live == map[] && column != []
                  then NotFound else InvalidArgument)
  {
    hide NextRead, Altered, Step;
    var s, op := states[i], AlterDrop(table, column, ks);
    DdlCall(states, events, i, op);
    forall c | CanDrop(s, table, column, c)
      ensures DropColumnCheck(s.kv, table, column) == Ok && DropIndex(s.kv, table, column) == c
    {
      CanDropIndex(s, table, column, c);
    }
    if s.live == map[] && DropColumnCheck(s.kv, table, column) == Ok {
      var c := DropIndex(s.kv, table, column);
      assert CanDrop(s, table, column, c);
      AlterMeans(s.kv, table, ks, DropColumn(c));
    }
  }

  // ---- CREATE and DROP TABLE ---------------------------------------------------------------------------

  /** Reads depend on the heads and versions of the key alone. */
  lemma {:induction false} SameNextRead(kv: Kv, kv': Kv, k: RowKey)
    requires Quiet(kv) && Quiet(kv') && Descending(kv) && Descending(kv') && KeySame(kv, kv', k)
    ensures NextRead(kv, k) == NextRead(kv', k)
  {
    QuietRead(kv, k);
    QuietRead(kv', k);
    hide NextRead, NeedsRewrite, Latest, UpInv;
    KeySameLatest(kv, kv', k);
  }

  /** CREATE TABLE in every run: accepted exactly for a valid schema of a new name; the table is then empty
      and nothing else has changed. */
  lemma {:induction false} CreateTableEffect(states: seq<Sys>, events: seq<Event>, i: nat, schema: TableSchema)
    requires IsRun(states, events) && i < |events| && events[i] == Do(CreateTable(schema))
    ensures var s, s' := states[i], states[i + 1];
            Descending(s.kv) && Descending(s'.kv) && s.kv.nextTs > 0 && s'.kv.nextTs > 0
    ensures var s, s' := states[i], states[i + 1];
            var st := CallOutcome(s.kv, s.live, events[i].op).status;
            && (st == Ok <==> s.live == map[] && ValidSchema(schema) && schema.name !in s.kv.catalog)
            && (st == Ok ==>
                  && s'.kv.catalog == s.kv.catalog[schema.name := schema]
                  && (forall k: RowKey {:trigger NextRead(s'.kv, k)} | k.table == schema.name ::
                        NextRead(s'.kv, k) == Missing)
                  && forall k: RowKey {:trigger NextRead(s'.kv, k)} | k.table != schema.name ::
                       NextRead(s'.kv, k) == NextRead(s.kv, k))
            && (st != Ok ==> s' == s && st == InvalidArgument)
  {
    hide NextRead, Step;
    var s, s' := states[i], states[i + 1];
    DdlCall(states, events, i, CreateTable(schema));
    if s.live == map[] {
      CreateKeeps(s.kv, schema);
      forall k ensures NextRead(s'.kv, k) == NextRead(s.kv, k) { SameNextRead(s.kv, s'.kv, k); }
      if schema.name !in s.kv.catalog {
        forall k: RowKey | k.table == schema.name ensures NextRead(s.kv, k) == Missing { NoTableRead(s.kv, k); }
      }
    }
  }

  lemma {:induction false} NoTableRead(kv: Kv, k: RowKey)
    requires Quiet(kv) && Descending(kv) && k.table !in kv.catalog
    ensures NextRead(kv, k) == Missing
  {
    QuietRead(kv, k);
    if k in kv.heads { assert VersionOk(kv, VKey(k, Latest(kv, k))); }
  }

  lemma {:induction false} DroppedSame(kv: Kv, table: Bytes, k: RowKey)
    requires k.table != table
    ensures KeySame(kv, DroppedKv(kv, table), k)
  {
    var kv' := DroppedKv(kv, table);
    forall id ensures Has(kv, k, id) <==> Has(kv', k, id) { }
  }

  /** DROP TABLE in every run: accepted exactly for a table that exists; its rows are gone and nothing else
      has changed. */
  lemma {:induction false} DropTableEffect(states: seq<Sys>, events: seq<Event>, i: nat, table: Bytes, hs: seq<RowKey>,
      vs: seq<VKey>)
    requires IsRun(states, events) && i < |events| && events[i] == Do(DropTable(table, hs, vs))
    ensures var s, s' := states[i], states[i + 1];
            Descending(s.kv) && Descending(s'.kv) && s.kv.nextTs > 0 && s'.kv.nextTs > 0
    ensures var s, s' := states[i], states[i + 1];
            var st := CallOutcome(s.kv, s.live, events[i].op).status;
            && (st == Ok <==> s.live == map[] && table in s.kv.catalog)
            && (st == Ok ==>
                  && s'.kv.catalog == s.kv.catalog - {table}
                  && (forall k: RowKey {:trigger NextRead(s'.kv, k)} | k.table == table ::
                        NextRead(s'.kv, k) == Missing)
                  && forall k: RowKey {:trigger NextRead(s'.kv, k)} | k.table != table ::
                       NextRead(s'.kv, k) == NextRead(s.kv, k))
            && (st != Ok ==> s' == s && st == if s.live == map[] then NotFound else InvalidArgument)
  {
    hide NextRead, Step;
    var s, s' := states[i], states[i + 1];
    DdlCall(states, events, i, DropTable(table, hs, vs));
    if s.live == map[] && table in s.kv.catalog {
      DropEffect(s.kv, table, hs, vs);
      forall k: RowKey | k.table == table ensures NextRead(s'.kv, k) == Missing { NoTableRead(s'.kv, k); }
      forall k: RowKey | k.table != table ensures NextRead(s'.kv, k) == NextRead(s.kv, k) {
        DroppedSame(s.kv, table, k);
        SameNextRead(s.kv, s'.kv, k);
      }
    }
  }
}
