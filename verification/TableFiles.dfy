/** The engine's tables and the files that hold them: a file built from a memtable, read with the encoded
    lookup key, answers as the sorted table does. */
module TableFiles {
  import opened Values
  import opened InternalKeys
  import opened Tables
  import opened Encoding
  import opened Blocks
  import opened BlockIo
  import opened Sstable
  import opened SstableBuilder
  import opened SstableReader
  import Skips = SkipList

  /** The entries as bytes. */
  function Encoded(t: Table): (es: seq<KV>)
    ensures |es| == |t| && forall i {:trigger es[i]} | 0 <= i < |t| :: es[i] == KV(EncodeKey(t[i].key), t[i].value)
  {
    seq(|t|, i requires 0 <= i < |t| => KV(EncodeKey(t[i].key), t[i].value))
  }

  /** Sequences that fit beside the type byte. */
  ghost predicate SmallSeqs(t: Table) { forall e | e in t :: e.key.num < Two56 }

  lemma {:induction false} EncodedAscending(t: Table)
    requires Sorted(t) && SmallSeqs(t)
    ensures Ascending(Encoded(t))
  {
    var es := Encoded(t);
    forall e | e in es ensures IsInternal(e.key) {
      var i :| 0 <= i < |es| && es[i] == e;
      assert t[i] in t;
      ExtractKey(t[i].key);
    }
    forall i, j | 0 <= i < j < |es| ensures !BytesBefore(es[j].key, es[i].key) {
      assert t[i] in t && t[j] in t;
      EncodeKeyOrder(t[j].key, t[i].key);
      BeforeAsymmetric(t[i].key, t[j].key);
    }
  }

  /** Seeking the encoded key lands where seeking the key does. */
  lemma {:induction false} EncodedPosition(t: Table, k: IKey)
    requires SmallSeqs(t) && k.num < Two56
    ensures FirstFrom(Encoded(t), EncodeKey(k)) == Position(t, k)
  {
    hide BytesBefore, Before, EncodeKey;
    var es, r := Encoded(t), Position(t, k);
    forall i | 0 <= i < |t| ensures BytesBefore(es[i].key, EncodeKey(k)) <==> Before(t[i].key, k) {
      assert t[i] in t;
      EncodeKeyOrder(t[i].key, k);
    }
    FirstFromUnique(es, EncodeKey(k), r);
  }

  /** What SSTable::Get reports for an entry of the table, or for none. */
  function Report(e: Option<Tables.Entry>): Hit {
    match e
    case None => Hit(Ok, [], false)
    case Some(e) => if e.key.kind.Deletion? then Hit(NotFound, [], true) else Hit(Ok, e.value, true)
  }

  lemma {:induction false} JudgeEntry(e: Tables.Entry, user: Bytes, s: nat)
    requires e.key.num < Two56 && s < Two56
    ensures Judge(KV(EncodeKey(e.key), e.value), EncodeKey(LookupKey(user, s))) ==
            if e.key.user == user && e.key.num <= s then Report(Some(e)) else Report(None)
  {
    hide EncodeKey;
    ExtractKey(e.key);
    ExtractKey(LookupKey(user, s));
    assert e.key.Pack() % 0x100 == if e.key.kind.Put? then 1 else 0;
  }

  /** The byte-level lookup answers as the lookup in the sorted table. */
  lemma {:induction false} LookupIsTableGet(t: Table, user: Bytes, s: nat)
    requires SmallSeqs(t) && s < Two56
    ensures Lookup(Encoded(t), EncodeKey(LookupKey(user, s))) == Report(TableGet(t, user, s))
  {
    hide EncodeKey, Judge;
    var k := LookupKey(user, s);
    EncodedPosition(t, k);
    var i := Position(t, k);
    if i < |t| {
      assert t[i] in t;
      JudgeEntry(t[i], user, s);
    }
  }

  lemma {:induction false} EncodedSnoc(t: Table, i: nat)
    requires i < |t|
    ensures Encoded(t[..i + 1]) == Encoded(t[..i]) + [KV(EncodeKey(t[i].key), t[i].value)]
  {
    hide EncodeKey;
  }

  method AddEntries(b: Builder, t: Table)
    requires b.Valid() && b.all == []
    modifies b, b.dataBlock, b.indexBlock
    ensures b.Valid() && b.all == Encoded(t)
  {
    hide Builder.Valid, EncodeKey, Encoded;
    EncodedNothing(t);
    for i := 0 to |t|
      invariant b.Valid() && b.all == Encoded(t[..i])
    {
      EncodedSnoc(t, i);
      b.Add(EncodeKey(t[i].key), t[i].value);
    }
    assert t[..|t|] == t;
  }

  lemma {:induction false} EncodedNothing(t: Table)
    ensures Encoded(t[..0]) == []
  {
  }

  /** BuildTableFromMemTable: every entry of the memtable, in order, into one file. */
  method BuildTable(sum: Bytes -> nat, blockSize: nat, interval: nat, mem: Skips.MemTable) returns (file: Bytes,
      ghost t: Shape)
    requires mem.table.Valid() && interval > 0 && Bounded(sum)
    ensures Flat(t.blocks) == Encoded(mem.table.Contents())
    ensures |file| < Two32 && AllFit(Encoded(mem.table.Contents())) ==> IsTable(sum, file, t)
  {
    hide Builder.Valid, Encoded, Skips.Shaped, Sorted, IsTable, Flat, AllFit, Bounded;
    var entries := Skips.Walk(mem.table);
    var b := new Builder(sum, blockSize, interval);
    AddEntries(b, entries);
    file, t := b.Finish();
  }

  /** One file of Version::Get: the table's answer at the snapshot. */
  method FileGet(table: SSTable, user: Bytes, s: nat, ghost t: Table, ghost shape: Shape) returns (r: Hit)
    requires s < Two56
    ensures table.Has(shape) && Flat(shape.blocks) == Encoded(t) && Sorted(t) && SmallSeqs(t) ==>
              r == Report(TableGet(t, user, s))
  {
    hide IsTable, EncodeKey, Lookup, Ascending;
    var key := EncodeKey(LookupKey(user, s));
    r := table.Get(key, shape);
    if Sorted(t) && SmallSeqs(t) {
      EncodedAscending(t);
      LookupIsTableGet(t, user, s);
      LookupInternal(user, s);
    }
  }

  lemma {:induction false} LookupInternal(user: Bytes, s: nat)
    requires s < Two56
    ensures IsInternal(EncodeKey(LookupKey(user, s)))
  {
    ExtractKey(LookupKey(user, s));
  }
}
