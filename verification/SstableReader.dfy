/** Opening an SSTable, point lookup and iteration. */
module SstableReader {
  import opened Values
  import opened Encoding
  import opened Blocks
  import opened BlockIo
  import opened Sstable

  /** The block a position of the index points at. */
  lemma {:induction false} HandleOf(sum: Bytes -> nat, file: Bytes, t: Shape, j: nat)
    requires IsTable(sum, file, t) && j < |t.blocks|
    ensures var h, b := t.index.layout.es[j].value, t.blocks[j];
            |h| == 16 && Unfixed(h[..8]) == b.offset && Unfixed(h[8..16]) == |b.bytes|
            && ReadBlock(sum, file, b.offset, |b.bytes|) == Some(b.bytes) && Lays(b.bytes, b.layout)
  {
    var b := t.blocks[j];
    assert BlockOk(sum, file, b);
    HandleParts(b.offset, |b.bytes|);
  }

  function LayoutAt(t: Shape, j: nat): Layout { if j < |t.blocks| then t.blocks[j].layout else t.index.layout }

  class SSTable {
    const sum: Bytes -> nat
    const file: Bytes
    const indexOffset: nat
    const indexSize: nat

    constructor (sum: Bytes -> nat, file: Bytes, indexOffset: nat, indexSize: nat)
      ensures this.sum == sum && this.file == file && this.indexOffset == indexOffset && this.indexSize == indexSize
    {
      this.sum, this.file, this.indexOffset, this.indexSize := sum, file, indexOffset, indexSize;
    }

    /** This is a table of that shape. */
    ghost predicate Has(t: Shape) {
      IsTable(sum, file, t) && indexOffset == t.index.offset && indexSize == |t.index.bytes|
    }

    /** Read the footer. */
    static method Open(sum: Bytes -> nat, file: Bytes) returns (st: Status, table: SSTable?)
      ensures st == Ok <==> table != null
      ensures table != null ==> fresh(table) && table.file == file && table.sum == sum
      ensures st == Ok <==> |file| >= FooterSize && Unfixed(file[|file| - 20..][16..20]) == Magic
      ensures st == Ok || st == Corruption
      ensures forall t :: IsTable(sum, file, t) ==> st == Ok && table.Has(t)
    {
      if |file| < FooterSize { return Corruption, null; }
      var footer := file[|file| - 20..];
      forall t | IsTable(sum, file, t)
        ensures Unfixed(footer[..8]) == t.index.offset && Unfixed(footer[8..16]) == |t.index.bytes|
            && Unfixed(footer[16..20]) == Magic
      {
        FooterParts(t.index.offset, |t.index.bytes|);
      }
      if Unfixed(footer[16..20]) != Magic { return Corruption, null; }
      table := new SSTable(sum, file, Unfixed(footer[..8]), Unfixed(footer[8..16]));
      st := Ok;
    }

    /** Index search, then block search. */
    method Get(key: Bytes, ghost t: Shape) returns (r: Hit)
      ensures Has(t) && Ascending(Flat(t.blocks)) && IsInternal(key) ==> r == Lookup(Flat(t.blocks), key)
    {
      ghost var sound := Has(t) && Ascending(Flat(t.blocks)) && IsInternal(key);
      if sound {
        IndexAscending(t.index.layout.es, t.blocks);
        IndexFinds(t.index.layout.es, t.blocks, key);
      }
      var index := ReadBlock(sum, file, indexOffset, indexSize);
      if index.None? { return Hit(Corruption, [], false); }
      var it := new BlockIter(index.value);
      if it.status != Ok { return Hit(it.status, [], false); }
      it.Seek(key, t.index.layout);
      ghost var j := FirstFrom(t.index.layout.es, key);
      if !it.valid { return Hit(Ok, [], false); }
      var handle := it.value;
      if sound { HandleOf(sum, file, t, j); }
      if |handle| < 16 { return Hit(Corruption, [], false); }
      var block := ReadBlock(sum, file, Unfixed(handle[..8]), Unfixed(handle[8..16]));
      if block.None? { return Hit(Corruption, [], false); }
      r := SearchBlock(block.value, key, LayoutAt(t, j));
      if sound { FoundInBlock(t, key, j); }
    }
  }

  /** The last step of a lookup, inside one data block. */
  method SearchBlock(data: Bytes, key: Bytes, ghost v: Layout) returns (r: Hit)
    ensures Lays(data, v) && Ascending(v.es) && IsInternal(key) ==> r == Lookup(v.es, key)
  {
    var it := new BlockIter(data);
    it.Seek(key, v);
    if !it.valid { return Hit(Ok, [], false); }
    if ExtractUser(it.key) != ExtractUser(key) { return Hit(Ok, [], false); }
    if ExtractPack(it.key) / 0x100 > ExtractPack(key) / 0x100 { return Hit(Ok, [], false); }
    if ExtractPack(it.key) % 0x100 == 0 { return Hit(NotFound, [], true); }
    r := Hit(Ok, it.value, true);
  }

  /** The block's answer is the answer of the whole table. */
  lemma {:induction false} FoundInBlock(t: Shape, key: Bytes, j: nat)
    requires Ascending(Flat(t.blocks)) && IsInternal(key) && IsIndex(t.index.layout.es, t.blocks)
    requires j == FirstFrom(t.index.layout.es, key) < |t.blocks|
    ensures Ascending(t.blocks[j].layout.es) && Lookup(t.blocks[j].layout.es, key) == Lookup(Flat(t.blocks), key)
  {
    hide Flat, StartOf, BytesBefore, FirstFrom;
    var es := t.blocks[j].layout.es;
    BlockAscending(t.blocks, j);
    IndexFinds(t.index.layout.es, t.blocks, key);
    BlockInFlat(t.blocks, j, FirstFrom(es, key));
  }

  /** Iteration over a table: an index cursor and a cursor in one data block. */
  class TableIter {
    const sum: Bytes -> nat
    const file: Bytes
    /** Null when the index block cannot be read. */
    const indexIter: BlockIter?
    var dataIter: BlockIter?
    var status: Status

    constructor (table: SSTable, ghost t: Shape)
      ensures this.sum == table.sum && this.file == table.file && (indexIter != null ==> fresh(indexIter))
          && dataIter == null
      ensures Sane() && (table.Has(t) ==> Opened(t))
      ensures indexIter == null <==> status != Ok
    {
      sum, file := table.sum, table.file;
      var index := ReadBlock(table.sum, table.file, table.indexOffset, table.indexSize);
      dataIter := null;
      if index.None? {
        indexIter, status := null, Corruption;
      } else {
        var it := new BlockIter(index.value);
        indexIter, status := if it.status == Ok then it else null, it.status;
      }
    }

    /** On any file: the cursors are where they may be, and a current entry has its index entry. */
    ghost predicate Sane()
      reads this, indexIter, dataIter
    {
      && (indexIter != null ==> indexIter.Sane()) && (dataIter != null ==> dataIter.Sane() && dataIter != indexIter)
      && (Valid() ==> indexIter != null && indexIter.valid)
    }

    ghost predicate Opened(t: Shape)
      reads this, indexIter
    {
      && IsTable(sum, file, t) && indexIter != null && indexIter.Sane() && indexIter.Over(t.index.layout)
      && dataIter != indexIter && status == Ok
    }

    predicate Valid()
      reads this, dataIter
    {
      dataIter != null && dataIter.valid
    }

    /** At position `p` of all entries; past the end when `p` is their number. */
    ghost predicate At(t: Shape, j: nat, x: nat)
      reads this, indexIter, dataIter
    {
      && Opened(t) && j <= |t.blocks| && indexIter.At(t.index.layout, j)
      && if j == |t.blocks| then !Valid() && x == 0
         else dataIter != null && dataIter.Sane() && x < |t.blocks[j].layout.es| && dataIter.At(t.blocks[j].layout, x)
    }

    /** The index stands at block `j` of a table. */
    ghost predicate AtBlock(t: Shape, j: nat)
      reads this, indexIter
    {
      Opened(t) && j <= |t.blocks| && indexIter.At(t.index.layout, j)
    }

    /** Open the data block the index stands at. A handle that is too short, or a block that cannot be
        read, is an error and leaves no data cursor. */
    method InitDataBlock(ghost t: Shape, ghost j: nat)
      requires indexIter != null && indexIter.Sane()
      modifies this
      ensures dataIter != null ==>
          fresh(dataIter) && dataIter.Sane() && !dataIter.valid && indexIter.valid && status == Ok
      ensures indexIter.valid && status == Ok ==> dataIter != null
      ensures old(AtBlock(t, j)) ==>
                && Opened(t) && (dataIter == null <==> j == |t.blocks|)
                && (dataIter != null ==> dataIter.Over(t.blocks[j].layout))
    {
      dataIter := null;
      if !indexIter.valid { return; }
      if AtBlock(t, j) { HandleOf(sum, file, t, j); }
      var handle := indexIter.value;
      if |handle| < 16 {
        status := Corruption;
        return;
      }
      var block := ReadBlock(sum, file, Unfixed(handle[..8]), Unfixed(handle[8..16]));
      if block.None? {
        status := Corruption;
        return;
      }
      var it := new BlockIter(block.value);
      status := it.status;
      if status == Ok { dataIter := it; }
    }

    method SeekToFirst(ghost t: Shape)
      requires Sane()
      modifies this, indexIter
      ensures (dataIter == old(dataIter) && indexIter == null) || dataIter == null || fresh(dataIter)
      ensures Sane() && (old(Opened(t)) ==> At(t, 0, 0))
    {
      if indexIter == null { return; }
      indexIter.SeekToFirst(t.index.layout);
      InitDataBlock(t, 0);
      if dataIter != null {
        dataIter.SeekToFirst(if |t.blocks| > 0 then t.blocks[0].layout else t.index.layout);
        if IsTable(sum, file, t) && |t.blocks| > 0 { NonEmptyBlock(sum, file, t, 0); }
      }
    }

    method Next(ghost t: Shape, ghost j: nat, ghost x: nat)
      requires Sane() && Valid()
      modifies this, indexIter, dataIter
      ensures Sane() && (dataIter == old(dataIter) || dataIter == null || fresh(dataIter))
      ensures old(At(t, j, x)) ==> if x + 1 < |t.blocks[j].layout.es| then At(t, j, x + 1) else At(t, j + 1, 0)
    {
      dataIter.Next(if j < |t.blocks| then t.blocks[j].layout else t.index.layout, x);
      if !dataIter.valid {
        indexIter.Next(t.index.layout, j);
        if indexIter.valid {
          InitDataBlock(t, j + 1);
          if dataIter != null {
            dataIter.SeekToFirst(if j + 1 < |t.blocks| then t.blocks[j + 1].layout else t.index.layout);
            if IsTable(sum, file, t) && j + 1 < |t.blocks| { NonEmptyBlock(sum, file, t, j + 1); }
          }
        }
      }
    }

    /** The current entry; then one step on. */
    method Take(ghost t: Shape, ghost j: nat, ghost x: nat) returns (e: KV)
      requires Sane() && At(t, j, x) && Valid()
      modifies this, indexIter, dataIter
      ensures Sane() && j < |t.blocks| && x < |t.blocks[j].layout.es| && e == t.blocks[j].layout.es[x]
      ensures var (j', x') := After(t, j, x); At(t, j', x') && Inside(t, j', x')
      ensures (dataIter == old(dataIter) || dataIter == null || fresh(dataIter))
          && (j + 1 < |t.blocks| ==> t.blocks[j + 1].layout.es != [])
    {
      e := KV(dataIter.key, dataIter.value);
      if j + 1 < |t.blocks| { NonEmptyBlock(sum, file, t, j + 1); }
      Next(t, j, x);
    }

    method Seek(target: Bytes, ghost t: Shape)
      requires Sane()
      modifies this, indexIter
      ensures Sane()
      ensures old(Opened(t)) && Ascending(Flat(t.blocks)) && IsInternal(target) ==>
                var j := FirstFrom(t.index.layout.es, target);
                At(t, j, if j < |t.blocks| then FirstFrom(t.blocks[j].layout.es, target) else 0)
    {
      if indexIter == null { return; }
      ghost var sound := Opened(t) && Ascending(Flat(t.blocks)) && IsInternal(target);
      ghost var j := FirstFrom(t.index.layout.es, target);
      if sound { SeekFinds(sum, file, t, target); }
      indexIter.Seek(target, t.index.layout);
      InitDataBlock(t, j);
      if dataIter != null {
        if sound { BlockAscending(t.blocks, j); }
        dataIter.Seek(target, if j < |t.blocks| then t.blocks[j].layout else t.index.layout);
      }
    }
  }

  lemma {:induction false} SeekFinds(sum: Bytes -> nat, file: Bytes, t: Shape, target: Bytes)
    requires IsTable(sum, file, t) && Ascending(Flat(t.blocks)) && IsInternal(target)
    ensures Ascending(t.index.layout.es) && FirstFrom(t.index.layout.es, target) <= |t.blocks| == |t.index.layout.es|
    ensures var j := FirstFrom(t.index.layout.es, target);
            j < |t.blocks| ==> FirstFrom(t.blocks[j].layout.es, target) < |t.blocks[j].layout.es|
  {
    IndexAscending(t.index.layout.es, t.blocks);
    IndexFinds(t.index.layout.es, t.blocks, target);
  }

  lemma {:induction false} NonEmptyBlock(sum: Bytes -> nat, file: Bytes, t: Shape, j: nat)
    requires IsTable(sum, file, t) && j < |t.blocks|
    ensures t.blocks[j].layout.es != []
  {
    assert BlockOk(sum, file, t.blocks[j]);
  }

  /** The position after `(j, x)`. */
  ghost function After(t: Shape, j: nat, x: nat): (nat, nat)
    requires j < |t.blocks|
  {
    if x + 1 < |t.blocks[j].layout.es| then (j, x + 1) else (j + 1, 0)
  }

  ghost predicate Inside(t: Shape, j: nat, x: nat) {
    if j < |t.blocks| then x < |t.blocks[j].layout.es| else j == |t.blocks| && x == 0
  }

  predicate Spot(p: nat) { true }

  /** The entries before position `(j, x)`; the bound variable keeps the flattening folded. */
  ghost predicate SoFar(t: Shape, j: nat, x: nat, es: seq<KV>)
    requires Inside(t, j, x)
  {
    forall p {:trigger Spot(p)} | p == StartPlus(t, j, x) :: es == Flat(t.blocks)[..p]
  }

  lemma {:induction false} ReadNone(t: Shape)
    requires Inside(t, 0, 0)
    ensures SoFar(t, 0, 0, [])
  {
    assert t.blocks[..0] == [] && StartPlus(t, 0, 0) == 0;
  }

  lemma {:induction false} ReadOne(t: Shape, j: nat, x: nat, es: seq<KV>)
    requires j < |t.blocks| && Inside(t, j, x) && SoFar(t, j, x, es)
    requires j + 1 < |t.blocks| ==> t.blocks[j + 1].layout.es != []
    ensures var (j', x') := After(t, j, x);
            Inside(t, j', x') && SoFar(t, j', x', es + [t.blocks[j].layout.es[x]])
  {
    assert Spot(StartPlus(t, j, x));
    BlockInFlat(t.blocks, j, x);
    NextStart(t, j);
  }

  lemma {:induction false} ReadEverything(t: Shape, es: seq<KV>)
    requires SoFar(t, |t.blocks|, 0, es)
    ensures es == Flat(t.blocks)
  {
    assert Spot(StartPlus(t, |t.blocks|, 0));
    assert t.blocks[..|t.blocks|] == t.blocks;
  }

  /** Reading a table from the first entry to the end gives all entries in order. */
  method ReadAll(table: SSTable, ghost t: Shape) returns (es: seq<KV>)
    requires table.Has(t)
    ensures es == Flat(t.blocks)
  {
    var it := new TableIter(table, t);
    it.SeekToFirst(t);
    es := [];
    ghost var j, x := 0, 0;
    ReadNone(t);
    while it.Valid()
      invariant it.Sane() && it.At(t, j, x) && Inside(t, j, x) && SoFar(t, j, x, es)
      invariant fresh(it) && it.indexIter != null && fresh(it.indexIter) && (it.dataIter != null ==> fresh(it.dataIter))
      decreases |t.blocks| - j, if j < |t.blocks| then |t.blocks[j].layout.es| - x else 0
    {
      var e := it.Take(t, j, x);
      ReadOne(t, j, x, es);
      es := es + [e];
      ghost var next := After(t, j, x);
      j, x := next.0, next.1;
    }
    ReadEverything(t, es);
  }

  ghost function StartPlus(t: Shape, j: nat, x: nat): (p: nat)
    requires j <= |t.blocks| && (if j < |t.blocks| then x <= |t.blocks[j].layout.es| else x == 0)
    ensures p <= |Flat(t.blocks)|
  {
    StartInside(t, j);
    StartOf(t.blocks, j) + x
  }

  lemma {:induction false} FlatPrefix(bs: seq<DataBlock>, j: nat)
    requires j <= |bs|
    ensures StartOf(bs, j) <= |Flat(bs)|
    decreases |bs|
  {
    if j == |bs| {
      assert bs[..j] == bs;
    } else {
      FlatPrefix(bs[..|bs| - 1], j);
      assert bs[..|bs| - 1][..j] == bs[..j];
    }
  }

  lemma {:induction false} StartInside(t: Shape, j: nat)
    requires j <= |t.blocks|
    ensures StartOf(t.blocks, j) + (if j < |t.blocks| then |t.blocks[j].layout.es| else 0) <= |Flat(t.blocks)|
  {
    if j < |t.blocks| {
      StartsAscend(t.blocks, j, j + 1);
      FlatPrefix(t.blocks, j + 1);
    } else {
      FlatPrefix(t.blocks, j);
    }
  }

  lemma {:induction false} NextStart(t: Shape, j: nat)
    requires j < |t.blocks|
    ensures StartOf(t.blocks, j + 1) == StartOf(t.blocks, j) + |t.blocks[j].layout.es|
  {
    assert t.blocks[..j + 1][..j] == t.blocks[..j];
  }
}
