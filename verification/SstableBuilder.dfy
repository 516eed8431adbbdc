/** Writing an SSTable: entries gather in a data block, full blocks are flushed, and the index entry
    of a flushed block is added with the next entry. The finished file is a table of the entries. */
module SstableBuilder {
  import opened Values
  import opened Encoding
  import opened Blocks
  import opened BlockIo
  import opened Sstable

  ghost predicate AllFit(es: seq<KV>) { forall e | e in es :: KVFits(e) }

  /** Flushed blocks stay in place as the file grows. */
  lemma {:induction false} BlocksGrow(sum: Bytes -> nat, file: Bytes, more: Bytes, bs: seq<DataBlock>)
    requires BlocksOk(sum, file, bs)
    ensures BlocksOk(sum, file + more, bs)
  {
    forall i | 0 <= i < |bs| ensures BlockOk(sum, file + more, bs[i]) {
      assert BlockOk(sum, file, bs[i]);
      ReadGrown(sum, file, more, bs[i].offset, |bs[i].bytes|);
    }
  }

  /** A block that has just been written. */
  lemma {:induction false} NewBlockOk(sum: Bytes -> nat, file: Bytes, b: DataBlock, es: seq<KV>, marks: seq<nat>)
    requires Bounded(sum) && Built(b.bytes, es, marks) && es != [] && b.layout == LayoutOf(es, marks)
        && b.offset == |file| < Two64
    ensures BlockOk(sum, file + Sealed(sum, b.bytes), b)
  {
    BuiltLays(b.bytes, es, marks);
    ReadSealed(sum, file, b.bytes, []);
    assert file + Sealed(sum, b.bytes) + [] == file + Sealed(sum, b.bytes);
  }

  lemma {:induction false} BlocksSnoc(sum: Bytes -> nat, file: Bytes, bs: seq<DataBlock>, b: DataBlock)
    requires BlocksOk(sum, file, bs) && BlockOk(sum, file, b)
    ensures BlocksOk(sum, file, bs + [b])
  {
    var cs := bs + [b];
    forall i | 0 <= i < |cs| ensures BlockOk(sum, file, cs[i]) { if i < |bs| { assert BlockOk(sum, file, bs[i]); } }
  }

  lemma {:induction false} FlatSnoc(bs: seq<DataBlock>, b: DataBlock)
    ensures Flat(bs + [b]) == Flat(bs) + b.layout.es
  {
    assert (bs + [b])[..|bs|] == bs;
  }

  lemma {:induction false} FitsParts(a: seq<KV>, b: seq<KV>)
    requires AllFit(a + b)
    ensures AllFit(a) && AllFit(b)
  {
    forall e | e in a ensures KVFits(e) { assert e in a + b; }
    forall e | e in b ensures KVFits(e) { assert e in a + b; }
  }

  /** The bytes written so far hold the flushed blocks, as long as everything is small enough. */
  ghost predicate Stored(sum: Bytes -> nat, out: Bytes, bs: seq<DataBlock>) {
    |out| < Two32 && AllFit(Flat(bs)) ==> BlocksOk(sum, out, bs)
  }

  lemma {:induction false} StoredFlush(sum: Bytes -> nat, out: Bytes, bs: seq<DataBlock>, b: DataBlock, es: seq<KV>,
      marks: seq<nat>)
    requires Bounded(sum) && Stored(sum, out, bs) && MarksOk(marks, |es|) && es != []
    requires b == DataBlock(BlockBytes(es, marks), LayoutOf(es, marks), |out|)
    ensures Stored(sum, out + Sealed(sum, b.bytes), bs + [b])
  {
    var out' := out + Sealed(sum, b.bytes);
    if |out'| < Two32 && AllFit(Flat(bs + [b])) {
      FlatSnoc(bs, b);
      FitsParts(Flat(bs), es);
      BlocksGrow(sum, out, Sealed(sum, b.bytes), bs);
      NewBlockOk(sum, out, b, es, marks);
      BlocksSnoc(sum, out', bs, b);
    }
  }

  /** How far the builder is: the bytes written and the blocks in them, every entry added, the entries of
      the open data block, those of the index block, and the index entry held back since the last flush. */
  datatype Stage = Stage(out: Bytes, bs: seq<DataBlock>, all: seq<KV>, es: seq<KV>, index: seq<KV>, pending: seq<KV>)

  ghost predicate Progress(sum: Bytes -> nat, s: Stage) {
    && s.all == Flat(s.bs) + s.es && IsIndex(s.index + s.pending, s.bs) && Stored(sum, s.out, s.bs)
    && (s.es != [] ==> s.pending == [])
  }

  lemma {:induction false} EntryAdded(sum: Bytes -> nat, s: Stage, e: KV)
    requires Progress(sum, s) && s.pending == []
    ensures Progress(sum, s.(all := s.all + [e], es := s.es + [e]))
  {
    assert Flat(s.bs) + (s.es + [e]) == Flat(s.bs) + s.es + [e];
  }

  lemma {:induction false} PendingAdded(sum: Bytes -> nat, s: Stage, e: KV)
    requires Progress(sum, s) && s.pending == [e]
    ensures Progress(sum, s.(index := s.index + [e], pending := []))
  {
    assert s.index + [e] + [] == s.index + [e];
  }

  lemma {:induction false} IndexSnoc(index: seq<KV>, bs: seq<DataBlock>, b: DataBlock)
    requires IsIndex(index, bs) && b.layout.es != []
    ensures IsIndex(index + [IndexEntry(b)], bs + [b])
  {
    var cs, entries := bs + [b], index + [IndexEntry(b)];
    forall i | 0 <= i < |cs| ensures cs[i].layout.es != [] && entries[i] == IndexEntry(cs[i]) {
      if i < |bs| { assert index[i] == IndexEntry(bs[i]); }
    }
  }

  lemma {:induction false} BlockFlushed(sum: Bytes -> nat, s: Stage, marks: seq<nat>) returns (b: DataBlock)
    requires Bounded(sum) && Progress(sum, s) && s.es != [] && MarksOk(marks, |s.es|)
    ensures b.layout.es == s.es && b.bytes == BlockBytes(s.es, marks) && b.offset == |s.out|
    ensures Progress(sum, Stage(s.out + Sealed(sum, b.bytes), s.bs + [b], s.all, [], s.index, [IndexEntry(b)]))
  {
    hide Sealed, Data, Stored;
    b := DataBlock(BlockBytes(s.es, marks), LayoutOf(s.es, marks), |s.out|);
    var s' := Stage(s.out + Sealed(sum, b.bytes), s.bs + [b], s.all, [], s.index, [IndexEntry(b)]);
    assert s.index + s.pending == s.index;
    assert Stored(sum, s'.out, s'.bs) by { StoredFlush(sum, s.out, s.bs, b, s.es, marks); }
    assert s'.all == Flat(s'.bs) + s'.es by { FlatSnoc(s.bs, b); }
    assert IsIndex(s'.index + s'.pending, s'.bs) by { IndexSnoc(s.index, s.bs, b); }
  }

  class Builder {
    const sum: Bytes -> nat
    const blockSize: nat
    const dataBlock: BlockBuilder
    const indexBlock: BlockBuilder
    var out: Bytes
    var pending: bool
    var pendingKey: Bytes
    var pendingOffset: nat
    var pendingSize: nat
    var lastKey: Bytes
    var hasKeys: bool
    var smallest: Bytes
    var largest: Bytes
    /** Every entry added, and the blocks flushed. */
    ghost var all: seq<KV>
    ghost var blocks: seq<DataBlock>

    constructor (sum: Bytes -> nat, blockSize: nat, interval: nat)
      requires interval > 0 && Bounded(sum)
      ensures Valid() && all == [] && fresh(dataBlock) && fresh(indexBlock)
      ensures this.sum == sum && this.blockSize == blockSize
    {
      this.sum, this.blockSize := sum, blockSize;
      dataBlock := new BlockBuilder(interval);
      indexBlock := new BlockBuilder(1);
      out, pending, pendingKey, pendingOffset, pendingSize := [], false, [], 0, 0;
      lastKey, hasKeys, smallest, largest := [], false, [], [];
      all, blocks := [], [];
      }

    ghost function Now(): Stage
      reads this, dataBlock, indexBlock
    {
      Stage(out, blocks, all, dataBlock.es, indexBlock.es,
            if pending then [KV(pendingKey, Handle(pendingOffset, pendingSize))] else [])
    }

    ghost predicate Valid()
      reads this, dataBlock, indexBlock
    {
      && Bounded(sum) && dataBlock != indexBlock && dataBlock.Valid() && indexBlock.Valid() && Progress(sum, Now())
      && (dataBlock.es != [] ==> lastKey == dataBlock.lastKey) && hasKeys == (all != [])
      && (all != [] ==> smallest == all[0].key && largest == all[|all| - 1].key)
    }

    /** The index entry held back since the last flush. */
    method AddPending()
      requires Valid()
      modifies this, indexBlock
      ensures Valid() && !pending && all == old(all)
      ensures blocks == old(blocks) && out == old(out) && smallest == old(smallest) && largest == old(largest)
    {
      hide Progress, Holds, Handle, Sealed, Data, Offsets, Words, MarksOk, Bounded;
      if pending {
        var handle := Handle(pendingOffset, pendingSize);
        PendingAdded(sum, Now(), KV(pendingKey, handle));
        indexBlock.Add(pendingKey, handle);
        pending := false;
      }
    }

    /** Seal a block at the end of the file. */
    method WriteBlock(block: BlockBuilder) returns (offset: nat, size: nat)
      requires block.Valid()
      modifies this`out, block
      ensures block.Valid() && block.es == [] && offset == |old(out)|
          && size == |BlockBytes(old(block.es), old(block.marks))|
      ensures out == old(out) + Sealed(sum, BlockBytes(old(block.es), old(block.marks)))
    {
      var contents := block.Finish();
      offset, size := |out|, |contents|;
      out := out + Sealed(sum, contents);
      block.Reset();
    }

    /** Write the open block out; nothing to do if it is empty. */
    method FlushDataBlock()
      requires Valid()
      modifies this, dataBlock
      ensures Valid() && dataBlock.es == [] && all == old(all) && smallest == old(smallest) && largest == old(largest)
      ensures old(dataBlock.es) == [] ==> out == old(out) && blocks == old(blocks)
      ensures old(dataBlock.es) != [] ==>
                && |blocks| == |old(blocks)| + 1 && pending
                && blocks[|old(blocks)|].bytes == BlockBytes(old(dataBlock.es), old(dataBlock.marks))
    {
      hide Progress, Holds, Handle, Sealed, Data, Offsets, Words;
      BufferEmpty(dataBlock.es, dataBlock.marks, dataBlock.buffer, dataBlock.restarts);
      if dataBlock.buffer == [] { return; }
      ghost var b := BlockFlushed(sum, Now(), dataBlock.marks);
      pendingOffset, pendingSize := WriteBlock(dataBlock);
      pendingKey, pending := lastKey, true;
      blocks := blocks + [b];
    }

    method Append(key: Bytes, value: Bytes)
      requires Valid() && !pending
      modifies this, dataBlock
      ensures Valid() && !pending && all == old(all) + [KV(key, value)]
      ensures blocks == old(blocks) && dataBlock.es != []
    {
      hide Progress, Holds, Data, Offsets, MarksOk, Bounded;
      if !hasKeys { smallest, hasKeys := key, true; }
      largest, lastKey := key, key;
      EntryAdded(sum, Now(), KV(key, value));
      dataBlock.Add(key, value);
      all := all + [KV(key, value)];
    }

    /** Append an entry; a block is closed as soon as it takes up the block size. */
    method Add(key: Bytes, value: Bytes)
      requires Valid()
      modifies this, dataBlock, indexBlock
      ensures Valid() && all == old(all) + [KV(key, value)]
      ensures if dataBlock.es != []
              then blocks == old(blocks) && |BlockBytes(dataBlock.es, dataBlock.marks)| < blockSize
              else |blocks| == |old(blocks)| + 1 && |blocks[|old(blocks)|].bytes| >= blockSize
    {
      hide Progress, Holds, MarksOk, Bounded, Spaced;
      AddPending();
      Append(key, value);
      SizeKnown(dataBlock.es, dataBlock.marks, dataBlock.buffer, dataBlock.restarts);
      if |dataBlock.buffer| + 4 * |dataBlock.restarts| + 4 >= blockSize { FlushDataBlock(); }
    }

    /** The last block, its index entry, the index and the footer. */
    method Finish() returns (file: Bytes, ghost t: Shape)
      requires Valid()
      modifies this, dataBlock, indexBlock
      ensures Flat(t.blocks) == old(all) && smallest == old(smallest) && largest == old(largest)
      ensures |file| < Two32 && AllFit(old(all)) ==> IsTable(sum, file, t)
    {
      hide Progress, Holds, Handle, Sealed, Data, Offsets, Words;
      FlushDataBlock();
      AddPending();
      ghost var marks, before := indexBlock.marks, Now();
      t := Shape(blocks, DataBlock(BlockBytes(indexBlock.es, marks), LayoutOf(indexBlock.es, marks), |out|));
      var offset, size := WriteBlock(indexBlock);
      file := out + Footer(offset, size);
      FinishedTable(sum, before, t, marks, file);
    }
  }

  lemma {:induction false} BufferEmpty(es: seq<KV>, marks: seq<nat>, buffer: Bytes, restarts: seq<nat>)
    requires Holds(es, marks, buffer, restarts)
    ensures buffer == [] <==> es == []
  {
    if es != [] { ChunkInData(es, marks, 0, |es|); }
  }

  lemma {:induction false} IndexFits(es: seq<KV>, bs: seq<DataBlock>, all: seq<KV>)
    requires IsIndex(es, bs) && all == Flat(bs) && AllFit(all)
    ensures AllFit(es)
  {
    forall e | e in es ensures KVFits(e) {
      var i :| 0 <= i < |es| && es[i] == e;
      var last := |bs[i].layout.es| - 1;
      BlockInFlat(bs, i, last);
      assert bs[i].layout.es[last] in all;
    }
  }

  lemma {:induction false} TableBuilt(sum: Bytes -> nat, out: Bytes, bs: seq<DataBlock>, t: Shape, es: seq<KV>,
      marks: seq<nat>, file: Bytes)
    requires Bounded(sum) && Stored(sum, out, bs) && AllFit(Flat(bs)) && IsIndex(es, bs) && MarksOk(marks, |es|)
    requires t == Shape(bs, DataBlock(BlockBytes(es, marks), LayoutOf(es, marks), |out|))
    requires file == out + Sealed(sum, t.index.bytes) + Footer(|out|, |t.index.bytes|) && |file| < Two32
    ensures IsTable(sum, file, t)
  {
    hide Fixed, Unfixed, Data, Flat, Lays, Words;
    var contents, footer := t.index.bytes, Footer(|out|, |t.index.bytes|);
    IndexFits(es, bs, Flat(bs));
    BuiltLays(contents, es, marks);
    ReadSealed(sum, out, contents, footer);
    BlocksGrow(sum, out, Sealed(sum, contents) + footer, bs);
    assert file == out + (Sealed(sum, contents) + footer);
    assert file[|file| - 20..] == footer;
  }

  lemma {:induction false} FinishedTable(sum: Bytes -> nat, s: Stage, t: Shape, marks: seq<nat>, file: Bytes)
    requires Bounded(sum) && Progress(sum, s) && s.es == [] && s.pending == [] && MarksOk(marks, |s.index|)
    requires t == Shape(s.bs, DataBlock(BlockBytes(s.index, marks), LayoutOf(s.index, marks), |s.out|))
    requires file == s.out + Sealed(sum, t.index.bytes) + Footer(|s.out|, |t.index.bytes|)
    ensures Flat(t.blocks) == s.all
    ensures |file| < Two32 && AllFit(s.all) ==> IsTable(sum, file, t)
  {
    assert s.index + [] == s.index && Flat(s.bs) + [] == Flat(s.bs);
    if |file| < Two32 && AllFit(s.all) { TableBuilt(sum, s.out, s.bs, t, s.index, marks, file); }
  }
}
