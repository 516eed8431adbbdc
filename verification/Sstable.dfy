/** SSTable files: data blocks, each behind a checksum, an index with the last key of every block,
    and a footer. A two-level search finds what a linear search of all entries would. */
module Sstable {
  import opened Values
  import opened Encoding
  import opened Blocks
  import opened BlockIo

  const Magic: nat := 0xDB04_734E
  const FooterSize: nat := 20

  ghost predicate Bounded(sum: Bytes -> nat) { forall d :: sum(d) < Two32 }

  /** The block contents at a handle, if in range and matching the stored checksum. */
  function ReadBlock(sum: Bytes -> nat, file: Bytes, offset: nat, size: nat): Option<Bytes> {
    if offset + size + 4 > |file| then None
    else
      var contents := file[offset..offset + size];
      if sum(contents) != Unfixed(file[offset + size..offset + size + 4]) then None else Some(contents)
  }

  /** Contents followed by their checksum. */
  function Sealed(sum: Bytes -> nat, contents: Bytes): Bytes { contents + Fixed(sum(contents), Width32) }

  lemma {:induction false} ReadSealed(sum: Bytes -> nat, before: Bytes, contents: Bytes, after: Bytes)
    requires Bounded(sum)
    ensures ReadBlock(sum, before + Sealed(sum, contents) + after, |before|, |contents|) == Some(contents)
  {
    var c := Fixed(sum(contents), Width32);
    var file := before + Sealed(sum, contents) + after;
    var o := |before|;
    assert file == before + contents + c + after;
    assert file[o..o + |contents|] == contents && file[o + |contents|..o + |contents| + 4] == c;
    Word32(sum(contents));
  }

  /** A block is handed out exactly when the file holds it there with its checksum behind it. */
  lemma {:induction false} ReadExact(sum: Bytes -> nat, file: Bytes, offset: nat, size: nat, contents: Bytes)
    requires Bounded(sum)
    ensures ReadBlock(sum, file, offset, size) == Some(contents) <==>
              && |contents| == size && offset + size + 4 <= |file|
              && file[offset..offset + size + 4] == Sealed(sum, contents)
  {
    hide Fixed, Unfixed;
    if offset + size + 4 <= |file| {
      var whole, c := file[offset..offset + size + 4], file[offset..offset + size];
      var tail := file[offset + size..offset + size + 4];
      assert whole == c + tail && whole[..size] == c && whole[size..] == tail;
      Word32(sum(c));
      UnfixedRoundTrip(tail, 4);
      if |contents| == size && whole == Sealed(sum, contents) {
        assert whole[..size] == contents && whole[size..] == Fixed(sum(contents), Width32);
      }
    }
  }

  /** A block stays readable when the file grows. */
  lemma {:induction false} ReadGrown(sum: Bytes -> nat, file: Bytes, more: Bytes, offset: nat, size: nat)
    requires ReadBlock(sum, file, offset, size).Some?
    ensures ReadBlock(sum, file + more, offset, size) == ReadBlock(sum, file, offset, size)
  {
    var g := file + more;
    assert g[offset..offset + size] == file[offset..offset + size];
    assert g[offset + size..offset + size + 4] == file[offset + size..offset + size + 4];
  }

  function Handle(offset: nat, size: nat): Bytes { Fixed(offset % Two64, Width64) + Fixed(size % Two64, Width64) }

  lemma {:induction false} HandleParts(offset: nat, size: nat)
    requires offset < Two64 && size < Two64
    ensures var h := Handle(offset, size); |h| == 16 && Unfixed(h[..8]) == offset && Unfixed(h[8..16]) == size
  {
    var h := Handle(offset, size);
    Word64(offset);
    Word64(size);
    assert h[..8] == Fixed(offset, Width64) && h[8..16] == Fixed(size, Width64);
  }

  // ---- The shape of a table -----------------------------------------------------------------------------

  /** One data block: its bytes, how they parse, and where they lie in the file. */
  datatype DataBlock = DataBlock(bytes: Bytes, layout: Layout, offset: nat)

  function Flat(bs: seq<DataBlock>): seq<KV> {
    if bs == [] then [] else Flat(bs[..|bs| - 1]) + bs[|bs| - 1].layout.es
  }

  ghost predicate BlockOk(sum: Bytes -> nat, file: Bytes, b: DataBlock) {
    && Lays(b.bytes, b.layout) && b.layout.es != []
    && ReadBlock(sum, file, b.offset, |b.bytes|) == Some(b.bytes)
    && b.offset < Two64 && |b.bytes| < Two64
  }

  ghost predicate BlocksOk(sum: Bytes -> nat, file: Bytes, bs: seq<DataBlock>) {
    forall i {:trigger bs[i]} | 0 <= i < |bs| :: BlockOk(sum, file, bs[i])
  }

  function IndexEntry(b: DataBlock): KV
    requires b.layout.es != []
  {
    KV(b.layout.es[|b.layout.es| - 1].key, Handle(b.offset, |b.bytes|))
  }

  ghost predicate IsIndex(es: seq<KV>, bs: seq<DataBlock>) {
    |es| == |bs| && forall i | 0 <= i < |bs| :: bs[i].layout.es != [] && es[i] == IndexEntry(bs[i])
  }

  // ---- Where the entries of a block lie in the whole list -------------------------------------------------

  /** The position in the whole list where block `j` begins. */
  function StartOf(bs: seq<DataBlock>, j: nat): nat
    requires j <= |bs|
  {
    |Flat(bs[..j])|
  }

  lemma {:induction false} BlockInFlat(bs: seq<DataBlock>, j: nat, x: nat)
    requires j < |bs| && x < |bs[j].layout.es|
    ensures StartOf(bs, j) + x < |Flat(bs)| && Flat(bs)[StartOf(bs, j) + x] == bs[j].layout.es[x]
    decreases |bs|
  {
    var n := |bs| - 1;
    if j < n {
      BlockInFlat(bs[..n], j, x);
      assert bs[..n][..j] == bs[..j];
    }
  }

  lemma {:induction false} InBlock(bs: seq<DataBlock>, p: nat) returns (j: nat, x: nat)
    requires p < |Flat(bs)|
    ensures j < |bs| && x < |bs[j].layout.es| && p == StartOf(bs, j) + x && Flat(bs)[p] == bs[j].layout.es[x]
    decreases |bs|
  {
    var n := |bs| - 1;
    if p < |Flat(bs[..n])| {
      j, x := InBlock(bs[..n], p);
      assert bs[..n][..j] == bs[..j];
    } else {
      j, x := n, p - |Flat(bs[..n])|;
    }
  }

  lemma {:induction false} StartsAscend(bs: seq<DataBlock>, i: nat, j: nat)
    requires i < j <= |bs|
    ensures StartOf(bs, i) + |bs[i].layout.es| <= StartOf(bs, j)
    decreases j
  {
    assert bs[..j][..j - 1] == bs[..j - 1];
    if i < j - 1 { StartsAscend(bs, i, j - 1); }
  }

  lemma {:induction false} BlockAscending(bs: seq<DataBlock>, j: nat)
    requires Ascending(Flat(bs)) && j < |bs|
    ensures Ascending(bs[j].layout.es)
  {
    var es := bs[j].layout.es;
    forall e | e in es ensures IsInternal(e.key) {
      var x :| 0 <= x < |es| && es[x] == e;
      BlockInFlat(bs, j, x);
    }
    forall x, y | 0 <= x < y < |es| ensures !BytesBefore(es[y].key, es[x].key) {
      BlockInFlat(bs, j, x);
      BlockInFlat(bs, j, y);
    }
  }

  lemma {:induction false} IndexAscending(es: seq<KV>, bs: seq<DataBlock>)
    requires Ascending(Flat(bs)) && IsIndex(es, bs)
    ensures Ascending(es)
  {
    forall e | e in es ensures IsInternal(e.key) {
      var i :| 0 <= i < |es| && es[i] == e;
      BlockInFlat(bs, i, |bs[i].layout.es| - 1);
    }
    forall i, j | 0 <= i < j < |es| ensures !BytesBefore(es[j].key, es[i].key) {
      BlockInFlat(bs, i, |bs[i].layout.es| - 1);
      BlockInFlat(bs, j, |bs[j].layout.es| - 1);
      StartsAscend(bs, i, j);
    }
  }

  /** A block before the one the index finds lies below the target. */
  lemma {:induction false} BlockBelow(es: seq<KV>, bs: seq<DataBlock>, target: Bytes, i: nat, x: nat)
    requires Ascending(Flat(bs)) && IsIndex(es, bs) && IsInternal(target)
    requires i < FirstFrom(es, target) && x < |bs[i].layout.es|
    ensures BytesBefore(bs[i].layout.es[x].key, target)
  {
    var last := |bs[i].layout.es| - 1;
    assert BytesBefore(es[i].key, target);
    BlockAscending(bs, i);
    BelowAll(bs[i].layout.es, last, target);
  }

  lemma {:induction false} BelowIndex(es: seq<KV>, bs: seq<DataBlock>, target: Bytes, p: nat)
    requires Ascending(Flat(bs)) && IsIndex(es, bs) && IsInternal(target) && p < |Flat(bs)|
    requires FirstFrom(es, target) < |bs| ==> p < StartOf(bs, FirstFrom(es, target))
    ensures BytesBefore(Flat(bs)[p].key, target)
  {
    var j := FirstFrom(es, target);
    var i, x := InBlock(bs, p);
    assert i < j by { if j < |bs| { EarlierBlock(bs, i, x, j); } }
    BlockBelow(es, bs, target, i, x);
  }

  lemma {:induction false} EarlierBlock(bs: seq<DataBlock>, i: nat, x: nat, j: nat)
    requires i < |bs| && j < |bs| && StartOf(bs, i) + x < StartOf(bs, j)
    ensures i < j
  {
    if j < i { StartsAscend(bs, j, i); }
  }

  /** The index search picks the block with the first entry not below the target; past the index
      there is none. */
  lemma {:induction false} IndexFinds(es: seq<KV>, bs: seq<DataBlock>, target: Bytes)
    requires Ascending(Flat(bs)) && IsIndex(es, bs) && IsInternal(target)
    ensures var j := FirstFrom(es, target);
            if j == |bs| then FirstFrom(Flat(bs), target) == |Flat(bs)|
            else FirstFrom(bs[j].layout.es, target) < |bs[j].layout.es|
                 && FirstFrom(Flat(bs), target) == StartOf(bs, j) + FirstFrom(bs[j].layout.es, target)
  {
    hide Flat, StartOf, BytesBefore, FirstFrom;
    var flat, j := Flat(bs), FirstFrom(es, target);
    forall p | 0 <= p < (if j < |bs| then StartOf(bs, j) else |flat|)
        && p < |flat| ensures BytesBefore(flat[p].key, target) {
      BelowIndex(es, bs, target, p);
    }
    if j < |bs| {
      var b := bs[j].layout.es;
      var f := FirstFrom(b, target);
      assert !BytesBefore(es[j].key, target);
      BlockInFlat(bs, j, f);
      forall p | 0 <= p < StartOf(bs, j) + f ensures BytesBefore(flat[p].key, target) {
        if p >= StartOf(bs, j) { BlockInFlat(bs, j, p - StartOf(bs, j)); }
      }
      FirstFromUnique(flat, target, StartOf(bs, j) + f);
    } else {
      FirstFromUnique(flat, target, |flat|);
    }
  }

  // ---- A whole file ------------------------------------------------------------------------------------------

  datatype Shape = Shape(blocks: seq<DataBlock>, index: DataBlock)

  function Footer(offset: nat, size: nat): Bytes { Handle(offset, size) + Fixed(Magic, Width32) }

  ghost predicate IsTable(sum: Bytes -> nat, file: Bytes, t: Shape) {
    && |file| >= FooterSize && file[|file| - 20..] == Footer(t.index.offset, |t.index.bytes|)
    && BlocksOk(sum, file, t.blocks)
    && Lays(t.index.bytes, t.index.layout) && IsIndex(t.index.layout.es, t.blocks)
    && ReadBlock(sum, file, t.index.offset, |t.index.bytes|) == Some(t.index.bytes)
    && t.index.offset < Two64 && |t.index.bytes| < Two64
  }

  /** What SSTable::Get reports: a status, the value, and whether the search is over. */
  datatype Hit = Hit(status: Status, value: Bytes, found: bool)

  /** The answer of a linear search: the first entry not below the key, if it is of the same user
      and not too new. */
  function Lookup(es: seq<KV>, key: Bytes): Hit {
    var f := FirstFrom(es, key);
    if f < |es| then Judge(es[f], key) else Hit(Ok, [], false)
  }

  function Judge(e: KV, key: Bytes): Hit {
    if ExtractUser(e.key) != ExtractUser(key) || ExtractPack(e.key) / 0x100 > ExtractPack(key) / 0x100
        then Hit(Ok, [], false)
    else if ExtractPack(e.key) % 0x100 == 0 then Hit(NotFound, [], true)
    else Hit(Ok, e.value, true)
  }

  lemma {:induction false} FooterParts(offset: nat, size: nat)
    requires offset < Two64 && size < Two64
    ensures var f := Footer(offset, size);
            |f| == 20 && Unfixed(f[..8]) == offset && Unfixed(f[8..16]) == size && Unfixed(f[16..20]) == Magic
  {
    var f, h := Footer(offset, size), Handle(offset, size);
    HandleParts(offset, size);
    Word32(Magic);
    assert f[..8] == h[..8] && f[8..16] == h[8..16] && f[16..20] == Fixed(Magic, Width32);
  }
}
