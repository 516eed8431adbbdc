/** Prefix-compressed blocks with restart points: the bytes of a block as a function of its
    entries, and the parsing of one entry back out of them. */
module Blocks {
  import opened Values
  import opened Encoding

  datatype KV = KV(key: Bytes, value: Bytes)

  /** Length of the longest common prefix. */
  function Common(a: Bytes, b: Bytes): (r: nat)
    ensures r <= |a| && r <= |b| && a[..r] == b[..r]
    ensures r < |a| && r < |b| ==> a[r] != b[r]
  {
    if a == [] || b == [] || a[0] != b[0] then 0
    else
      var r := 1 + Common(a[1..], b[1..]);
      assert a[..r] == [a[0]] + a[1..][..r - 1] && b[..r] == [b[0]] + b[1..][..r - 1];
      r
  }

  /** Shared length, rest length, value length, rest of the key, value. */
  function Chunk(shared: nat, e: KV): Bytes
    requires shared <= |e.key|
  {
    Varint(shared) + (Varint(|e.key| - shared) + (Varint(|e.value|) + (e.key[shared..] + e.value)))
  }

  /** Entries listed in `marks` are restart points and store their key in full. */
  function SharedAt(es: seq<KV>, marks: seq<nat>, i: nat): (r: nat)
    requires i < |es|
    ensures r <= |es[i].key|
    ensures i in marks || i == 0 ==> r == 0
    ensures i > 0 ==> r <= |es[i - 1].key| && es[i].key[..r] == es[i - 1].key[..r]
  {
    if i in marks || i == 0 then 0 else Common(es[i - 1].key, es[i].key)
  }

  function ChunkAt(es: seq<KV>, marks: seq<nat>, i: nat): Bytes
    requires i < |es|
  {
    Chunk(SharedAt(es, marks, i), es[i])
  }

  /** The entry region of the first `n` entries. */
  function Data(es: seq<KV>, marks: seq<nat>, n: nat): Bytes
    requires n <= |es|
  {
    if n == 0 then [] else Data(es, marks, n - 1) + ChunkAt(es, marks, n - 1)
  }

  function Offset(es: seq<KV>, marks: seq<nat>, n: nat): nat
    requires n <= |es|
  {
    |Data(es, marks, n)|
  }

  lemma {:induction false} DataPrefix(es: seq<KV>, marks: seq<nat>, i: nat, n: nat)
    requires i <= n <= |es|
    ensures Offset(es, marks, i) <= Offset(es, marks, n) && Data(es, marks, n)[..Offset(es, marks, i)] ==
        Data(es, marks, i)
    decreases n
  {
    hide ChunkAt;
    if i < n {
      DataPrefix(es, marks, i, n - 1);
      var a, b := Data(es, marks, n - 1), ChunkAt(es, marks, n - 1);
      assert (a + b)[..Offset(es, marks, i)] == a[..Offset(es, marks, i)];
    }
  }

  lemma {:induction false} PrefixCut(d: Bytes, a: Bytes, c: Bytes)
    requires |a| + |c| <= |d| && d[..|a| + |c|] == a + c
    ensures d[|a|..] == c + d[|a| + |c|..]
  {
    assert d == d[..|a| + |c|] + d[|a| + |c|..];
  }

  /** The bytes from entry `i` on begin with its chunk. */
  lemma {:induction false} ChunkInData(es: seq<KV>, marks: seq<nat>, i: nat, n: nat)
    requires i < n <= |es|
    ensures Offset(es, marks, i) + |ChunkAt(es, marks, i)| == Offset(es, marks, i + 1) <= Offset(es, marks, n)
    ensures Data(es, marks, n)[Offset(es, marks, i)..] ==
            ChunkAt(es, marks, i) + Data(es, marks, n)[Offset(es, marks, i + 1)..]
  {
    hide ChunkAt;
    DataPrefix(es, marks, i + 1, n);
    PrefixCut(Data(es, marks, n), Data(es, marks, i), ChunkAt(es, marks, i));
  }

  // ---- Restart points --------------------------------------------------------------------------------

  /** The first entry is a restart point, and they ascend. An empty block has one all the same. */
  ghost predicate MarksOk(marks: seq<nat>, n: nat) {
    && marks != [] && marks[0] == 0
    && (forall r | 0 <= r < |marks| :: marks[r] < n || (n == 0 && r == 0))
    && (forall r, q | 0 <= r < q < |marks| :: marks[r] < marks[q])
  }

  function Offsets(es: seq<KV>, marks: seq<nat>, r: nat): (os: seq<nat>)
    requires r <= |marks| && forall i | 0 <= i < r :: marks[i] <= |es|
    ensures |os| == r && forall i | 0 <= i < r :: os[i] == Offset(es, marks, marks[i])
  {
    if r == 0 then [] else Offsets(es, marks, r - 1) + [Offset(es, marks, marks[r - 1])]
  }

  function Words(os: seq<nat>): (b: Bytes)
    ensures |b| == 4 * |os|
  {
    if os == [] then [] else Words(os[..|os| - 1]) + Fixed(os[|os| - 1] % Two32, Width32)
  }

  /** A finished block: entries, restart offsets, number of restarts. */
  function Assemble(data: Bytes, restarts: seq<nat>): Bytes {
    data + (Words(restarts) + Fixed(|restarts| % Two32, Width32))
  }

  function BlockBytes(es: seq<KV>, marks: seq<nat>): Bytes
    requires forall i | 0 <= i < |marks| :: marks[i] <= |es|
  {
    Assemble(Data(es, marks, |es|), Offsets(es, marks, |marks|))
  }

  // ---- Parsing ----------------------------------------------------------------------------------------

  datatype Entry = AtEnd | Bad | Parsed(key: Bytes, value: Bytes, next: nat)

  /** Decode the entry at `p`; its key continues what `keyBuf` holds. */
  function ParseEntry(data: Bytes, limit: nat, p: nat, keyBuf: Bytes): Entry
    requires limit <= |data|
  {
    if p >= limit then AtEnd
    else
      match GetVarint32(data[p..limit])
      case Fail => Bad
      case Done(shared, r0) =>
        match GetVarint32(r0)
        case Fail => Bad
        case Done(added, r1) =>
          match GetVarint32(r1)
          case Fail => Bad
          case Done(len, r2) =>
            if |r2| < added + len || shared > |keyBuf| then Bad
            else Parsed(keyBuf[..shared] + r2[..added], r2[added..added + len], limit - |r2| + added + len)
  }

  predicate KVFits(e: KV) { |e.key| < Two32 && |e.value| < Two32 }

  /** The header of a chunk reads back. */
  lemma {:induction false} ChunkHeader(shared: nat, e: KV, rest: Bytes)
    requires shared <= |e.key| && KVFits(e)
    ensures var r2 := e.key[shared..] + e.value + rest;
            var r1 := Varint(|e.value|) + r2;
            var r0 := Varint(|e.key| - shared) + r1;
            && Chunk(shared, e) + rest == Varint(shared) + r0
            && GetVarint32(Varint(shared) + r0) == Done(shared, r0)
            && GetVarint32(r0) == Done(|e.key| - shared, r1)
            && GetVarint32(r1) == Done(|e.value|, r2)
  {
    var r2 := e.key[shared..] + e.value + rest;
    var r1 := Varint(|e.value|) + r2;
    var r0 := Varint(|e.key| - shared) + r1;
    ChunkConcat(Varint(shared), Varint(|e.key| - shared), Varint(|e.value|), e.key[shared..], e.value, rest);
    Varint32RoundTrip(shared, r0);
    Varint32RoundTrip(|e.key| - shared, r1);
    Varint32RoundTrip(|e.value|, r2);
  }

  lemma {:induction false} ChunkConcat(a: Bytes, b: Bytes, c: Bytes, d: Bytes, e: Bytes, rest: Bytes)
    ensures (a + (b + (c + (d + e)))) + rest == a + (b + (c + (d + e + rest)))
  {
  }

  lemma {:induction false} ParseChunk(data: Bytes, limit: nat, p: nat, keyBuf: Bytes, shared: nat, e: KV, rest: Bytes)
    requires shared <= |e.key| && KVFits(e) && shared <= |keyBuf| && keyBuf[..shared] == e.key[..shared]
    requires p < limit <= |data| && data[p..limit] == Chunk(shared, e) + rest
    ensures ParseEntry(data, limit, p, keyBuf) == Parsed(e.key, e.value, p + |Chunk(shared, e)|)
  {
    var r2 := e.key[shared..] + e.value + rest;
    ChunkHeader(shared, e, rest);
    var n := |e.key| - shared;
    assert r2[..n] == e.key[shared..] && r2[n..n + |e.value|] == e.value;
    assert e.key[..shared] + e.key[shared..] == e.key;
    assert |r2| == n + |e.value| + |rest| && limit - p == |Chunk(shared, e)| + |rest|;
  }

  /** Where the restart array begins. */
  function RestartOffset(data: Bytes): int
    requires |data| >= 4
  {
    |data| - 4 - 4 * Unfixed(data[|data| - 4..])
  }

  lemma {:induction false} ThreeParts(data: Bytes, d: Bytes, a: Bytes, t: Bytes)
    requires data == d + (a + t)
    ensures data[..|d|] == d && data[|d|..|data| - |t|] == a && data[|data| - |t|..] == t
  {
    assert data == d + a + t;
  }

  lemma {:induction false} AssembleLayout(data: Bytes, d: Bytes, restarts: seq<nat>)
    requires data == Assemble(d, restarts) && |restarts| < Two32
    ensures |data| >= 4 && Unfixed(data[|data| - 4..]) == |restarts| && RestartOffset(data) == |d|
    ensures data[..|d|] == d && |d| + 4 * |restarts| + 4 == |data| && data[|d|..|data| - 4] == Words(restarts)
  {
    Word32(|restarts|);
    ThreeParts(data, d, Words(restarts), Fixed(|restarts|, Width32));
  }

  lemma {:induction false} WordAt(os: seq<nat>, i: nat)
    requires i < |os| && os[i] < Two32
    ensures Unfixed(Words(os)[4 * i..4 * i + 4]) == os[i]
  {
    var n := |os| - 1;
    var a, b := Words(os[..n]), Fixed(os[n] % Two32, Width32);
    if i == n {
      assert (a + b)[4 * i..4 * i + 4] == b;
      Word32(os[i]);
    } else {
      WordAt(os[..n], i);
      assert (a + b)[4 * i..4 * i + 4] == a[4 * i..4 * i + 4];
    }
  }

  /** A block that was built from these entries, small enough for its offsets to be stored. */
  ghost predicate Built(data: Bytes, es: seq<KV>, marks: seq<nat>) {
    && MarksOk(marks, |es|) && data == BlockBytes(es, marks) && |data| < Two32
    && forall e | e in es :: KVFits(e)
  }

  lemma {:induction false} BuiltLayout(data: Bytes, es: seq<KV>, marks: seq<nat>)
    requires Built(data, es, marks)
    ensures |data| >= 4 && Unfixed(data[|data| - 4..]) == |marks|
    ensures 0 <= RestartOffset(data) <= |data| && RestartOffset(data) == Offset(es, marks, |es|)
    ensures data[..RestartOffset(data)] == Data(es, marks, |es|)
  {
    var restarts := Offsets(es, marks, |marks|);
    assert |marks| < Two32 by { assert |data| == |Data(es, marks, |es|)| + 4 * |marks| + 4; }
    AssembleLayout(data, Data(es, marks, |es|), restarts);
  }

  lemma {:induction false} SliceWithin(data: Bytes, o: nat, w: Bytes, i: nat, n: nat)
    requires o + |w| <= |data| && data[o..o + |w|] == w && i + n <= |w|
    ensures data[o + i..o + i + n] == w[i..i + n]
  {
    var a, b := data[o + i..o + i + n], w[i..i + n];
    forall k | 0 <= k < n ensures a[k] == b[k] { assert data[o..o + |w|][i + k] == w[i + k]; }
  }

  lemma {:induction false} StoredWord(data: Bytes, d: Bytes, restarts: seq<nat>, r: nat)
    requires data == Assemble(d, restarts) && r < |restarts| < Two32 && restarts[r] < Two32
    ensures |d| + 4 * |restarts| + 4 == |data| && RestartOffset(data) == |d|
    ensures Unfixed(data[|d| + 4 * r..|d| + 4 * r + 4]) == restarts[r]
  {
    AssembleLayout(data, d, restarts);
    SliceWithin(data, |d|, Words(restarts), 4 * r, 4);
    WordAt(restarts, r);
  }

  /** The stored restart offset `r` is where entry `marks[r]` begins. */
  lemma {:induction false} RestartStored(data: Bytes, es: seq<KV>, marks: seq<nat>, r: nat)
    requires Built(data, es, marks) && r < |marks|
    ensures |data| >= 4 && marks[r] <= |es|
    ensures var o := RestartOffset(data);
            0 <= o && o + 4 * r + 4 <= |data| - 4 && Unfixed(data[o + 4 * r..o + 4 * r + 4]) ==
                Offset(es, marks, marks[r])
  {
    hide ChunkAt, Words, Fixed, Unfixed;
    var restarts, d := Offsets(es, marks, |marks|), Data(es, marks, |es|);
    assert restarts[r] == Offset(es, marks, marks[r]);
    DataPrefix(es, marks, marks[r], |es|);
    assert |data| == |d| + 4 * |marks| + 4;
    StoredWord(data, d, restarts, r);
  }

  /** Parsing at the offset of entry `i`, after entry `i - 1` or at a restart, gives entry `i`. */
  lemma {:induction false} ParseBuilt(data: Bytes, es: seq<KV>, marks: seq<nat>, i: nat, keyBuf: Bytes)
    requires Built(data, es, marks) && i <= |es|
    requires 0 < i < |es| && i !in marks ==> keyBuf == es[i - 1].key
    ensures |data| >= 4 && 0 <= RestartOffset(data) <= |data|
    ensures ParseEntry(data, RestartOffset(data), Offset(es, marks, i), keyBuf) ==
            if i == |es| then AtEnd else Parsed(es[i].key, es[i].value, Offset(es, marks, i + 1))
  {
    hide Varint, GetVarint32, Fixed, Unfixed, Words;
    BuiltLayout(data, es, marks);
    if i < |es| {
      var d := Data(es, marks, |es|);
      ChunkInData(es, marks, i, |es|);
      var limit, p := RestartOffset(data), Offset(es, marks, i);
      assert data[p..limit] == d[p..];
      assert es[i] in es;
      ParseChunk(data, limit, p, keyBuf, SharedAt(es, marks, i), es[i], d[Offset(es, marks, i + 1)..]);
    }
  }
}
