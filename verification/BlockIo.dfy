/** The block builder and the block iterator: what is added comes back in order, and a seek lands
    on the first entry not below the target. */
module BlockIo {
  import opened Values
  import opened InternalKeys
  import opened Encoding
  import opened Blocks

  // ---- Order of encoded keys -------------------------------------------------------------------------

  predicate IsInternal(b: Bytes) { |b| >= 8 }

  /** Encoded internal keys are weakly ordered: below is inherited downwards. */
  lemma {:induction false} BeforeWeak(a: Bytes, m: Bytes, t: Bytes)
    requires IsInternal(a) && IsInternal(m) && IsInternal(t) && !BytesBefore(m, a) && BytesBefore(m, t)
    ensures BytesBefore(a, t)
  {
    LessTotal(ExtractUser(a), ExtractUser(m));
    if Less(ExtractUser(a), ExtractUser(m)) && Less(ExtractUser(m), ExtractUser(t)) {
      LessTransitive(ExtractUser(a), ExtractUser(m), ExtractUser(t));
    }
  }

  /** A non-decreasing list of internal keys. */
  ghost predicate Ascending(es: seq<KV>) {
    && (forall e | e in es :: IsInternal(e.key))
    && (forall i, j | 0 <= i < j < |es| :: !BytesBefore(es[j].key, es[i].key))
  }

  /** Index of the first entry not below the target: what a linear search finds. */
  function FirstFrom(es: seq<KV>, target: Bytes): (r: nat)
    ensures r <= |es|
    ensures forall i | 0 <= i < r :: BytesBefore(es[i].key, target)
    ensures r < |es| ==> !BytesBefore(es[r].key, target)
  {
    if es == [] || !BytesBefore(es[0].key, target) then 0 else 1 + FirstFrom(es[1..], target)
  }

  lemma {:induction false} FirstFromUnique(es: seq<KV>, target: Bytes, r: nat)
    requires r <= |es| && (forall i | 0 <= i < r :: BytesBefore(es[i].key, target))
    requires r < |es| ==> !BytesBefore(es[r].key, target)
    ensures r == FirstFrom(es, target)
  {
    hide BytesBefore;
  }

  /** Below one entry below the target, everything is below the target. */
  lemma {:induction false} BelowAll(es: seq<KV>, m: nat, target: Bytes)
    requires Ascending(es) && IsInternal(target) && m < |es| && BytesBefore(es[m].key, target)
    ensures forall i | 0 <= i <= m :: BytesBefore(es[i].key, target)
  {
    forall i | 0 <= i <= m ensures BytesBefore(es[i].key, target) {
      assert es[i] in es && es[m] in es;
      if i < m { BeforeWeak(es[i].key, es[m].key, target); }
    }
  }

  // ---- Building ---------------------------------------------------------------------------------------

  /** The same of the first `n` entries are marked. */
  ghost predicate SameMarks(marks: seq<nat>, marks': seq<nat>, n: nat) {
    forall i | 0 <= i < n :: i in marks' <==> i in marks
  }

  ghost predicate SameChunk(es: seq<KV>, marks: seq<nat>, es': seq<KV>, marks': seq<nat>, i: nat) {
    i < |es| && i < |es'| && ChunkAt(es', marks', i) == ChunkAt(es, marks, i)
  }

  lemma {:induction false} DataSame(es: seq<KV>, marks: seq<nat>, es': seq<KV>, marks': seq<nat>, n: nat)
    requires n <= |es| && n <= |es'| && forall i | 0 <= i < n :: SameChunk(es, marks, es', marks', i)
    ensures Data(es', marks', n) == Data(es, marks, n)
    decreases n
  {
    hide ChunkAt;
    if n > 0 {
      DataSame(es, marks, es', marks', n - 1);
      assert SameChunk(es, marks, es', marks', n - 1);
    }
  }

  /** Adding an entry leaves the earlier bytes alone. */
  lemma {:induction false} DataExtends(es: seq<KV>, e: KV, marks: seq<nat>, marks': seq<nat>, n: nat)
    requires n <= |es| && SameMarks(marks, marks', |es|)
    ensures Data(es + [e], marks', n) == Data(es, marks, n)
  {
    hide Data, Chunk, Common;
    var es' := es + [e];
    forall i | 0 <= i < n ensures SameChunk(es, marks, es', marks', i) {
      assert es'[i] == es[i] && (i > 0 ==> es'[i - 1] == es[i - 1]);
    }
    DataSame(es, marks, es', marks', n);
  }

  lemma {:induction false} OffsetsExtend(es: seq<KV>, e: KV, marks: seq<nat>, marks': seq<nat>, r: nat)
    requires r <= |marks| && r <= |marks'| && forall i | 0 <= i < r :: marks[i] == marks'[i] && marks[i] <= |es|
    requires forall i | 0 <= i < |es| :: i in marks' <==> i in marks
    ensures Offsets(es + [e], marks', r) == Offsets(es, marks, r)
  {
    forall i | 0 <= i < r ensures Offset(es + [e], marks', marks[i]) == Offset(es, marks, marks[i]) {
      DataExtends(es, e, marks, marks', marks[i]);
    }
  }

  method CommonPrefix(a: Bytes, b: Bytes) returns (shared: nat)
    ensures shared == Common(a, b)
  {
    shared := 0;
    while shared < |a| && shared < |b| && a[shared] == b[shared]
      invariant shared <= |a| && shared <= |b| && Common(a, b) == shared + Common(a[shared..], b[shared..])
    {
      assert a[shared..][1..] == a[shared + 1..] && b[shared..][1..] == b[shared + 1..];
      shared := shared + 1;
    }
  }

  lemma {:induction false} NotMarked(marks: seq<nat>, n: nat)
    requires MarksOk(marks, n)
    ensures n > 0 ==> n !in marks
  {
    assert forall r | 0 <= r < |marks| :: n > 0 ==> marks[r] != n;
  }

  /** What the builder holds after adding these entries with these restart points. */
  ghost predicate Holds(es: seq<KV>, marks: seq<nat>, buffer: Bytes, restarts: seq<nat>) {
    MarksOk(marks, |es|) && buffer == Data(es, marks, |es|) && restarts == Offsets(es, marks, |marks|)
  }

  lemma {:induction false} Rested()
    ensures Holds([], [0], [], [0])
  {
    var marks: seq<nat> := [0];
    assert Offsets([], marks, 1) == Offsets([], marks, 0) + [Offset([], marks, 0)];
  }

  function LastKey(es: seq<KV>): Bytes { if es == [] then [] else es[|es| - 1].key }

  lemma {:induction false} AddCompressed(es: seq<KV>, marks: seq<nat>, buffer: Bytes, restarts: seq<nat>, e: KV)
    requires Holds(es, marks, buffer, restarts)
    ensures Common(LastKey(es), e.key) <= |e.key|
    ensures Holds(es + [e], marks, buffer + Chunk(Common(LastKey(es), e.key), e), restarts)
  {
    hide Chunk, Common;
    var n, es' := |es|, es + [e];
    DataExtends(es, e, marks, marks, n);
    OffsetsExtend(es, e, marks, marks, |marks|);
    NotMarked(marks, n);
    EmptyCommon(e.key);
    assert SharedAt(es', marks, n) == Common(LastKey(es), e.key);
    assert Data(es', marks, n + 1) == Data(es', marks, n) + ChunkAt(es', marks, n);
  }

  lemma {:induction false} EmptyCommon(b: Bytes)
    ensures Common([], b) == 0
  {
  }

  lemma {:induction false} MarksExtend(marks: seq<nat>, n: nat)
    requires MarksOk(marks, n) && n > 0
    ensures MarksOk(marks + [n], n + 1)
  {
    var marks' := marks + [n];
    forall r | 0 <= r < |marks'| ensures marks'[r] < n + 1 { if r < |marks| { assert marks[r] < n; } }
  }

  lemma {:induction false} RestartData(es: seq<KV>, marks: seq<nat>, e: KV)
    ensures Data(es + [e], marks + [|es|], |es| + 1) == Data(es, marks, |es|) + Chunk(0, e)
    ensures Offset(es + [e], marks + [|es|], |es|) == Offset(es, marks, |es|)
  {
    hide Chunk, Common;
    var n, es', marks' := |es|, es + [e], marks + [|es|];
    assert forall i | 0 <= i < n :: i in marks' <==> i in marks;
    DataExtends(es, e, marks, marks', n);
    assert n in marks' && es'[n] == e;
    assert ChunkAt(es', marks', n) == Chunk(0, e);
  }

  lemma {:induction false} RestartOffsets(es: seq<KV>, marks: seq<nat>, e: KV)
    requires MarksOk(marks, |es|) && es != []
    ensures (forall i | 0 <= i < |marks| + 1 :: (marks + [|es|])[i] <= |es| + 1)
    ensures Offsets(es + [e], marks + [|es|], |marks| + 1) == Offsets(es, marks, |marks|) + [Offset(es, marks, |es|)]
  {
    hide Data;
    var n, marks' := |es|, marks + [|es|];
    assert forall i | 0 <= i < n :: i in marks' <==> i in marks;
    OffsetsExtend(es, e, marks, marks', |marks|);
    RestartData(es, marks, e);
  }

  lemma {:induction false} AddRestart(es: seq<KV>, marks: seq<nat>, buffer: Bytes, restarts: seq<nat>, e: KV)
    requires Holds(es, marks, buffer, restarts) && es != []
    ensures Holds(es + [e], marks + [|es|], buffer + Chunk(0, e), restarts + [|buffer|])
  {
    hide Data, Offsets, Chunk;
    MarksExtend(marks, |es|);
    RestartData(es, marks, e);
    RestartOffsets(es, marks, e);
  }

  lemma {:induction false} JoinFive(a: Bytes, b: Bytes, c: Bytes, d: Bytes, e: Bytes)
    ensures a + b + c + d + e == a + (b + (c + (d + e)))
  {
  }

  method AppendChunk(dst: Bytes, shared: nat, e: KV) returns (r: Bytes)
    requires shared <= |e.key|
    ensures r == dst + Chunk(shared, e)
  {
    hide Varint;
    r := PutVarint(dst, shared);
    r := PutVarint(r, |e.key| - shared);
    r := PutVarint(r, |e.value|);
    r := r + (e.key[shared..] + e.value);
    JoinFive(dst, Varint(shared), Varint(|e.key| - shared), Varint(|e.value|), e.key[shared..] + e.value);
  }

  /** The restarts are `interval` entries apart, and `counter` entries have followed the last one. */
  ghost predicate Spaced(marks: seq<nat>, interval: nat, n: nat, counter: nat) {
    && marks != [] && marks[0] == 0 && (forall r | 0 < r < |marks| :: marks[r] == marks[r - 1] + interval)
    && n == marks[|marks| - 1] + counter && counter <= interval
  }

  /** What a block will take up is known before it is finished. */
  lemma {:induction false} SizeKnown(es: seq<KV>, marks: seq<nat>, buffer: Bytes, restarts: seq<nat>)
    requires MarksOk(marks, |es|) && Holds(es, marks, buffer, restarts)
    ensures |BlockBytes(es, marks)| == |buffer| + 4 * |restarts| + 4
  {
    hide Data, Fixed;
  }

  class BlockBuilder {
    const interval: nat
    var buffer: Bytes
    var restarts: seq<nat>
    var lastKey: Bytes
    var counter: nat
    ghost var es: seq<KV>
    ghost var marks: seq<nat>

    constructor (interval: nat)
      requires interval > 0
      ensures Valid() && es == [] && this.interval == interval
    {
      this.interval := interval;
      buffer, restarts, lastKey, counter := [], [0], [], 0;
      es, marks := [], [0];
      Rested();
    }

    ghost predicate Valid()
      reads this
    {
      interval > 0 && MarksOk(marks, |es|) && Holds(es, marks, buffer, restarts) && lastKey == LastKey(es)
      && Spaced(marks, interval, |es|, counter) && (es != [] ==> counter > 0)
    }

    /** A due restart: note the offset, store the next key in full. */
    method Restart(e: KV)
      requires Valid() && es != []
      modifies this
      ensures Holds(es + [e], marks, buffer + Chunk(0, e), restarts) && es == old(es) && lastKey == old(lastKey)
          && counter == 0
      ensures marks == old(marks) + [|es|] && buffer == old(buffer)
    {
      hide Holds, Chunk;
      AddRestart(es, marks, buffer, restarts, e);
      restarts := restarts + [|buffer|];
      marks := marks + [|es|];
      counter := 0;
    }

    /** Append an entry, compressed against the last key unless a restart is due. */
    method Add(key: Bytes, value: Bytes)
      requires Valid()
      modifies this
      ensures Valid() && es == old(es) + [KV(key, value)]
      ensures old(marks) <= marks
    {
      hide Holds, Chunk;
      var shared, e := 0, KV(key, value);
      if counter < interval {
        AddCompressed(es, marks, buffer, restarts, e);
        shared := CommonPrefix(lastKey, key);
      } else {
        Restart(e);
      }
      assert Holds(es + [e], marks, buffer + Chunk(shared, e), restarts);
      buffer := AppendChunk(buffer, shared, e);
      lastKey := key;
      counter := counter + 1;
      es := es + [e];
    }

    /** The trailer: each restart offset, then their number. */
    method Finish() returns (r: Bytes)
      requires Valid()
      ensures r == BlockBytes(es, marks)
    {
      hide Data, Offsets;
      var words: Bytes := [];
      for i := 0 to |restarts|
        invariant words == Words(restarts[..i])
      {
        assert restarts[..i + 1][..i] == restarts[..i];
        words := words + Fixed(restarts[i] % Two32, Width32);
      }
      assert restarts[..|restarts|] == restarts;
      r := buffer + (words + Fixed(|restarts| % Two32, Width32));
    }

    method Reset()
      modifies this
      requires interval > 0
      ensures Valid() && es == []
    {
      buffer, restarts, lastKey, counter := [], [0], [], 0;
      es, marks := [], [0];
      Rested();
    }
  }

  // ---- Reading ----------------------------------------------------------------------------------------

  /** Number of restarts a block claims. */
  function RestartCount(data: Bytes): nat
    requires |data| >= 4
  {
    Unfixed(data[|data| - 4..])
  }

  /** A block whose restart array lies inside it. */
  predicate Framed(data: Bytes) { |data| >= 4 && RestartOffset(data) >= 0 }

  function RestartPoint(data: Bytes, r: nat): nat
    requires Framed(data)
  {
    var o := RestartOffset(data) + 4 * r;
    if o + 4 <= |data| then Unfixed(data[o..o + 4]) else |data|
  }

  /** What a reader may know of a block: its entries, its restart points, and where each entry
      begins. */
  datatype Layout = Layout(es: seq<KV>, marks: seq<nat>, starts: seq<nat>)

  /** Parsing at the start of entry `i` gives entry `i`. */
  ghost predicate ParsesAt(data: Bytes, limit: nat, v: Layout, i: nat)
    requires limit <= |data| && |v.starts| == |v.es| + 1 && i <= |v.es|
  {
    forall buf {:trigger ParseEntry(data, limit, v.starts[i], buf)}
      | 0 < i < |v.es| && i !in v.marks ==> buf == v.es[i - 1].key ::
      ParseEntry(data, limit, v.starts[i], buf) ==
      if i == |v.es| then AtEnd else Parsed(v.es[i].key, v.es[i].value, v.starts[i + 1])
  }

  ghost predicate Lays(data: Bytes, v: Layout) {
    && Framed(data) && MarksOk(v.marks, |v.es|) && |v.starts| == |v.es| + 1
    && RestartCount(data) == |v.marks|
    && (forall i {:trigger ParsesAt(data, RestartOffset(data), v, i)} | 0 <= i <= |v.es| ::
        ParsesAt(data, RestartOffset(data), v, i))
    && (forall r {:trigger RestartPoint(data, r)} | 0 <= r < |v.marks| :: RestartPoint(data, r) == v.starts[v.marks[r]])
  }

  /** The layout of a built block. */
  function LayoutOf(es: seq<KV>, marks: seq<nat>): Layout {
    Layout(es, marks, seq(|es| + 1, i requires 0 <= i <= |es| => Offset(es, marks, i)))
  }

  lemma {:induction false} BuiltLays(data: Bytes, es: seq<KV>, marks: seq<nat>)
    requires Built(data, es, marks)
    ensures Lays(data, LayoutOf(es, marks))
  {
    hide Built, Data, ParsesAt, RestartPoint, Unfixed;
    var v := LayoutOf(es, marks);
    BuiltFrame(data, es, marks);
    forall i | 0 <= i <= |es| ensures ParsesAt(data, RestartOffset(data), v, i) { BuiltParsesAt(data, es, marks, i); }
    forall r | 0 <= r < |marks| ensures RestartPoint(data, r) == v.starts[marks[r]] {
      BuiltRestart(data, es, marks, r);
    }
  }

  lemma {:induction false} BuiltFrame(data: Bytes, es: seq<KV>, marks: seq<nat>)
    requires Built(data, es, marks)
    ensures Framed(data) && MarksOk(marks, |es|) && RestartCount(data) == |marks|
  {
    hide BlockBytes;
    BuiltLayout(data, es, marks);
  }

  lemma {:induction false} BuiltRestart(data: Bytes, es: seq<KV>, marks: seq<nat>, r: nat)
    requires Built(data, es, marks) && r < |marks|
    ensures Framed(data) && marks[r] <= |es| && RestartPoint(data, r) == LayoutOf(es, marks).starts[marks[r]]
  {
    hide Data, Unfixed, BlockBytes;
    RestartStored(data, es, marks, r);
  }

  lemma {:induction false} BuiltParsesAt(data: Bytes, es: seq<KV>, marks: seq<nat>, i: nat)
    requires Built(data, es, marks) && i <= |es|
    ensures |data| >= 4 && 0 <= RestartOffset(data) <= |data|
        && ParsesAt(data, RestartOffset(data), LayoutOf(es, marks), i)
  {
    hide Data, ParseEntry, Unfixed;
    var v := LayoutOf(es, marks);
    BuiltLayout(data, es, marks);
    forall buf | 0 < i < |es| && i !in marks ==> buf == es[i - 1].key
      ensures ParseEntry(data, RestartOffset(data), v.starts[i], buf) ==
              if i == |es| then AtEnd else Parsed(es[i].key, es[i].value, v.starts[i + 1])
    {
      ParseBuilt(data, es, marks, i, buf);
    }
  }

  /** At entry `at`, or past the end. */
  ghost predicate Standing(v: Layout, at: nat, p: nat, key: Bytes, value: Bytes, valid: bool)
    requires |v.starts| == |v.es| + 1
  {
    && at <= |v.es| && valid == (at < |v.es|)
    && (at < |v.es| ==> key == v.es[at].key && value == v.es[at].value && p == v.starts[at + 1])
  }

  class BlockIter {
    const data: Bytes
    const limit: nat
    var p: nat
    var key: Bytes
    var value: Bytes
    var valid: bool
    var status: Status

    constructor (data: Bytes)
      ensures this.data == data && !valid && status == (if Framed(data) then Ok else Corruption)
      ensures Framed(data) ==> limit == RestartOffset(data)
      ensures Sane()
    {
      this.data := data;
      limit := if Framed(data) then RestartOffset(data) else 0;
      status := if Framed(data) then Ok else Corruption;
      p, key, value, valid := 0, [], [], false;
    }

    ghost predicate Sane()
      reads this
    {
      limit <= |data| && (status == Ok ==> Framed(data))
    }

    /** Over a block of this layout. */
    ghost predicate Over(v: Layout)
      reads this
    {
      Lays(data, v) && limit == RestartOffset(data) && status == Ok
    }

    ghost predicate At(v: Layout, at: nat)
      reads this
    {
      Over(v) && Standing(v, at, p, key, value, valid)
    }

    /** Decode the entry at the current offset onto the current key. */
    method ParseNext()
      requires Sane()
      modifies this
      ensures Sane() && if valid then old(p) < p <= limit else p == old(p)
      ensures var r := ParseEntry(data, limit, old(p), old(key));
              && (r.AtEnd? ==> !valid && status == old(status))
              && (r.Bad? ==> !valid && status == Corruption)
              && (r.Parsed? ==> valid && key == r.key && value == r.value && p == r.next && status == old(status))
    {
      if p >= limit {
        valid := false;
        return;
      }
      var r := ParseEntry(data, limit, p, key);
      ParseAdvances(data, limit, p, key);
      if r.Parsed? {
        key, value, p, valid := r.key, r.value, r.next, true;
      } else {
        valid, status := false, Corruption;
      }
    }

    /** At the start of entry `at`, with the key before it in place where that matters. */
    ghost predicate Before(v: Layout, at: nat)
      reads this
    {
      Over(v) && at <= |v.es| && p == v.starts[at] && (0 < at < |v.es| && at !in v.marks ==> key == v.es[at - 1].key)
    }

    method ParseAt(ghost v: Layout, ghost at: nat)
      requires Sane()
      modifies this
      ensures Sane() && (if valid then old(p) < p <= limit else p == old(p)) && (old(Before(v, at)) ==> At(v, at))
    {
      assert Before(v, at) ==> ParsesAt(data, limit, v, at);
      ParseNext();
    }

    method SeekToFirst(ghost v: Layout)
      requires Sane()
      modifies this
      ensures Sane() && (old(Over(v)) ==> At(v, 0))
    {
      if status != Ok {
        valid := false;
        return;
      }
      p, key := RestartPoint(data, 0), [];
      ParseAt(v, 0);
    }

    method Next(ghost v: Layout, ghost at: nat)
      requires Sane() && valid
      modifies this
      ensures Sane() && (if valid then old(p) < p <= limit else p == old(p)) && (old(At(v, at)) ==> At(v, at + 1))
    {
      ParseAt(v, at + 1);
    }

    /** Largest restart whose key is below the target, or the first. A restart that does not parse
        ends the search. */
    method FindRestart(target: Bytes, ghost v: Layout) returns (left: nat)
      requires Sane() && status == Ok
      ensures Over(v) ==> left < |v.marks| && (left > 0 ==> BytesBefore(v.es[v.marks[left]].key, target))
    {
      left := 0;
      var right := RestartCount(data);
      while left + 1 < right
        invariant Over(v) ==> left < right <= |v.marks| && (left > 0 ==> BytesBefore(v.es[v.marks[left]].key, target))
      {
        var mid := (left + right) / 2;
        assert Over(v) ==> ParsesAt(data, limit, v, v.marks[mid]);
        var r := ParseEntry(data, limit, RestartPoint(data, mid), []);
        if !r.Parsed? { break; }
        if BytesBefore(r.key, target) { left := mid; } else { right := mid; }
      }
    }

    /** Binary search over the restarts, then a linear scan: lands where a linear search of the
        whole list would. */
    method Seek(target: Bytes, ghost v: Layout)
      requires Sane()
      modifies this
      ensures Sane() && (old(Over(v)) && Ascending(v.es) && IsInternal(target) ==> At(v, FirstFrom(v.es, target)))
    {
      hide BytesBefore, FirstFrom, Ascending;
      if status != Ok {
        valid := false;
        return;
      }
      ghost var sound := Over(v) && Ascending(v.es) && IsInternal(target);
      var left := FindRestart(target, v);
      ghost var at := if sound then v.marks[left] else 0;
      if sound && left > 0 { BelowAll(v.es, at, target); }
      p, key := RestartPoint(data, left), [];
      ParseAt(v, at);
      while valid && BytesBefore(key, target)
        invariant Sane() && (valid ==> p <= limit)
        invariant sound ==> At(v, at) && forall i | 0 <= i < at :: BytesBefore(v.es[i].key, target)
        decreases limit - p, valid
      {
        Next(v, at);
        at := at + 1;
      }
      if sound { FirstFromUnique(v.es, target, at); }
    }
  }

  lemma {:induction false} ParseAdvances(data: Bytes, limit: nat, p: nat, buf: Bytes)
    requires p < limit <= |data|
    ensures var r := ParseEntry(data, limit, p, buf); r.Parsed? ==> p < r.next <= limit
  {
  }
}
