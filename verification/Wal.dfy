/** The write-ahead log: framed, checksummed records; reading a whole or a truncated log; write
    batches; and the memtable that replay rebuilds. */
module Wal {
  import opened Values
  import opened InternalKeys
  import opened Tables
  import opened LsmEngine
  import opened LsmProof
  import opened Encoding
  import Crc32

  // ---- Framing. `sum` is the stored checksum of a payload ------------------------------------------

  ghost predicate Bounded(sum: Bytes -> nat) { forall d :: sum(d) < Two32 }

  lemma {:induction false} WordBound(w: Crc32.Word)
    ensures w as int < Two32
  {
  }

  /** The masked CRC-32 of a payload, as written. */
  function StoredCrc(data: Bytes): (r: nat)
    ensures r < Two32
  {
    WordBound(Crc32.MaskCrc(Crc32.Reference(0, data)));
    Crc32.MaskCrc(Crc32.Reference(0, data)) as int
  }

  lemma {:induction false} CrcBounded()
    ensures Bounded(StoredCrc)
  {
  }

  /** Length, checksum, payload. */
  function Frame(sum: Bytes -> nat, data: Bytes): Bytes {
    Fixed(|data| % Two32, Width32) + Fixed(sum(data), Width32) + data
  }

  function Log(sum: Bytes -> nat, records: seq<Bytes>): Bytes {
    if records == [] then [] else Frame(sum, records[0]) + Log(sum, records[1..])
  }

  datatype Read = Record(data: Bytes, rest: Bytes) | Eof | Corrupt

  function ReadRecord(sum: Bytes -> nat, file: Bytes): Read {
    if file == [] then Eof
    else if |file| < 8 then Corrupt
    else
      var len, masked, body := Unfixed(file[..4]), Unfixed(file[4..8]), file[8..];
      if |body| < len || sum(body[..len]) != masked then Corrupt else Record(body[..len], body[len..])
  }

  /** All whole records, and whether the log ends cleanly. */
  function ReadAll(sum: Bytes -> nat, file: Bytes): (seq<Bytes>, bool)
    decreases |file|
  {
    match ReadRecord(sum, file)
    case Eof => ([], true)
    case Corrupt => ([], false)
    case Record(data, rest) =>
      var r := ReadAll(sum, rest);
      ([data] + r.0, r.1)
  }

  lemma {:induction false} LogSnoc(sum: Bytes -> nat, rs: seq<Bytes>, r: Bytes)
    ensures Log(sum, rs + [r]) == Log(sum, rs) + Frame(sum, r)
  {
    hide Frame;
    if rs == [] {
      assert ([r])[1..] == [] && rs + [r] == [r];
    } else {
      LogSnoc(sum, rs[1..], r);
      assert (rs + [r])[1..] == rs[1..] + [r];
    }
  }

  lemma {:induction false} FrameParts(sum: Bytes -> nat, data: Bytes, rest: Bytes)
    requires Bounded(sum) && |data| < Two32
    ensures var file := Frame(sum, data) + rest;
            |file| == 8 + |data| + |rest| && Unfixed(file[..4]) == |data| && Unfixed(file[4..8]) == sum(data)
                && file[8..] == data + rest
  {
    var a, b := Fixed(|data|, Width32), Fixed(sum(data), Width32);
    var file := Frame(sum, data) + rest;
    assert |data| % Two32 == |data|;
    assert file == a + b + data + rest;
    Pow256Values();
    FixedRoundTrip(|data|, Width32);
    FixedRoundTrip(sum(data), Width32);
    assert file[..4] == a && file[4..8] == b && file[8..] == data + rest;
  }

  lemma {:induction false} ReadFrame(sum: Bytes -> nat, data: Bytes, rest: Bytes)
    requires Bounded(sum) && |data| < Two32
    ensures ReadRecord(sum, Frame(sum, data) + rest) == Record(data, rest)
  {
    FrameParts(sum, data, rest);
    assert (data + rest)[..|data|] == data && (data + rest)[|data|..] == rest;
  }

  /** A record is accepted exactly when the file begins with its frame, length and checksum included. */
  lemma {:induction false} ReadExact(sum: Bytes -> nat, file: Bytes, data: Bytes, rest: Bytes)
    requires Bounded(sum)
    ensures ReadRecord(sum, file) == Record(data, rest) <==> |data| < Two32 && file == Frame(sum, data) + rest
    ensures ReadRecord(sum, file) == Eof <==> file == []
  {
    hide Fixed, Unfixed;
    if |data| < Two32 && file == Frame(sum, data) + rest { ReadFrame(sum, data, rest); }
    if ReadRecord(sum, file) == Record(data, rest) {
      var a, b, body := file[..4], file[4..8], file[8..];
      UnfixedRoundTrip(a, 4);
      UnfixedRoundTrip(b, 4);
      Pow256Values();
      UnfixedBound(a);
      assert body == data + rest && |data| % Two32 == |data|;
      assert file == a + b + data + rest;
    }
  }

  /** A frame cut anywhere but at its ends is reported as corrupt. */
  lemma {:induction false} ReadCutFrame(sum: Bytes -> nat, data: Bytes, n: nat)
    requires Bounded(sum) && |data| < Two32 && 0 < n < |Frame(sum, data)|
    ensures ReadRecord(sum, Frame(sum, data)[..n]) == Corrupt
  {
    var f := Frame(sum, data);
    FrameParts(sum, data, []);
    assert f + [] == f;
    if n >= 8 { assert f[..n][..4] == f[..4]; }
  }

  ghost predicate Writable(records: seq<Bytes>) { forall r | r in records :: |r| < Two32 }

  /** Reading a log returns the records and then end of file. */
  lemma {:induction false} LogRoundTrip(sum: Bytes -> nat, records: seq<Bytes>)
    requires Bounded(sum) && Writable(records)
    ensures ReadAll(sum, Log(sum, records)) == (records, true)
  {
    if records != [] {
      LogRoundTrip(sum, records[1..]);
      ReadFrame(sum, records[0], Log(sum, records[1..]));
      assert records == [records[0]] + records[1..];
    }
  }

  /** A file reads cleanly to the end exactly when it is the log of the records read. */
  lemma {:induction false} CleanLog(sum: Bytes -> nat, file: Bytes, records: seq<Bytes>)
    requires Bounded(sum)
    ensures ReadAll(sum, file) == (records, true) <==> Writable(records) && file == Log(sum, records)
    decreases |file|
  {
    hide Frame;
    if Writable(records) && file == Log(sum, records) { LogRoundTrip(sum, records); }
    if ReadAll(sum, file) == (records, true) {
      var r := ReadRecord(sum, file);
      if r.Record? {
        ReadExact(sum, file, r.data, r.rest);
        CleanLog(sum, r.rest, ReadAll(sum, r.rest).0);
        assert records[0] == r.data && records[1..] == ReadAll(sum, r.rest).0;
      }
    }
  }

  /** No whole record: end of file at byte 0, corruption at any other byte of the first frame. */
  lemma {:induction false} CutFirst(sum: Bytes -> nat, r: Bytes, rest: Bytes, n: nat)
    requires Bounded(sum) && |r| < Two32 && n < |Frame(sum, r)|
    ensures ReadAll(sum, (Frame(sum, r) + rest)[..n]) == ([], n == 0)
  {
    assert (Frame(sum, r) + rest)[..n] == Frame(sum, r)[..n];
    if n > 0 { ReadCutFrame(sum, r, n); }
  }

  lemma {:induction false} CutLater(sum: Bytes -> nat, r: Bytes, log: Bytes, n: nat, rs: seq<Bytes>, clean: bool)
    requires Bounded(sum) && |r| < Two32 && |Frame(sum, r)| <= n <= |Frame(sum, r)| + |log|
    requires ReadAll(sum, log[..n - |Frame(sum, r)|]) == (rs, clean)
    ensures ReadAll(sum, (Frame(sum, r) + log)[..n]) == ([r] + rs, clean)
  {
    var f := Frame(sum, r);
    assert (f + log)[..n] == f + log[..n - |f|];
    ReadFrame(sum, r, log[..n - |f|]);
  }

  /** Where record `m` begins in the log. */
  function Boundary(sum: Bytes -> nat, records: seq<Bytes>, m: nat): nat
    requires m <= |records|
  {
    if m == 0 then 0 else |Frame(sum, records[0])| + Boundary(sum, records[1..], m - 1)
  }

  lemma {:induction false} BoundaryIsSize(sum: Bytes -> nat, records: seq<Bytes>, m: nat)
    requires m <= |records|
    ensures Boundary(sum, records, m) == |Log(sum, records[..m])|
    decreases m
  {
    if m > 0 {
      BoundaryIsSize(sum, records[1..], m - 1);
      assert records[..m][1..] == records[1..][..m - 1];
    }
  }

  /** A log cut at any byte gives the records that are whole, then end of file exactly at a frame
      boundary and corruption anywhere else. `m` is the number of whole records. */
  lemma {:induction false} CutLog(sum: Bytes -> nat, records: seq<Bytes>, n: nat, m: nat)
    requires Bounded(sum) && Writable(records) && n <= |Log(sum, records)| && m <= |records|
    requires Boundary(sum, records, m) <= n && (m < |records| ==> n < Boundary(sum, records, m + 1))
    ensures ReadAll(sum, Log(sum, records)[..n]) == (records[..m], n == Boundary(sum, records, m))
    decreases |records|, 1
  {
    if records != [] {
      if m == 0 { CutBeforeFirst(sum, records, n); } else { CutAfterFirst(sum, records, n, m); }
    }
  }

  lemma {:induction false} CutBeforeFirst(sum: Bytes -> nat, records: seq<Bytes>, n: nat)
    requires Bounded(sum) && Writable(records) && records != [] && n < Boundary(sum, records, 1)
    ensures n <= |Log(sum, records)| && ReadAll(sum, Log(sum, records)[..n]) == ([], n == 0)
  {
    assert Boundary(sum, records[1..], 0) == 0;
    CutFirst(sum, records[0], Log(sum, records[1..]), n);
  }

  lemma {:induction false} CutAfterFirst(sum: Bytes -> nat, records: seq<Bytes>, n: nat, m: nat)
    requires Bounded(sum) && Writable(records) && n <= |Log(sum, records)| && 0 < m <= |records|
    requires Boundary(sum, records, m) <= n && (m < |records| ==> n < Boundary(sum, records, m + 1))
    ensures ReadAll(sum, Log(sum, records)[..n]) == (records[..m], n == Boundary(sum, records, m))
    decreases |records|, 0
  {
    hide Frame, ReadAll;
    var r, tail, k := records[0], records[1..], n - |Frame(sum, records[0])|;
    var clean := k == Boundary(sum, tail, m - 1);
    assert Writable(tail);
    CutLog(sum, tail, k, m - 1);
    assert records[..m] == [r] + tail[..m - 1];
    CutLater(sum, r, Log(sum, tail), n, tail[..m - 1], clean);
  }

  class WalWriter {
    var file: Bytes

    constructor ()
      ensures file == []
    {
      file := [];
    }

    method AddRecord(data: Bytes)
      modifies this
      ensures file == old(file) + Frame(StoredCrc, data)
    {
      var header := Fixed(|data| % Two32, Width32) + Fixed(StoredCrc(data), Width32);
      file := file + header;
      file := file + data;
      assert file == old(file) + (header + data);
    }
  }

  /** The read loop of RecoverLogFile. */
  method ReadLog(sum: Bytes -> nat, file: Bytes) returns (records: seq<Bytes>, clean: bool)
    ensures (records, clean) == ReadAll(sum, file)
  {
    var rest := file;
    records := [];
    while true
      invariant ReadAll(sum, file).0 == records + ReadAll(sum, rest).0 && ReadAll(sum, file).1 == ReadAll(sum, rest).1
      decreases |rest|
    {
      var r := ReadRecord(sum, rest);
      assert records + [] == records;
      if r.Eof? { return records, true; }
      if r.Corrupt? { return records, false; }
      ghost var later := ReadAll(sum, r.rest).0;
      assert records + ([r.data] + later) == records + [r.data] + later;
      records := records + [r.data];
      rest := r.rest;
    }
  }

  // ---- Write batches ----------------------------------------------------------------------------------

  datatype BatchEntry = BatchEntry(kind: Kind, key: Bytes, value: Bytes)

  function KindByte(k: Kind): byte { if k.Put? then 1 else 0 }

  function EncodeEntry(e: BatchEntry): Bytes { [KindByte(e.kind)] + LengthPrefixed(e.key) + LengthPrefixed(e.value) }

  function EncodeEntries(es: seq<BatchEntry>): Bytes {
    if es == [] then [] else EncodeEntry(es[0]) + EncodeEntries(es[1..])
  }

  function EncodeBatch(start: nat, es: seq<BatchEntry>): Bytes {
    Fixed(start % Two64, Width64) + (Fixed(|es| % Two32, Width32) + EncodeEntries(es))
  }

  /** The type byte is taken as it is; only 0 means a deletion. */
  function DecodeEntry(b: Bytes): Parsed<BatchEntry> {
    if b == [] then Fail
    else
      match GetLengthPrefixed(b[1..])
      case Fail => Fail
      case Done(key, rest) =>
        match GetLengthPrefixed(rest)
        case Fail => Fail
        case Done(value, rest') => Done(BatchEntry(if b[0] == 0 then Deletion else Put, key, value), rest')
  }

  function DecodeEntries(b: Bytes, n: nat): Parsed<seq<BatchEntry>>
    decreases n
  {
    if n == 0 then Done([], b)
    else
      match DecodeEntry(b)
      case Fail => Fail
      case Done(e, rest) =>
        match DecodeEntries(rest, n - 1)
        case Fail => Fail
        case Done(es, rest') => Done([e] + es, rest')
  }

  /** None is Corruption. Bytes after the last entry are ignored. */
  function DecodeBatch(b: Bytes): Option<(nat, seq<BatchEntry>)> {
    match GetFixed(b, Width64)
    case Fail => None
    case Done(start, rest) =>
      match GetFixed(rest, Width32)
      case Fail => None
      case Done(n, rest') =>
        match DecodeEntries(rest', n)
        case Fail => None
        case Done(es, _) => Some((start, es))
  }

  predicate EntryFits(e: BatchEntry) { |e.key| < Two32 && |e.value| < Two32 }

  lemma {:induction false} EntryRoundTrip(e: BatchEntry, rest: Bytes)
    requires EntryFits(e)
    ensures DecodeEntry(EncodeEntry(e) + rest) == Done(e, rest)
  {
    var b, v := EncodeEntry(e) + rest, LengthPrefixed(e.value) + rest;
    assert b[1..] == LengthPrefixed(e.key) + v;
    assert GetLengthPrefixed(b[1..]) == Done(e.key, v) by { LengthPrefixedRoundTrip(e.key, v); }
    assert GetLengthPrefixed(v) == Done(e.value, rest) by { LengthPrefixedRoundTrip(e.value, rest); }
  }

  lemma {:induction false} DecodeEntriesCons(b: Bytes, n: nat, e: BatchEntry, mid: Bytes, es: seq<BatchEntry>,
      rest: Bytes)
    requires DecodeEntry(b) == Done(e, mid) && DecodeEntries(mid, n) == Done(es, rest)
    ensures DecodeEntries(b, n + 1) == Done([e] + es, rest)
  {
  }

  lemma {:induction false} EntriesRoundTrip(es: seq<BatchEntry>, rest: Bytes)
    requires forall e | e in es :: EntryFits(e)
    ensures DecodeEntries(EncodeEntries(es) + rest, |es|) == Done(es, rest)
  {
    if es == [] {
      assert EncodeEntries(es) + rest == rest;
    } else {
      var e, tail := es[0], es[1..];
      var mid := EncodeEntries(tail) + rest;
      assert EncodeEntries(es) + rest == EncodeEntry(e) + mid;
      EntryRoundTrip(e, mid);
      EntriesRoundTrip(tail, rest);
      DecodeEntriesCons(EncodeEntry(e) + mid, |tail|, e, mid, tail, rest);
      assert es == [e] + tail;
    }
  }

  lemma {:induction false} BatchRoundTrip(start: nat, es: seq<BatchEntry>)
    requires start < Two64 && |es| < Two32 && forall e | e in es :: EntryFits(e)
    ensures DecodeBatch(EncodeBatch(start, es)) == Some((start, es))
  {
    var n, body := |es|, EncodeEntries(es);
    var counted := Fixed(n, Width32) + body;
    assert n % Two32 == n && start % Two64 == start;
    assert GetFixed(EncodeBatch(start, es), Width64) == Done(start, counted) by { Fixed64RoundTrip(start, counted); }
    assert GetFixed(counted, Width32) == Done(n, body) by { Fixed32RoundTrip(n, body); }
    assert DecodeEntries(body, n) == Done(es, []) by {
      EntriesRoundTrip(es, []);
      assert body + [] == body;
    }
  }

  lemma {:induction false} EntryCut(e: BatchEntry, n: nat)
    requires EntryFits(e) && n < |EncodeEntry(e)|
    ensures DecodeEntry(EncodeEntry(e)[..n]) == Fail
  {
    hide LengthPrefixed, GetLengthPrefixed;
    if n > 0 {
      var k, v := LengthPrefixed(e.key), LengthPrefixed(e.value);
      assert EncodeEntry(e)[1..] == k + v && EncodeEntry(e)[..n][1..] == (k + v)[..n - 1];
      if n - 1 < |k| {
        assert (k + v)[..n - 1] == k[..n - 1];
        LengthPrefixedCut(e.key, n - 1);
      } else {
        var m := n - 1 - |k|;
        assert (k + v)[..n - 1] == k + v[..m];
        LengthPrefixedRoundTrip(e.key, v[..m]);
        LengthPrefixedCut(e.value, m);
      }
    }
  }

  lemma {:induction false} EntriesCut(es: seq<BatchEntry>, n: nat)
    requires (forall e | e in es :: EntryFits(e)) && n < |EncodeEntries(es)|
    ensures DecodeEntries(EncodeEntries(es)[..n], |es|) == Fail
  {
    hide EncodeEntry, DecodeEntry;
    var f, tail := EncodeEntry(es[0]), EncodeEntries(es[1..]);
    if n < |f| {
      assert (f + tail)[..n] == f[..n];
      EntryCut(es[0], n);
    } else {
      assert (f + tail)[..n] == f + tail[..n - |f|];
      EntryRoundTrip(es[0], tail[..n - |f|]);
      EntriesCut(es[1..], n - |f|);
    }
  }

  /** A batch cut anywhere is refused. */
  lemma {:induction false} CutBatch(start: nat, es: seq<BatchEntry>, n: nat)
    requires |es| < Two32 && (forall e | e in es :: EntryFits(e)) && n < |EncodeBatch(start, es)|
    ensures DecodeBatch(EncodeBatch(start, es)[..n]) == None
  {
    hide Fixed, EncodeEntries, DecodeEntries;
    var a, b, body := Fixed(start % Two64, Width64), Fixed(|es|, Width32), EncodeEntries(es);
    assert |es| % Two32 == |es| && EncodeBatch(start, es) == a + (b + body);
    if n >= 8 {
      assert (a + (b + body))[..n] == a + (b + body)[..n - 8];
      Fixed64RoundTrip(start % Two64, (b + body)[..n - 8]);
      if n >= 12 {
        assert (b + body)[..n - 8] == b + body[..n - 12];
        Fixed32RoundTrip(|es|, body[..n - 12]);
        EntriesCut(es, n - 12);
      }
    }
  }

  // ---- Replay -------------------------------------------------------------------------------------------

  /** A write as the engine makes it: its entry goes to the log and to the memtable. */
  function RecordOf(e: Entry): Bytes { EncodeBatch(e.key.num, [BatchEntry(e.key.kind, e.key.user, e.value)]) }

  function RecordsOf(ws: seq<Entry>): seq<Bytes> { seq(|ws|, i requires 0 <= i < |ws| => RecordOf(ws[i])) }

  /** The memtable after these writes. */
  function MemAfter(ws: seq<Entry>): Table {
    if ws == [] then [] else Insert(MemAfter(ws[..|ws| - 1]), ws[|ws| - 1])
  }

  /** Add the entries of a batch under rising sequence numbers. */
  function AddBatch(t: Table, start: nat, es: seq<BatchEntry>): Table
    decreases |es|
  {
    if es == [] then t
    else AddBatch(Insert(t, Entry(IKey(es[0].key, start, es[0].kind), es[0].value)), start + 1, es[1..])
  }

  /** The greater of a sequence and the last one a batch uses. */
  function RaisedBy(last: nat, start: nat, n: nat): nat {
    if n == 0 || start + n - 1 <= last then last else start + n - 1
  }

  /** Entry `i` of a batch as it is added: under the starting sequence and `i` more. */
  function BatchWrite(start: nat, es: seq<BatchEntry>, i: nat): Entry
    requires i < |es|
  {
    Entry(IKey(es[i].key, start + i, es[i].kind), es[i].value)
  }

  ghost predicate FromBatch(start: nat, es: seq<BatchEntry>, e: Entry) {
    exists i | 0 <= i < |es| :: e == BatchWrite(start, es, i)
  }

  lemma {:induction false} FromBatchSplit(start: nat, es: seq<BatchEntry>, e: Entry)
    requires es != []
    ensures FromBatch(start, es, e) <==> e == BatchWrite(start, es, 0) || FromBatch(start + 1, es[1..], e)
  {
    if FromBatch(start, es, e) {
      var i :| 0 <= i < |es| && e == BatchWrite(start, es, i);
      if i > 0 { assert e == BatchWrite(start + 1, es[1..], i - 1); }
    }
    if FromBatch(start + 1, es[1..], e) {
      var i :| 0 <= i < |es[1..]| && e == BatchWrite(start + 1, es[1..], i);
      assert e == BatchWrite(start, es, i + 1);
    }
  }

  /** Replaying a batch of sequences not used before adds each of its entries, and nothing else. */
  lemma {:induction false} BatchAdds(t: Table, start: nat, es: seq<BatchEntry>)
    requires Sorted(t) && forall e | e in t :: e.key.num < start
    ensures Sorted(AddBatch(t, start, es))
    ensures forall e :: e in AddBatch(t, start, es) <==> e in t || FromBatch(start, es, e)
    decreases |es|
  {
    if es != [] {
      hide FromBatch, Insert, Sorted;
      var first, tail := BatchWrite(start, es, 0), es[1..];
      var t' := Insert(t, first);
      InsertSorted(t, first);
      forall e ensures e in t' <==> e in t || e == first { InInsert(t, first, e); }
      BatchAdds(t', start + 1, tail);
      forall e ensures e in AddBatch(t, start, es) <==> e in t || FromBatch(start, es, e) {
        FromBatchSplit(start, es, e);
      }
    } else {
      assert forall e :: !FromBatch(start, es, e);
    }
  }

  datatype LogRecovery = Restored(mem: Table, last: nat) | Broken

  /** RecoverLogFile: every record of the file goes into the memtable, and the last sequence rises to
      the greatest one seen. A torn frame or a bad batch is Corruption, which fails the whole call. */
  function RecoverLog(sum: Bytes -> nat, file: Bytes, mem: Table, last: nat): LogRecovery
    decreases |file|
  {
    match ReadRecord(sum, file)
    case Eof => Restored(mem, last)
    case Corrupt => Broken
    case Record(data, rest) =>
      match DecodeBatch(data)
      case None => Broken
      case Some((start, es)) => RecoverLog(sum, rest, AddBatch(mem, start, es), RaisedBy(last, start, |es|))
  }

  predicate WriteFits(e: Entry) { e.key.num < Two64 && |e.key.user| < Two32 && |e.value| < Two32 }

  lemma {:induction false} ReplayOne(t: Table, e: Entry)
    requires WriteFits(e)
    ensures DecodeBatch(RecordOf(e)) == Some((e.key.num, [BatchEntry(e.key.kind, e.key.user, e.value)]))
    ensures AddBatch(t, e.key.num, [BatchEntry(e.key.kind, e.key.user, e.value)]) == Insert(t, e)
  {
    var b := BatchEntry(e.key.kind, e.key.user, e.value);
    BatchRoundTrip(e.key.num, [b]);
    assert [b][1..] == [];
    assert e == Entry(IKey(b.key, e.key.num, b.kind), b.value);
  }

  /** The greatest sequence of these writes, or `last` when that is greater. */
  function Greatest(last: nat, ws: seq<Entry>): (r: nat)
    ensures r >= last && (r == last || exists e | e in ws :: r == e.key.num)
    ensures forall e | e in ws :: e.key.num <= r
  {
    if ws == [] then last
    else
      var r := Greatest(last, ws[..|ws| - 1]);
      assert forall e | e in ws :: e in ws[..|ws| - 1] || e == ws[|ws| - 1];
      if ws[|ws| - 1].key.num > r then ws[|ws| - 1].key.num else r
  }

  lemma {:induction false} RecoverOne(sum: Bytes -> nat, e: Entry, rest: Bytes, mem: Table, last: nat)
    requires Bounded(sum) && WriteFits(e) && |RecordOf(e)| < Two32
    ensures RecoverLog(sum, Frame(sum, RecordOf(e)) + rest, mem, last) ==
            RecoverLog(sum, rest, Insert(mem, e), if e.key.num > last then e.key.num else last)
  {
    hide Frame, RecordOf, AddBatch, DecodeBatch;
    ReadFrame(sum, RecordOf(e), rest);
    ReplayOne(mem, e);
  }

  lemma {:induction false} AfterOne(last: nat, ws: seq<Entry>, n: nat)
    requires n < |ws|
    ensures MemAfter(ws[..n + 1]) == Insert(MemAfter(ws[..n]), ws[n])
    ensures Greatest(last, ws[..n + 1]) == if ws[n].key.num > Greatest(last, ws[..n]) then ws[n].key.num
        else Greatest(last, ws[..n])
  {
    assert ws[..n + 1][..n] == ws[..n];
  }

  ghost predicate AllLogged(ws: seq<Entry>) { (forall e | e in ws :: WriteFits(e)) && Writable(RecordsOf(ws)) }

  /** From record `n` on, with `m` whole records in all before the cut at `k` bytes behind record `n`. */
  lemma {:induction false} RecoverFrom(sum: Bytes -> nat, ws: seq<Entry>, n: nat, m: nat, k: nat, last: nat)
    requires Bounded(sum) && AllLogged(ws) && n <= m <= |ws|
    requires var rs := RecordsOf(ws)[n..];
             && k <= |Log(sum, rs)| && Boundary(sum, rs, m - n) <= k
             && (m < |ws| ==> k < Boundary(sum, rs, m - n + 1))
    ensures var rs := RecordsOf(ws)[n..];
            RecoverLog(sum, Log(sum, rs)[..k], MemAfter(ws[..n]), Greatest(last, ws[..n])) ==
            if k == Boundary(sum, rs, m - n) then Restored(MemAfter(ws[..m]), Greatest(last, ws[..m])) else Broken
    decreases m - n
  {
    hide Frame, RecordOf, ReadRecord, RecoverLog, MemAfter, Greatest, Log, Boundary, WriteFits, Insert, Writable;
    var rs := RecordsOf(ws)[n..];
    RecordsFrom(ws, n);
    if n == m {
      assert Boundary(sum, rs, 0) == 0 by { NoFrames(sum, rs); }
      NoWholeRecord(sum, rs, k, MemAfter(ws[..n]), Greatest(last, ws[..n]));
    } else {
      var f, tail := Frame(sum, rs[0]), rs[1..];
      SplitLog(sum, rs, k, m - n);
      AfterOne(last, ws, n);
      RecoverOne(sum, ws[n], Log(sum, tail)[..k - |f|], MemAfter(ws[..n]), Greatest(last, ws[..n]));
      RecoverFrom(sum, ws, n + 1, m, k - |f|, last);
    }
  }

  lemma {:induction false} RecordsFrom(ws: seq<Entry>, n: nat)
    requires AllLogged(ws) && n <= |ws|
    ensures var rs := RecordsOf(ws)[n..];
            && Writable(rs)
            && (n < |ws| ==>
                  && WriteFits(ws[n]) && rs[0] == RecordOf(ws[n]) && |RecordOf(ws[n])| < Two32
                  && rs[1..] == RecordsOf(ws)[n + 1..])
  {
    hide RecordOf;
    if n < |ws| { assert ws[n] in ws && RecordsOf(ws)[n] in RecordsOf(ws); }
  }

  lemma {:induction false} NoFrames(sum: Bytes -> nat, rs: seq<Bytes>)
    ensures Boundary(sum, rs, 0) == 0
  {
  }

  lemma {:induction false} SplitLog(sum: Bytes -> nat, rs: seq<Bytes>, k: nat, m: nat)
    requires 0 < m <= |rs| && Boundary(sum, rs, m) <= k <= |Log(sum, rs)|
    ensures |Frame(sum, rs[0])| <= k <= |Frame(sum, rs[0])| + |Log(sum, rs[1..])|
    ensures Log(sum, rs)[..k] == Frame(sum, rs[0]) + Log(sum, rs[1..])[..k - |Frame(sum, rs[0])|]
    ensures Boundary(sum, rs, m) == |Frame(sum, rs[0])| + Boundary(sum, rs[1..], m - 1)
    ensures m < |rs| ==> Boundary(sum, rs, m + 1) == |Frame(sum, rs[0])| + Boundary(sum, rs[1..], m)
  {
    hide Frame;
  }

  lemma {:induction false} NoWholeRecord(sum: Bytes -> nat, rs: seq<Bytes>, k: nat, mem: Table, last: nat)
    requires Bounded(sum) && Writable(rs) && k <= |Log(sum, rs)| && (rs != [] ==> k < Boundary(sum, rs, 1))
    ensures RecoverLog(sum, Log(sum, rs)[..k], mem, last) == if k == 0 then Restored(mem, last) else Broken
  {
    hide Frame;
    if k > 0 {
      assert Boundary(sum, rs[1..], 0) == 0;
      assert Log(sum, rs)[..k] == Frame(sum, rs[0])[..k];
      ReadCutFrame(sum, rs[0], k);
    }
  }

  /** From the log of these writes, cut at any byte, with `m` whole frames before the cut: recovery
      succeeds if and only if the cut is at a frame boundary, and then it rebuilds the memtable and
      the last sequence of the first `m` writes. */
  lemma {:induction false} CutLogRecovers(sum: Bytes -> nat, ws: seq<Entry>, n: nat, m: nat, last: nat)
    requires Bounded(sum) && AllLogged(ws) && n <= |Log(sum, RecordsOf(ws))| && m <= |ws|
    requires Boundary(sum, RecordsOf(ws), m) <= n && (m < |ws| ==> n < Boundary(sum, RecordsOf(ws), m + 1))
    ensures RecoverLog(sum, Log(sum, RecordsOf(ws))[..n], [], last) ==
            if n == Boundary(sum, RecordsOf(ws), m) then Restored(MemAfter(ws[..m]), Greatest(last, ws[..m]))
                else Broken
  {
    hide Frame, RecordOf, ReadRecord, RecoverLog, Log, WriteFits, Insert;
    assert RecordsOf(ws)[0..] == RecordsOf(ws) && ws[..0] == [];
    RecoverFrom(sum, ws, 0, m, n, last);
  }

  /** Every cut has its number of whole frames. */
  lemma {:induction false} WholeFrames(sum: Bytes -> nat, records: seq<Bytes>, n: nat) returns (m: nat)
    requires n <= |Log(sum, records)|
    ensures m <= |records| && Boundary(sum, records, m) <= n && (m < |records| ==> n < Boundary(sum, records, m + 1))
  {
    if records == [] || n < |Frame(sum, records[0])| {
      m := 0;
      if records != [] { assert Boundary(sum, records[1..], 0) == 0; }
    } else {
      m := WholeFrames(sum, records[1..], n - |Frame(sum, records[0])|);
      m := m + 1;
    }
  }

  /** Recovering the whole log rebuilds the memtable exactly, so every read of it, at every snapshot,
      is the same, and the last sequence with it. */
  lemma {:induction false} ReplayRebuilds(sum: Bytes -> nat, ws: seq<Entry>, last: nat)
    requires Bounded(sum) && AllLogged(ws)
    ensures RecoverLog(sum, Log(sum, RecordsOf(ws)), [], last) == Restored(MemAfter(ws), Greatest(last, ws))
  {
    var rs := RecordsOf(ws);
    BoundaryIsSize(sum, rs, |rs|);
    assert rs[..|rs|] == rs && ws[..|ws|] == ws && Log(sum, rs)[..|Log(sum, rs)|] == Log(sum, rs);
    CutLogRecovers(sum, ws, |Log(sum, rs)|, |ws|, last);
  }
}
