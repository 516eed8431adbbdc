/** Known bytes: one example of every format, written out. They fix the tags, the order of the fields and
    the constants, which a round trip leaves open. */
module Formats {
  import opened Values
  import opened InternalKeys
  import opened Encoding
  import opened RowCodec
  import opened Wal
  import opened Manifest
  import Sstable
  import Blocks

  lemma {:induction false} ZeroWord(n: nat)
    ensures Fixed(0, n) == seq(n, _ => 0)
  {
    if n > 0 { ZeroWord(n - 1); }
  }

  /** A number below 256 is its byte and zeros behind it. */
  lemma {:induction false} ByteWord(x: byte, n: nat)
    requires n > 0
    ensures Fixed(x, n) == [x] + seq(n - 1, _ => 0)
  {
    ZeroWord(n - 1);
  }

  lemma {:induction false} BatchEntryExamples()
    ensures EncodeEntry(BatchEntry(Put, [0x61], [0x31])) == [1, 1, 0x61, 1, 0x31]
    ensures EncodeEntry(BatchEntry(Deletion, [0x62], [])) == [0, 1, 0x62, 0]
  {
  }

  lemma {:induction false} NextEntry(e: BatchEntry, rest: seq<BatchEntry>, b: Bytes, r: Bytes)
    requires EncodeEntry(e) == b && EncodeEntries(rest) == r
    ensures EncodeEntries([e] + rest) == b + r
  {
    assert ([e] + rest)[1..] == rest;
  }

  lemma {:induction false} NoEntries()
    ensures EncodeEntries([]) == []
  {
  }

  /** Sequence 9; put "a" = "1"; delete "b". */
  lemma {:induction false} BatchExample()
    ensures EncodeBatch(9, [BatchEntry(Put, [0x61], [0x31]), BatchEntry(Deletion, [0x62], [])]) ==
            [9, 0, 0, 0, 0, 0, 0, 0, 2, 0, 0, 0, 1, 1, 0x61, 1, 0x31, 0, 1, 0x62, 0]
  {
    hide EncodeEntry, EncodeEntries, Fixed;
    var a, b := BatchEntry(Put, [0x61], [0x31]), BatchEntry(Deletion, [0x62], []);
    BatchEntryExamples();
    ByteWord(9, 8);
    ByteWord(2, 4);
    NoEntries();
    NextEntry(b, [], [0, 1, 0x62, 0], []);
    assert [b] + [] == [b] && [a] + [b] == [a, b];
    NextEntry(a, [b], [1, 1, 0x61, 1, 0x31], [0, 1, 0x62, 0]);
  }

  /** Length, checksum and payload of a frame; the checksum is given. */
  lemma {:induction false} FrameExample(sum: Bytes -> nat)
    requires sum([7]) == 0x0403_0201
    ensures Frame(sum, [7]) == [1, 0, 0, 0, 1, 2, 3, 4, 7]
  {
    ByteWord(1, 4);
    assert Fixed(0x0403_0201, 4) == [1, 2, 3, 4];
  }

  lemma {:induction false} CellExamples()
    ensures EncodeValue(Int64(1)) == [1, 1, 0, 0, 0, 0, 0, 0, 0] && EncodeValue(Str([0x61])) == [2, 1, 0x61]
    ensures EncodeValue(Bool(true)) == [3, 1] && EncodeValue(Null) == [0]
  {
    ByteWord(1, 8);
  }

  lemma {:induction false} NoCells()
    ensures EncodeCells([]) == []
  {
  }

  lemma {:induction false} NextCell(v: Value, rest: Row, b: Bytes, r: Bytes)
    requires EncodeValue(v) == b && EncodeCells(rest) == r
    ensures EncodeCells([v] + rest) == b + r
  {
    assert ([v] + rest)[1..] == rest;
  }

  /** The row (1, "a", true, NULL). */
  lemma {:induction false} RowExample()
    ensures EncodeRow([Int64(1), Str([0x61]), Bool(true), Null]) ==
            [4, 1, 1, 0, 0, 0, 0, 0, 0, 0, 2, 1, 0x61, 3, 1, 0]
  {
    hide EncodeValue, EncodeCells;
    var i, s, b, n := Int64(1), Str([0x61]), Bool(true), Null;
    CellExamples();
    assert EncodeCells([]) == [] by { NoCells(); }
    NextCell(n, [], [0], []);
    assert [n] + [] == [n] && [b] + [n] == [b, n] && [s] + [b, n] == [s, b, n] && [i] + [s, b, n] == [i, s, b, n];
    NextCell(b, [n], [3, 1], [0]);
    NextCell(s, [b, n], [2, 1, 0x61], [3, 1, 0]);
    NextCell(i, [s, b, n], [1, 1, 0, 0, 0, 0, 0, 0, 0], [2, 1, 0x61, 3, 1, 0]);
    assert Varint(4) == [4];
  }

  /** The key true as the text of a row key, "0301". */
  lemma {:induction false} RowKeyExample()
    ensures EncodePk(Bool(true)) == [0x30, 0x33, 0x30, 0x31]
  {
    assert EncodeValue(Bool(true)) == [3, 1] && [3, 1][1..] == [1] && [1][1..] == [];
    assert ToHex([1]) == [0x30, 0x31];
  }

  /** User key "k" at sequence 5, a put: the low byte of the trailer is the type. */
  lemma {:induction false} KeyExample()
    ensures EncodeKey(IKey([0x6B], 5, Put)) == [0x6B, 1, 5, 0, 0, 0, 0, 0, 0]
  {
    assert IKey([0x6B], 5, Put).Pack() == 0x501;
    assert Fixed(0x501, 8) == [1] + Fixed(5, 7);
    ByteWord(5, 7);
  }

  const SampleFile := FileMeta(4, 2, [0x61], [0x62])

  lemma {:induction false} FieldExamples()
    ensures EncodeField(NextFile(7)) == [1, 7] && EncodeField(LastSequence(8)) == [2, 8]
    ensures EncodeField(LogNumber(9)) == [3, 9] && EncodeField(DeleteFile(0, 300)) == [5, 0, 0xAC, 2]
    ensures EncodeField(AddFile(1, SampleFile)) == [4, 1, 4, 2, 1, 0x61, 1, 0x62]
  {
  }

  lemma {:induction false} NextField(f: Field, rest: seq<Field>, b: Bytes, r: Bytes)
    requires EncodeField(f) == b && EncodeFields(rest) == r
    ensures EncodeFields([f] + rest) == b + r
  {
    assert ([f] + rest)[1..] == rest;
  }

  lemma {:induction false} SampleFields(e: Edit)
    requires e == Edit(Some(7), Some(8), Some(9), [(0, 300)], [(1, SampleFile)])
    ensures FieldsOf(e) ==
            [NextFile(7), LastSequence(8), LogNumber(9), DeleteFile(0, 300), AddFile(1, SampleFile)]
  {
    assert e.deleted[1..] == [] && e.added[1..] == [];
    assert Deletes(e.deleted) == [DeleteFile(0, 300)] && Adds(e.added) == [AddFile(1, SampleFile)];
    assert Scalars(e) == [NextFile(7), LastSequence(8), LogNumber(9)];
  }

  lemma {:induction false} NoFields()
    ensures EncodeFields([]) == []
  {
  }

  lemma {:induction false} FileFields()
    ensures EncodeFields([DeleteFile(0, 300), AddFile(1, SampleFile)]) ==
            [5, 0, 0xAC, 2, 4, 1, 4, 2, 1, 0x61, 1, 0x62]
  {
    hide EncodeField, EncodeFields;
    var d, a := DeleteFile(0, 300), AddFile(1, SampleFile);
    FieldExamples();
    NoFields();
    NextField(a, [], [4, 1, 4, 2, 1, 0x61, 1, 0x62], []);
    assert [a] + [] == [a] && [d] + [a] == [d, a];
    NextField(d, [a], [5, 0, 0xAC, 2], [4, 1, 4, 2, 1, 0x61, 1, 0x62]);
  }

  /** Next file 7, last sequence 8, log 9, delete file 300 of level 0, add file 4 of 2 bytes to level 1. */
  lemma {:induction false} EditExample()
    ensures EncodeEdit(Edit(Some(7), Some(8), Some(9), [(0, 300)], [(1, SampleFile)])) ==
            [1, 7, 2, 8, 3, 9, 5, 0, 0xAC, 2, 4, 1, 4, 2, 1, 0x61, 1, 0x62]
  {
    hide EncodeField, EncodeFields, FieldsOf;
    var n, q, g, d, a := NextFile(7), LastSequence(8), LogNumber(9), DeleteFile(0, 300), AddFile(1, SampleFile);
    SampleFields(Edit(Some(7), Some(8), Some(9), [(0, 300)], [(1, SampleFile)]));
    FieldExamples();
    FileFields();
    assert [g] + [d, a] == [g, d, a] && [q] + [g, d, a] == [q, g, d, a] && [n] + [q, g, d, a] == [n, q, g, d, a];
    NextField(g, [d, a], [3, 9], [5, 0, 0xAC, 2, 4, 1, 4, 2, 1, 0x61, 1, 0x62]);
    NextField(q, [g, d, a], [2, 8], [3, 9, 5, 0, 0xAC, 2, 4, 1, 4, 2, 1, 0x61, 1, 0x62]);
    NextField(n, [q, g, d, a], [1, 7], [2, 8, 3, 9, 5, 0, 0xAC, 2, 4, 1, 4, 2, 1, 0x61, 1, 0x62]);
  }

  lemma {:induction false} FooterMagic()
    ensures Fixed(0xDB04_734E, 4) == [0x4E, 0x73, 0x04, 0xDB]
  {
  }

  /** The footer of a table whose index is 3 bytes at offset 2. */
  lemma {:induction false} FooterExample()
    ensures Sstable.Footer(2, 3) == [2, 0, 0, 0, 0, 0, 0, 0, 3, 0, 0, 0, 0, 0, 0, 0, 0x4E, 0x73, 0x04, 0xDB]
  {
    hide Fixed;
    ByteWord(2, 8);
    ByteWord(3, 8);
    FooterMagic();
  }

  /** A block entry that shares two bytes of its key "abc" with the one before. */
  lemma {:induction false} EntryExample()
    ensures Blocks.Chunk(2, Blocks.KV([0x61, 0x62, 0x63], [0x76])) == [2, 1, 1, 0x63, 0x76]
  {
  }
}
