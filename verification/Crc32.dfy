/** CRC-32: the byte-at-a-time table against the serial register that takes one message bit per
    step, and the masking of stored checksums. */
module Crc32 {
  import opened Values

  type Word = bv32

  const Poly: Word := 0xEDB8_8320
  const Ones: Word := 0xFFFF_FFFF
  const ByteBits: nat := 8

  function Xor(a: Word, b: Word): Word { a ^ b }

  /** One step of the reflected division register. */
  function Shift(c: Word): Word { if c & 1 == 1 then Poly ^ (c >> 1) else c >> 1 }

  // ---- Reference: bit by bit ----------------------------------------------------------------------

  /** Feed the lowest `n` bits of `x` into the register, lowest first. */
  function FeedBits(c: Word, x: Word, n: nat): Word
    decreases n
  {
    if n == 0 then c else FeedBits(Shift(Xor(c, x & 1)), x >> 1, n - 1)
  }

  function FeedBytes(c: Word, data: Bytes): Word
    decreases |data|
  {
    if data == [] then c else FeedBytes(FeedBits(c, data[0] as Word, ByteBits), data[1..])
  }

  /** The checksum by bit-serial division, continued from `crc`. */
  function Reference(crc: Word, data: Bytes): Word { Xor(FeedBytes(Xor(crc, Ones), data), Ones) }

  // ---- Iteration ------------------------------------------------------------------------------------

  function Iter<T>(f: T -> T, c: T, n: nat): T
    decreases n
  {
    if n == 0 then c else Iter(f, f(c), n - 1)
  }

  lemma {:induction false} IterLinear<T(!new)>(f: T -> T, op: (T, T) -> T, a: T, b: T, n: nat)
    requires forall x, y :: f(op(x, y)) == op(f(x), f(y))
    ensures Iter(f, op(a, b), n) == op(Iter(f, a, n), Iter(f, b, n))
    decreases n
  {
    if n > 0 { IterLinear(f, op, f(a), f(b), n - 1); }
  }

  lemma {:induction false} IterSnoc<T>(f: T -> T, c: T, n: nat)
    ensures Iter(f, c, n + 1) == f(Iter(f, c, n))
    decreases n
  {
    if n > 0 { IterSnoc(f, f(c), n - 1); }
  }

  // ---- The register is linear -----------------------------------------------------------------------

  lemma {:induction false} XorLow(a: Word, b: Word)
    ensures (a ^ b) & 1 == (a & 1) ^ (b & 1)
    ensures (a ^ b) >> 1 == (a >> 1) ^ (b >> 1)
  {
  }

  lemma {:induction false} LowBit(a: Word, b: Word)
    ensures (a & 1 == 0 || a & 1 == 1) && (b & 1 == 0 || b & 1 == 1)
    ensures ((a & 1) ^ (b & 1) == 1) <==> (a & 1 != b & 1)
  {
  }

  lemma {:induction false} XorCancel(m: Word, p: Word, q: Word)
    ensures (m ^ p) ^ (m ^ q) == p ^ q
    ensures (m ^ p) ^ q == m ^ (p ^ q)
    ensures p ^ (m ^ q) == m ^ (p ^ q)
  {
  }

  lemma {:induction false} ShiftLinear(a: Word, b: Word)
    ensures Shift(a ^ b) == Shift(a) ^ Shift(b)
  {
    XorLow(a, b);
    LowBit(a, b);
    XorCancel(Poly, a >> 1, b >> 1);
  }

  lemma {:induction false} ShiftsLinear(a: Word, b: Word, n: nat)
    ensures Iter(Shift, Xor(a, b), n) == Xor(Iter(Shift, a, n), Iter(Shift, b, n))
  {
    forall x, y ensures Shift(Xor(x, y)) == Xor(Shift(x), Shift(y)) { ShiftLinear(x, y); }
    IterLinear(Shift, Xor, a, b, n);
  }

  // ---- Bit by bit is xor first, then shift -----------------------------------------------------------

  predicate BitsAtMost(x: Word, n: nat)
    decreases n
  {
    if n == 0 then x == 0 else BitsAtMost(x >> 1, n - 1)
  }

  lemma {:induction false} ShiftEvenXor(p: Word, up: Word)
    requires up & 1 == 0
    ensures Shift(p ^ up) == Shift(p) ^ (up >> 1)
  {
    XorLow(p, up);
    LowBit(p, up);
    XorCancel(Poly, p >> 1, up >> 1);
  }

  /** The word without its lowest bit. */
  function Upper(x: Word): Word { (x >> 1) << 1 }

  lemma {:induction false} UpperEven(x: Word)
    ensures Upper(x) & 1 == 0
  {
  }

  lemma {:induction false} UpperHalf(x: Word)
    ensures Upper(x) >> 1 == x >> 1
  {
  }

  lemma {:induction false} UpperXor(c: Word, x: Word)
    ensures Xor(c, x) == Xor(Xor(c, x & 1), Upper(x))
  {
  }

  lemma {:induction false} ShiftParts(y: Word, p: Word, up: Word, hi: Word)
    requires y == Xor(p, up) && up & 1 == 0 && up >> 1 == hi
    ensures Shift(y) == Xor(Shift(p), hi)
  {
    ShiftEvenXor(p, up);
  }

  lemma {:induction false} FeedStep(y: Word, p: Word, x: Word, hi: Word)
    requires y == Xor(p, Upper(x)) && hi == x >> 1
    ensures Shift(y) == Xor(Shift(p), hi)
  {
    UpperEven(x);
    UpperHalf(x);
    ShiftParts(y, p, Upper(x), hi);
  }

  lemma {:induction false} XorZero(c: Word)
    ensures Xor(c, 0) == c
  {
  }

  lemma {:induction false} FeedIsShift(c: Word, x: Word, n: nat)
    requires BitsAtMost(x, n)
    ensures FeedBits(c, x, n) == Iter(Shift, Xor(c, x), n)
    decreases n
  {
    if n == 0 {
      XorZero(c);
    } else {
      UpperXor(c, x);
      FeedStep(Xor(c, x), Xor(c, x & 1), x, x >> 1);
      FeedIsShift(Shift(Xor(c, x & 1)), x >> 1, n - 1);
    }
  }

  // ---- The table step ----------------------------------------------------------------------------------

  predicate LowClear(y: Word, n: nat)
    decreases n
  {
    if n == 0 then true else y & 1 == 0 && LowClear(y >> 1, n - 1)
  }

  function Halved(y: Word, n: nat): Word
    decreases n
  {
    if n == 0 then y else Halved(y >> 1, n - 1)
  }

  lemma {:induction false} ShiftClear(y: Word, n: nat)
    requires LowClear(y, n)
    ensures Iter(Shift, y, n) == Halved(y, n)
    decreases n
  {
    if n > 0 {
      EvenBit(y);
      ShiftClear(y >> 1, n - 1);
    }
  }

  lemma {:induction false} EvenBit(y: Word)
    requires y & 1 == 0
    ensures Shift(y) == y >> 1
  {
  }

  lemma {:induction false} ByteParts(a: Word)
    ensures (a & 0xFF) ^ (a & 0xFFFF_FF00) == a
    ensures Halved(a & 0xFFFF_FF00, 8) == a >> 8
    ensures LowClear(a & 0xFFFF_FF00, 8)
  {
  }

  /** Eight shifts are one table lookup on the low byte. */
  lemma {:induction false} TableStep(a: Word)
    ensures Iter(Shift, a, ByteBits) == Xor(Iter(Shift, a & 0xFF, ByteBits), a >> 8)
  {
    var lo, y := a & 0xFF, a & 0xFFFF_FF00;
    ByteParts(a);
    assert Xor(lo, y) == a;
    ShiftsLinear(lo, y, ByteBits);
    ShiftClear(y, ByteBits);
  }

  lemma {:induction false} ByteFits(x: Word)
    requires x < 0x100
    ensures BitsAtMost(x, 8)
  {
  }

  lemma {:induction false} HighSame(c: Word, x: Word)
    requires x < 0x100
    ensures (c ^ x) >> 8 == c >> 8
  {
  }

  /** One byte fed bit by bit is one step of the table loop. */
  lemma {:induction false} ByteStep(c: Word, x: Word)
    requires x < 0x100
    ensures FeedBits(c, x, ByteBits) == Xor(Iter(Shift, (c ^ x) & 0xFF, ByteBits), c >> 8)
  {
    ByteFits(x);
    FeedIsShift(c, x, ByteBits);
    TableStep(c ^ x);
    HighSame(c, x);
  }

  // ---- The table and the loop over it -------------------------------------------------------------------

  lemma {:induction false} WordOfByte(b: byte)
    ensures (b as Word) < 0x100
  {
  }

  lemma {:induction false} MaskedByte(w: Word)
    ensures w & 0xFF < 0x100
  {
  }

  lemma {:induction false} SmallWord(w: Word)
    requires w < 0x100
    ensures w as int < 0x100
  {
  }

  lemma {:induction false} WordBack(w: Word)
    requires w < 0x100
    ensures (w as int) as Word == w
  {
  }

  /** The remainder of one byte value. */
  function TableEntry(i: byte): Word { Iter(Shift, i as Word, ByteBits) }

  function LowByte(w: Word): byte {
    MaskedByte(w);
    SmallWord(w & 0xFF);
    (w & 0xFF) as int
  }

  lemma {:induction false} EntryOfWord(w: Word)
    ensures TableEntry(LowByte(w)) == Iter(Shift, w & 0xFF, ByteBits)
  {
    MaskedByte(w);
    WordBack(w & 0xFF);
  }

  predicate Named(w: Word) { true }

  /** `w` is entry `i`; the bound variable keeps the eight shifts folded. */
  ghost predicate IsEntry(w: Word, i: byte) { forall u {:trigger Named(u)} :: u == TableEntry(i) ==> w == u }

  ghost predicate IsTable(t: seq<Word>) {
    |t| == 0x100 && forall i: byte {:trigger IsEntry(t[i], i)} :: IsEntry(t[i], i)
  }

  /** Eight division steps on one byte value. */
  method Remainder(i: byte) returns (c: Word)
    ensures IsEntry(c, i)
  {
    var start := i as Word;
    c := start;
    for j := 0 to ByteBits
      invariant c == Iter(Shift, start, j)
    {
      IterSnoc(Shift, start, j);
      c := Shift(c);
    }
  }

  method InitTable() returns (table: array<Word>)
    ensures fresh(table) && IsTable(table[..])
  {
    table := new Word[0x100];
    for i := 0 to 0x100
      invariant forall k: byte {:trigger IsEntry(table[k], k)} | k < i :: IsEntry(table[k], k)
    {
      table[i] := Remainder(i);
    }
    forall k: byte ensures IsEntry(table[..][k], k) { assert IsEntry(table[k], k); }
  }

  lemma {:induction false} FeedBytesConcat(c: Word, a: Bytes, b: Bytes)
    ensures FeedBytes(c, a + b) == FeedBytes(FeedBytes(c, a), b)
    decreases |a|
  {
    if a == [] {
      assert a + b == b;
    } else {
      assert (a + b)[1..] == a[1..] + b;
      FeedBytesConcat(FeedBits(c, a[0] as Word, ByteBits), a[1..], b);
    }
  }

  lemma {:induction false} FeedOne(c: Word, x: byte, d: Word, data: Bytes)
    requires data == [x] && d == FeedBits(c, data[0] as Word, ByteBits)
    ensures FeedBytes(c, data) == d
  {
    assert data[1..] == [];
  }

  lemma {:induction false} FeedBytesSnoc(c: Word, a: Bytes, x: byte)
    ensures FeedBytes(c, a + [x]) == FeedBits(FeedBytes(c, a), x as Word, ByteBits)
  {
    hide FeedBits, FeedBytes;
    FeedBytesConcat(c, a, [x]);
    FeedOne(FeedBytes(c, a), x, FeedBits(FeedBytes(c, a), x as Word, ByteBits), [x]);
  }

  lemma {:induction false} FoldIsFeed(c: Word, b: byte, index: byte, w: Word)
    requires index == LowByte(Xor(c, b as Word)) && IsEntry(w, index)
    ensures Xor(w, c >> 8) == FeedBits(c, b as Word, ByteBits)
  {
    assert Named(TableEntry(index));
    WordOfByte(b);
    ByteStep(c, b as Word);
    EntryOfWord(Xor(c, b as Word));
  }

  /** Fold one byte into the register through the table. */
  method FoldByte(table: array<Word>, c: Word, b: byte) returns (r: Word)
    requires IsTable(table[..])
    ensures r == FeedBits(c, b as Word, ByteBits)
  {
    var index := LowByte(Xor(c, b as Word));
    assert IsEntry(table[..][index], index);
    FoldIsFeed(c, b, index, table[index]);
    r := Xor(table[index], c >> 8);
  }

  lemma {:induction false} FeedNone(c: Word)
    ensures FeedBytes(c, []) == c
  {
  }

  /** The table-driven loop computes the bit-serial checksum. */
  method Crc32Extend(table: array<Word>, crc: Word, data: Bytes) returns (r: Word)
    requires IsTable(table[..])
    ensures r == Reference(crc, data)
  {
    hide FeedBits, FeedBytes;
    var c := Xor(crc, Ones);
    ghost var start := c;
    FeedNone(c);
    for i := 0 to |data|
      invariant c == FeedBytes(start, data[..i])
    {
      assert data[..i + 1] == data[..i] + [data[i]];
      FeedBytesSnoc(start, data[..i], data[i]);
      c := FoldByte(table, c, data[i]);
    }
    assert data[..|data|] == data;
    r := Xor(c, Ones);
  }

  lemma {:induction false} XorTwice(c: Word)
    ensures Xor(Xor(c, Ones), Ones) == c
  {
  }

  /** Continuing over B after A is the checksum of A followed by B. */
  lemma {:induction false} ExtendConcat(crc: Word, a: Bytes, b: Bytes)
    ensures Reference(Reference(crc, a), b) == Reference(crc, a + b)
  {
    var m := FeedBytes(Xor(crc, Ones), a);
    FeedBytesConcat(Xor(crc, Ones), a, b);
    XorTwice(m);
  }

  // ---- Masking ------------------------------------------------------------------------------------------

  function MaskCrc(crc: Word): Word { ((crc >> 15) | (crc << 17)) + 0xA282_EAD8 }

  function UnmaskCrc(masked: Word): Word {
    var rot := masked - 0xA282_EAD8;
    (rot >> 17) | (rot << 15)
  }

  /** Masking loses nothing, on every word and in both directions. */
  lemma {:induction false} MaskInverse(c: Word)
    ensures UnmaskCrc(MaskCrc(c)) == c && MaskCrc(UnmaskCrc(c)) == c
  {
  }

  // ---- Known values -------------------------------------------------------------------------------------

  /** The ASCII digits 1 to 9, the usual check input. */
  const Digits: Bytes := [0x31, 0x32, 0x33, 0x34, 0x35, 0x36, 0x37, 0x38, 0x39]

  lemma {:induction false} FeedDigits()
    ensures FeedBits(0xFFFF_FFFF, 0x31, 8) == 0x7C23_1048
    ensures FeedBits(0x7C23_1048, 0x32, 8) == 0xB0AC_BB32
    ensures FeedBits(0xB0AC_BB32, 0x33, 8) == 0x77B7_9C2D
    ensures FeedBits(0x77B7_9C2D, 0x34, 8) == 0x641C_1F5C
    ensures FeedBits(0x641C_1F5C, 0x35, 8) == 0x340A_C5E3
    ensures FeedBits(0x340A_C5E3, 0x36, 8) == 0xF68D_2C9E
    ensures FeedBits(0xF68D_2C9E, 0x37, 8) == 0xAFFC_9660
    ensures FeedBits(0xAFFC_9660, 0x38, 8) == 0x651F_2550
    ensures FeedBits(0x651F_2550, 0x39, 8) == 0x340B_C6D9
  {
  }

  lemma {:induction false} FeedFirst(c: Word, data: Bytes, x: byte, d: Word, rest: Bytes)
    requires data == [x] + rest && FeedBits(c, x as Word, ByteBits) == d
    ensures FeedBytes(c, data) == FeedBytes(d, rest)
  {
    assert data[1..] == rest;
  }

  lemma {:induction false} FeedDigit(c: Word, i: nat, x: byte, w: Word, d: Word)
    requires i < |Digits| && Digits[i] == x && x as Word == w && FeedBits(c, w, ByteBits) == d
    ensures FeedBytes(c, Digits[i..]) == FeedBytes(d, Digits[i + 1..])
  {
    FeedFirst(c, Digits[i..], x, d, Digits[i + 1..]);
  }

  lemma {:induction false} FirstDigits()
    ensures FeedBytes(Ones, Digits) == FeedBytes(0x340A_C5E3, Digits[5..])
  {
    hide FeedBytes, FeedBits;
    FeedDigits();
    FeedDigit(0xFFFF_FFFF, 0, 0x31, 0x31, 0x7C23_1048);
    FeedDigit(0x7C23_1048, 1, 0x32, 0x32, 0xB0AC_BB32);
    FeedDigit(0xB0AC_BB32, 2, 0x33, 0x33, 0x77B7_9C2D);
    FeedDigit(0x77B7_9C2D, 3, 0x34, 0x34, 0x641C_1F5C);
    FeedDigit(0x641C_1F5C, 4, 0x35, 0x35, 0x340A_C5E3);
    assert Digits[0..] == Digits;
  }

  /** The polynomial and the bit order are those of CRC-32: its published check value. */
  lemma {:induction false} CheckValue()
    ensures Reference(0, Digits) == 0xCBF4_3926
  {
    hide FeedBytes, FeedBits;
    FeedDigits();
    FirstDigits();
    FeedDigit(0x340A_C5E3, 5, 0x36, 0x36, 0xF68D_2C9E);
    FeedDigit(0xF68D_2C9E, 6, 0x37, 0x37, 0xAFFC_9660);
    FeedDigit(0xAFFC_9660, 7, 0x38, 0x38, 0x651F_2550);
    FeedDigit(0x651F_2550, 8, 0x39, 0x39, 0x340B_C6D9);
    assert Digits[9..] == [];
    FeedNone(0x340B_C6D9);
  }

  /** The rotation and the offset, on the check value. */
  lemma {:induction false} MaskValue()
    ensures MaskCrc(0xCBF4_3926) == 0x14D0_82C0
  {
  }
}
