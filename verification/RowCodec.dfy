/** Cells and rows as bytes, primary keys as hex text, and grouping keys: each can be read back, so
    none maps two values to one. */
module RowCodec {
  import opened Values
  import opened Encoding

  /** A string short enough for its length to be written. */
  predicate Fits(v: Value) { v.Str? ==> |v.s| < Two32 - 0x10 }

  function Bits(i: int64): (r: nat)
    ensures r < Two64
  {
    if i < 0 then i + Two64 else i
  }

  function FromBits(n: nat): int64
    requires n < Two64
  {
    if n >= 0x8000_0000_0000_0000 then n - Two64 else n
  }

  function EncodeValue(v: Value): Bytes {
    match v
    case Null => [0]
    case Int64(i) => [1] + Fixed(Bits(i), Width64)
    case Str(s) => [2] + LengthPrefixed(s)
    case Bool(b) => [3, if b then 1 else 0]
  }

  function ConsumeValue(b: Bytes): Parsed<Value> {
    if b == [] then Fail
    else if b[0] == 0 then Done(Null, b[1..])
    else if b[0] == 1 then
      match GetFixed(b[1..], Width64)
      case Fail => Fail
      case Done(n, rest) => Done(Int64(FromBits(n % Two64)), rest)
    else if b[0] == 2 then
      match GetLengthPrefixed(b[1..])
      case Fail => Fail
      case Done(s, rest) => Done(Str(s), rest)
    else if b[0] == 3 then
      if |b| < 2 then Fail else Done(Bool(b[1] != 0), b[2..])
    else Fail
  }

  lemma {:induction false} IntRoundTrip(i: int64, rest: Bytes)
    ensures ConsumeValue(EncodeValue(Int64(i)) + rest) == Done(Int64(i), rest)
  {
    var b := EncodeValue(Int64(i)) + rest;
    assert b[1..] == Fixed(Bits(i), Width64) + rest;
    assert GetFixed(b[1..], Width64) == Done(Bits(i), rest) by { Fixed64RoundTrip(Bits(i), rest); }
  }

  lemma {:induction false} StrRoundTrip(s: Bytes, rest: Bytes)
    requires |s| < Two32
    ensures ConsumeValue(EncodeValue(Str(s)) + rest) == Done(Str(s), rest)
  {
    var b := EncodeValue(Str(s)) + rest;
    assert b[1..] == LengthPrefixed(s) + rest;
    assert GetLengthPrefixed(b[1..]) == Done(s, rest) by { LengthPrefixedRoundTrip(s, rest); }
  }

  lemma {:induction false} ValueRoundTrip(v: Value, rest: Bytes)
    requires Fits(v)
    ensures ConsumeValue(EncodeValue(v) + rest) == Done(v, rest)
  {
    var b := EncodeValue(v) + rest;
    match v
    case Null => assert b[1..] == rest;
    case Int64(i) => IntRoundTrip(i, rest);
    case Str(s) => StrRoundTrip(s, rest);
    case Bool(x) => assert b[2..] == rest;
  }

  lemma {:induction false} EncodeValueInjective(v: Value, w: Value)
    requires Fits(v) && Fits(w) && EncodeValue(v) == EncodeValue(w)
    ensures v == w
  {
    ValueRoundTrip(v, []);
    ValueRoundTrip(w, []);
  }

  // ---- Rows -----------------------------------------------------------------------------------

  function EncodeCells(row: Row): Bytes {
    if row == [] then [] else EncodeValue(row[0]) + EncodeCells(row[1..])
  }

  function EncodeRow(row: Row): Bytes { Varint(|row| % Two32) + EncodeCells(row) }

  function DecodeCells(b: Bytes, n: nat): Parsed<Row>
    decreases n
  {
    if n == 0 then Done([], b)
    else
      match ConsumeValue(b)
      case Fail => Fail
      case Done(v, rest) =>
        match DecodeCells(rest, n - 1)
        case Fail => Fail
        case Done(vs, rest') => Done([v] + vs, rest')
  }

  /** None is Corruption: a bad count, a bad cell or trailing bytes. */
  function DecodeRow(b: Bytes): Option<Row> {
    match GetVarint32(b)
    case Fail => None
    case Done(n, rest) =>
      match DecodeCells(rest, n)
      case Fail => None
      case Done(row, tail) => if tail == [] then Some(row) else None
  }

  lemma {:induction false} DecodeCons(b: Bytes, n: nat, v: Value, mid: Bytes, vs: Row, rest: Bytes)
    requires ConsumeValue(b) == Done(v, mid) && DecodeCells(mid, n) == Done(vs, rest)
    ensures DecodeCells(b, n + 1) == Done([v] + vs, rest)
  {
  }

  lemma {:induction false} EncodeCons(row: Row, v: Value, vs: Row, rest: Bytes)
    requires row == [v] + vs
    ensures EncodeCells(row) + rest == EncodeValue(v) + (EncodeCells(vs) + rest)
  {
    assert row[1..] == vs;
    assert EncodeCells(row) == EncodeValue(v) + EncodeCells(vs);
  }

  lemma {:induction false} CellsRoundTrip(row: Row, rest: Bytes)
    requires forall v | v in row :: Fits(v)
    ensures DecodeCells(EncodeCells(row) + rest, |row|) == Done(row, rest)
  {
    if row == [] {
      assert EncodeCells(row) + rest == rest;
    } else {
      var v, vs := row[0], row[1..];
      assert row == [v] + vs;
      var tail := EncodeCells(vs) + rest;
      EncodeCons(row, v, vs, rest);
      ValueRoundTrip(v, tail);
      CellsRoundTrip(vs, rest);
      DecodeCons(EncodeValue(v) + tail, |vs|, v, tail, vs, rest);
    }
  }

  lemma {:induction false} RowRoundTrip(row: Row)
    requires |row| < Two32 && forall v | v in row :: Fits(v)
    ensures DecodeRow(EncodeRow(row)) == Some(row)
  {
    var n := |row|;
    assert n % Two32 == n;
    assert GetVarint32(Varint(n) + EncodeCells(row)) == Done(n, EncodeCells(row)) by {
      Varint32RoundTrip(n, EncodeCells(row));
    }
    assert DecodeCells(EncodeCells(row), n) == Done(row, []) by {
      CellsRoundTrip(row, []);
      assert EncodeCells(row) + [] == EncodeCells(row);
    }
  }

  lemma {:induction false} ValueCut(v: Value, n: nat)
    requires Fits(v) && n < |EncodeValue(v)|
    ensures ConsumeValue(EncodeValue(v)[..n]) == Fail
  {
    hide Fixed, LengthPrefixed, GetLengthPrefixed;
    if n > 0 && v.Str? {
      assert EncodeValue(v)[..n][1..] == LengthPrefixed(v.s)[..n - 1];
      LengthPrefixedCut(v.s, n - 1);
    }
  }

  lemma {:induction false} CellsCut(row: Row, n: nat)
    requires (forall v | v in row :: Fits(v)) && n < |EncodeCells(row)|
    ensures DecodeCells(EncodeCells(row)[..n], |row|) == Fail
  {
    hide EncodeValue, ConsumeValue, Fits;
    var f, tail := EncodeValue(row[0]), EncodeCells(row[1..]);
    if n < |f| {
      assert (f + tail)[..n] == f[..n];
      ValueCut(row[0], n);
    } else {
      assert (f + tail)[..n] == f + tail[..n - |f|];
      ValueRoundTrip(row[0], tail[..n - |f|]);
      CellsCut(row[1..], n - |f|);
    }
  }

  /** A row is refused when any of its bytes is missing or any byte follows. */
  lemma {:induction false} RowExact(row: Row, n: nat, extra: Bytes)
    requires |row| < Two32 && forall v | v in row :: Fits(v)
    ensures n < |EncodeRow(row)| ==> DecodeRow(EncodeRow(row)[..n]) == None
    ensures DecodeRow(EncodeRow(row) + extra) == if extra == [] then Some(row) else None
  {
    hide Varint, Unvarint, EncodeCells, DecodeCells, Fits;
    var head, cells := Varint(|row|), EncodeCells(row);
    assert |row| % Two32 == |row| && EncodeRow(row) == head + cells;
    if n < |head| {
      assert (head + cells)[..n] == head[..n];
      VarintCut(|row|, Groups32, n);
    } else if n < |head| + |cells| {
      assert (head + cells)[..n] == head + cells[..n - |head|];
      Varint32RoundTrip(|row|, cells[..n - |head|]);
      CellsCut(row, n - |head|);
    }
    assert EncodeRow(row) + extra == head + (cells + extra);
    Varint32RoundTrip(|row|, cells + extra);
    CellsRoundTrip(row, extra);
  }

  // ---- Primary keys as hex ------------------------------------------------------------------------

  function Digit(n: nat): byte
    requires n < 0x10
  {
    if n < 10 then 0x30 + n else 0x61 + n - 10
  }

  function Nibble(c: byte): int {
    if 0x30 <= c <= 0x39 then c - 0x30
    else if 0x61 <= c <= 0x66 then c - 0x61 + 10
    else if 0x41 <= c <= 0x46 then c - 0x41 + 10
    else -1
  }

  function ToHex(b: Bytes): Bytes {
    if b == [] then [] else [Digit(b[0] / 0x10), Digit(b[0] % 0x10)] + ToHex(b[1..])
  }

  function FromHex(h: Bytes): Option<Bytes> {
    if h == [] then Some([])
    else if |h| == 1 || Nibble(h[0]) < 0 || Nibble(h[1]) < 0 then None
    else
      match FromHex(h[2..])
      case None => None
      case Some(b) => Some([Nibble(h[0]) * 0x10 + Nibble(h[1])] + b)
  }

  lemma {:induction false} HexRoundTrip(b: Bytes)
    ensures FromHex(ToHex(b)) == Some(b)
  {
    if b != [] {
      HexRoundTrip(b[1..]);
      assert ToHex(b)[2..] == ToHex(b[1..]);
      assert b == [b[0]] + b[1..];
    }
  }

  function EncodePk(v: Value): Bytes { ToHex(EncodeValue(v)) }

  /** None is Corruption. */
  function DecodePk(h: Bytes): Option<Value> {
    match FromHex(h)
    case None => None
    case Some(b) =>
      match ConsumeValue(b)
      case Fail => None
      case Done(v, rest) => if rest == [] then Some(v) else None
  }

  /** A key read back from its row key is the key; distinct keys have distinct row keys. */
  lemma {:induction false} PkRoundTrip(v: Value)
    requires Fits(v)
    ensures DecodePk(EncodePk(v)) == Some(v)
  {
    HexRoundTrip(EncodeValue(v));
    ValueRoundTrip(v, []);
    assert EncodeValue(v) + [] == EncodeValue(v);
  }

  // ---- Grouping keys --------------------------------------------------------------------------------

  function GroupKey(parts: seq<Value>): Bytes {
    if parts == [] then []
    else
      var cell := EncodeValue(parts[0]);
      Fixed(|cell| % Two32, Width32) + cell + GroupKey(parts[1..])
  }

  lemma {:induction false} VarintSize(v: nat, n: nat)
    requires n > 0 && v < Pow128(n)
    ensures |Varint(v)| <= n
    decreases n
  {
    if v >= 0x80 {
      assert n > 1 by { assert Pow128(1) == 0x80; }
      VarintSize(v / 0x80, n - 1);
    }
  }

  lemma {:induction false} EncodedSize(v: Value)
    requires Fits(v)
    ensures 0 < |EncodeValue(v)| < Two32
  {
    if v.Str? {
      Pow128Values();
      VarintSize(|v.s|, 5);
    }
  }

  lemma {:induction false} SplitEqual(c: Bytes, x: Bytes, d: Bytes, y: Bytes)
    requires |c| == |d| && c + x == d + y
    ensures c == d && x == y
  {
    assert c == (c + x)[..|c|] && x == (c + x)[|c|..] && d == (d + y)[..|d|] && y == (d + y)[|d|..];
  }

  lemma {:induction false} FixedSplit(n: nat, m: nat, a: Bytes, b: Bytes)
    requires n < Two32 && m < Two32 && Fixed(n, Width32) + a == Fixed(m, Width32) + b
    ensures n == m && a == b
  {
    Fixed32RoundTrip(n, a);
    Fixed32RoundTrip(m, b);
  }

  lemma {:induction false} GroupKeyCons(parts: seq<Value>, cell: Bytes, tail: Bytes)
    requires parts != [] && Fits(parts[0]) && cell == EncodeValue(parts[0]) && tail == GroupKey(parts[1..])
    ensures |cell| < Two32 && GroupKey(parts) == Fixed(|cell|, Width32) + (cell + tail)
  {
    EncodedSize(parts[0]);
    assert |cell| % Two32 == |cell|;
    assert Fixed(|cell|, Width32) + cell + tail == Fixed(|cell|, Width32) + (cell + tail);
  }

  /** The encoded key tells the groups apart. */
  lemma {:induction false} GroupKeyInjective(p: seq<Value>, q: seq<Value>)
    requires (forall v | v in p :: Fits(v)) && (forall v | v in q :: Fits(v)) && GroupKey(p) == GroupKey(q)
    ensures p == q
  {
    if p != [] && q != [] {
      var c, d, x, y := EncodeValue(p[0]), EncodeValue(q[0]), GroupKey(p[1..]), GroupKey(q[1..]);
      GroupKeyCons(p, c, x);
      GroupKeyCons(q, d, y);
      FixedSplit(|c|, |d|, c + x, d + y);
      SplitEqual(c, x, d, y);
      EncodeValueInjective(p[0], q[0]);
      GroupKeyInjective(p[1..], q[1..]);
      assert p == [p[0]] + p[1..] && q == [q[0]] + q[1..];
    }
  }
}
