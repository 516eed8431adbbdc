/** Little-endian fixed-width integers, varints and length-prefixed byte strings, with the inverse
    of each as a parser that returns the rest of its input. */
module Encoding {
  import opened Values
  import opened InternalKeys

  const Width32: nat := 4
  const Width64: nat := 8
  const Two32: nat := 0x1_0000_0000
  const Two64: nat := 0x1_0000_0000_0000_0000
  const Groups32: nat := 5
  const Groups64: nat := 10

  // ---- Fixed width -----------------------------------------------------------------------------

  function Pow256(n: nat): (r: nat)
    ensures r > 0
  {
    if n == 0 then 1 else 0x100 * Pow256(n - 1)
  }

  function Fixed(v: nat, n: nat): (r: Bytes)
    ensures |r| == n
  {
    if n == 0 then [] else [v % 0x100] + Fixed(v / 0x100, n - 1)
  }

  function Unfixed(b: Bytes): nat {
    if b == [] then 0 else b[0] + 0x100 * Unfixed(b[1..])
  }

  lemma {:induction false} FixedRoundTrip(v: nat, n: nat)
    requires v < Pow256(n)
    ensures Unfixed(Fixed(v, n)) == v
    decreases n
  {
    if n > 0 {
      FixedRoundTrip(v / 0x100, n - 1);
      assert Fixed(v, n)[1..] == Fixed(v / 0x100, n - 1);
    }
  }

  /** Reading a fixed-width field and writing it again gives the same bytes. */
  lemma {:induction false} UnfixedRoundTrip(b: Bytes, n: nat)
    requires |b| == n
    ensures Fixed(Unfixed(b), n) == b
    decreases n
  {
    if n > 0 {
      UnfixedRoundTrip(b[1..], n - 1);
      assert b == [b[0]] + b[1..];
    }
  }

  lemma {:induction false} UnfixedBound(b: Bytes)
    ensures Unfixed(b) < Pow256(|b|)
  {
    if b != [] { UnfixedBound(b[1..]); }
  }

  lemma {:induction false} Pow256Values()
    ensures Pow256(4) == Two32 && Pow256(8) == Two64
  {
    assert Pow256(1) == 0x100 && Pow256(2) == 0x1_0000 && Pow256(3) == 0x100_0000;
    assert Pow256(4) == Two32;
    assert Pow256(5) == 0x100 * Two32 && Pow256(6) == 0x1_0000 * Two32 && Pow256(7) == 0x100_0000 * Two32;
  }

  lemma {:induction false} Word32(v: nat)
    requires v < Two32
    ensures Unfixed(Fixed(v, Width32)) == v && v % Two32 == v
  {
    hide Fixed, Unfixed;
    Pow256Values();
    FixedRoundTrip(v, Width32);
  }

  lemma {:induction false} Word64(v: nat)
    requires v < Two64
    ensures Unfixed(Fixed(v, Width64)) == v && v % Two64 == v
  {
    hide Fixed, Unfixed;
    Pow256Values();
    FixedRoundTrip(v, Width64);
  }

  datatype Parsed<T> = Fail | Done(value: T, rest: Bytes)

  function GetFixed(b: Bytes, n: nat): Parsed<nat> {
    if |b| < n then Fail else Done(Unfixed(b[..n]), b[n..])
  }

  lemma {:induction false} GetFixedRoundTrip(v: nat, n: nat, rest: Bytes)
    requires v < Pow256(n)
    ensures GetFixed(Fixed(v, n) + rest, n) == Done(v, rest)
  {
    hide Fixed, Unfixed;
    FixedRoundTrip(v, n);
    assert (Fixed(v, n) + rest)[..n] == Fixed(v, n) && (Fixed(v, n) + rest)[n..] == rest;
  }

  lemma {:induction false} Fixed32RoundTrip(v: nat, rest: Bytes)
    requires v < Two32
    ensures GetFixed(Fixed(v, Width32) + rest, Width32) == Done(v, rest)
  {
    hide Fixed, Unfixed;
    Pow256Values();
    GetFixedRoundTrip(v, 4, rest);
  }

  lemma {:induction false} Fixed64RoundTrip(v: nat, rest: Bytes)
    requires v < Two64
    ensures GetFixed(Fixed(v, Width64) + rest, Width64) == Done(v, rest)
  {
    hide Fixed, Unfixed;
    Pow256Values();
    GetFixedRoundTrip(v, 8, rest);
  }

  // ---- Varints ---------------------------------------------------------------------------------

  function Varint(v: nat): (r: Bytes)
    ensures r != []
  {
    if v < 0x80 then [v] else [v % 0x80 + 0x80] + Varint(v / 0x80)
  }

  /** At most `groups` bytes are read; all but the last carry the continuation bit. */
  function Unvarint(b: Bytes, groups: nat): (r: Parsed<nat>)
    ensures r.Done? ==> |r.rest| < |b|
    decreases groups
  {
    if groups == 0 || b == [] then Fail
    else if b[0] < 0x80 then Done(b[0], b[1..])
    else
      match Unvarint(b[1..], groups - 1)
      case Fail => Fail
      case Done(v, rest) => Done(b[0] - 0x80 + 0x80 * v, rest)
  }

  /** Bits beyond the word are shifted out. */
  function GetVarint32(b: Bytes): (r: Parsed<nat>)
    ensures r.Done? ==> r.value < Two32 && |r.rest| < |b|
  {
    match Unvarint(b, Groups32)
    case Fail => Fail
    case Done(v, rest) => Done(v % Two32, rest)
  }

  function GetVarint64(b: Bytes): (r: Parsed<nat>)
    ensures r.Done? ==> r.value < Two64 && |r.rest| < |b|
  {
    match Unvarint(b, Groups64)
    case Fail => Fail
    case Done(v, rest) => Done(v % Two64, rest)
  }

  function Pow128(n: nat): (r: nat)
    ensures r > 0
  {
    if n == 0 then 1 else 0x80 * Pow128(n - 1)
  }

  lemma {:induction false} LowGroup(v: nat, n: nat)
    requires v < 0x80 * n
    ensures v / 0x80 < n && v % 0x80 + 0x80 * (v / 0x80) == v
  {
  }

  lemma {:induction false} UnvarintStep(x: byte, tail: Bytes, rest: Bytes, groups: nat, v: nat)
    requires x >= 0x80 && groups > 0 && Unvarint(tail + rest, groups - 1) == Done(v, rest)
    ensures Unvarint([x] + tail + rest, groups) == Done(x - 0x80 + 0x80 * v, rest)
  {
    assert ([x] + tail + rest)[1..] == tail + rest;
  }

  lemma {:induction false} VarintRoundTrip(v: nat, groups: nat, rest: Bytes)
    requires groups > 0 && v < Pow128(groups)
    ensures Unvarint(Varint(v) + rest, groups) == Done(v, rest)
    decreases groups
  {
    if v < 0x80 {
      assert ([v] + rest)[1..] == rest;
    } else {
      assert groups > 1 by { assert Pow128(1) == 0x80; }
      LowGroup(v, Pow128(groups - 1));
      VarintRoundTrip(v / 0x80, groups - 1, rest);
      UnvarintStep(v % 0x80 + 0x80, Varint(v / 0x80), rest, groups, v / 0x80);
    }
  }

  lemma {:induction false} Pow128Values()
    ensures Pow128(5) >= Two32 && Pow128(10) >= Two64
  {
    assert Pow128(1) == 0x80 && Pow128(2) == 0x4000 && Pow128(3) == 0x20_0000 && Pow128(4) == 0x1000_0000;
    assert Pow128(5) == 0x8_0000_0000;
    assert Pow128(6) == 0x400_0000_0000 && Pow128(7) == 0x2_0000_0000_0000 && Pow128(8) == 0x100_0000_0000_0000;
    assert Pow128(9) == 0x8000_0000_0000_0000;
  }

  lemma {:induction false} Varint32RoundTrip(v: nat, rest: Bytes)
    requires v < Two32
    ensures GetVarint32(Varint(v) + rest) == Done(v, rest)
  {
    hide Varint, Unvarint;
    Pow128Values();
    VarintRoundTrip(v, Groups32, rest);
  }

  lemma {:induction false} Varint64RoundTrip(v: nat, rest: Bytes)
    requires v < Two64
    ensures GetVarint64(Varint(v) + rest) == Done(v, rest)
  {
    hide Varint, Unvarint;
    Pow128Values();
    VarintRoundTrip(v, Groups64, rest);
  }

  /** A varint cut short cannot be read. */
  lemma {:induction false} VarintCut(v: nat, groups: nat, n: nat)
    requires n < |Varint(v)|
    ensures Unvarint(Varint(v)[..n], groups) == Fail
    decreases groups
  {
    if groups > 0 && n > 0 {
      assert v >= 0x80;
      VarintCut(v / 0x80, groups - 1, n - 1);
      assert Varint(v)[..n][1..] == Varint(v / 0x80)[..n - 1];
    }
  }

  /** PutVarint32 and PutVarint64: push low groups while more than one is left. */
  method PutVarint(dst: Bytes, v: nat) returns (r: Bytes)
    ensures r == dst + Varint(v)
  {
    var left := v;
    r := dst;
    while left >= 0x80
      invariant r + Varint(left) == dst + Varint(v)
    {
      r := r + [left % 0x80 + 0x80];
      left := left / 0x80;
    }
    r := r + [left];
  }

  lemma {:induction false} Rescale(result: int, scale: int, x: int, v: int)
    ensures result + scale * (x + 0x80 * v) == (result + scale * x) + (scale * 0x80) * v
  {
  }

  /** GetVarint32Ptr and GetVarint64Ptr: collect groups at rising shifts. */
  method ReadVarint(b: Bytes, groups: nat) returns (r: Parsed<nat>)
    ensures r == Unvarint(b, groups)
  {
    var result, scale, i := 0, 1, 0;
    while i < groups && i < |b|
      invariant 0 <= i <= |b| && i <= groups && scale > 0
      invariant Unvarint(b, groups) ==
                match Unvarint(b[i..], groups - i)
                case Fail => Fail
                case Done(v, rest) => Done(result + scale * v, rest)
    {
      var x := b[i];
      assert b[i..][1..] == b[i + 1..];
      ghost var tail := Unvarint(b[i + 1..], groups - i - 1);
      if x < 0x80 { return Done(result + scale * x, b[i + 1..]); }
      if tail.Done? { Rescale(result, scale, x - 0x80, tail.value); }
      result, scale, i := result + scale * (x - 0x80), scale * 0x80, i + 1;
    }
    r := Fail;
  }

  // ---- Length-prefixed bytes ----------------------------------------------------------------------

  function LengthPrefixed(s: Bytes): Bytes { Varint(|s| % Two32) + s }

  function GetLengthPrefixed(b: Bytes): (r: Parsed<Bytes>)
    ensures r.Done? ==> |r.rest| < |b|
  {
    match GetVarint32(b)
    case Fail => Fail
    case Done(n, rest) => if |rest| < n then Fail else Done(rest[..n], rest[n..])
  }

  lemma {:induction false} LengthPrefixedRoundTrip(s: Bytes, rest: Bytes)
    requires |s| < Two32
    ensures GetLengthPrefixed(LengthPrefixed(s) + rest) == Done(s, rest)
  {
    hide Varint, GetVarint32;
    Varint32RoundTrip(|s|, s + rest);
    assert LengthPrefixed(s) + rest == Varint(|s|) + (s + rest);
    assert (s + rest)[..|s|] == s && (s + rest)[|s|..] == rest;
  }

  /** Nor can a byte string whose length or contents are cut. */
  lemma {:induction false} LengthPrefixedCut(s: Bytes, n: nat)
    requires |s| < Two32 && n < |LengthPrefixed(s)|
    ensures GetLengthPrefixed(LengthPrefixed(s)[..n]) == Fail
  {
    hide Varint, Unvarint;
    var head := Varint(|s|);
    assert LengthPrefixed(s) == head + s;
    if n < |head| {
      VarintCut(|s|, Groups32, n);
      assert (head + s)[..n] == head[..n];
    } else {
      assert (head + s)[..n] == head + s[..n - |head|];
      Varint32RoundTrip(|s|, s[..n - |head|]);
    }
  }

  // ---- Internal keys --------------------------------------------------------------------------------

  const Two56: nat := 0x100_0000_0000_0000

  function EncodeKey(k: IKey): Bytes { k.user + Fixed(k.Pack() % Two64, Width64) }

  function ExtractUser(b: Bytes): Bytes { if |b| < 8 then b else b[..|b| - 8] }
  function ExtractPack(b: Bytes): nat { if |b| < 8 then 0 else Unfixed(b[|b| - 8..]) }

  /** CompareInternalKey(a, b) < 0 on encoded keys; shorter strings fall back to memcmp. */
  predicate BytesBefore(a: Bytes, b: Bytes) {
    if |a| < 8 || |b| < 8 then Less(a, b)
    else Less(ExtractUser(a), ExtractUser(b)) || (ExtractUser(a) == ExtractUser(b) && ExtractPack(a) > ExtractPack(b))
  }

  lemma {:induction false} ExtractKey(k: IKey)
    requires k.num < Two56
    ensures |EncodeKey(k)| >= 8 && ExtractUser(EncodeKey(k)) == k.user && ExtractPack(EncodeKey(k)) == k.Pack()
    ensures k.Pack() / 0x100 == k.num && (k.Pack() % 0x100 == 1 <==> k.kind.Put?)
  {
    var b := EncodeKey(k);
    Pow256Values();
    FixedRoundTrip(k.Pack(), 8);
    assert b[..|b| - 8] == k.user && b[|b| - 8..] == Fixed(k.Pack(), Width64);
  }

  /** Encoding keeps the order exactly, for sequences below 2^56. */
  lemma {:induction false} EncodeKeyOrder(a: IKey, b: IKey)
    requires a.num < Two56 && b.num < Two56
    ensures BytesBefore(EncodeKey(a), EncodeKey(b)) <==> Before(a, b)
    ensures EncodeKey(a) == EncodeKey(b) ==> a == b
  {
    ExtractKey(a);
    ExtractKey(b);
  }
}
