/** A key range is cut in the order of the encoded keys. Integers are encoded with the low byte first and
    strings after their length, so the range of a comparison is what the comparison says for a few bounds
    only: both booleans, the empty string and the single zero byte. */
module RangeScans {
  import opened Values
  import opened InternalKeys
  import opened Encoding
  import opened RowCodec
  import opened VersionStore
  import opened Expressions
  import opened Select

  ghost predicate All(b: Bytes, x: byte) { forall i | 0 <= i < |b| :: b[i] == x }

  lemma {:induction false} FixedZero(n: nat)
    ensures All(Fixed(0, n), 0)
  {
    if n > 0 { FixedZero(n - 1); }
  }

  lemma {:induction false} FixedTop(n: nat)
    ensures All(Fixed(Pow256(n) - 1, n), 0xFF)
  {
    if n > 0 {
      FixedTop(n - 1);
      var v := Pow256(n) - 1;
      assert v == 0x100 * (Pow256(n - 1) - 1) + 0xFF;
      assert v % 0x100 == 0xFF && v / 0x100 == Pow256(n - 1) - 1;
    }
  }

  lemma {:induction false} DigitOrder(a: nat, b: nat)
    requires a < 0x10 && b < 0x10
    ensures Digit(a) < Digit(b) <==> a < b
    ensures Digit(a) == Digit(b) <==> a == b
  {
  }

  /** Hex text orders byte strings as the bytes do. */
  lemma {:induction false} HexOrder(a: Bytes, b: Bytes)
    ensures Less(ToHex(a), ToHex(b)) <==> Less(a, b)
  {
    if a != [] && b != [] {
      var x, y := ToHex(a), ToHex(b);
      var i, j, k, l := a[0] / 0x10, a[0] % 0x10, b[0] / 0x10, b[0] % 0x10;
      HexOrder(a[1..], b[1..]);
      DigitOrder(i, k);
      DigitOrder(j, l);
      assert x[1..] == [Digit(j)] + ToHex(a[1..]) && y[1..] == [Digit(l)] + ToHex(b[1..]);
      assert x[1..][1..] == ToHex(a[1..]) && y[1..][1..] == ToHex(b[1..]);
      assert Less(x, y) <==> Digit(i) < Digit(k) || (i == k && Less(x[1..], y[1..]));
      assert Less(x[1..], y[1..]) <==> Digit(j) < Digit(l) || (j == l && Less(ToHex(a[1..]), ToHex(b[1..])));
    }
  }

  lemma {:induction false} TopIsLast(a: Bytes, b: Bytes)
    requires |a| == |b| && All(a, 0xFF)
    ensures !Less(a, b)
  {
    if a != [] { TopIsLast(a[1..], b[1..]); }
  }

  lemma {:induction false} ZeroIsFirst(a: Bytes, b: Bytes)
    requires |a| == |b| && All(a, 0)
    ensures Less(a, b) <==> a != b
  {
    LessTotal(a, b);
    LessIrreflexive(a);
    ZeroBelow(a, b);
  }

  lemma {:induction false} ZeroBelow(a: Bytes, b: Bytes)
    requires |a| == |b| && All(a, 0)
    ensures !Less(b, a)
  {
    if a != [] { ZeroBelow(a[1..], b[1..]); }
  }

  lemma {:induction false} KeyOrder(p: int64, c: int64)
    ensures Less(EncodePk(Int64(p)), EncodePk(Int64(c))) <==> Less(Fixed(Bits(p), Width64), Fixed(Bits(c), Width64))
  {
    hide Fixed, Bits, ToHex;
    var x, y := Fixed(Bits(p), Width64), Fixed(Bits(c), Width64);
    var a, b := EncodeValue(Int64(p)), EncodeValue(Int64(c));
    HexOrder(a, b);
    assert a == [1] + x && b == [1] + y && a[1..] == x && b[1..] == y;
  }

  /** In key order -1 comes last of all integers and 0 first. */
  lemma {:induction false} KeyEnds(c: int64)
    ensures !Less(EncodePk(Int64(-1)), EncodePk(Int64(c)))
    ensures Less(EncodePk(Int64(0)), EncodePk(Int64(c))) <==> c != 0
  {
    hide Fixed, Less, EncodePk;
    KeyOrder(-1, c);
    KeyOrder(0, c);
    FixedZero(Width64);
    FixedTop(Width64);
    Pow256Values();
    var b := Fixed(Bits(c), Width64);
    TopIsLast(Fixed(Bits(-1), Width64), b);
    ZeroIsFirst(Fixed(Bits(0), Width64), b);
    Word64(Bits(c));
    Word64(0);
  }

  // ---- Strings: the length decides before the contents --------------------------------------------

  /** Less by a byte inside both, so whatever follows does not matter. */
  ghost predicate Strictly(a: Bytes, b: Bytes)
    decreases |a|
  {
    a != [] && b != [] && (a[0] < b[0] || (a[0] == b[0] && Strictly(a[1..], b[1..])))
  }

  lemma {:induction false} StrictlyExtends(a: Bytes, b: Bytes, x: Bytes, y: Bytes)
    requires Strictly(a, b)
    ensures Less(a + x, b + y) && !Less(b + y, a + x)
    decreases |a|
  {
    assert (a + x)[1..] == a[1..] + x && (b + y)[1..] == b[1..] + y;
    if a[0] == b[0] { StrictlyExtends(a[1..], b[1..], x, y); }
  }

  lemma {:induction false} StrKeyOrder(p: Bytes, c: Bytes)
    ensures Less(EncodePk(Str(p)), EncodePk(Str(c))) <==> Less(LengthPrefixed(p), LengthPrefixed(c))
  {
    hide LengthPrefixed, ToHex;
    var a, b := EncodeValue(Str(p)), EncodeValue(Str(c));
    HexOrder(a, b);
    assert a[1..] == LengthPrefixed(p) && b[1..] == LengthPrefixed(c);
  }

  /** The length whose varint comes last among those that fit. */
  function TopLength(k: nat): (r: nat)
    ensures k > 0 ==> r >= 0x80 && r % 0x80 == 0x7F && r / 0x80 == TopLength(k - 1)
  {
    if k == 0 then 14 else 0x80 * TopLength(k - 1) + 0x7F
  }

  lemma {:induction false} TopValue()
    ensures TopLength(4) == 0xEFFF_FFFF && 16 * Pow128(4) == Two32
  {
    assert TopLength(1) == 0x77F && TopLength(2) == 0x3_BFFF && TopLength(3) == 0x1DF_FFFF;
    assert Pow128(1) == 0x80 && Pow128(2) == 0x4000 && Pow128(3) == 0x20_0000;
  }

  lemma {:induction false} VarintParts(n: nat)
    ensures n < 0x80 ==> Varint(n) == [n]
    ensures n >= 0x80 ==> Varint(n)[0] == n % 0x80 + 0x80 && Varint(n)[1..] == Varint(n / 0x80)
  {
  }

  lemma {:induction false} StrictlyFrom(a: Bytes, b: Bytes)
    requires a != [] && b != [] && (a[0] < b[0] || (a[0] == b[0] && Strictly(a[1..], b[1..])))
    ensures Strictly(a, b)
  {
  }

  lemma {:induction false} TopStep(n: nat, p: nat, t: nat)
    requires n < 16 * (0x80 * p) - 1 && n % 0x80 == 0x7F && n != 0x80 * t + 0x7F
    ensures n / 0x80 < 16 * p - 1 && n / 0x80 != t
  {
  }

  lemma {:induction false} TopUnfold(k: nat)
    ensures k == 0 ==> Pow128(k) == 1 && TopLength(k) == 14
    ensures k > 0 ==> Pow128(k) == 0x80 * Pow128(k - 1) && TopLength(k) == 0x80 * TopLength(k - 1) + 0x7F
  {
  }

  /** A first byte below 0xFF decides. */
  lemma {:induction false} BelowTop(n: nat, t: nat)
    requires t >= 0x80 && t % 0x80 == 0x7F && (n < 0x80 || n % 0x80 < 0x7F)
    ensures Strictly(Varint(n), Varint(t))
  {
    hide Varint, Strictly;
    VarintParts(n);
    VarintParts(t);
    StrictlyFrom(Varint(n), Varint(t));
  }

  lemma {:induction false} SameFirst(n: nat, t: nat)
    requires n >= 0x80 && t >= 0x80 && n % 0x80 == t % 0x80 && Strictly(Varint(n / 0x80), Varint(t / 0x80))
    ensures Strictly(Varint(n), Varint(t))
  {
    hide Varint, Strictly;
    VarintParts(n);
    VarintParts(t);
    StrictlyFrom(Varint(n), Varint(t));
  }

  lemma {:induction false} TopIsGreatest(n: nat, k: nat)
    requires n < 16 * Pow128(k) - 1 && n != TopLength(k)
    ensures Strictly(Varint(n), Varint(TopLength(k)))
    decreases k
  {
    hide Varint, Strictly, Pow128, TopLength;
    var t := TopLength(k);
    TopUnfold(k);
    if k == 0 {
      VarintParts(n);
      VarintParts(t);
      StrictlyFrom(Varint(n), Varint(t));
    } else if n >= 0x80 && n % 0x80 == 0x7F {
      TopStep(n, Pow128(k - 1), TopLength(k - 1));
      TopIsGreatest(n / 0x80, k - 1);
      SameFirst(n, t);
    } else {
      BelowTop(n, t);
    }
  }

  /** Key order and value order give different answers on `p`. */
  ghost predicate Apart(p: Value, c: Value) {
    && p.Type() == c.Type() && Fits(p)
    && Less(EncodePk(p), EncodePk(c)) != (Order(p, c) < 0)
  }

  lemma {:induction false} ApartByLength(p: Bytes, c: Bytes)
    requires |p| < Two32 - 0x10 && |c| < Two32
    requires (Strictly(Varint(|p|), Varint(|c|)) && Less(c, p)) || (Strictly(Varint(|c|), Varint(|p|)) && Less(p, c))
    ensures Apart(Str(p), Str(c))
  {
    hide EncodePk, Varint, Strictly;
    StrKeyOrder(p, c);
    assert |p| % Two32 == |p| && |c| % Two32 == |c|;
    if Strictly(Varint(|p|), Varint(|c|)) && Less(c, p) {
      LessAsymmetric(c, p);
      StrictlyExtends(Varint(|p|), Varint(|c|), p, c);
    } else {
      StrictlyExtends(Varint(|c|), Varint(|p|), c, p);
    }
  }

  lemma {:induction false} RepeatLess(c: Bytes, n: nat, x: byte)
    requires c != [] && ((x == 0 && c[0] > 0) || (x == 0xFF && n > |c|))
    ensures x == 0 && n > 0 ==> Less(seq(n, _ => x), c)
    ensures x == 0xFF ==> Less(c, seq(n, _ => x))
    decreases |c|
  {
    var r := seq(n, _ => x);
    if x == 0xFF {
      assert r[1..] == seq(n - 1, _ => x);
      if |c| > 1 { RepeatLess(c[1..], n - 1, x); } else { assert c[1..] == [] && Less([], r[1..]); }
    }
  }

  /** A string bound other than the empty string and the single zero byte has a key on which the two
      orders differ. */
  lemma {:induction false} StrApart(c: Bytes) returns (p: Bytes)
    requires |c| < Two32 - 0x10 && c != [] && c != [0]
    ensures Apart(Str(p), Str(c))
  {
    hide Apart, Strictly, TopLength;
    var top := TopLength(4);
    TopValue();
    if |c| == 1 {
      p := [0, 0];
      ShortVarints(2);
      assert c[0] > 0 && Less(p, c);
    } else if c[0] < 0xFF {
      p := [0xFF];
      ShortVarints(|c|);
    } else if |c| != top {
      p := seq(top, _ => 0);
      RepeatLess(c, top, 0);
      TopIsGreatest(|c|, 4);
    } else {
      p := seq(top + 1, _ => 0xFF);
      RepeatLess(c, top + 1, 0xFF);
      NextVarint(top);
    }
    ApartByLength(p, c);
  }

  lemma {:induction false} ShortVarints(n: nat)
    requires n >= 2
    ensures Strictly(Varint(1), Varint(n))
  {
  }

  lemma {:induction false} NextVarint(n: nat)
    requires n >= 0x80 && n % 0x80 == 0x7F
    ensures Strictly(Varint(n + 1), Varint(n))
  {
    assert (n + 1) % 0x80 == 0;
  }

  // ---- Which bounds are exact ------------------------------------------------------------------------

  /** Bounds whose range is what the comparison says: both booleans, and two strings. */
  predicate ExactBound(c: Value) { c.Bool? || (c.Str? && (c.s == [] || c.s == [0])) }

  lemma {:induction false} StrExact(p: Bytes, c: Bytes)
    requires |p| < Two32 && (c == [] || c == [0])
    ensures Less(EncodePk(Str(p)), EncodePk(Str(c))) <==> Less(p, c)
  {
    hide EncodePk;
    StrKeyOrder(p, c);
    assert |p| % Two32 == |p|;
    var a, b := LengthPrefixed(p), LengthPrefixed(c);
    assert a == Varint(|p|) + p && b == [|c|] + c && a[0] == Varint(|p|)[0];
    assert b[1..] == c;
    if |p| < 0x80 { assert a == [|p|] + p && a[1..] == p; }
    if p != [] { assert c == [0] ==> (Less(p, c) <==> p[0] == 0 && Less(p[1..], [])); }
  }

  lemma {:induction false} BoolExact(p: bool, c: bool)
    ensures Less(EncodePk(Bool(p)), EncodePk(Bool(c))) <==> !p && c
  {
    hide ToHex;
    var a, b := EncodeValue(Bool(p)), EncodeValue(Bool(c));
    HexOrder(a, b);
    assert a[1..] == [if p then 1 else 0] && b[1..] == [if c then 1 else 0];
    var x, y: Bytes := a[1..], b[1..];
    assert Less(a, b) <==> Less(x, y);
    assert Less(x, y) <==> x[0] < y[0] || (x[0] == y[0] && Less(x[1..], y[1..]));
    assert y[1..] == [] && EncodePk(Bool(p)) == ToHex(a) && EncodePk(Bool(c)) == ToHex(b);
  }

  lemma {:induction false} ExactEverywhere(p: Value, c: Value)
    requires ExactBound(c) && p.Type() == c.Type() && Fits(p)
    ensures !Apart(p, c)
  {
    hide EncodePk;
    if c.Bool? {
      BoolExact(p.b, c.b);
    } else {
      StrExact(p.s, c.s);
      LessTotal(p.s, c.s);
      LessIrreflexive(c.s);
    }
  }

  /** Every bound that is not exact has a key that shows it. For integers: -1 for bounds from 0 on, whose
      key comes last of all, and 0 below, whose key comes first. */
  lemma {:induction false} InexactWitness(c: Value) returns (p: Value)
    requires !c.Null? && Fits(c) && !ExactBound(c)
    ensures Apart(p, c)
  {
    hide EncodePk;
    if c.Int64? {
      p := Int64(if c.i >= 0 then -1 else 0);
      KeyEnds(c.i);
    } else {
      var s := StrApart(c.s);
      p := Str(s);
    }
  }

  predicate Keeps(op: CmpOp, p: Value, c: Value) { CompareValues(op, p, c) == Some(Bool(true)) }

  /** A key tells `pk >= c` and `pk < c` from their ranges exactly where the orders differ. */
  lemma {:induction false} ApartMeans(table: Bytes, p: Value, c: Value)
    requires p.Type() == c.Type() && !c.Null? && Fits(p)
    ensures InKeyRange(RowKey(table, p), Some(c), None) != Keeps(Ge, p, c) <==> Apart(p, c)
    ensures InKeyRange(RowKey(table, p), None, Some(c)) != Keeps(Lt, p, c) <==> Apart(p, c)
  {
    hide EncodePk;
  }

  /** A range is its comparison, on all keys of the type, if and only if the bound is exact. */
  lemma {:induction false} RangeExactIff(table: Bytes, c: Value)
    requires !c.Null? && Fits(c)
    ensures (forall p: Value | p.Type() == c.Type() && Fits(p) ::
               InKeyRange(RowKey(table, p), Some(c), None) == Keeps(Ge, p, c)) <==> ExactBound(c)
    ensures (forall p: Value | p.Type() == c.Type() && Fits(p) ::
               InKeyRange(RowKey(table, p), None, Some(c)) == Keeps(Lt, p, c)) <==> ExactBound(c)
  {
    hide Apart, ExactBound, InKeyRange, Keeps, Fits;
    if ExactBound(c) {
      forall p: Value | p.Type() == c.Type() && Fits(p)
        ensures InKeyRange(RowKey(table, p), Some(c), None) == Keeps(Ge, p, c)
        ensures InKeyRange(RowKey(table, p), None, Some(c)) == Keeps(Lt, p, c)
      {
        ExactEverywhere(p, c);
        ApartMeans(table, p, c);
      }
    } else {
      var p := InexactWitness(c);
      ApartFits(p, c);
      ApartMeans(table, p, c);
    }
  }

  lemma {:induction false} ApartFits(p: Value, c: Value)
    requires Apart(p, c)
    ensures p.Type() == c.Type() && Fits(p)
  {
  }

  /** For every integer bound there is a key on which `pk >= c` and its range disagree, and the same for
      `pk < c`. */
  lemma {:induction false} RangePlanUnsound(table: Bytes, c: int64)
    ensures var p := Int64(if c >= 0 then -1 else 0);
            && InKeyRange(RowKey(table, p), Some(Int64(c)), None) != Keeps(Ge, p, Int64(c))
            && InKeyRange(RowKey(table, p), None, Some(Int64(c))) != Keeps(Lt, p, Int64(c))
  {
    hide EncodePk;
    KeyEnds(c);
  }

  /** The same for a string: two zero bytes are below the byte 1, but their key is above its key. */
  lemma {:induction false} StringRangeUnsound(table: Bytes)
    ensures var p, c := Str([0, 0]), Str([1]);
            && InKeyRange(RowKey(table, p), Some(c), None) != Keeps(Ge, p, c)
            && InKeyRange(RowKey(table, p), None, Some(c)) != Keeps(Lt, p, c)
  {
    hide EncodePk, Apart, Strictly;
    ShortVarints(2);
    assert Less([0, 0], [1]);
    ApartByLength([0, 0], [1]);
    ApartMeans(table, Str([0, 0]), Str([1]));
  }
}
