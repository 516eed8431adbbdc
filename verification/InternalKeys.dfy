/** User keys under memcmp order, and internal keys: user key ascending, then sequence and type
    descending, so that the newest version of a user key comes first. */
module InternalKeys {
  import opened Values

  predicate Less(a: Bytes, b: Bytes)
    decreases |a|
  {
    if b == [] then false
    else if a == [] then true
    else if a[0] != b[0] then a[0] < b[0]
    else Less(a[1..], b[1..])
  }

  /** Lexicographic order: at the first place where the two differ the left byte is smaller, or the left
      string ends there and the right one goes on. */
  predicate ComesFirst(a: Bytes, b: Bytes) {
    exists n {:trigger a[..n]} | 0 <= n <= |a| && n < |b| :: a[..n] == b[..n] && (n == |a| || a[n] < b[n])
  }

  /** The byte comparison is the lexicographic order. */
  lemma {:induction false} LessMeans(a: Bytes, b: Bytes)
    ensures Less(a, b) <==> ComesFirst(a, b)
    decreases |a|
  {
    if b != [] && a == [] {
      assert a[..0] == b[..0];
    } else if b != [] && a[0] != b[0] {
      assert a[..0] == b[..0];
      forall n: nat | 0 < n <= |a| && n < |b| ensures a[..n] != b[..n] {
        assert a[..n][0] == a[0] && b[..n][0] == b[0];
      }
    } else if b != [] {
      var x, y := a[1..], b[1..];
      LessMeans(x, y);
      if ComesFirst(x, y) {
        var n :| 0 <= n <= |x| && n < |y| && x[..n] == y[..n] && (n == |x| || x[n] < y[n]);
        assert a[..n + 1] == [a[0]] + x[..n] && b[..n + 1] == [b[0]] + y[..n];
      }
      if ComesFirst(a, b) {
        var n :| 0 <= n <= |a| && n < |b| && a[..n] == b[..n] && (n == |a| || a[n] < b[n]);
        assert x[..n - 1] == a[..n][1..] && y[..n - 1] == b[..n][1..];
      }
    }
  }

  lemma {:induction false} LessIrreflexive(a: Bytes)
    ensures !Less(a, a)
    decreases |a|
  {
    if a != [] { LessIrreflexive(a[1..]); }
  }

  lemma {:induction false} LessTransitive(a: Bytes, b: Bytes, c: Bytes)
    requires Less(a, b) && Less(b, c)
    ensures Less(a, c)
    decreases |a|
  {
    if a != [] && a[0] == b[0] && b[0] == c[0] { LessTransitive(a[1..], b[1..], c[1..]); }
  }

  lemma {:induction false} LessTotal(a: Bytes, b: Bytes)
    ensures Less(a, b) || a == b || Less(b, a)
    decreases |a|
  {
    if a != [] && b != [] && a[0] == b[0] {
      LessTotal(a[1..], b[1..]);
      assert a == [a[0]] + a[1..] && b == [b[0]] + b[1..];
    }
  }

  lemma {:induction false} LessAsymmetric(a: Bytes, b: Bytes)
    requires Less(a, b)
    ensures a != b && !Less(b, a)
  {
    LessIrreflexive(a);
    if Less(b, a) { LessTransitive(a, b, a); }
  }

  datatype Kind = Deletion | Put

  datatype IKey = IKey(user: Bytes, num: nat, kind: Kind) {
    /** The sequence shifted over the type byte. */
    function Pack(): nat { num * 0x100 + if kind.Put? then 1 else 0 }
  }

  predicate Before(a: IKey, b: IKey) {
    Less(a.user, b.user) || (a.user == b.user && a.Pack() > b.Pack())
  }

  lemma {:induction false} BeforeTransitive(a: IKey, b: IKey, c: IKey)
    requires Before(a, b) && Before(b, c)
    ensures Before(a, c)
  {
    if Less(a.user, b.user) && Less(b.user, c.user) { LessTransitive(a.user, b.user, c.user); }
  }

  lemma {:induction false} BeforeTotal(a: IKey, b: IKey)
    ensures Before(a, b) || a == b || Before(b, a)
  {
    LessTotal(a.user, b.user);
  }

  lemma {:induction false} BeforeAsymmetric(a: IKey, b: IKey)
    requires Before(a, b)
    ensures a != b && !Before(b, a)
  {
    LessIrreflexive(a.user);
    if Less(a.user, b.user) { LessAsymmetric(a.user, b.user); }
    if Less(b.user, a.user) { LessAsymmetric(b.user, a.user); }
  }

  /** What a read of `user` at snapshot `s` looks for: no entry of the user at or below `s` comes
      before it. */
  function LookupKey(user: Bytes, s: nat): IKey { IKey(user, s, Put) }

  lemma {:induction false} LookupPosition(k: IKey, user: Bytes, s: nat)
    requires k.user == user
    ensures Before(k, LookupKey(user, s)) <==> k.num > s
  {
    LessIrreflexive(user);
  }
}
