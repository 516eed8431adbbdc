/** The order in which the store lists the row keys of a table: by encoded primary key. */
module KeyOrder {
  import opened InternalKeys
  import opened RowCodec
  import opened VersionStore

  predicate KeyBefore(a: RowKey, b: RowKey) { Less(EncodePk(a.pk), EncodePk(b.pk)) }

  ghost predicate KeyOrdered(ks: seq<RowKey>) {
    forall i, j {:trigger ks[i], ks[j]} | 0 <= i < j < |ks| :: !KeyBefore(ks[j], ks[i])
  }

  predicate IsFirst(ks: set<RowKey>, k: RowKey) { k in ks && forall j | j in ks :: !KeyBefore(j, k) }

  lemma {:induction false} KeyBeforeWeak(a: RowKey, b: RowKey, c: RowKey)
    requires !KeyBefore(b, a) && !KeyBefore(c, b)
    ensures !KeyBefore(c, a)
  {
    hide EncodePk;
    var x, y, z := EncodePk(a.pk), EncodePk(b.pk), EncodePk(c.pk);
    LessTotal(x, y);
    LessTotal(y, z);
    LessIrreflexive(x);
    if Less(x, y) {
      LessAsymmetric(x, y);
      if Less(y, z) { LessTransitive(x, y, z); LessAsymmetric(x, z); }
    } else if Less(y, z) {
      LessAsymmetric(y, z);
    }
  }

  /** A finite set of keys has a first one. */
  lemma {:induction false} HasFirst(ks: set<RowKey>)
    requires ks != {}
    ensures exists k :: IsFirst(ks, k)
    decreases |ks|
  {
    hide KeyBefore;
    var a :| a in ks;
    var rest := ks - {a};
    NotBeforeItself(a);
    if rest == {} {
      assert ks == {a} && IsFirst(ks, a);
    } else {
      HasFirst(rest);
      var b :| IsFirst(rest, b);
      if KeyBefore(a, b) {
        forall j | j in ks ensures !KeyBefore(j, a) {
          if j != a {
            assert j in rest;
            NotBoth(a, b);
            KeyBeforeWeak(a, b, j);
          }
        }
        assert IsFirst(ks, a);
      } else {
        assert IsFirst(ks, b);
      }
    }
  }

  lemma {:induction false} NotBeforeItself(a: RowKey)
    ensures !KeyBefore(a, a)
  {
    LessIrreflexive(EncodePk(a.pk));
  }

  lemma {:induction false} NotBoth(a: RowKey, b: RowKey)
    requires KeyBefore(a, b)
    ensures !KeyBefore(b, a)
  {
    LessAsymmetric(EncodePk(a.pk), EncodePk(b.pk));
  }

  /** The next key listed comes after those before it. */
  lemma {:induction false} OrderedSnoc(ks: seq<RowKey>, k: RowKey)
    requires KeyOrdered(ks) && forall j | j in ks :: !KeyBefore(k, j)
    ensures KeyOrdered(ks + [k])
  {
    hide KeyBefore;
    var all := ks + [k];
    forall i, j | 0 <= i < j < |all| ensures !KeyBefore(all[j], all[i]) {
      assert all[i] == ks[i] && ks[i] in ks;
      if j < |ks| { assert all[j] == ks[j]; }
    }
  }
}
