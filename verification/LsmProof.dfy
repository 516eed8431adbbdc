/** Every step of the engine keeps the layering invariant, and reads at the last sequence change
    only as a map would. */
module LsmProof {
  import opened Values
  import opened InternalKeys
  import opened Tables
  import opened LsmEngine

  // ---- Stacks -------------------------------------------------------------------------------

  lemma {:induction false} InStackConcat(a: seq<Table>, b: seq<Table>, e: Entry)
    ensures InStack(a + b, e) <==> InStack(a, e) || InStack(b, e)
  {
    if InStack(a + b, e) {
      var i :| 0 <= i < |a + b| && e in (a + b)[i];
      if i < |a| { assert e in a[i]; } else { assert e in b[i - |a|]; }
    }
    if InStack(a, e) {
      var i :| 0 <= i < |a| && e in a[i];
      assert e in (a + b)[i];
    }
    if InStack(b, e) {
      var i :| 0 <= i < |b| && e in b[i];
      assert e in (a + b)[|a| + i];
    }
  }

  /** Nothing below is newer than anything above, per user key. */
  ghost predicate Above(a: seq<Table>, b: seq<Table>) {
    forall i, j {:trigger TableAbove(a[i], b[j])} | 0 <= i < |a| && 0 <= j < |b| :: TableAbove(a[i], b[j])
  }

  lemma {:induction false} LayeredSplit(a: seq<Table>, b: seq<Table>)
    requires Layered(a + b)
    ensures Layered(a) && Layered(b) && Above(a, b)
  {
    var ab := a + b;
    forall i, j | 0 <= i < j < |a| ensures TableAbove(a[i], a[j]) { assert TableAbove(ab[i], ab[j]); }
    forall i, j | 0 <= i < j < |b| ensures TableAbove(b[i], b[j]) { assert TableAbove(ab[|a| + i], ab[|a| + j]); }
    forall i, j | 0 <= i < |a| && 0 <= j < |b| ensures TableAbove(a[i], b[j]) { assert TableAbove(ab[i], ab[|a| + j]); }
  }

  lemma {:induction false} LayeredJoin(a: seq<Table>, b: seq<Table>)
    requires Layered(a) && Layered(b) && Above(a, b)
    ensures Layered(a + b)
  {
    var ab := a + b;
    forall i, j | 0 <= i < j < |ab| ensures TableAbove(ab[i], ab[j]) {
      if j < |a| {
        assert TableAbove(a[i], a[j]);
      } else if i >= |a| {
        assert TableAbove(b[i - |a|], b[j - |a|]);
      } else {
        assert TableAbove(a[i], b[j - |a|]);
      }
    }
  }

  lemma {:induction false} InNewestFirst(fs: seq<File>, e: Entry)
    ensures InStack(NewestFirst(fs), e) <==> InFiles(fs, e)
  {
    if fs != [] {
      var f, init := fs[|fs| - 1], fs[..|fs| - 1];
      InNewestFirst(init, e);
      InStackConcat([f.entries], NewestFirst(init), e);
      assert InStack([f.entries], e) <==> e in f.entries by { if e in f.entries { assert e in [f.entries][0]; } }
      if InFiles(fs, e) {
        var g :| g in fs && e in g.entries;
        assert g in init || g == f;
      }
      if InFiles(init, e) {
        var g :| g in init && e in g.entries;
        assert g in fs;
      }
    }
  }

  lemma {:induction false} NewestFirstSorted(fs: seq<File>)
    ensures AllSorted(NewestFirst(fs)) <==> forall f | f in fs :: Sorted(f.entries)
  {
    if fs != [] {
      var f, init, ts := fs[|fs| - 1], fs[..|fs| - 1], NewestFirst(fs);
      NewestFirstSorted(init);
      assert ts[1..] == NewestFirst(init) && ts[0] == f.entries;
      assert forall g :: g in fs <==> g in init || g == f;
      if AllSorted(ts) {
        forall i | 0 <= i < |ts[1..]| ensures Sorted(ts[1..][i]) { assert Sorted(ts[i + 1]); }
      }
      if AllSorted(NewestFirst(init)) && Sorted(f.entries) {
        forall i | 0 <= i < |ts| ensures Sorted(ts[i]) { if i > 0 { assert ts[i] == ts[1..][i - 1]; } }
      }
    }
  }

  lemma {:induction false} NewestFirstSnoc(fs: seq<File>, f: File)
    ensures NewestFirst(fs + [f]) == [f.entries] + NewestFirst(fs)
  {
    assert (fs + [f])[..|fs|] == fs;
  }

  // ---- An immutable memtable that is also in level 0 changes no answer -----------------------

  lemma {:induction false} RepeatedTop(t: Table, rest: seq<Table>, user: Bytes, n: nat)
    ensures StackGet([t] + ([t] + rest), user, n) == StackGet([t] + rest, user, n)
    ensures StackGet([[]] + rest, user, n) == StackGet(rest, user, n)
  {
    assert ([t] + ([t] + rest))[1..] == [t] + rest;
    assert ([[]] + rest)[1..] == rest;
  }

  lemma {:induction false} SameBelow(t: Table, a: seq<Table>, b: seq<Table>, user: Bytes, n: nat)
    requires StackGet(a, user, n) == StackGet(b, user, n)
    ensures StackGet([t] + a, user, n) == StackGet([t] + b, user, n)
  {
    assert ([t] + a)[1..] == a && ([t] + b)[1..] == b;
  }

  lemma {:induction false} LayersAgree(s: Lsm, user: Bytes, n: nat)
    requires FlushOk(s)
    ensures StackGet(Layers(s), user, n) == StackGet(Stack(s), user, n)
  {
    if s.published {
      var t, l1 := s.imm.value, NewestFirst(s.l1);
      var files := NewestFirst(s.l0) + l1;
      assert Layers(s) == [s.mem] + ([t] + files) && Stack(s) == [s.mem] + files;
      if t != [] {
        var below := NewestFirst(s.l0[..|s.l0| - 1]) + l1;
        assert files == [t] + below;
        RepeatedTop(t, below, user, n);
      } else {
        RepeatedTop(t, files, user, n);
      }
      SameBelow(s.mem, [t] + files, files, user, n);
    }
  }

  lemma {:induction false} InLayers(s: Lsm, e: Entry)
    requires FlushOk(s)
    ensures InStack(Layers(s), e) <==> InStack(Stack(s), e)
  {
    var files := NewestFirst(s.l0) + NewestFirst(s.l1);
    InStackConcat([s.mem] + OfOption(s.imm), files, e);
    InStackConcat([s.mem], OfOption(s.imm), e);
    if s.published {
      assert Stack(s) == [s.mem] + files;
      InStackConcat([s.mem], files, e);
      InStackConcat(NewestFirst(s.l0), NewestFirst(s.l1), e);
      if InStack(OfOption(s.imm), e) {
        assert e in s.imm.value;
        assert NewestFirst(s.l0)[0] == s.imm.value;
        assert InStack(NewestFirst(s.l0), e);
      }
    }
  }

  // ---- Writes -----------------------------------------------------------------------------------

  lemma {:induction false} InsertSorted(t: Table, e: Entry)
    requires Sorted(t)
    ensures Sorted(Insert(t, e))
  {
    var i, r := Position(t, e.key), Insert(t, e);
    forall j | 0 <= j < |t| ensures Before(t[j].key, e.key) <==> j < i { PositionSplits(t, e.key, j); }
    forall j | i <= j < |t| ensures t[j].key == e.key || Before(e.key, t[j].key) { BeforeTotal(t[j].key, e.key); }
    if i < |t| && t[i].key == e.key {
    } else {
      forall j | i <= j < |t| ensures Before(e.key, t[j].key) {
        if i < j { BeforeTransitive(e.key, t[i].key, t[j].key); }
      }
      forall a, b | 0 <= a < b < |r| ensures Before(r[a].key, r[b].key) {
        var x := if a < i then t[a] else if a == i then e else t[a - 1];
        var y := if b < i then t[b] else if b == i then e else t[b - 1];
        assert r[a] == x && r[b] == y;
      }
    }
  }

  lemma {:induction false} InInsert(t: Table, e: Entry, x: Entry)
    requires forall y | y in t :: y.key != e.key
    ensures x in Insert(t, e) <==> x in t || x == e
  {
    var i := Position(t, e.key);
    assert Insert(t, e) == t[..i] + [e] + t[i..];
    assert t == t[..i] + t[i..];
  }

  /** A sorted top table with one more entry, newer than everything. */
  lemma {:induction false} WriteStackOk(m: Table, m': Table, below: seq<Table>, e: Entry, limit: nat)
    requires StackOk([m] + below, limit) && Sorted(m') && e.key.num == limit + 1
    requires forall x :: x in m' <==> x in m || x == e
    ensures StackOk([m'] + below, limit + 1)
    ensures forall x :: InStack([m'] + below, x) <==> InStack([m] + below, x) || x == e
  {
    var ts, us := [m] + below, [m'] + below;
    assert ts[1..] == below && us[1..] == below;
    forall x ensures InStack(us, x) <==> InStack(ts, x) || x == e { StackCons(ts, x); StackCons(us, x); }
    forall i | 0 <= i < |us| ensures Sorted(us[i]) { if i > 0 { assert us[i] == ts[i]; } }
    forall i, j | 0 <= i < j < |us| ensures TableAbove(us[i], us[j]) {
      assert TableAbove(ts[i], ts[j]) && us[j] == ts[j];
      forall y: Entry | y in us[j] ensures y.key.num <= limit { assert InStack(ts, y); }
    }
    forall x, y | InStack(us, x) && InStack(us, y) ensures Distinguished(x, y) {
      if x != e && y != e { assert Distinguished(x, y); }
    }
  }

  /** One more entry, newer than everything, changes the answer for its user key only. */
  lemma {:induction false} NewerEntryGet(ts: seq<Table>, us: seq<Table>, e: Entry, limit: nat, u: Bytes)
    requires StackOk(ts, limit) && StackOk(us, limit + 1) && e.key.num == limit + 1
    requires forall x :: InStack(us, x) <==> InStack(ts, x) || x == e
    ensures StackGet(us, u, limit + 1) == if u == e.key.user then Some(e) else StackGet(ts, u, limit)
  {
    StackGetNewest(ts, u, limit);
    StackGetNewest(us, u, limit + 1);
    var a, b := StackGet(ts, u, limit), StackGet(us, u, limit + 1);
    if u == e.key.user {
      assert IsNewest(us, u, limit + 1, e);
      NewestUnique(us, u, limit + 1, e, b.value);
    } else if a.Some? {
      assert IsNewest(us, u, limit + 1, a.value);
      NewestUnique(us, u, limit + 1, a.value, b.value);
    }
  }

  /** What is below the memtable. */
  function Below(s: Lsm): seq<Table> {
    (if s.published then [] else OfOption(s.imm)) + (NewestFirst(s.l0) + NewestFirst(s.l1))
  }

  lemma {:induction false} InsertFresh(s: Lsm, e: Entry)
    requires Inv(s) && e.key.num == s.lastSeq + 1
    ensures Sorted(s.mem) && Sorted(Insert(s.mem, e)) && forall x :: x in Insert(s.mem, e) <==> x in s.mem || x == e
  {
    assert Stack(s)[0] == s.mem;
    InsertSorted(s.mem, e);
    forall y | y in s.mem ensures y.key != e.key { assert InStack(Stack(s), y); }
    forall x ensures x in Insert(s.mem, e) <==> x in s.mem || x == e { InInsert(s.mem, e, x); }
  }

  lemma {:induction false} WriteTop(m: Table, m': Table, below: seq<Table>, e: Entry, limit: nat, u: Bytes)
    requires StackOk([m] + below, limit) && Sorted(m') && e.key.num == limit + 1
    requires forall x :: x in m' <==> x in m || x == e
    ensures StackOk([m'] + below, limit + 1)
    ensures StackGet([m'] + below, u, limit + 1) == if u == e.key.user then Some(e) else StackGet([m] + below, u, limit)
  {
    WriteStackOk(m, m', below, e, limit);
    NewerEntryGet([m] + below, [m'] + below, e, limit, u);
  }

  /** A write keeps the invariant and changes the answer for its key only. */
  lemma {:induction false} WriteKeeps(s: Lsm, user: Bytes, kind: Kind, value: Bytes, u: Bytes)
    requires Inv(s)
    ensures var s' := Write(s, user, kind, value);
            && Inv(s')
            && Get(s', u, s'.lastSeq) == if u == user then (if kind.Put? then Some(value) else None)
                else Get(s, u, s.lastSeq)
  {
    hide StackOk, StackGet, L1Ok, NumbersOk, NoEmptyFile, NewestFirst, LsmEngine.Insert;
    var e, s' := Entry(IKey(user, s.lastSeq + 1, kind), value), Write(s, user, kind, value);
    assert Stack(s) == [s.mem] + Below(s);
    assert Stack(s') == [s'.mem] + Below(s);
    assert StackOk(Stack(s'), s'.lastSeq)
           && StackGet(Stack(s'), u, s'.lastSeq) == if u == user then Some(e) else StackGet(Stack(s), u, s.lastSeq) by {
      InsertFresh(s, e);
      WriteTop(s.mem, s'.mem, Below(s), e, s.lastSeq, u);
    }
    LayersAgree(s, u, s.lastSeq);
    LayersAgree(s', u, s'.lastSeq);
  }

  // ---- Rotation and the two steps of a flush ------------------------------------------------------

  lemma {:induction false} EmptyTop(ts: seq<Table>, limit: nat)
    ensures StackOk(ts, limit) ==> StackOk([[]] + ts, limit)
    ensures forall e :: InStack([[]] + ts, e) <==> InStack(ts, e)
  {
    var us := [[]] + ts;
    assert us[1..] == ts;
    forall e ensures InStack(us, e) <==> InStack(ts, e) { StackCons(us, e); }
    if StackOk(ts, limit) {
      forall i | 0 <= i < |us| ensures Sorted(us[i]) { if i > 0 { assert us[i] == ts[i - 1]; } }
      forall i, j | 0 <= i < j < |us| ensures TableAbove(us[i], us[j]) {
        if i > 0 { assert TableAbove(ts[i - 1], ts[j - 1]); }
      }
      forall x, y | InStack(us, x) && InStack(us, y) ensures Distinguished(x, y) { }
    }
  }

  /** An empty table in second place. */
  lemma {:induction false} EmptySecond(m: Table, ts: seq<Table>, limit: nat)
    requires StackOk([m] + ([[]] + ts), limit)
    ensures StackOk([m] + ts, limit)
  {
    var a, b := [m] + ts, [m] + ([[]] + ts);
    forall i | 0 <= i < |a| ensures a[i] == b[if i == 0 then 0 else i + 1] { }
    forall i, j | 0 <= i < j < |a| ensures TableAbove(a[i], a[j]) {
      assert TableAbove(b[if i == 0 then 0 else i + 1], b[j + 1]);
    }
    forall e | InStack(a, e) ensures InStack(b, e) {
      var i :| 0 <= i < |a| && e in a[i];
      assert e in b[if i == 0 then 0 else i + 1];
    }
    forall x, y | InStack(a, x) && InStack(a, y) ensures Distinguished(x, y) { }
  }

  lemma {:induction false} RotateKeeps(s: Lsm, u: Bytes, n: nat)
    requires Inv(s) && s.imm.None?
    ensures Inv(Rotate(s)) && Get(Rotate(s), u, n) == Get(s, u, n)
  {
    var s' := Rotate(s);
    var files := NewestFirst(s.l0) + NewestFirst(s.l1);
    assert Stack(s) == [s.mem] + files && Layers(s) == Stack(s);
    assert Stack(s') == [[]] + Stack(s) && Layers(s') == Stack(s');
    assert Sorted(Stack(s)[0]);
    EmptyTop(Stack(s), s.lastSeq);
    RepeatedTop([], Stack(s), u, n);
  }

  lemma {:induction false} PublishKeeps(s: Lsm, u: Bytes, n: nat)
    requires Inv(s) && s.imm.Some? && !s.published
    ensures Inv(Publish(s)) && Get(Publish(s), u, n) == Get(s, u, n)
  {
    hide StackOk, StackGet, L1Ok, NumbersOk, NewestFirst;
    var s', t := Publish(s), s.imm.value;
    var files := NewestFirst(s.l0) + NewestFirst(s.l1);
    assert Stack(s) == [s.mem] + ([t] + files);
    if t == [] {
      assert Stack(s') == [s.mem] + files;
      EmptySecond(s.mem, files, s.lastSeq);
      RepeatedTop([], files, u, n);
      SameBelow(s.mem, [[]] + files, files, u, n);
    } else {
      NewestFirstSnoc(s.l0, File(s.nextFile, t));
      assert Stack(s') == Stack(s);
    }
    PublishNumbers(s);
    LayersAgree(s, u, n);
    LayersAgree(s', u, n);
  }

  lemma {:induction false} PublishNumbers(s: Lsm)
    requires s.imm.Some? && !s.published && NumbersOk(s.l0 + s.l1, s.nextFile)
    ensures NumbersOk(Publish(s).l0 + s.l1, s.nextFile + 1)
  {
    if s.imm.value != [] {
      var a, f := s.l0 + s.l1, File(s.nextFile, s.imm.value);
      var b := Publish(s).l0 + s.l1;
      forall i | 0 <= i < |b| ensures b[i].number < s.nextFile + 1 {
        assert b[i] == if i < |s.l0| then a[i] else if i == |s.l0| then f else a[i - 1];
      }
      forall i, j | 0 <= i < j < |b| ensures b[i].number != b[j].number {
        assert b[i] == if i < |s.l0| then a[i] else if i == |s.l0| then f else a[i - 1];
        assert b[j] == if j < |s.l0| then a[j] else if j == |s.l0| then f else a[j - 1];
      }
    }
  }

  lemma {:induction false} DropImmKeeps(s: Lsm, u: Bytes, n: nat)
    requires Inv(s) && s.published
    ensures Inv(DropImm(s)) && Get(DropImm(s), u, n) == Get(s, u, n)
  {
    assert Stack(DropImm(s)) == Stack(s);
    LayersAgree(s, u, n);
    LayersAgree(DropImm(s), u, n);
  }
}
