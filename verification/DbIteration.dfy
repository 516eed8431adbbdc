/** The user-key iterator: a merge over all layers that shows, in ascending order, exactly the live
    user keys at a snapshot with the values a read would give. */
module DbIteration {
  import opened Values
  import opened InternalKeys
  import opened Tables
  import opened Merging

  /** User keys from `user` on, or strictly after it. */
  datatype Bound = Bound(user: Bytes, strict: bool)

  predicate InBound(b: Bound, u: Bytes) { if b.strict then Less(b.user, u) else !Less(u, b.user) }

  const Everything := Bound([], false)

  /** Entry `j` of table `i`: ahead only if its user is in the bound, and surely ahead if it is also
      visible at the snapshot. */
  ghost predicate CoversAt(ts: seq<Table>, pos: seq<nat>, b: Bound, s: nat, i: nat, j: nat)
    requires |pos| == |ts|
  {
    i < |ts| && j < |ts[i]| ==>
      && (pos[i] <= j ==> InBound(b, ts[i][j].key.user))
      && (InBound(b, ts[i][j].key.user) && ts[i][j].key.num <= s ==> pos[i] <= j)
  }

  ghost predicate Covers(ts: seq<Table>, pos: seq<nat>, b: Bound, s: nat) {
    && Cursor(ts, pos)
    && forall i: nat, j: nat {:trigger CoversAt(ts, pos, b, s, i, j)} :: CoversAt(ts, pos, b, s, i, j)
  }

  /** The newest visible entry of the user is a value. */
  ghost predicate Live(ts: seq<Table>, s: nat, u: Bytes, v: Bytes) {
    exists e :: IsNewest(ts, u, s, e) && e.key.kind.Put? && e.value == v
  }

  ghost predicate Dead(ts: seq<Table>, s: nat, u: Bytes) {
    forall e | IsNewest(ts, u, s, e) :: e.key.kind.Deletion?
  }

  /** All users of `b` that are not in `c` are dead. */
  ghost predicate DeadBetween(ts: seq<Table>, s: nat, b: Bound, c: Bound) {
    forall u {:trigger Dead(ts, s, u)} | InBound(b, u) && !InBound(c, u) :: Dead(ts, s, u)
  }

  // ---- Facts about one position of the merge -----------------------------------------------------

  /** The least entry ahead, if visible, is the newest visible one of its user. */
  lemma {:induction false} HeadIsNewest(ts: seq<Table>, pos: seq<nat>, b: Bound, s: nat, best: nat)
    requires AllSorted(ts) && Covers(ts, pos, b, s) && best < |ts| && IsSmallest(ts, pos, best)
    requires ts[best][pos[best]].key.num <= s
    ensures var e := ts[best][pos[best]]; InBound(b, e.key.user) && IsNewest(ts, e.key.user, s, e)
  {
    var e := ts[best][pos[best]];
    assert CoversAt(ts, pos, b, s, best, pos[best]);
    assert e in ts[best];
    forall e' | InStack(ts, e') && Visible(e', e.key.user, s) ensures e'.key.num <= e.key.num {
      var i :| 0 <= i < |ts| && e' in ts[i];
      var j :| 0 <= j < |ts[i]| && ts[i][j] == e';
      assert CoversAt(ts, pos, b, s, i, j);
      SmallestAhead(ts, pos, best, i, j);
    }
  }

  /** No user of the bound below the least entry ahead has a visible entry. */
  lemma {:induction false} BelowHeadDead(ts: seq<Table>, pos: seq<nat>, b: Bound, s: nat, best: nat, u: Bytes)
    requires AllSorted(ts) && Covers(ts, pos, b, s) && best < |ts| && IsSmallest(ts, pos, best)
    requires InBound(b, u) && Less(u, ts[best][pos[best]].key.user)
    ensures Dead(ts, s, u)
  {
    forall e | InStack(ts, e) ensures !Visible(e, u, s) {
      var i :| 0 <= i < |ts| && e in ts[i];
      var j :| 0 <= j < |ts[i]| && ts[i][j] == e;
      assert CoversAt(ts, pos, b, s, i, j);
      if Visible(e, u, s) { SmallestAhead(ts, pos, best, i, j); }
    }
  }

  lemma {:induction false} NothingAheadDead(ts: seq<Table>, pos: seq<nat>, b: Bound, s: nat, u: Bytes)
    requires Covers(ts, pos, b, s) && IsSmallest(ts, pos, -1) && InBound(b, u)
    ensures Dead(ts, s, u)
  {
    forall e | InStack(ts, e) ensures !Visible(e, u, s) {
      var i :| 0 <= i < |ts| && e in ts[i];
      var j :| 0 <= j < |ts[i]| && ts[i][j] == e;
      assert CoversAt(ts, pos, b, s, i, j);
    }
  }

  /** Passing an entry that the snapshot cannot see changes nothing. */
  lemma {:induction false} PassInvisible(ts: seq<Table>, pos: seq<nat>, b: Bound, s: nat, best: nat)
    requires Covers(ts, pos, b, s) && best < |ts| && pos[best] < |ts[best]| && ts[best][pos[best]].key.num > s
    ensures Covers(ts, pos[best := pos[best] + 1], b, s)
  {
    var next := pos[best := pos[best] + 1];
    forall i: nat, j: nat ensures CoversAt(ts, next, b, s, i, j) { assert CoversAt(ts, pos, b, s, i, j); }
  }

  /** While the versions of `u` are skipped: nothing ahead is below `u`, and everything visible
      above it is ahead. */
  ghost predicate SkipAt(ts: seq<Table>, pos: seq<nat>, u: Bytes, s: nat, i: nat, j: nat)
    requires |pos| == |ts|
  {
    i < |ts| && j < |ts[i]| ==>
      && (pos[i] <= j ==> !Less(ts[i][j].key.user, u))
      && (Less(u, ts[i][j].key.user) && ts[i][j].key.num <= s ==> pos[i] <= j)
  }

  ghost predicate Skipping(ts: seq<Table>, pos: seq<nat>, u: Bytes, s: nat) {
    && Cursor(ts, pos)
    && forall i: nat, j: nat {:trigger SkipAt(ts, pos, u, s, i, j)} :: SkipAt(ts, pos, u, s, i, j)
  }

  lemma {:induction false} BoundUp(b: Bound, u: Bytes, w: Bytes)
    requires InBound(b, u) && Less(u, w)
    ensures InBound(b, w)
  {
    if b.strict {
      LessTransitive(b.user, u, w);
    } else if Less(w, b.user) {
      LessTransitive(u, w, b.user);
    }
  }

  lemma {:induction false} StartSkipping(ts: seq<Table>, pos: seq<nat>, b: Bound, s: nat, best: nat)
    requires AllSorted(ts) && Covers(ts, pos, b, s) && best < |ts| && IsSmallest(ts, pos, best)
    ensures Skipping(ts, pos[best := pos[best] + 1], ts[best][pos[best]].key.user, s)
  {
    var next, u := pos[best := pos[best] + 1], ts[best][pos[best]].key.user;
    assert CoversAt(ts, pos, b, s, best, pos[best]);
    forall i: nat, j: nat ensures SkipAt(ts, next, u, s, i, j) {
      assert CoversAt(ts, pos, b, s, i, j);
      if i < |ts| && j < |ts[i]| {
        if Ahead(ts, pos, i, j) { SmallestAhead(ts, pos, best, i, j); }
        if Less(u, ts[i][j].key.user) { BoundUp(b, u, ts[i][j].key.user); LessIrreflexive(u); }
      }
    }
  }

  lemma {:induction false} SkipOne(ts: seq<Table>, pos: seq<nat>, u: Bytes, s: nat, best: nat)
    requires Skipping(ts, pos, u, s) && best < |ts| && pos[best] < |ts[best]| && ts[best][pos[best]].key.user == u
    ensures Skipping(ts, pos[best := pos[best] + 1], u, s)
  {
    var next := pos[best := pos[best] + 1];
    LessIrreflexive(u);
    forall i: nat, j: nat ensures SkipAt(ts, next, u, s, i, j) { assert SkipAt(ts, pos, u, s, i, j); }
  }

  lemma {:induction false} SkipDone(ts: seq<Table>, pos: seq<nat>, u: Bytes, s: nat, best: int)
    requires AllSorted(ts) && Skipping(ts, pos, u, s) && IsSmallest(ts, pos, best)
    requires best >= 0 ==> ts[best][pos[best]].key.user != u
    ensures Covers(ts, pos, Bound(u, true), s)
  {
    forall i: nat, j: nat ensures CoversAt(ts, pos, Bound(u, true), s, i, j) {
      assert SkipAt(ts, pos, u, s, i, j);
      if i < |ts| && Ahead(ts, pos, i, j) {
        var h := ts[best][pos[best]].key.user;
        assert SkipAt(ts, pos, u, s, best, pos[best]);
        SmallestAhead(ts, pos, best, i, j);
        LessTotal(u, h);
        LessTotal(h, ts[i][j].key.user);
        if Less(h, ts[i][j].key.user) { LessTransitive(u, h, ts[i][j].key.user); }
      }
    }
  }

  /** The dead users so far, those below the entry just taken, and that entry's user if dead. */
  lemma {:induction false} DeadFurther(ts: seq<Table>, pos: seq<nat>, b: Bound, c: Bound, s: nat, best: nat)
    requires AllSorted(ts) && SeqUnique(ts) && Covers(ts, pos, c, s) && best < |ts| && IsSmallest(ts, pos, best)
    requires ts[best][pos[best]].key.num <= s && DeadBetween(ts, s, b, c)
    ensures forall u | InBound(b, u) && Less(u, ts[best][pos[best]].key.user) :: Dead(ts, s, u)
    ensures ts[best][pos[best]].key.kind.Deletion? ==> DeadBetween(ts, s, b, Bound(ts[best][pos[best]].key.user, true))
  {
    var e := ts[best][pos[best]];
    forall u | InBound(b, u) && Less(u, e.key.user) ensures Dead(ts, s, u) {
      if InBound(c, u) { BelowHeadDead(ts, pos, c, s, best, u); }
    }
    if e.key.kind.Deletion? {
      HeadIsNewest(ts, pos, c, s, best);
      forall u | InBound(b, u) && !Less(e.key.user, u) ensures Dead(ts, s, u) {
        LessTotal(u, e.key.user);
        if u == e.key.user {
          forall x | IsNewest(ts, u, s, x) ensures x.key.kind.Deletion? { NewestUnique(ts, u, s, e, x); }
        }
      }
    }
  }

  /** The iterator shows the least live user of `b`; what is left are the users after it. */
  ghost predicate ShowsFirst(ts: seq<Table>, s: nat, b: Bound, u: Bytes, v: Bytes) {
    && InBound(b, u) && Live(ts, s, u, v)
    && forall w {:trigger Dead(ts, s, w)} | InBound(b, w) && Less(w, u) :: Dead(ts, s, w)
  }

  ghost predicate AllDead(ts: seq<Table>, s: nat, b: Bound) {
    forall w {:trigger Dead(ts, s, w)} | InBound(b, w) :: Dead(ts, s, w)
  }

  /** The pairs listed so far are the live users of `b` that `c` leaves out. */
  ghost predicate Listing(ts: seq<Table>, s: nat, b: Bound, c: Bound, kvs: seq<(Bytes, Bytes)>, u: Bytes, v: Bytes) {
    (u, v) in kvs <==> InBound(b, u) && !InBound(c, u) && Live(ts, s, u, v)
  }

  ghost predicate Listed(ts: seq<Table>, s: nat, b: Bound, c: Bound, kvs: seq<(Bytes, Bytes)>) {
    && (forall i, j | 0 <= i < j < |kvs| :: Less(kvs[i].0, kvs[j].0))
    && (forall u, v {:trigger Listing(ts, s, b, c, kvs, u, v)} :: Listing(ts, s, b, c, kvs, u, v))
  }

  lemma {:induction false} LiveOnce(ts: seq<Table>, s: nat, u: Bytes, v: Bytes, w: Bytes)
    requires SeqUnique(ts) && Live(ts, s, u, v) && Live(ts, s, u, w)
    ensures v == w
  {
    var e :| IsNewest(ts, u, s, e) && e.key.kind.Put? && e.value == v;
    var f :| IsNewest(ts, u, s, f) && f.key.kind.Put? && f.value == w;
    NewestUnique(ts, u, s, e, f);
  }

  lemma {:induction false} ListOne(ts: seq<Table>, s: nat, b: Bound, c: Bound, kvs: seq<(Bytes, Bytes)>, u: Bytes,
      v: Bytes)
    requires SeqUnique(ts) && Listed(ts, s, b, c, kvs) && ShowsFirst(ts, s, c, u, v)
    requires c == b || (c.strict && InBound(b, c.user))
    ensures Listed(ts, s, b, Bound(u, true), kvs + [(u, v)]) && InBound(b, u)
  {
    if c != b { BoundUp(b, c.user, u); }
    forall w, x ensures Listing(ts, s, b, Bound(u, true), kvs + [(u, v)], w, x) {
      assert Listing(ts, s, b, c, kvs, w, x);
      LessTotal(w, u);
      LessIrreflexive(u);
      if w == u && Live(ts, s, u, x) { LiveOnce(ts, s, u, v, x); }
      if Less(w, u) && InBound(c, w) { assert Dead(ts, s, w); LessAsymmetric(w, u); }
      if Less(w, u) { LessAsymmetric(w, u); }
      if Less(u, w) { BoundUp(c, u, w); LessAsymmetric(u, w); }
    }
    forall i | 0 <= i < |kvs| ensures Less(kvs[i].0, u) {
      assert (kvs[i].0, kvs[i].1) in kvs && Listing(ts, s, b, c, kvs, kvs[i].0, kvs[i].1);
      LessTotal(kvs[i].0, u);
      if Less(u, kvs[i].0) { BoundUp(c, u, kvs[i].0); }
    }
  }

  class DbIterator {
    const ts: seq<Table>
    const snapshot: nat
    var pos: seq<nat>
    var current: int
    var valid: bool
    var userKey: Bytes
    var userValue: Bytes

    constructor (ts: seq<Table>, snapshot: nat)
      ensures this.ts == ts && this.snapshot == snapshot && Cursor(ts, pos) && IsSmallest(ts, pos, current) && !valid
    {
      this.ts, this.snapshot := ts, snapshot;
      pos := seq(|ts|, i requires 0 <= i < |ts| => |ts[i]|);
      current, valid, userKey, userValue := -1, false, [], [];
    }

    ghost predicate Placed()
      reads this
    {
      AllSorted(ts) && SeqUnique(ts) && Cursor(ts, pos) && IsSmallest(ts, pos, current)
    }

    method MergeNext()
      requires Placed() && current >= 0
      modifies `pos, `current
      ensures Placed() && pos == old(pos)[old(current) := old(pos)[old(current)] + 1]
      ensures Remaining(ts, pos) < Remaining(ts, old(pos))
    {
      RemainingDrops(ts, pos, current);
      pos := pos[current := pos[current] + 1];
      current := FindSmallest(ts, pos);
    }

    /** Pass the remaining versions of a user key. */
    method SkipUser(u: Bytes)
      requires Placed() && Skipping(ts, pos, u, snapshot)
      modifies `pos, `current
      ensures Placed() && Covers(ts, pos, Bound(u, true), snapshot) && Remaining(ts, pos) <= Remaining(ts, old(pos))
    {
      while current >= 0 && ts[current][pos[current]].key.user == u
        invariant Placed() && Skipping(ts, pos, u, snapshot) && Remaining(ts, pos) <= Remaining(ts, old(pos))
        decreases Remaining(ts, pos)
      {
        SkipOne(ts, pos, u, snapshot, current);
        MergeNext();
      }
      SkipDone(ts, pos, u, snapshot, current);
    }

    /** Take the visible entry the merge stands at and pass all versions of its user. */
    method TakeUser(ghost b: Bound, ghost c: Bound) returns (e: Entry)
      requires Placed() && Covers(ts, pos, c, snapshot) && DeadBetween(ts, snapshot, b, c)
      requires c == b || (c.strict && InBound(b, c.user))
      requires current >= 0 && ts[current][pos[current]].key.num <= snapshot
      modifies `pos, `current
      ensures Placed() && Covers(ts, pos, Bound(e.key.user, true), snapshot)
          && Remaining(ts, pos) < Remaining(ts, old(pos))
      ensures InBound(b, e.key.user) && IsNewest(ts, e.key.user, snapshot, e)
      ensures forall u {:trigger Dead(ts, snapshot, u)} | InBound(b, u) && Less(u, e.key.user) :: Dead(ts, snapshot, u)
      ensures e.key.kind.Deletion? ==> DeadBetween(ts, snapshot, b, Bound(e.key.user, true))
    {
      e := ts[current][pos[current]];
      HeadIsNewest(ts, pos, c, snapshot, current);
      DeadFurther(ts, pos, b, c, snapshot, current);
      StartSkipping(ts, pos, c, snapshot, current);
      if c != b { BoundUp(b, c.user, e.key.user); }
      MergeNext();
      SkipUser(e.key.user);
    }

    /** From users `b` on: stop at the first live one, or find none. */
    method Advance(ghost b: Bound)
      requires Placed() && Covers(ts, pos, b, snapshot)
      modifies this
      ensures Shows(b) && Remaining(ts, pos) <= Remaining(ts, old(pos))
      ensures valid ==> Remaining(ts, pos) < Remaining(ts, old(pos))
    {
      valid, userKey, userValue := false, [], [];
      ghost var c := b;
      while current >= 0
        invariant Placed() && Covers(ts, pos, c, snapshot) && DeadBetween(ts, snapshot, b, c) && !valid
        invariant c == b || (c.strict && InBound(b, c.user))
        invariant Remaining(ts, pos) <= Remaining(ts, old(pos))
        decreases Remaining(ts, pos)
      {
        if ts[current][pos[current]].key.num > snapshot {
          PassInvisible(ts, pos, c, snapshot, current);
          MergeNext();
          continue;
        }
        var e := TakeUser(b, c);
        if e.key.kind.Deletion? {
          c := Bound(e.key.user, true);
          continue;
        }
        userKey, userValue, valid := e.key.user, e.value, true;
        return;
      }
      forall w | InBound(b, w) ensures Dead(ts, snapshot, w) {
        if InBound(c, w) { NothingAheadDead(ts, pos, c, snapshot, w); }
      }
    }

    /** The iterator stands at the least live user of `b`, with the rest ahead; or there is none. */
    ghost predicate Shows(b: Bound)
      reads this
    {
      && Placed()
      && (valid ==> ShowsFirst(ts, snapshot, b, userKey, userValue) && Covers(ts, pos, Bound(userKey, true), snapshot))
      && (!valid ==> AllDead(ts, snapshot, b))
    }

    method SeekToFirst()
      requires AllSorted(ts) && SeqUnique(ts)
      modifies this
      ensures Shows(Everything)
    {
      pos := seq(|ts|, _ => 0);
      current := FindSmallest(ts, pos);
      forall i: nat, j: nat ensures CoversAt(ts, pos, Everything, snapshot, i, j) { }
      Advance(Everything);
    }

    method Seek(target: Bytes)
      requires AllSorted(ts) && SeqUnique(ts)
      modifies this
      ensures Shows(Bound(target, false))
    {
      var k := LookupKey(target, snapshot);
      pos := seq(|ts|, i requires 0 <= i < |ts| => Position(ts[i], k));
      current := FindSmallest(ts, pos);
      forall i: nat, j: nat ensures CoversAt(ts, pos, Bound(target, false), snapshot, i, j) {
        if i < |ts| && j < |ts[i]| {
          var key := ts[i][j].key;
          PositionSplits(ts[i], k, j);
          if key.user == target { LookupPosition(key, target, snapshot); LessIrreflexive(target); }
        }
      }
      Advance(Bound(target, false));
    }

    method Next(ghost b: Bound)
      requires Shows(b) && valid
      modifies this
      ensures Shows(Bound(old(userKey), true)) && Remaining(ts, pos) <= Remaining(ts, old(pos))
      ensures valid ==> Remaining(ts, pos) < Remaining(ts, old(pos))
    {
      Advance(Bound(userKey, true));
    }

    /** Step to the end: exactly the live users of the bound, ascending, with their values. */
    method Drain(ghost b: Bound) returns (kvs: seq<(Bytes, Bytes)>)
      requires Shows(b)
      modifies this
      ensures forall i, j | 0 <= i < j < |kvs| :: Less(kvs[i].0, kvs[j].0)
      ensures forall u, v :: (u, v) in kvs <==> InBound(b, u) && Live(ts, snapshot, u, v)
    {
      kvs := [];
      ghost var c := b;
      while valid
        invariant Shows(c) && (c == b || (c.strict && InBound(b, c.user)))
        invariant Listed(ts, snapshot, b, c, kvs)
        decreases Remaining(ts, pos), valid
      {
        ListOne(ts, snapshot, b, c, kvs, userKey, userValue);
        kvs := kvs + [(userKey, userValue)];
        ghost var was := c;
        c := Bound(userKey, true);
        Next(was);
      }
      forall u, v ensures (u, v) in kvs <==> InBound(b, u) && Live(ts, snapshot, u, v) {
        assert Listing(ts, snapshot, b, c, kvs, u, v);
        if InBound(c, u) { assert Dead(ts, snapshot, u); }
      }
    }
  }
}
