/** Sorted tables of entries (a memtable or the contents of an SSTable), the lookup in one of them,
    and the lookup through a stack of them from newest to oldest. */
module Tables {
  import opened Values
  import opened InternalKeys

  datatype Entry = Entry(key: IKey, value: Bytes)

  type Table = seq<Entry>

  ghost predicate Sorted(t: Table) {
    forall i, j | 0 <= i < j < |t| :: Before(t[i].key, t[j].key)
  }

  /** Index of the first entry that does not come before `k`. */
  function Position(t: Table, k: IKey): (r: nat)
    ensures r <= |t|
    ensures forall i | 0 <= i < r :: Before(t[i].key, k)
    ensures r < |t| ==> !Before(t[r].key, k)
  {
    if t == [] || !Before(t[0].key, k) then 0
    else 1 + Position(t[1..], k)
  }

  lemma {:induction false} PositionSplits(t: Table, k: IKey, i: nat)
    requires Sorted(t) && i < |t|
    ensures Before(t[i].key, k) <==> i < Position(t, k)
  {
    var r := Position(t, k);
    if r < i && Before(t[i].key, k) { BeforeTransitive(t[r].key, t[i].key, k); }
  }

  predicate Visible(e: Entry, user: Bytes, s: nat) { e.key.user == user && e.key.num <= s }

  /** MemTable::Get and SSTable::Get: seek to the lookup key, accept an entry of the same user. */
  function TableGet(t: Table, user: Bytes, s: nat): Option<Entry> {
    var i := Position(t, LookupKey(user, s));
    if i < |t| && t[i].key.user == user && t[i].key.num <= s then Some(t[i]) else None
  }

  lemma {:induction false} NotBetween(a: IKey, b: IKey)
    requires Before(a, b)
    ensures !Less(b.user, a.user)
  {
    LessTotal(a.user, b.user);
    LessIrreflexive(a.user);
    if Less(a.user, b.user) { LessAsymmetric(a.user, b.user); }
  }

  /** The lookup finds the newest visible entry of the user, if there is any. */
  lemma {:induction false} TableGetNewest(t: Table, user: Bytes, s: nat)
    requires Sorted(t)
    ensures TableGet(t, user, s).None? ==> forall e | e in t :: !Visible(e, user, s)
    ensures TableGet(t, user, s).Some? ==>
              var e := TableGet(t, user, s).value;
              && e in t && Visible(e, user, s)
              && forall e' | e' in t && Visible(e', user, s) :: e'.key.num <= e.key.num
  {
    var k := LookupKey(user, s);
    var i := Position(t, k);
    forall e | e in t && Visible(e, user, s)
      ensures i < |t| && t[i].key.user == user && t[i].key.num <= s && e.key.num <= t[i].key.num
    {
      var j :| 0 <= j < |t| && t[j] == e;
      LookupPosition(e.key, user, s);
      PositionSplits(t, k, j);
      if i < j {
        BeforeTotal(t[i].key, k);
        assert !Less(user, t[i].key.user) by { NotBetween(t[i].key, e.key); }
        LookupPosition(t[i].key, user, s);
      }
    }
  }

  // ---- A stack of tables, newest first ------------------------------------------------------

  function StackGet(ts: seq<Table>, user: Bytes, s: nat): Option<Entry> {
    if ts == [] then None
    else
      var r := TableGet(ts[0], user, s);
      if r.Some? then r else StackGet(ts[1..], user, s)
  }

  ghost predicate InStack(ts: seq<Table>, e: Entry) { exists i | 0 <= i < |ts| :: e in ts[i] }

  ghost predicate AllSorted(ts: seq<Table>) { forall i | 0 <= i < |ts| :: Sorted(ts[i]) }

  /** No entry of `a` is older than an entry of `b` for the same user key. */
  ghost predicate TableAbove(a: Table, b: Table) {
    forall e, e' | e in a && e' in b && e.key.user == e'.key.user :: e'.key.num <= e.key.num
  }

  /** No layer holds an older version of a user key than the layers below it. */
  ghost predicate Layered(ts: seq<Table>) {
    forall i, j {:trigger TableAbove(ts[i], ts[j])} | 0 <= i < j < |ts| :: TableAbove(ts[i], ts[j])
  }

  predicate Distinguished(e: Entry, e': Entry) { e.key.num == e'.key.num ==> e == e' }

  /** One sequence number, one entry. */
  ghost predicate SeqUnique(ts: seq<Table>) {
    forall e, e' {:trigger Distinguished(e, e')} | InStack(ts, e) && InStack(ts, e') :: Distinguished(e, e')
  }

  /** A well-formed stack whose sequence numbers go up to `limit`. */
  ghost predicate StackOk(ts: seq<Table>, limit: nat) {
    && AllSorted(ts) && Layered(ts) && SeqUnique(ts)
    && forall e | InStack(ts, e) :: e.key.num <= limit
  }

  ghost predicate IsNewest(ts: seq<Table>, user: Bytes, s: nat, e: Entry) {
    && InStack(ts, e) && Visible(e, user, s)
    && forall e' | InStack(ts, e') && Visible(e', user, s) :: e'.key.num <= e.key.num
  }

  lemma {:induction false} NewestUnique(ts: seq<Table>, user: Bytes, s: nat, e: Entry, e': Entry)
    requires SeqUnique(ts) && IsNewest(ts, user, s, e) && IsNewest(ts, user, s, e')
    ensures e == e'
  {
    assert Distinguished(e, e');
  }

  /** The layer walk that stops at the first hit finds the newest visible entry of all layers. */
  lemma {:induction false} StackGetNewest(ts: seq<Table>, user: Bytes, s: nat)
    requires AllSorted(ts) && Layered(ts)
    ensures StackGet(ts, user, s).None? ==> forall e | InStack(ts, e) :: !Visible(e, user, s)
    ensures StackGet(ts, user, s).Some? ==> IsNewest(ts, user, s, StackGet(ts, user, s).value)
  {
    if ts != [] {
      TableGetNewest(ts[0], user, s);
      var tail := ts[1..];
      forall e ensures InStack(ts, e) <==> e in ts[0] || InStack(tail, e) { StackCons(ts, e); }
      if TableGet(ts[0], user, s).None? {
        assert Layered(tail) by {
          forall i, j | 0 <= i < j < |tail| ensures TableAbove(tail[i], tail[j]) {
            assert TableAbove(ts[i + 1], ts[j + 1]);
          }
        }
        StackGetNewest(tail, user, s);
      } else {
        var e := TableGet(ts[0], user, s).value;
        forall e' | InStack(tail, e') && Visible(e', user, s) ensures e'.key.num <= e.key.num {
          var j :| 0 <= j < |tail| && e' in tail[j];
          assert TableAbove(ts[0], ts[j + 1]);
        }
      }
    }
  }

  lemma {:induction false} StackCons(ts: seq<Table>, e: Entry)
    requires ts != []
    ensures InStack(ts, e) <==> e in ts[0] || InStack(ts[1..], e)
  {
    if InStack(ts, e) {
      var i :| 0 <= i < |ts| && e in ts[i];
      if i > 0 { assert ts[1..][i - 1] == ts[i]; }
    }
    if InStack(ts[1..], e) {
      var i :| 0 <= i < |ts[1..]| && e in ts[1..][i];
      assert ts[i + 1] == ts[1..][i];
    }
  }

  /** Two stacks with the same newest entry for a user at a snapshot answer alike. */
  lemma {:induction false} SameAnswer(ts: seq<Table>, us: seq<Table>, user: Bytes, s: nat)
    requires AllSorted(ts) && Layered(ts) && AllSorted(us) && Layered(us) && SeqUnique(ts) && SeqUnique(us)
    requires forall e :: IsNewest(ts, user, s, e) ==> IsNewest(us, user, s, e)
    requires forall e | InStack(us, e) && Visible(e, user, s) :: exists e' :: InStack(ts, e') && Visible(e', user, s)
    ensures StackGet(ts, user, s) == StackGet(us, user, s)
  {
    StackGetNewest(ts, user, s);
    StackGetNewest(us, user, s);
    if StackGet(ts, user, s).Some? {
      var e := StackGet(ts, user, s).value;
      assert IsNewest(us, user, s, e);
      if StackGet(us, user, s).Some? { NewestUnique(us, user, s, e, StackGet(us, user, s).value); }
    }
  }
}
