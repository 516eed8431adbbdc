/** Merging sorted tables: the cursor that always stands at the least internal key, and the
    compaction loop that keeps the newest entry of every user key. */
module Merging {
  import opened Values
  import opened InternalKeys
  import opened Tables
  import opened LsmEngine

  /** One position per table. */
  ghost predicate Cursor(ts: seq<Table>, pos: seq<nat>) {
    |pos| == |ts| && forall i | 0 <= i < |ts| :: pos[i] <= |ts[i]|
  }

  /** Entry `j` of table `i` has not been passed. */
  predicate Ahead(ts: seq<Table>, pos: seq<nat>, i: nat, j: nat)
    requires |pos| == |ts| && i < |ts|
  {
    pos[i] <= j < |ts[i]|
  }

  function Remaining(ts: seq<Table>, pos: seq<nat>): nat
    requires Cursor(ts, pos)
  {
    if ts == [] then 0 else |ts[0]| - pos[0] + Remaining(ts[1..], pos[1..])
  }

  lemma {:induction false} RemainingDrops(ts: seq<Table>, pos: seq<nat>, i: nat)
    requires Cursor(ts, pos) && i < |ts| && pos[i] < |ts[i]|
    ensures Cursor(ts, pos[i := pos[i] + 1]) && Remaining(ts, pos[i := pos[i] + 1]) < Remaining(ts, pos)
  {
    var next := pos[i := pos[i] + 1];
    if i > 0 {
      RemainingDrops(ts[1..], pos[1..], i - 1);
      assert next[1..] == pos[1..][i - 1 := pos[i] + 1];
    } else {
      assert next[1..] == pos[1..];
    }
  }

  /** `best` is the table whose next entry is least, or -1 when all are exhausted. */
  ghost predicate IsSmallest(ts: seq<Table>, pos: seq<nat>, best: int)
    requires Cursor(ts, pos)
  {
    && -1 <= best < |ts|
    && (best == -1 ==> forall i | 0 <= i < |ts| :: pos[i] == |ts[i]|)
    && (best >= 0 ==>
          && pos[best] < |ts[best]|
          && forall i | 0 <= i < |ts| && pos[i] < |ts[i]| :: !Before(ts[i][pos[i]].key, ts[best][pos[best]].key))
  }

  /** The next entry of table `best` is strictly before those of the first `n` tables: of equal entries the
      first table's is taken. */
  ghost predicate Earlier(ts: seq<Table>, pos: seq<nat>, n: nat, best: nat)
    requires Cursor(ts, pos) && n <= |ts| && best < |ts| && pos[best] < |ts[best]|
  {
    forall i | 0 <= i < n && pos[i] < |ts[i]| :: Before(ts[best][pos[best]].key, ts[i][pos[i]].key)
  }

  lemma {:induction false} FirstOfTies(ts: seq<Table>, pos: seq<nat>, n: nat, best: nat)
    requires Cursor(ts, pos) && n < |ts| && best < |ts| && pos[n] < |ts[n]| && pos[best] < |ts[best]|
    requires Before(ts[n][pos[n]].key, ts[best][pos[best]].key)
    requires forall i | 0 <= i < n && pos[i] < |ts[i]| :: !Before(ts[i][pos[i]].key, ts[best][pos[best]].key)
    ensures Earlier(ts, pos, n, n)
  {
    forall i | 0 <= i < n && pos[i] < |ts[i]| ensures Before(ts[n][pos[n]].key, ts[i][pos[i]].key) {
      BeforeTotal(ts[i][pos[i]].key, ts[best][pos[best]].key);
      if Before(ts[best][pos[best]].key, ts[i][pos[i]].key) {
        BeforeTransitive(ts[n][pos[n]].key, ts[best][pos[best]].key, ts[i][pos[i]].key);
      }
    }
  }

  method FindSmallest(ts: seq<Table>, pos: seq<nat>) returns (best: int)
    requires Cursor(ts, pos)
    ensures IsSmallest(ts, pos, best)
    ensures best >= 0 ==> Earlier(ts, pos, best, best)
  {
    best := -1;
    for n := 0 to |ts|
      invariant -1 <= best < n
      invariant best == -1 ==> forall i | 0 <= i < n :: pos[i] == |ts[i]|
      invariant best >= 0 ==> pos[best] < |ts[best]|
      invariant best >= 0 ==> forall i | 0 <= i < n && pos[i] < |ts[i]| ::
          !Before(ts[i][pos[i]].key, ts[best][pos[best]].key)
      invariant best >= 0 ==> Earlier(ts, pos, best, best)
    {
      if pos[n] == |ts[n]| { continue; }
      if best < 0 || Before(ts[n][pos[n]].key, ts[best][pos[best]].key) {
        if best >= 0 {
          NoneBeforeLesser(ts, pos, n, best);
          FirstOfTies(ts, pos, n, best);
        }
        BeforeIrreflexive(ts[n][pos[n]].key);
        best := n;
      }
    }
  }

  lemma {:induction false} BeforeIrreflexive(k: IKey)
    ensures !Before(k, k)
  {
    LessIrreflexive(k.user);
  }

  lemma {:induction false} NoneBeforeLesser(ts: seq<Table>, pos: seq<nat>, n: nat, best: nat)
    requires Cursor(ts, pos) && n < |ts| && best < |ts| && pos[n] < |ts[n]| && pos[best] < |ts[best]|
    requires Before(ts[n][pos[n]].key, ts[best][pos[best]].key)
    requires forall i | 0 <= i < n && pos[i] < |ts[i]| :: !Before(ts[i][pos[i]].key, ts[best][pos[best]].key)
    ensures forall i | 0 <= i < n && pos[i] < |ts[i]| :: !Before(ts[i][pos[i]].key, ts[n][pos[n]].key)
  {
    forall i | 0 <= i < n && pos[i] < |ts[i]| ensures !Before(ts[i][pos[i]].key, ts[n][pos[n]].key) {
      if Before(ts[i][pos[i]].key, ts[n][pos[n]].key) {
        BeforeTransitive(ts[i][pos[i]].key, ts[n][pos[n]].key, ts[best][pos[best]].key);
      }
    }
  }

  /** The least head is least among everything ahead. */
  lemma {:induction false} SmallestAhead(ts: seq<Table>, pos: seq<nat>, best: nat, i: nat, j: nat)
    requires Cursor(ts, pos) && AllSorted(ts) && best < |ts| && IsSmallest(ts, pos, best)
    requires i < |ts| && Ahead(ts, pos, i, j)
    ensures !Before(ts[i][j].key, ts[best][pos[best]].key)
    ensures !Less(ts[i][j].key.user, ts[best][pos[best]].key.user)
  {
    var h, b, k := ts[i][pos[i]].key, ts[best][pos[best]].key, ts[i][j].key;
    if Before(k, b) && pos[i] < j {
      assert Sorted(ts[i]);
      BeforeTransitive(h, k, b);
    }
  }

  // ---- The compaction loop --------------------------------------------------------------------

  /** What the loop has passed is covered by the output, and comes before what is ahead. */
  ghost predicate PassedOk(ts: seq<Table>, pos: seq<nat>, out: Table, i: nat, j: nat)
    requires |pos| == |ts|
  {
    i < |ts| && j < |ts[i]| && j < pos[i] ==>
      Covered(out, ts[i][j]) && forall o | o in out :: NotNewer(ts[i][j], o)
  }

  ghost predicate AheadOk(ts: seq<Table>, pos: seq<nat>, out: Table, i: nat, j: nat)
    requires |pos| == |ts|
  {
    i < |ts| && Ahead(ts, pos, i, j) ==> forall o | o in out :: !Before(ts[i][j].key, o.key)
  }

  ghost predicate MergedSoFar(ts: seq<Table>, pos: seq<nat>, out: Table) {
    && Cursor(ts, pos)
    && (forall i, j | 0 <= i < j < |out| :: Less(out[i].key.user, out[j].key.user))
    && (forall e | e in out :: InStack(ts, e))
    && (forall i: nat, j: nat {:trigger PassedOk(ts, pos, out, i, j)} :: PassedOk(ts, pos, out, i, j))
    && (forall i: nat, j: nat {:trigger AheadOk(ts, pos, out, i, j)} :: AheadOk(ts, pos, out, i, j))
  }

  /** A further version of the last emitted user key is passed over. */
  lemma {:induction false} PassOver(ts: seq<Table>, pos: seq<nat>, out: Table, best: nat)
    requires AllSorted(ts) && MergedSoFar(ts, pos, out) && best < |ts| && IsSmallest(ts, pos, best)
    requires out != [] && out[|out| - 1].key.user == ts[best][pos[best]].key.user
    ensures MergedSoFar(ts, pos[best := pos[best] + 1], out)
  {
    var next, e := pos[best := pos[best] + 1], ts[best][pos[best]];
    assert AheadOk(ts, pos, out, best, pos[best]);
    forall i: nat, j: nat ensures PassedOk(ts, next, out, i, j) {
      assert PassedOk(ts, pos, out, i, j);
      if i == best && j == pos[best] {
        assert out[|out| - 1] in out;
        assert Covered(out, e);
        forall o | o in out ensures NotNewer(e, o) { }
      }
    }
    forall i: nat, j: nat ensures AheadOk(ts, next, out, i, j) { assert AheadOk(ts, pos, out, i, j); }
  }

  /** A new user key: emit its first, newest entry. */
  lemma {:induction false} Emit(ts: seq<Table>, pos: seq<nat>, out: Table, best: nat)
    requires AllSorted(ts) && MergedSoFar(ts, pos, out) && best < |ts| && IsSmallest(ts, pos, best)
    requires out != [] ==> out[|out| - 1].key.user != ts[best][pos[best]].key.user
    ensures MergedSoFar(ts, pos[best := pos[best] + 1], out + [ts[best][pos[best]]])
  {
    var next, e := pos[best := pos[best] + 1], ts[best][pos[best]];
    var out' := out + [e];
    assert AheadOk(ts, pos, out, best, pos[best]);
    if out != [] {
      assert out[|out| - 1] in out;
      LessTotal(out[|out| - 1].key.user, e.key.user);
    }
    forall o | o in out ensures Less(o.key.user, e.key.user) {
      var n :| 0 <= n < |out| && out[n] == o;
      if n < |out| - 1 { LessTransitive(o.key.user, out[|out| - 1].key.user, e.key.user); }
    }
    assert e in ts[best];
    forall i: nat, j: nat ensures PassedOk(ts, next, out', i, j) {
      assert PassedOk(ts, pos, out, i, j);
      if i == best && j == pos[best] {
        assert e in out';
        forall o | o in out ensures NotNewer(e, o) { LessIrreflexive(e.key.user); }
      } else if i < |ts| && j < |ts[i]| && j < next[i] {
        PassedNotNewer(ts[i][j], out, e);
      }
    }
    forall i: nat, j: nat ensures AheadOk(ts, next, out', i, j) {
      assert AheadOk(ts, pos, out, i, j);
      if i < |ts| && Ahead(ts, next, i, j) { SmallestAhead(ts, pos, best, i, j); }
    }
  }

  lemma {:induction false} PassedNotNewer(c: Entry, out: Table, e: Entry)
    requires Covered(out, c) && forall o | o in out :: NotNewer(c, o)
    requires forall o | o in out :: Less(o.key.user, e.key.user)
    ensures Covered(out + [e], c) && forall o | o in out + [e] :: NotNewer(c, o)
  {
    var o :| o in out && o.key.user == c.key.user;
    assert o in out + [e];
    LessIrreflexive(e.key.user);
  }

  /** CompactLevel0's merge: one entry per user key, the newest, tombstones kept, ascending. */
  method MergeNewest(ts: seq<Table>) returns (out: Table)
    requires AllSorted(ts)
    ensures forall i, j | 0 <= i < j < |out| :: Less(out[i].key.user, out[j].key.user)
    ensures forall e | e in out :: InStack(ts, e)
    ensures forall e, o {:trigger NotNewer(e, o)} | InStack(ts, e) && o in out :: NotNewer(e, o)
    ensures forall e {:trigger Covered(out, e)} | InStack(ts, e) :: Covered(out, e)
  {
    var pos: seq<nat> := seq(|ts|, _ => 0);
    var lastUser: Bytes, hasLast := [], false;
    out := [];
    while true
      invariant MergedSoFar(ts, pos, out)
      invariant hasLast == (out != []) && (hasLast ==> lastUser == out[|out| - 1].key.user)
      decreases Remaining(ts, pos)
    {
      var best := FindSmallest(ts, pos);
      if best < 0 { break; }
      var e := ts[best][pos[best]];
      if !hasLast || e.key.user != lastUser {
        Emit(ts, pos, out, best);
        out := out + [e];
        lastUser, hasLast := e.key.user, true;
      } else {
        PassOver(ts, pos, out, best);
      }
      RemainingDrops(ts, pos, best);
      pos := pos[best := pos[best] + 1];
    }
    forall e | InStack(ts, e) ensures Covered(out, e) && forall o | o in out :: NotNewer(e, o) {
      var i :| 0 <= i < |ts| && e in ts[i];
      var j :| 0 <= j < |ts[i]| && ts[i][j] == e;
      assert PassedOk(ts, pos, out, i, j);
    }
  }
}
