/** The skip list behind the memtable: towers of forward links over one sorted list. Every level is the
    sublist of the nodes tall enough for it, so a search that descends the levels ends where a linear
    search would. */
module SkipList {
  import opened Values
  import opened InternalKeys
  import opened Tables
  import LsmEngine
  import LsmProof

  const MaxHeight: nat := 12

  class Node {
    var entry: Entry
    /** One forward link per level. */
    var next: seq<Node?>

    constructor (entry: Entry, height: nat)
      ensures this.entry == entry && next == seq(height, _ => null)
    {
      this.entry := entry;
      next := seq(height, _ => null);
    }
  }

  // ---- Heights -----------------------------------------------------------------------------------

  /** First position from `i` on that is taller than `l`. */
  function NextFrom(hs: seq<nat>, i: nat, l: nat): (r: nat)
    requires i <= |hs|
    ensures i <= r <= |hs| && (r < |hs| ==> hs[r] > l)
    ensures forall j | i <= j < r :: hs[j] <= l
    decreases |hs| - i
  {
    if i == |hs| || hs[i] > l then i else NextFrom(hs, i + 1, l)
  }

  lemma {:induction false} NextUnique(hs: seq<nat>, i: nat, l: nat, r: nat)
    requires i <= r <= |hs| && (r < |hs| ==> hs[r] > l) && forall j | i <= j < r :: hs[j] <= l
    ensures NextFrom(hs, i, l) == r
  {
  }

  function Spliced<T>(s: seq<T>, p: nat, x: T): (r: seq<T>)
    requires p <= |s|
    ensures |r| == |s| + 1 && forall y | y in r :: y == x || y in s
  {
    s[..p] + [x] + s[p..]
  }

  /** After an insertion at `p` a link is as before, but for the last ones reaching over `p`. */
  lemma {:induction false} NextSpliced(hs: seq<nat>, p: nat, h: nat, i: nat, l: nat)
    requires i < p <= |hs|
    ensures var r := NextFrom(hs, i + 1, l);
            NextFrom(Spliced(hs, p, h), i + 1, l) == if r < p then r else if h > l then p else r + 1
  {
    var r, hs' := NextFrom(hs, i + 1, l), Spliced(hs, p, h);
    NextUnique(hs', i + 1, l, if r < p then r else if h > l then p else r + 1);
  }

  lemma {:induction false} NextAfter(hs: seq<nat>, p: nat, h: nat, i: nat, l: nat)
    requires p <= i <= |hs|
    ensures NextFrom(Spliced(hs, p, h), i + 1, l) == NextFrom(hs, i, l) + 1
  {
    NextUnique(Spliced(hs, p, h), i + 1, l, NextFrom(hs, i, l) + 1);
  }

  /** `i` is the last position before `p` that is taller than `l`. */
  ghost predicate LastBefore(hs: seq<nat>, p: nat, l: nat, i: nat) {
    i < p <= |hs| && hs[i] > l && forall j | i < j < p :: hs[j] <= l
  }

  lemma {:induction false} LastBeforeLink(hs: seq<nat>, p: nat, l: nat, i: nat)
    requires LastBefore(hs, p, l, i)
    ensures NextFrom(hs, i + 1, l) == NextFrom(hs, p, l)
  {
    NextUnique(hs, i + 1, l, NextFrom(hs, p, l));
  }

  lemma {:induction false} LastBeforeHere(hs: seq<nat>, p: nat, l: nat, i: nat)
    requires i < p <= |hs| && hs[i] > l && NextFrom(hs, i + 1, l) >= p
    ensures LastBefore(hs, p, l, i)
  {
  }

  /** Any other link of the level does not reach over `p`. */
  lemma {:induction false} OtherLink(hs: seq<nat>, p: nat, l: nat, q: nat, i: nat)
    requires LastBefore(hs, p, l, q) && i < p && hs[i] > l && i != q
    ensures NextFrom(hs, i + 1, l) < p
  {
    assert i < q;
  }

  // ---- Links ---------------------------------------------------------------------------------------

  /** The links of every node, by level. */
  type Towers = seq<seq<Node?>>

  function Heights(nx: Towers): (hs: seq<nat>)
    ensures |hs| == |nx| && forall i | 0 <= i < |nx| :: hs[i] == |nx[i]|
  {
    seq(|nx|, i requires 0 <= i < |nx| => |nx[i]|)
  }

  /** The node at a position, or null past the end. */
  function NodeAt(nodes: seq<Node>, i: nat): Node? { if i < |nodes| then nodes[i] else null }

  ghost predicate LinkAt(nodes: seq<Node>, nx: Towers, i: nat, l: nat)
    requires i < |nx| && l < |nx[i]|
  {
    nx[i][l] == NodeAt(nodes, NextFrom(Heights(nx), i + 1, l))
  }

  /** Every link leads to the next node of its level. */
  ghost predicate Linked(nodes: seq<Node>, nx: Towers) {
    |nodes| == |nx| && forall i, l {:trigger LinkAt(nodes, nx, i, l)} | 0 <= i < |nx|
        && 0 <= l < |nx[i]| :: LinkAt(nodes, nx, i, l)
  }

  /** The links of node `i` once the nodes in `at` lead to `x`, each on its level. */
  function Relink(links: seq<Node?>, i: nat, at: seq<nat>, x: Node): (r: seq<Node?>)
    ensures |r| == |links| && forall l | 0 <= l < |r| :: r[l] == if l < |at| && at[l] == i then x else links[l]
  {
    seq(|links|, l requires 0 <= l < |links| => if l < |at| && at[l] == i then x else links[l])
  }

  lemma {:induction false} RelinkOne(links: seq<Node?>, i: nat, at: seq<nat>, l: nat, x: Node)
    requires l < |at|
    ensures Relink(links, i, at[..l + 1], x) ==
            if at[l] == i && l < |links| then Relink(links, i, at[..l], x)[l := x] else Relink(links, i, at[..l], x)
  {
  }

  lemma {:induction false} RelinkNone(nx: Towers, at: seq<nat>, x: Node)
    ensures Relinked(nx, at[..0], x) == nx
  {
    forall i | 0 <= i < |nx| ensures Relink(nx[i], i, at[..0], x) == nx[i] {}
  }

  /** What the new node takes over. */
  function Taken(nx: Towers, at: seq<nat>, n: nat): (r: seq<Node?>)
    requires n <= |at| && forall l | 0 <= l < n :: at[l] < |nx| && l < |nx[at[l]]|
    ensures |r| == n && forall l | 0 <= l < n :: r[l] == nx[at[l]][l]
  {
    seq(n, l requires 0 <= l < n => nx[at[l]][l])
  }

  function Relinked(nx: Towers, at: seq<nat>, x: Node): (r: Towers)
    ensures |r| == |nx| && forall i | 0 <= i < |nx| :: r[i] == Relink(nx[i], i, at, x)
  {
    seq(|nx|, i requires 0 <= i < |nx| => Relink(nx[i], i, at, x))
  }

  ghost predicate AllLast(hs: seq<nat>, p: nat, at: seq<nat>) {
    forall l {:trigger at[l]} | 0 <= l < |at| :: LastBefore(hs, p, l, at[l])
  }

  lemma {:induction false} TakenOk(nx: Towers, p: nat, at: seq<nat>)
    requires AllLast(Heights(nx), p, at)
    ensures forall l | 0 <= l < |at| :: at[l] < |nx| && l < |nx[at[l]]|
  {
    var hs := Heights(nx);
    forall l | 0 <= l < |at| ensures at[l] < |nx| && l < |nx[at[l]]| { assert LastBefore(hs, p, l, at[l]); }
  }

  lemma {:induction false} SplicedAt<T>(s: seq<T>, p: nat, x: T, i: nat)
    requires p <= |s| && i <= |s|
    ensures Spliced(s, p, x)[i] == if i < p then s[i] else if i == p then x else s[i - 1]
  {
  }

  lemma {:induction false} NodeSpliced(nodes: seq<Node>, p: nat, x: Node, i: nat)
    requires p <= |nodes|
    ensures i < p ==> NodeAt(Spliced(nodes, p, x), i) == NodeAt(nodes, i)
    ensures i >= p ==> NodeAt(Spliced(nodes, p, x), i + 1) == NodeAt(nodes, i)
  {
  }

  lemma {:induction false} HeightsSpliced(nx: Towers, p: nat, at: seq<nat>, x: Node, links: seq<Node?>)
    requires p <= |nx|
    ensures Heights(Spliced(Relinked(nx, at, x), p, links)) == Spliced(Heights(nx), p, |links|)
  {
    var r, hs := Spliced(Relinked(nx, at, x), p, links), Heights(nx);
    forall i | 0 <= i <= |nx| ensures |r[i]| == Spliced(hs, p, |links|)[i] {
      SplicedAt(Relinked(nx, at, x), p, links, i);
      SplicedAt(hs, p, |links|, i);
    }
  }

  /** A node before the new one. */
  lemma {:induction false} LinkBefore(nodes: seq<Node>, nx: Towers, p: nat, at: seq<nat>, x: Node, i: nat, l: nat)
    requires Linked(nodes, nx) && AllLast(Heights(nx), p, at) && i < p <= |nx| && l < |nx[i]|
    ensures Relink(nx[i], i, at, x)[l] ==
            NodeAt(Spliced(nodes, p, x), NextFrom(Spliced(Heights(nx), p, |at|), i + 1, l))
  {
    var hs := Heights(nx);
    var r := NextFrom(hs, i + 1, l);
    assert LinkAt(nodes, nx, i, l);
    NextSpliced(hs, p, |at|, i, l);
    NodeSpliced(nodes, p, x, r);
    if l < |at| {
      assert LastBefore(hs, p, l, at[l]);
      if at[l] == i { LastBeforeLink(hs, p, l, i); } else { OtherLink(hs, p, l, at[l], i); }
    }
  }

  /** The new node. */
  lemma {:induction false} LinkNew(nodes: seq<Node>, nx: Towers, p: nat, at: seq<nat>, x: Node, l: nat)
    requires Linked(nodes, nx) && AllLast(Heights(nx), p, at) && p <= |nx| && l < |at|
    ensures at[l] < |nx| && l < |nx[at[l]]|
    ensures nx[at[l]][l] == NodeAt(Spliced(nodes, p, x), NextFrom(Spliced(Heights(nx), p, |at|), p + 1, l))
  {
    var hs := Heights(nx);
    assert LastBefore(hs, p, l, at[l]);
    assert LinkAt(nodes, nx, at[l], l);
    LastBeforeLink(hs, p, l, at[l]);
    NextAfter(hs, p, |at|, p, l);
    NodeSpliced(nodes, p, x, NextFrom(hs, p, l));
  }

  /** A node after the new one. */
  lemma {:induction false} LinkAfter(nodes: seq<Node>, nx: Towers, p: nat, at: seq<nat>, x: Node, i: nat, l: nat)
    requires Linked(nodes, nx) && AllLast(Heights(nx), p, at) && p <= i < |nx| && l < |nx[i]|
    ensures Relink(nx[i], i, at, x)[l] ==
            NodeAt(Spliced(nodes, p, x), NextFrom(Spliced(Heights(nx), p, |at|), i + 2, l))
  {
    var hs := Heights(nx);
    assert LinkAt(nodes, nx, i, l);
    NextAfter(hs, p, |at|, i + 1, l);
    NodeSpliced(nodes, p, x, NextFrom(hs, i + 1, l));
    assert l < |at| ==> LastBefore(hs, p, l, at[l]);
  }

  /** Splicing a node in behind the last taller node of each of its levels keeps every level in order. */
  lemma {:induction false} SpliceLinks(nodes: seq<Node>, nx: Towers, p: nat, at: seq<nat>, x: Node)
    requires Linked(nodes, nx) && AllLast(Heights(nx), p, at) && p <= |nx|
    ensures forall l | 0 <= l < |at| :: at[l] < |nx| && l < |nx[at[l]]|
    ensures Linked(Spliced(nodes, p, x), Spliced(Relinked(nx, at, x), p, Taken(nx, at, |at|)))
  {
    hide NextFrom, Relink, Relinked, Taken, AllLast;
    TakenOk(nx, p, at);
    var links := Taken(nx, at, |at|);
    var rel := Relinked(nx, at, x);
    var nodes', nx' := Spliced(nodes, p, x), Spliced(rel, p, links);
    HeightsSpliced(nx, p, at, x, links);
    forall i, l | 0 <= i < |nx'| && 0 <= l < |nx'[i]| ensures LinkAt(nodes', nx', i, l) {
      SplicedAt(rel, p, links, i);
      if i < p {
        LinkBefore(nodes, nx, p, at, x, i, l);
      } else if i == p {
        LinkNew(nodes, nx, p, at, x, l);
      } else {
        LinkAfter(nodes, nx, p, at, x, i - 1, l);
      }
    }
  }

  // ---- The list ------------------------------------------------------------------------------------

  ghost predicate Distinct(nodes: seq<Node>) {
    forall i, j {:trigger nodes[i], nodes[j]} | 0 <= i < j < |nodes| :: nodes[i] != nodes[j]
  }

  function NextsOf(nodes: seq<Node>): (nx: Towers)
    reads nodes
    ensures |nx| == |nodes| && forall i {:trigger nx[i]} | 0 <= i < |nodes| :: nx[i] == nodes[i].next
  {
    seq(|nodes|, i requires 0 <= i < |nodes| reads nodes => nodes[i].next)
  }

  function EntriesOf(nodes: seq<Node>): (t: Table)
    reads nodes
    ensures |t| == |nodes| && forall i {:trigger t[i]} | 0 <= i < |nodes| :: t[i] == nodes[i].entry
  {
    seq(|nodes|, i requires 0 <= i < |nodes| reads nodes => nodes[i].entry)
  }

  /** What the towers look like: the sentinel has all levels, the others no more than are in use. */
  ghost predicate Shaped(nodes: seq<Node>, nx: Towers, maxHeight: nat) {
    && nodes != [] && |nodes| == |nx| && Distinct(nodes) && Linked(nodes, nx) && 1 <= maxHeight <= MaxHeight == |nx[0]|
    && (forall i {:trigger nx[i]} | 0 < i < |nx| :: 1 <= |nx[i]| <= maxHeight)
  }

  lemma {:induction false} SplitShape(nodes: seq<Node>, nx: Towers, maxHeight: nat)
    requires Shaped(nodes, nx, maxHeight)
    ensures Distinct(nodes) && 1 <= maxHeight <= MaxHeight
  {
  }

  /** Above the levels in use only the sentinel is tall enough. */
  lemma {:induction false} HeadIsLast(nodes: seq<Node>, nx: Towers, maxHeight: nat, p: nat, l: nat)
    requires Shaped(nodes, nx, maxHeight) && 0 < p <= |nx| && maxHeight <= l < MaxHeight
    ensures LastBefore(Heights(nx), p, l, 0)
  {
  }

  lemma {:induction false} DistinctSpliced(nodes: seq<Node>, p: nat, x: Node)
    requires Distinct(nodes) && x !in nodes && p <= |nodes|
    ensures Distinct(Spliced(nodes, p, x))
  {
  }

  /** The splice keeps the shape of the list. */
  lemma {:induction false} SpliceShaped(nodes: seq<Node>, nx: Towers, maxHeight: nat, p: nat, at: seq<nat>, x: Node,
      maxHeight': nat)
    requires Shaped(nodes, nx, maxHeight) && AllLast(Heights(nx), p, at) && 0 < p <= |nx| && x !in nodes
    requires 1 <= |at| <= maxHeight' <= MaxHeight && maxHeight <= maxHeight'
    ensures forall l | 0 <= l < |at| :: at[l] < |nx| && l < |nx[at[l]]|
    ensures Shaped(Spliced(nodes, p, x), Spliced(Relinked(nx, at, x), p, Taken(nx, at, |at|)), maxHeight')
  {
    hide Linked, AllLast, Relink;
    SpliceLinks(nodes, nx, p, at, x);
    DistinctSpliced(nodes, p, x);
    var rel, links := Relinked(nx, at, x), Taken(nx, at, |at|);
    var nx' := Spliced(rel, p, links);
    forall i | 0 <= i < |nx'| ensures |nx'[i]| == if i < p then |nx[i]| else if i == p then |at| else |nx[i - 1]| {
      SplicedAt(rel, p, links, i);
    }
  }

  lemma {:induction false} NextsSpliced(nodes: seq<Node>, p: nat, x: Node)
    requires p <= |nodes|
    ensures NextsOf(Spliced(nodes, p, x)) == Spliced(NextsOf(nodes), p, x.next)
    ensures EntriesOf(Spliced(nodes, p, x)) == Spliced(EntriesOf(nodes), p, x.entry)
  {
    var nodes', nx, es := Spliced(nodes, p, x), NextsOf(nodes), EntriesOf(nodes);
    forall i | 0 <= i <= |nodes|
      ensures nodes'[i].next == Spliced(nx, p, x.next)[i] && nodes'[i].entry == Spliced(es, p, x.entry)[i]
    {
      SplicedAt(nodes, p, x, i);
      SplicedAt(nx, p, x.next, i);
      SplicedAt(es, p, x.entry, i);
    }
  }

  lemma {:induction false} EntriesSpliced(es: Table, p: nat, e: Entry)
    requires 0 < p <= |es|
    ensures Spliced(es, p, e)[1..] == Spliced(es[1..], p - 1, e)
  {
    assert es[1..][..p - 1] == es[1..p] && es[1..][p - 1..] == es[p..];
  }

  /** Comparing equal both ways is having the same key. */
  lemma {:induction false} InsertCases(t: Table, e: Entry)
    ensures var i := Position(t, e.key);
            LsmEngine.Insert(t, e) ==
            if i < |t| && !Before(t[i].key, e.key) && !Before(e.key, t[i].key) then t[i := e] else Spliced(t, i, e)
  {
    var i := Position(t, e.key);
    LessIrreflexive(e.key.user);
    if i < |t| { BeforeTotal(t[i].key, e.key); }
  }

  lemma {:induction false} PrevParts(nodes: seq<Node>, hs: seq<nat>, p: nat, prev: seq<Node>, at: seq<nat>)
    requires |prev| == |at| && |nodes| == |hs| && PrevFrom(nodes, hs, p, prev, at, 0)
    ensures AllLast(hs, p, at)
    ensures forall l {:trigger at[l]} {:trigger prev[l]} | 0 <= l < |at| :: at[l] < |nodes| && prev[l] == nodes[at[l]]
  {
    forall l | 0 <= l < |at| ensures LastBefore(hs, p, l, at[l]) && prev[l] == nodes[at[l]] {
      assert prev[l] == nodes[at[l]];
    }
  }

  /** From level `from` up, `prev` holds the last node before `p`, whose position is in `at`. */
  ghost predicate PrevFrom(nodes: seq<Node>, hs: seq<nat>, p: nat, prev: seq<Node>, at: seq<nat>, from: nat)
    requires |prev| == |at| && |nodes| == |hs|
  {
    forall l {:trigger prev[l]} {:trigger at[l]} | from <= l < |prev| ::
        LastBefore(hs, p, l, at[l]) && prev[l] == nodes[at[l]]
  }

  lemma {:induction false} NoPrev(nodes: seq<Node>, hs: seq<nat>, p: nat, prev: seq<Node>, at: seq<nat>)
    requires |prev| == |at| && |nodes| == |hs|
    ensures PrevFrom(nodes, hs, p, prev, at, |prev|)
  {
  }

  lemma {:induction false} PrevSet(nodes: seq<Node>, hs: seq<nat>, p: nat, prev: seq<Node>, at: seq<nat>, l: nat,
      i: nat)
    requires |prev| == |at| && |nodes| == |hs| && l < |prev| && i < |nodes|
    requires PrevFrom(nodes, hs, p, prev, at, l + 1) && LastBefore(hs, p, l, i)
    ensures PrevFrom(nodes, hs, p, prev[l := nodes[i]], at[l := i], l)
  {
    var prev', at' := prev[l := nodes[i]], at[l := i];
    forall k | l <= k < |prev| ensures LastBefore(hs, p, k, at'[k]) && prev'[k] == nodes[at'[k]] {
      if k > l { assert prev'[k] == prev[k]; }
    }
  }

  class SkipList {
    const head: Node
    var maxHeight: nat
    var size: nat
    var rnd: nat
    /** The sentinel, then the nodes in order. */
    ghost var nodes: seq<Node>

    constructor ()
      ensures Valid() && Contents() == [] && fresh(nodes)
    {
      head := new Node(Entry(IKey([], 0, Deletion), []), MaxHeight);
      maxHeight, size, rnd := 1, 0, 0xdeadbeef;
      nodes := [head];
    }

    ghost predicate Valid()
      reads this, nodes
    {
      nodes != [] && nodes[0] == head && Shaped(nodes, NextsOf(nodes), maxHeight) && Sorted(Contents())
          && size == |nodes| - 1
    }

    ghost function Contents(): Table
      requires nodes != []
      reads this, nodes
    {
      EntriesOf(nodes)[1..]
    }

    /** A linear congruential generator; its upper half is the number. */
    method Random() returns (r: nat)
      modifies this`rnd
    {
      rnd := (rnd * 214013 + 2531011) % 0x1_0000_0000;
      r := rnd / 0x1_0000;
    }

    method RandomHeight() returns (h: nat)
      modifies this`rnd
      ensures 1 <= h <= MaxHeight
    {
      h := 1;
      while h < MaxHeight
        invariant 1 <= h <= MaxHeight
      {
        var r := Random();
        if r % 4 != 0 { break; }
        h := h + 1;
      }
    }

    lemma {:induction false} HeadFacts()
      requires Valid()
      ensures nodes != [] && nodes[0] == head && 1 <= maxHeight <= MaxHeight == |head.next|
      ensures forall j | 0 <= j < |nodes| :: Heights(NextsOf(nodes))[j] > 0
    {
      var nx := NextsOf(nodes);
      assert nx[0] == head.next;
      forall j | 0 <= j < |nodes| ensures Heights(nx)[j] > 0 { assert |nx[j]| > 0; }
    }

    lemma {:induction false} LinkOf(i: nat, l: nat)
      requires Valid() && i < |nodes| && l < |nodes[i].next|
      ensures nodes[i].next[l] == NodeAt(nodes, NextFrom(Heights(NextsOf(nodes)), i + 1, l))
    {
      var nx := NextsOf(nodes);
      assert nx[i] == nodes[i].next && LinkAt(nodes, nx, i, l);
    }

    /** The lowest level links each node to the one after it. */
    lemma {:induction false} BottomOf(i: nat)
      requires Valid() && i < |nodes|
      ensures |nodes[i].next| > 0 && nodes[i].next[0] == NodeAt(nodes, i + 1)
    {
      var nx := NextsOf(nodes);
      assert |nx[i]| > 0 && nx[i] == nodes[i].next;
      LinkOf(i, 0);
      assert i + 1 < |nodes| ==> |nx[i + 1]| > 0;
    }

    lemma {:induction false} Side(key: IKey, n: nat)
      requires Valid() && 0 < n < |nodes|
      ensures Before(nodes[n].entry.key, key) <==> n <= Position(Contents(), key)
    {
      PositionSplits(Contents(), key, n - 1);
    }

    /** The first node whose key does not come before `key`, and on each level the last node before
        it. */
    method FindGreaterOrEqual(key: IKey) returns (x: Node?, prev: seq<Node>, ghost at: seq<nat>)
      requires Valid()
      ensures x == NodeAt(nodes, Position(Contents(), key) + 1)
      ensures |prev| == |at| == maxHeight && PrevFrom(nodes, Heights(NextsOf(nodes)), Position(Contents(), key) + 1,
          prev, at, 0)
    {
      hide Valid, Position, LastBefore, Before, PrevFrom, NextFrom;
      HeadFacts();
      var y, level := head, maxHeight - 1;
      ghost var i: nat, p, hs := 0, Position(Contents(), key) + 1, Heights(NextsOf(nodes));
      prev := seq(maxHeight, _ => head);
      at := seq(maxHeight, _ => 0);
      NoPrev(nodes, hs, p, prev, at);
      while true
        invariant |prev| == |at| == maxHeight && 0 <= level < maxHeight
        invariant i < p <= |nodes| && y == nodes[i] && hs[i] > level
        invariant PrevFrom(nodes, hs, p, prev, at, level + 1)
        decreases level, |nodes| - i
      {
        LinkOf(i, level);
        var next := y.next[level];
        ghost var n := NextFrom(hs, i + 1, level);
        if n < |nodes| { Side(key, n); }
        if next != null && Before(next.entry.key, key) {
          y, i := next, n;
        } else {
          LastBeforeHere(hs, p, level, i);
          PrevSet(nodes, hs, p, prev, at, level, i);
          prev, at := prev[level := y], at[level := i];
          if level == 0 {
            BottomLink(hs, p, i);
            return next, prev, at;
          }
          level := level - 1;
        }
      }
    }

    /** One level: the new node takes over the link of `y`, which now leads to the new node. */
    method LinkLevel(x: Node, y: Node, l: nat, ghost at: seq<nat>, ghost nx: Towers)
      requires Distinct(nodes) && x !in nodes && l < |at| && l < |x.next| && |nx| == |nodes|
      requires (forall k | 0 <= k < |at| :: at[k] < |nx| && k < |nx[at[k]]|) && y == nodes[at[l]]
      requires NextsOf(nodes) == Relinked(nx, at[..l], x) && x.next[..l] == Taken(nx, at, l)
      modifies y, x
      ensures NextsOf(nodes) == Relinked(nx, at[..l + 1], x) && |x.next| == old(|x.next|)
          && x.next[..l + 1] == Taken(nx, at, l + 1)
      ensures EntriesOf(nodes) == old(EntriesOf(nodes)) && x.entry == old(x.entry)
    {
      hide Relink, Relinked, Taken;
      ghost var was := NextsOf(nodes);
      assert was[at[l]] == y.next;
      x.next := x.next[l := y.next[l]];
      y.next := y.next[l := x];
      forall i | 0 <= i < |nodes| ensures nodes[i].next == Relink(nx[i], i, at[..l + 1], x) {
        RelinkOne(nx[i], i, at, l, x);
        assert was[i] == Relink(nx[i], i, at[..l], x) && (i != at[l] ==> nodes[i] != y);
      }
    }

    /** Splice a new node in behind `prev`, level by level from the bottom. */
    method Link(x: Node, prev: seq<Node>, ghost at: seq<nat>, ghost nx: Towers)
      requires Distinct(nodes) && nx == NextsOf(nodes) && |prev| == |at| == |x.next| && x !in nodes
      requires forall l {:trigger at[l]} {:trigger prev[l]} | 0 <= l < |at| ::
          at[l] < |nx| && l < |nx[at[l]]| && prev[l] == nodes[at[l]]
      modifies nodes, x
      ensures NextsOf(nodes) == Relinked(nx, at, x) && x.next == Taken(nx, at, |at|)
      ensures EntriesOf(nodes) == old(EntriesOf(nodes)) && x.entry == old(x.entry)
    {
      hide Relink, Relinked, Taken, Distinct;
      var h := |prev|;
      RelinkNone(nx, at, x);
      for l := 0 to h
        invariant |x.next| == h && x.next[..l] == Taken(nx, at, l) && x.entry == old(x.entry)
        invariant NextsOf(nodes) == Relinked(nx, at[..l], x)
        invariant EntriesOf(nodes) == old(EntriesOf(nodes))
      {
        LinkLevel(x, prev[l], l, at, nx);
      }
      assert at[..h] == at && x.next[..h] == x.next;
    }

    /** Levels not in use so far start at the sentinel. */
    method Widen(prev: seq<Node>, ghost at: seq<nat>, h: nat, ghost p: nat) returns (wide: seq<Node>,
        ghost wideAt: seq<nat>)
      requires Valid() && |prev| == |at| == maxHeight && h <= MaxHeight && 0 < p <= |nodes|
      requires PrevFrom(nodes, Heights(NextsOf(nodes)), p, prev, at, 0)
      ensures |wide| == |wideAt| == h && PrevFrom(nodes, Heights(NextsOf(nodes)), p, wide, wideAt, 0)
    {
      hide Linked, Sorted, LastBefore;
      if h <= maxHeight { return prev[..h], at[..h]; }
      wide, wideAt := prev, at;
      for l := maxHeight to h
        invariant |wide| == |wideAt| == l && PrevFrom(nodes, Heights(NextsOf(nodes)), p, wide, wideAt, 0)
      {
        HeadIsLast(nodes, NextsOf(nodes), maxHeight, p, l);
        wide, wideAt := wide + [head], wideAt + [0];
      }
    }

    /** A new node with a tower of random height. */
    method AddNode(e: Entry, prev: seq<Node>, ghost at: seq<nat>, ghost p: nat)
      requires Valid() && |prev| == |at| == maxHeight && 0 < p <= |nodes|
      requires PrevFrom(nodes, Heights(NextsOf(nodes)), p, prev, at, 0) && Sorted(Spliced(Contents(), p - 1, e))
      modifies this, nodes
      ensures Valid() && Contents() == Spliced(old(Contents()), p - 1, e)
      ensures forall n | n in nodes :: n in old(nodes) || fresh(n)
    {
      hide Shaped, Sorted, PrevFrom, AllLast, LastBefore, NextFrom, Relinked, Taken, Spliced;
      ghost var nx, was := NextsOf(nodes), EntriesOf(nodes);
      var h := RandomHeight();
      var wide, wideAt := Widen(prev, at, h, p);
      var x := new Node(e, h);
      PrevParts(nodes, Heights(nx), p, wide, wideAt);
      SplitShape(nodes, nx, maxHeight);
      if h > maxHeight { maxHeight := h; }
      SpliceShaped(nodes, nx, old(maxHeight), p, wideAt, x, maxHeight);
      Link(x, wide, wideAt, nx);
      NextsSpliced(nodes, p, x);
      EntriesSpliced(was, p, e);
      SplicedAt(nodes, p, x, 0);
      nodes := Spliced(nodes, p, x);
      size := size + 1;
    }

    /** A new entry goes to its place in the order; an equal key is replaced. */
    method Insert(e: Entry)
      requires Valid()
      modifies this, nodes
      ensures Valid() && Contents() == LsmEngine.Insert(old(Contents()), e)
      ensures forall n | n in nodes :: n in old(nodes) || fresh(n)
    {
      hide Shaped, Sorted, Position, PrevFrom, Before, LsmEngine.Insert, Spliced;
      ghost var t, nx, was := Contents(), NextsOf(nodes), EntriesOf(nodes);
      var x, prev, at := FindGreaterOrEqual(e.key);
      ghost var p := Position(t, e.key) + 1;
      LsmProof.InsertSorted(t, e);
      InsertCases(t, e);
      if x != null && !Before(x.entry.key, e.key) && !Before(e.key, x.entry.key) {
        SplitShape(nodes, nx, maxHeight);
        x.entry := e;
        assert NextsOf(nodes) == nx && EntriesOf(nodes) == was[p := e];
        assert Contents() == t[p - 1 := e];
      } else {
        AddNode(e, prev, at, p);
      }
    }

    /** The first entry whose key does not come before `key`. */
    method Find(key: IKey) returns (r: Option<Entry>)
      requires Valid()
      ensures var t, i := Contents(), Position(Contents(), key);
              r == if i < |t| then Some(t[i]) else None
    {
      hide Shaped, Sorted, Position;
      var x, _, _ := FindGreaterOrEqual(key);
      r := if x == null then None else Some(x.entry);
    }
  }

  /** A cursor over the lowest level. */
  class Iterator {
    const list: SkipList
    var node: Node?

    constructor (list: SkipList)
      ensures this.list == list && node == null
    {
      this.list, node := list, null;
    }

    /** At position `p` of the contents; past the end when `p` is their number. */
    ghost predicate At(p: nat)
      reads this, list, list.nodes
    {
      list.Valid() && p <= |list.Contents()| && node == NodeAt(list.nodes, p + 1)
    }

    method SeekToFirst()
      requires list.Valid()
      modifies this
      ensures At(0)
    {
      list.BottomOf(0);
      node := list.head.next[0];
    }

    method Seek(key: IKey)
      requires list.Valid()
      modifies this
      ensures At(Position(list.Contents(), key))
    {
      hide Shaped, Sorted, Position;
      var x, _, _ := list.FindGreaterOrEqual(key);
      node := x;
    }

    method Next(ghost p: nat)
      requires At(p) && node != null
      modifies this
      ensures At(p + 1)
    {
      list.BottomOf(p + 1);
      node := node.next[0];
    }
  }

  /** Walking the lowest level visits the contents in order. */
  method Walk(list: SkipList) returns (t: Table)
    requires list.Valid()
    ensures t == list.Contents()
  {
    hide Shaped, Sorted;
    var it := new Iterator(list);
    it.SeekToFirst();
    t := [];
    while it.node != null
      invariant it.list == list && fresh(it) && |t| <= |list.Contents()| && it.At(|t|) && t == list.Contents()[..|t|]
      decreases |list.Contents()| - |t|
    {
      t := t + [it.node.entry];
      it.Next(|t| - 1);
    }
  }

  /** The memtable: versions of user keys in a skip list under internal-key order. */
  class MemTable {
    const table: SkipList

    constructor ()
      ensures table.Valid() && table.Contents() == [] && fresh(table) && fresh(table.nodes)
    {
      table := new SkipList();
    }

    method Add(num: nat, kind: Kind, user: Bytes, value: Bytes)
      requires table.Valid()
      modifies table, table.nodes
      ensures table.Valid()
      ensures table.Contents() == LsmEngine.Insert(old(table.Contents()), Entry(IKey(user, num, kind), value))
      ensures forall n | n in table.nodes :: n in old(table.nodes) || fresh(n)
    {
      table.Insert(Entry(IKey(user, num, kind), value));
    }

    /** Seek to the lookup key and accept an entry of the same user; a deletion is found as no value. */
    method Get(user: Bytes, snapshot: nat) returns (found: bool, value: Option<Bytes>)
      requires table.Valid()
      ensures var r := TableGet(table.Contents(), user, snapshot);
              found == r.Some? && value == LsmEngine.ValueOf(r)
    {
      hide Shaped, Sorted, Position;
      var e := table.Find(LookupKey(user, snapshot));
      if e.None? { return false, None; }
      if e.value.key.user != user { return false, None; }
      if e.value.key.num > snapshot { return false, None; }
      if e.value.key.kind.Deletion? { return true, None; }
      return true, Some(e.value.value);
    }
  }

  /** On the lowest level the last node before `p` links to the node at `p`. */
  lemma {:induction false} BottomLink(hs: seq<nat>, p: nat, i: nat)
    requires LastBefore(hs, p, 0, i) && forall j | 0 <= j < |hs| :: hs[j] > 0
    ensures NextFrom(hs, i + 1, 0) == p
  {
  }
}
