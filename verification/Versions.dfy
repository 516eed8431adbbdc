/** The version set: the files of the two levels and the counters, what an edit does to them, and what
    replaying the MANIFEST rebuilds. */
module Versions {
  import opened Values
  import opened InternalKeys
  import opened Encoding
  import opened Manifest

  datatype VersionSet = VersionSet(
    l0: seq<FileMeta>, l1: seq<FileMeta>, nextFile: nat, lastSequence: nat, logNumber: nat)

  const NewVersionSet := VersionSet([], [], 2, 0, 0)

  /** remove_if by file number. */
  function Drop(fs: seq<FileMeta>, number: nat): seq<FileMeta> {
    if fs == [] then [] else (if fs[0].number == number then [] else [fs[0]]) + Drop(fs[1..], number)
  }

  function User(f: FileMeta): Bytes { ExtractUser(f.smallest) }

  function Place(fs: seq<FileMeta>, f: FileMeta): seq<FileMeta> {
    if fs == [] || Less(User(f), User(fs[0])) then [f] + fs else [fs[0]] + Place(fs[1..], f)
  }

  /** std::sort by smallest user key. */
  function SortFiles(fs: seq<FileMeta>): seq<FileMeta> {
    if fs == [] then [] else Place(SortFiles(fs[..|fs| - 1]), fs[|fs| - 1])
  }

  function WithDeleted(v: VersionSet, ds: seq<(nat, nat)>): VersionSet
    decreases |ds|
  {
    if ds == [] then v
    else
      var (level, n) := ds[0];
      WithDeleted(if level == 0 then v.(l0 := Drop(v.l0, n)) else v.(l1 := Drop(v.l1, n)), ds[1..])
  }

  /** Level 1 is sorted after every file added to it when `sorting`. */
  function WithAdded(v: VersionSet, fs: seq<(nat, FileMeta)>, sorting: bool): VersionSet
    decreases |fs|
  {
    if fs == [] then v
    else
      var (level, f) := fs[0];
      var v' := if level == 0 then v.(l0 := v.l0 + [f])
                else v.(l1 := if sorting then SortFiles(v.l1 + [f]) else v.l1 + [f]);
      WithAdded(v', fs[1..], sorting)
  }

  function MaxOf(a: nat, b: Option<nat>): nat { if b.Some? && b.value > a then b.value else a }
  function OrElse(b: Option<nat>, a: nat): nat { if b.Some? then b.value else a }

  /** The change LogAndApply makes to the live version set. */
  function Applied(v: VersionSet, e: Edit): VersionSet {
    WithAdded(
      WithDeleted(v.(nextFile := MaxOf(v.nextFile, e.nextFile), lastSequence := MaxOf(v.lastSequence, e.lastSequence),
                     logNumber := OrElse(e.logNumber, v.logNumber)), e.deleted),
      e.added, true)
  }

  /** The change one replayed edit makes in Recover. */
  function Replayed(v: VersionSet, e: Edit): VersionSet {
    WithAdded(
      WithDeleted(v.(nextFile := OrElse(e.nextFile, v.nextFile), lastSequence := OrElse(e.lastSequence, v.lastSequence),
                     logNumber := OrElse(e.logNumber, v.logNumber)), e.deleted),
      e.added, false)
  }

  function AppliedAll(v: VersionSet, es: seq<Edit>): VersionSet
    decreases |es|
  {
    if es == [] then v else AppliedAll(Applied(v, es[0]), es[1..])
  }

  function ReplayedAll(v: VersionSet, es: seq<Edit>): VersionSet
    decreases |es|
  {
    if es == [] then v else ReplayedAll(Replayed(v, es[0]), es[1..])
  }

  /** The record NewDB writes. */
  const Snapshot := Edit(Some(2), Some(0), Some(0), [], [])

  /** Recover from the MANIFEST bytes; None is Corruption. */
  function Recover(manifest: Bytes): Option<VersionSet> {
    match ParseManifest(manifest)
    case None => None
    case Some(es) =>
      var v := ReplayedAll(NewVersionSet, es);
      Some(v.(l1 := SortFiles(v.l1)))
  }

  // ---- Sorting --------------------------------------------------------------------------------------

  ghost predicate InOrder(fs: seq<FileMeta>) { forall i, j | 0 <= i < j < |fs| :: !Less(User(fs[j]), User(fs[i])) }

  lemma {:induction false} PlaceMembers(fs: seq<FileMeta>, f: FileMeta)
    ensures multiset(Place(fs, f)) == multiset(fs) + multiset{f}
  {
    if fs != [] && !Less(User(f), User(fs[0])) {
      PlaceMembers(fs[1..], f);
      assert fs == [fs[0]] + fs[1..];
    }
  }

  lemma {:induction false} PlaceInOrder(fs: seq<FileMeta>, f: FileMeta)
    requires InOrder(fs)
    ensures InOrder(Place(fs, f))
  {
    if fs != [] {
      var r := Place(fs, f);
      if Less(User(f), User(fs[0])) {
        forall i, j | 0 <= i < j < |r| ensures !Less(User(r[j]), User(r[i])) {
          if i == 0 {
            if Less(User(r[j]), User(f)) {
              LessTransitive(User(r[j]), User(f), User(fs[0]));
              LessIrreflexive(User(fs[0]));
            }
          } else {
            assert r[i] == fs[i - 1] && r[j] == fs[j - 1];
          }
        }
      } else {
        var tail := fs[1..];
        PlaceInOrder(tail, f);
        PlaceMembers(tail, f);
        var t := Place(tail, f);
        forall i, j | 0 <= i < j < |r| ensures !Less(User(r[j]), User(r[i])) {
          if i == 0 {
            assert r[j] == t[j - 1] && r[j] in multiset(t);
            if r[j] != f { assert r[j] in tail; var k :| 0 <= k < |tail| && tail[k] == r[j]; assert fs[k + 1] == r[j]; }
          } else {
            assert r[i] == t[i - 1] && r[j] == t[j - 1];
          }
        }
      }
    }
  }

  lemma {:induction false} SortInOrder(fs: seq<FileMeta>)
    ensures InOrder(SortFiles(fs)) && multiset(SortFiles(fs)) == multiset(fs)
  {
    if fs != [] {
      hide InOrder, Place;
      var init, f := fs[..|fs| - 1], fs[|fs| - 1];
      SortInOrder(init);
      PlaceInOrder(SortFiles(init), f);
      PlaceMembers(SortFiles(init), f);
      assert fs == init + [f];
    }
  }

  ghost predicate DistinctUsers(fs: seq<FileMeta>) { forall i, j | 0 <= i < j < |fs| :: User(fs[i]) != User(fs[j]) }

  lemma {:induction false} RestOf(a: seq<FileMeta>)
    requires InOrder(a) && a != []
    ensures a == [a[0]] + a[1..] && multiset(a[1..]) == multiset(a) - multiset{a[0]} && InOrder(a[1..])
    ensures DistinctUsers(a) ==> DistinctUsers(a[1..])
  {
    assert a == [a[0]] + a[1..];
  }

  lemma {:induction false} FirstSame(a: seq<FileMeta>, b: seq<FileMeta>)
    requires InOrder(a) && InOrder(b) && DistinctUsers(a) && a != [] && b != [] && a[0] in b && b[0] in a
    ensures a[0] == b[0]
  {
    var i :| 0 <= i < |b| && b[i] == a[0];
    var j :| 0 <= j < |a| && a[j] == b[0];
    LessTotal(User(a[0]), User(b[0]));
  }

  /** With distinct keys there is only one sorted list of the same files. */
  lemma {:induction false} OneOrder(a: seq<FileMeta>, b: seq<FileMeta>)
    requires InOrder(a) && InOrder(b) && DistinctUsers(a) && multiset(a) == multiset(b)
    ensures a == b
  {
    if a == [] {
      assert |multiset(b)| == 0;
    } else {
      assert a[0] in multiset(b) && b != [];
      assert b[0] in multiset(a);
      FirstSame(a, b);
      RestOf(a);
      RestOf(b);
      OneOrder(a[1..], b[1..]);
    }
  }

  // ---- What an edit does -------------------------------------------------------------------------------

  /** The file numbers an edit takes out of a level; `base` is level 0, otherwise level 1. */
  ghost function Removed(ds: seq<(nat, nat)>, base: bool): set<nat> {
    set d | d in ds && (d.0 == 0 <==> base) :: d.1
  }

  /** The files of other numbers, in their order. */
  ghost function Kept(fs: seq<FileMeta>, gone: set<nat>): seq<FileMeta> {
    if fs == [] then [] else (if fs[0].number in gone then [] else [fs[0]]) + Kept(fs[1..], gone)
  }

  /** The files an edit adds to a level, in their order. */
  ghost function Gained(fs: seq<(nat, FileMeta)>, base: bool): seq<FileMeta> {
    if fs == [] then [] else (if fs[0].0 == 0 <==> base then [fs[0].1] else []) + Gained(fs[1..], base)
  }

  lemma {:induction false} KeptMeans(fs: seq<FileMeta>, gone: set<nat>, f: FileMeta)
    ensures f in Kept(fs, gone) <==> f in fs && f.number !in gone
  {
    if fs != [] {
      KeptMeans(fs[1..], gone, f);
      assert fs == [fs[0]] + fs[1..];
    }
  }

  lemma {:induction false} GainedMeans(fs: seq<(nat, FileMeta)>, base: bool, f: FileMeta)
    ensures f in Gained(fs, base) <==> exists a | a in fs :: a.1 == f && (a.0 == 0 <==> base)
  {
    if fs != [] {
      GainedMeans(fs[1..], base, f);
      assert fs == [fs[0]] + fs[1..];
    }
  }

  lemma {:induction false} KeptNone(fs: seq<FileMeta>)
    ensures Kept(fs, {}) == fs
  {
    if fs != [] { KeptNone(fs[1..]); }
  }

  lemma {:induction false} KeptDrop(fs: seq<FileMeta>, n: nat, gone: set<nat>)
    ensures Kept(Drop(fs, n), gone) == Kept(fs, gone + {n})
  {
    if fs != [] {
      KeptDrop(fs[1..], n, gone);
      var t := Drop(fs[1..], n);
      if fs[0].number != n { assert Drop(fs, n)[1..] == t; } else { assert Drop(fs, n) == t; }
    }
  }

  lemma {:induction false} RemovedSplit(ds: seq<(nat, nat)>, base: bool)
    requires ds != []
    ensures Removed(ds, base) == Removed(ds[1..], base) + if ds[0].0 == 0 <==> base then {ds[0].1} else {}
  {
    assert ds == [ds[0]] + ds[1..];
  }

  lemma {:induction false} DeletedMeans(v: VersionSet, ds: seq<(nat, nat)>)
    ensures WithDeleted(v, ds) == v.(l0 := Kept(v.l0, Removed(ds, true)), l1 := Kept(v.l1, Removed(ds, false)))
    decreases |ds|
  {
    if ds == [] {
      assert Removed(ds, true) == {} && Removed(ds, false) == {};
      KeptNone(v.l0);
      KeptNone(v.l1);
    } else {
      var (level, n) := ds[0];
      RemovedSplit(ds, true);
      RemovedSplit(ds, false);
      var r0, r1 := Removed(ds[1..], true), Removed(ds[1..], false);
      if level == 0 {
        DeletedMeans(v.(l0 := Drop(v.l0, n)), ds[1..]);
        KeptDrop(v.l0, n, r0);
        assert Removed(ds, false) == r1;
      } else {
        DeletedMeans(v.(l1 := Drop(v.l1, n)), ds[1..]);
        KeptDrop(v.l1, n, r1);
        assert Removed(ds, true) == r0;
      }
    }
  }

  lemma {:induction false} GainedSplit(was: seq<FileMeta>, fs: seq<(nat, FileMeta)>)
    requires fs != []
    ensures was + Gained(fs, true) == (if fs[0].0 == 0 then was + [fs[0].1] else was) + Gained(fs[1..], true)
  {
  }

  lemma {:induction false} AddedBase(v: VersionSet, fs: seq<(nat, FileMeta)>, sorting: bool)
    ensures WithAdded(v, fs, sorting) == v.(l0 := v.l0 + Gained(fs, true), l1 := WithAdded(v, fs, sorting).l1)
    decreases |fs|
  {
    if fs == [] {
      assert v.l0 + [] == v.l0;
    } else {
      hide SortFiles, Gained;
      var (level, f) := fs[0];
      GainedSplit(v.l0, fs);
      if level == 0 {
        AddedBase(v.(l0 := v.l0 + [f]), fs[1..], sorting);
      } else {
        AddedBase(v.(l1 := if sorting then SortFiles(v.l1 + [f]) else v.l1 + [f]), fs[1..], sorting);
      }
    }
  }

  lemma {:induction false} AddedUpper(v: VersionSet, fs: seq<(nat, FileMeta)>, sorting: bool)
    ensures var r := WithAdded(v, fs, sorting).l1;
            && multiset(r) == multiset(v.l1) + multiset(Gained(fs, false))
            && (sorting && (InOrder(v.l1) || Gained(fs, false) != []) ==> InOrder(r))
    decreases |fs|
  {
    hide SortFiles, InOrder;
    if fs != [] {
      var (level, f) := fs[0];
      SortInOrder(v.l1 + [f]);
      var v' := if level == 0 then v.(l0 := v.l0 + [f])
                else v.(l1 := if sorting then SortFiles(v.l1 + [f]) else v.l1 + [f]);
      AddedUpper(v', fs[1..], sorting);
      assert multiset(v'.l1) + multiset(Gained(fs[1..], false)) == multiset(v.l1) + multiset(Gained(fs, false));
    }
  }

  ghost predicate IsMax(r: nat, a: nat, b: Option<nat>) {
    a <= r && (r == a || b == Some(r)) && (b.Some? ==> b.value <= r)
  }

  ghost predicate IsLast(r: nat, a: nat, b: Option<nat>) { b == Some(r) || (b == None && r == a) }

  /** Level 0 after an edit: the old files that were not deleted, in their order, then the new ones. */
  ghost predicate BaseEdited(was: seq<FileMeta>, e: Edit, r: seq<FileMeta>) {
    r == Kept(was, Removed(e.deleted, true)) + Gained(e.added, true)
  }

  /** Level 1 after an edit: the same files, in any order. */
  ghost predicate UpperEdited(was: seq<FileMeta>, e: Edit, r: seq<FileMeta>) {
    multiset(r) == multiset(Kept(was, Removed(e.deleted, false))) + multiset(Gained(e.added, false))
  }

  ghost predicate Deleting(e: Edit, n: nat, base: bool) {
    exists d | d in e.deleted :: d.1 == n && (d.0 == 0 <==> base)
  }

  ghost predicate Adding(e: Edit, f: FileMeta, base: bool) {
    exists a | a in e.added :: a.1 == f && (a.0 == 0 <==> base)
  }

  /** A file is in a level after the edit if it was there and was not deleted, or was added. */
  ghost predicate Stays(was: seq<FileMeta>, e: Edit, f: FileMeta, base: bool) {
    (f in was && !Deleting(e, f.number, base)) || Adding(e, f, base)
  }

  lemma {:induction false} EditedMembers(was: seq<FileMeta>, e: Edit, r: seq<FileMeta>, base: bool, f: FileMeta)
    requires if base then BaseEdited(was, e, r) else UpperEdited(was, e, r)
    ensures f in r <==> Stays(was, e, f, base)
  {
    KeptMeans(was, Removed(e.deleted, base), f);
    GainedMeans(e.added, base, f);
    assert f.number in Removed(e.deleted, base) <==> Deleting(e, f.number, base);
    assert f in r <==> f in multiset(r);
  }

  lemma {:induction false} KeptInOrder(fs: seq<FileMeta>, gone: set<nat>)
    requires InOrder(fs)
    ensures InOrder(Kept(fs, gone))
  {
    if fs != [] {
      var r, t := Kept(fs, gone), Kept(fs[1..], gone);
      KeptInOrder(fs[1..], gone);
      if fs[0].number !in gone {
        forall i, j | 0 <= i < j < |r| ensures !Less(User(r[j]), User(r[i])) {
          assert r[j] == t[j - 1];
          if i == 0 {
            KeptMeans(fs[1..], gone, r[j]);
            var k :| 0 <= k < |fs[1..]| && fs[1..][k] == r[j];
            assert fs[k + 1] == r[j];
          } else {
            assert r[i] == t[i - 1];
          }
        }
      } else {
        assert r == t;
      }
    }
  }

  /** What one edit does, without its loops: both levels, their order, and the three counters. */
  lemma {:induction false} AppliedMeans(v: VersionSet, e: Edit)
    ensures var r := Applied(v, e);
            && BaseEdited(v.l0, e, r.l0) && UpperEdited(v.l1, e, r.l1)
            && (InOrder(v.l1) || Gained(e.added, false) != [] ==> InOrder(r.l1))
            && IsMax(r.nextFile, v.nextFile, e.nextFile) && IsMax(r.lastSequence, v.lastSequence, e.lastSequence)
            && IsLast(r.logNumber, v.logNumber, e.logNumber)
  {
    hide InOrder, Kept, Gained, WithDeleted, WithAdded;
    var v1 := v.(nextFile := MaxOf(v.nextFile, e.nextFile), lastSequence := MaxOf(v.lastSequence, e.lastSequence),
                 logNumber := OrElse(e.logNumber, v.logNumber));
    var v2 := WithDeleted(v1, e.deleted);
    DeletedMeans(v1, e.deleted);
    AddedBase(v2, e.added, true);
    AddedUpper(v2, e.added, true);
    if InOrder(v.l1) { KeptInOrder(v.l1, Removed(e.deleted, false)); }
  }

  lemma {:induction false} AppliedMembers(v: VersionSet, e: Edit)
    ensures forall f :: f in Applied(v, e).l0 <==> Stays(v.l0, e, f, true)
    ensures forall f :: f in Applied(v, e).l1 <==> Stays(v.l1, e, f, false)
  {
    hide Applied, BaseEdited, UpperEdited, Stays;
    var r := Applied(v, e);
    AppliedMeans(v, e);
    forall f ensures f in r.l0 <==> Stays(v.l0, e, f, true) { EditedMembers(v.l0, e, r.l0, true, f); }
    forall f ensures f in r.l1 <==> Stays(v.l1, e, f, false) { EditedMembers(v.l1, e, r.l1, false, f); }
  }

  /** The same for an edit replayed by Recover: level 1 is not sorted yet, and every counter is the last
      one given. */
  lemma {:induction false} ReplayedMeans(v: VersionSet, e: Edit)
    ensures var r := Replayed(v, e);
            && BaseEdited(v.l0, e, r.l0) && UpperEdited(v.l1, e, r.l1)
            && IsLast(r.nextFile, v.nextFile, e.nextFile) && IsLast(r.lastSequence, v.lastSequence, e.lastSequence)
            && IsLast(r.logNumber, v.logNumber, e.logNumber)
  {
    hide Kept, Gained, WithDeleted, WithAdded;
    var v1 := v.(nextFile := OrElse(e.nextFile, v.nextFile), lastSequence := OrElse(e.lastSequence, v.lastSequence),
                 logNumber := OrElse(e.logNumber, v.logNumber));
    var v2 := WithDeleted(v1, e.deleted);
    DeletedMeans(v1, e.deleted);
    AddedBase(v2, e.added, false);
    AddedUpper(v2, e.added, false);
  }

  // ---- What a MANIFEST says ----------------------------------------------------------------------------

  /** From edit `j` on, no edit deletes the number. */
  ghost predicate SafeFrom(es: seq<Edit>, j: nat, n: nat, base: bool) {
    forall m | j <= m < |es| :: !Deleting(es[m], n, base)
  }

  /** Some edit adds the file and no later one deletes its number. */
  ghost predicate Listed(es: seq<Edit>, f: FileMeta, base: bool) {
    exists j | 0 <= j < |es| :: Adding(es[j], f, base) && SafeFrom(es, j + 1, f.number, base)
  }

  lemma {:induction false} ListedSplit(es: seq<Edit>, f: FileMeta, base: bool)
    requires es != []
    ensures SafeFrom(es, 0, f.number, base) <==>
              !Deleting(es[0], f.number, base) && SafeFrom(es[1..], 0, f.number, base)
    ensures Listed(es, f, base) <==>
              Listed(es[1..], f, base) || (Adding(es[0], f, base) && SafeFrom(es[1..], 0, f.number, base))
  {
    hide Adding, Deleting;
    var t, n := es[1..], f.number;
    assert forall m | 0 <= m < |t| :: t[m] == es[m + 1];
    forall j: nat | j < |es| ensures SafeFrom(es, j + 1, n, base) <==> SafeFrom(t, j, n, base) {
      if SafeFrom(es, j + 1, n, base) {
        forall m | j <= m < |t| ensures !Deleting(t[m], n, base) { assert !Deleting(es[m + 1], n, base); }
      }
      if SafeFrom(t, j, n, base) {
        forall m | j + 1 <= m < |es| ensures !Deleting(es[m], n, base) { assert !Deleting(t[m - 1], n, base); }
      }
    }
    if Listed(es, f, base) {
      var j :| 0 <= j < |es| && Adding(es[j], f, base) && SafeFrom(es, j + 1, n, base);
      if j > 0 { assert Adding(t[j - 1], f, base) && SafeFrom(t, j, n, base); }
    }
    if Listed(t, f, base) {
      var j :| 0 <= j < |t| && Adding(t[j], f, base) && SafeFrom(t, j + 1, n, base);
      assert Adding(es[j + 1], f, base) && SafeFrom(es, j + 2, n, base);
    }
  }

  lemma {:induction false} ReplayedFiles(v: VersionSet, es: seq<Edit>, f: FileMeta)
    ensures f in ReplayedAll(v, es).l0 <==> (f in v.l0 && SafeFrom(es, 0, f.number, true)) || Listed(es, f, true)
    ensures f in ReplayedAll(v, es).l1 <==> (f in v.l1 && SafeFrom(es, 0, f.number, false)) || Listed(es, f, false)
    decreases |es|
  {
    if es != [] {
      hide SafeFrom, Listed, BaseEdited, UpperEdited, Replayed;
      var r := Replayed(v, es[0]);
      ReplayedMeans(v, es[0]);
      EditedMembers(v.l0, es[0], r.l0, true, f);
      EditedMembers(v.l1, es[0], r.l1, false, f);
      ListedSplit(es, f, true);
      ListedSplit(es, f, false);
      ReplayedFiles(r, es[1..], f);
    }
  }

  // ---- Replay agrees with the live version ------------------------------------------------------------

  lemma {:induction false} KeptCount(fs: seq<FileMeta>, gone: set<nat>, f: FileMeta)
    ensures multiset(Kept(fs, gone))[f] == if f.number in gone then 0 else multiset(fs)[f]
  {
    if fs != [] {
      KeptCount(fs[1..], gone, f);
      assert fs == [fs[0]] + fs[1..];
      assert multiset(fs) == multiset{fs[0]} + multiset(fs[1..]);
    }
  }

  lemma {:induction false} KeptSame(a: seq<FileMeta>, b: seq<FileMeta>, gone: set<nat>)
    requires multiset(a) == multiset(b)
    ensures multiset(Kept(a, gone)) == multiset(Kept(b, gone))
  {
    forall f ensures multiset(Kept(a, gone))[f] == multiset(Kept(b, gone))[f] {
      KeptCount(a, gone, f);
      KeptCount(b, gone, f);
    }
  }

  /** The live set and the replayed one: equal but for the order of level 1 and two counters. */
  ghost predicate Alike(v: VersionSet, r: VersionSet) {
    v.l0 == r.l0 && v.logNumber == r.logNumber && multiset(v.l1) == multiset(r.l1) && InOrder(v.l1)
  }

  lemma {:induction false} EditAlike(v: VersionSet, r: VersionSet, e: Edit)
    requires Alike(v, r)
    ensures Alike(Applied(v, e), Replayed(r, e))
  {
    hide Applied, Replayed, InOrder;
    AppliedMeans(v, e);
    ReplayedMeans(r, e);
    KeptSame(v.l1, r.l1, Removed(e.deleted, false));
  }

  lemma {:induction false} EditsAlike(v: VersionSet, r: VersionSet, es: seq<Edit>)
    requires Alike(v, r)
    ensures Alike(AppliedAll(v, es), ReplayedAll(r, es))
    decreases |es|
  {
    if es != [] {
      EditAlike(v, r, es[0]);
      EditsAlike(Applied(v, es[0]), Replayed(r, es[0]), es[1..]);
    }
  }

  /** After NewDB and any edits, Recover rebuilds level 0 in order, the log number, and level 1 as
      the live version lists it. */
  lemma {:induction false} RecoverRebuilds(es: seq<Edit>)
    requires Loggable([Snapshot] + es) && DistinctUsers(AppliedAll(NewVersionSet, es).l1)
    ensures Recover(ManifestOf([Snapshot] + es)).Some?
    ensures var live, r := AppliedAll(NewVersionSet, es), Recover(ManifestOf([Snapshot] + es)).value;
            r.l0 == live.l0 && r.l1 == live.l1 && r.logNumber == live.logNumber
  {
    var all, live := [Snapshot] + es, AppliedAll(NewVersionSet, es);
    ManifestRoundTrip(all);
    assert all[1..] == es && Replayed(NewVersionSet, Snapshot) == NewVersionSet;
    EditsAlike(NewVersionSet, NewVersionSet, es);
    var v := ReplayedAll(NewVersionSet, es);
    SortInOrder(v.l1);
    OneOrder(live.l1, SortFiles(v.l1));
  }

  /** Recover gives, for any MANIFEST, exactly the files some edit added and no later edit deleted, with
      level 1 in key order. */
  lemma {:induction false} RecoveredFiles(es: seq<Edit>, f: FileMeta)
    requires Loggable(es)
    ensures Recover(ManifestOf(es)).Some?
    ensures var r := Recover(ManifestOf(es)).value;
            (f in r.l0 <==> Listed(es, f, true)) && (f in r.l1 <==> Listed(es, f, false)) && InOrder(r.l1)
  {
    ManifestRoundTrip(es);
    ReplayedFiles(NewVersionSet, es, f);
    var l1 := ReplayedAll(NewVersionSet, es).l1;
    SortInOrder(l1);
    assert f in l1 <==> f in multiset(l1);
    assert f in SortFiles(l1) <==> f in multiset(SortFiles(l1));
  }

  /** Recover from a MANIFEST cut at any byte: Corruption inside a record, and at a boundary what the whole
      records say. */
  lemma {:induction false} CutRecovers(es: seq<Edit>, n: nat, m: nat)
    requires Loggable(es) && n <= |ManifestOf(es)| && m <= |es|
    requires EditBoundary(es, m) <= n && (m < |es| ==> n < EditBoundary(es, m + 1))
    ensures Recover(ManifestOf(es)[..n]) == if n == EditBoundary(es, m) then Recover(ManifestOf(es[..m])) else None
  {
    CutManifest(es, n, m);
    ManifestRoundTrip(es[..m]);
  }

  /** The values a counter is given, edit by edit. */
  function FileNumbers(es: seq<Edit>): seq<Option<nat>> { seq(|es|, i requires 0 <= i < |es| => es[i].nextFile) }
  function Sequences(es: seq<Edit>): seq<Option<nat>> { seq(|es|, i requires 0 <= i < |es| => es[i].lastSequence) }

  ghost predicate LastGiven(r: nat, start: nat, gs: seq<Option<nat>>) {
    || (r == start && forall i | 0 <= i < |gs| :: gs[i].None?)
    || exists j | 0 <= j < |gs| :: gs[j] == Some(r) && forall m | j < m < |gs| :: gs[m].None?
  }

  ghost predicate GreatestGiven(r: nat, start: nat, gs: seq<Option<nat>>) {
    && start <= r && (r == start || Some(r) in gs)
    && forall i | 0 <= i < |gs| && gs[i].Some? :: gs[i].value <= r
  }

  lemma {:induction false} LastFrom(r: nat, mid: nat, start: nat, gs: seq<Option<nat>>)
    requires gs != [] && IsLast(mid, start, gs[0]) && LastGiven(r, mid, gs[1..])
    ensures LastGiven(r, start, gs)
  {
    var t := gs[1..];
    assert forall m | 0 < m < |gs| :: gs[m] == t[m - 1];
    if j :| 0 <= j < |t| && t[j] == Some(r) && forall m | j < m < |t| :: t[m].None? {
      assert gs[j + 1] == Some(r);
    } else if gs[0].Some? {
      assert gs[0] == Some(r);
    }
  }

  lemma {:induction false} GreatestFrom(r: nat, mid: nat, start: nat, gs: seq<Option<nat>>)
    requires gs != [] && IsMax(mid, start, gs[0]) && GreatestGiven(r, mid, gs[1..])
    ensures GreatestGiven(r, start, gs)
  {
    var t := gs[1..];
    forall i | 0 <= i < |gs| && gs[i].Some? ensures gs[i].value <= r {
      if i > 0 { assert gs[i] == t[i - 1]; }
    }
  }

  lemma {:induction false} CountersSplit(es: seq<Edit>)
    requires es != []
    ensures FileNumbers(es) != [] && FileNumbers(es)[0] == es[0].nextFile
    ensures FileNumbers(es)[1..] == FileNumbers(es[1..])
    ensures Sequences(es) != [] && Sequences(es)[0] == es[0].lastSequence && Sequences(es)[1..] == Sequences(es[1..])
  {
  }

  lemma {:induction false} LiveCounters(v: VersionSet, es: seq<Edit>)
    ensures GreatestGiven(AppliedAll(v, es).nextFile, v.nextFile, FileNumbers(es))
    ensures GreatestGiven(AppliedAll(v, es).lastSequence, v.lastSequence, Sequences(es))
    decreases |es|
  {
    if es != [] {
      hide GreatestGiven, Applied, FileNumbers, Sequences, BaseEdited, UpperEdited, InOrder, IsLast, IsMax;
      var v', t, live := Applied(v, es[0]), es[1..], AppliedAll(v, es);
      AppliedMeans(v, es[0]);
      LiveCounters(v', t);
      CountersSplit(es);
      GreatestFrom(live.nextFile, v'.nextFile, v.nextFile, FileNumbers(es));
      GreatestFrom(live.lastSequence, v'.lastSequence, v.lastSequence, Sequences(es));
    }
  }

  lemma {:induction false} ReplayedCounters(v: VersionSet, es: seq<Edit>)
    ensures LastGiven(ReplayedAll(v, es).nextFile, v.nextFile, FileNumbers(es))
    ensures LastGiven(ReplayedAll(v, es).lastSequence, v.lastSequence, Sequences(es))
    decreases |es|
  {
    if es != [] {
      hide LastGiven, Replayed, FileNumbers, Sequences, BaseEdited, UpperEdited, IsLast;
      var v', t, r := Replayed(v, es[0]), es[1..], ReplayedAll(v, es);
      ReplayedMeans(v, es[0]);
      ReplayedCounters(v', t);
      CountersSplit(es);
      LastFrom(r.nextFile, v'.nextFile, v.nextFile, FileNumbers(es));
      LastFrom(r.lastSequence, v'.lastSequence, v.lastSequence, Sequences(es));
    }
  }

  lemma {:induction false} GreatestOnce(a: nat, b: nat, start: nat, gs: seq<Option<nat>>)
    requires GreatestGiven(a, start, gs)
    ensures a == b <==> GreatestGiven(b, start, gs)
  {
    if GreatestGiven(b, start, gs) {
      if Some(a) in gs { var i :| 0 <= i < |gs| && gs[i] == Some(a); }
      if Some(b) in gs { var i :| 0 <= i < |gs| && gs[i] == Some(b); }
    }
  }

  /** Live counters are the greatest ever given and recovered ones the last given: they agree exactly
      when no edit, and not the start value, gave more than the last one. */
  lemma {:induction false} CountersAgree(es: seq<Edit>)
    requires Loggable([Snapshot] + es)
    ensures Recover(ManifestOf([Snapshot] + es)).Some?
    ensures var live, r := AppliedAll(NewVersionSet, es), Recover(ManifestOf([Snapshot] + es)).value;
            && LastGiven(r.nextFile, 2, FileNumbers(es)) && LastGiven(r.lastSequence, 0, Sequences(es))
            && (r.nextFile == live.nextFile <==> GreatestGiven(r.nextFile, 2, FileNumbers(es)))
            && (r.lastSequence == live.lastSequence <==> GreatestGiven(r.lastSequence, 0, Sequences(es)))
  {
    var all := [Snapshot] + es;
    ManifestRoundTrip(all);
    assert all[1..] == es && Replayed(NewVersionSet, Snapshot) == NewVersionSet;
    LiveCounters(NewVersionSet, es);
    ReplayedCounters(NewVersionSet, es);
    GreatestOnce(AppliedAll(NewVersionSet, es).nextFile, ReplayedAll(NewVersionSet, es).nextFile, 2, FileNumbers(es));
    GreatestOnce(AppliedAll(NewVersionSet, es).lastSequence, ReplayedAll(NewVersionSet, es).lastSequence, 0,
        Sequences(es));
  }

  /** Two edits whose file numbers fall: the live counter keeps the greater, the recovered one does not. */
  lemma {:induction false} CounterFallsBack()
    ensures var es := [NoEdit.(nextFile := Some(9)), NoEdit.(nextFile := Some(5))];
            AppliedAll(NewVersionSet, es).nextFile == 9 && ReplayedAll(NewVersionSet, es).nextFile == 5
  {
    var a, b := NoEdit.(nextFile := Some(9)), NoEdit.(nextFile := Some(5));
    assert [a, b][1..] == [b] && [b][1..] == [];
    var v, r := Applied(NewVersionSet, a), Replayed(NewVersionSet, a);
    assert AppliedAll(v, [b]) == AppliedAll(Applied(v, b), []);
    assert ReplayedAll(r, [b]) == ReplayedAll(Replayed(r, b), []);
  }

  // ---- The object ---------------------------------------------------------------------------------------

  class VersionSetImpl {
    var nextFileNumber: nat
    var lastSequence: nat
    var logNumber: nat
    var files0: seq<FileMeta>
    var files1: seq<FileMeta>
    var manifest: Bytes

    ghost function View(): VersionSet
      reads this
    {
      VersionSet(files0, files1, nextFileNumber, lastSequence, logNumber)
    }

    /** NewDB: an empty version and its snapshot record. */
    constructor ()
      ensures View() == NewVersionSet && manifest == FrameEdit(EncodeEdit(Snapshot))
    {
      nextFileNumber, lastSequence, logNumber, files0, files1 := 2, 0, 0, [], [];
      manifest := FrameEdit(EncodeEdit(Snapshot));
    }

    /** Merge the counters, delete, add, append the record, publish. */
    method LogAndApply(e: Edit)
      modifies this
      ensures View() == Applied(old(View()), e)
      ensures BaseEdited(old(files0), e, files0) && UpperEdited(old(files1), e, files1)
      ensures forall f :: f in files0 <==> Stays(old(files0), e, f, true)
      ensures forall f :: f in files1 <==> Stays(old(files1), e, f, false)
      ensures InOrder(old(files1)) ==> InOrder(files1)
      ensures IsMax(nextFileNumber, old(nextFileNumber), e.nextFile)
      ensures IsMax(lastSequence, old(lastSequence), e.lastSequence) && IsLast(logNumber, old(logNumber), e.logNumber)
      ensures manifest == old(manifest) + FrameEdit(EncodeEdit(e))
    {
      hide BaseEdited, UpperEdited, Stays, InOrder, SortFiles, Drop;
      if e.nextFile.Some? && e.nextFile.value > nextFileNumber { nextFileNumber := e.nextFile.value; }
      if e.lastSequence.Some? && e.lastSequence.value > lastSequence { lastSequence := e.lastSequence.value; }
      if e.logNumber.Some? { logNumber := e.logNumber.value; }
      var v0, v1 := files0, files1;
      ghost var start := View();
      for i := 0 to |e.deleted|
        invariant View() == start
        invariant WithDeleted(start, e.deleted) == WithDeleted(start.(l0 := v0, l1 := v1), e.deleted[i..])
      {
        assert e.deleted[i..][1..] == e.deleted[i + 1..];
        var (level, n) := e.deleted[i];
        if level == 0 { v0 := Drop(v0, n); } else { v1 := Drop(v1, n); }
      }
      ghost var mid := start.(l0 := v0, l1 := v1);
      for i := 0 to |e.added|
        invariant View() == start
        invariant WithAdded(mid, e.added, true) == WithAdded(start.(l0 := v0, l1 := v1), e.added[i..], true)
      {
        assert e.added[i..][1..] == e.added[i + 1..];
        var (level, f) := e.added[i];
        if level == 0 { v0 := v0 + [f]; } else { v1 := SortFiles(v1 + [f]); }
      }
      manifest := manifest + FrameEdit(EncodeEdit(e));
      files0, files1 := v0, v1;
      assert View() == Applied(old(View()), e);
      AppliedMeans(old(View()), e);
      AppliedMembers(old(View()), e);
    }
  }
}
