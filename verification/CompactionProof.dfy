/** Compaction: level 1 stays sorted and disjoint, and no answer at the last sequence changes. */
module CompactionProof {
  import opened Values
  import opened InternalKeys
  import opened Tables
  import opened LsmEngine
  import opened LsmProof

  // ---- Ranges -------------------------------------------------------------------------------

  ghost predicate AtMost(a: Bytes, b: Bytes) { !Less(b, a) }

  lemma {:induction false} AtMostLess(a: Bytes, b: Bytes, c: Bytes)
    requires (AtMost(a, b) && Less(b, c)) || (Less(a, b) && AtMost(b, c))
    ensures Less(a, c)
  {
    LessTotal(a, b);
    LessTotal(b, c);
    if Less(a, b) && Less(b, c) { LessTransitive(a, b, c); }
  }

  lemma {:induction false} AtMostTransitive(a: Bytes, b: Bytes, c: Bytes)
    requires AtMost(a, b) && AtMost(b, c)
    ensures AtMost(a, c)
  {
    if Less(c, a) { AtMostLess(b, c, a); }
  }

  /** Every entry of a sorted file lies in the file's range. */
  lemma {:induction false} InRange(f: File, e: Entry)
    requires Sorted(f.entries) && e in f.entries
    ensures f.entries != [] && AtMost(f.Smallest(), e.key.user) && AtMost(e.key.user, f.Largest())
  {
    var i :| 0 <= i < |f.entries| && f.entries[i] == e;
    LessIrreflexive(e.key.user);
    if i > 0 { BeforeAsymmetric(f.entries[0].key, e.key); }
    if i < |f.entries| - 1 { BeforeAsymmetric(e.key, f.entries[|f.entries| - 1].key); }
  }

  ghost predicate AllFilesSorted(fs: seq<File>) { forall f | f in fs :: Sorted(f.entries) }

  lemma {:induction false} MinMax(a: Bytes, b: Bytes)
    ensures AtMost(Min(a, b), a) && AtMost(Min(a, b), b) && AtMost(a, Max(a, b)) && AtMost(b, Max(a, b))
  {
    LessIrreflexive(a);
    LessIrreflexive(b);
    if Less(a, b) { LessAsymmetric(a, b); }
    if Less(b, a) { LessAsymmetric(b, a); }
  }

  lemma {:induction false} L0RangeCovers(fs: seq<File>, f: File)
    requires NoEmptyFile(fs) && f in fs
    ensures AtMost(L0Range(fs).0, f.Smallest()) && AtMost(f.Largest(), L0Range(fs).1)
  {
    var g, init := fs[|fs| - 1], fs[..|fs| - 1];
    LessIrreflexive(f.Smallest());
    LessIrreflexive(f.Largest());
    if |fs| > 1 {
      var r := L0Range(init);
      MinMax(r.0, g.Smallest());
      MinMax(r.1, g.Largest());
      if f in init {
        L0RangeCovers(init, f);
        AtMostTransitive(L0Range(fs).0, r.0, f.Smallest());
        AtMostTransitive(f.Largest(), r.1, L0Range(fs).1);
      }
    }
  }

  /** `f` lies wholly on one side of the key. */
  ghost predicate Left(f: File, user: Bytes)
    requires f.entries != []
  {
    Less(f.Largest(), user)
  }

  ghost predicate Right(f: File, user: Bytes)
    requires f.entries != []
  {
    Less(user, f.Smallest())
  }

  /** A level-1 file left out of the inputs lies wholly to one side of all of them. */
  lemma {:induction false} LeftOutApart(s: Lsm, f: File)
    requires NoEmptyFile(s.l0) && NoEmptyFile(s.l1) && L1Ok(s.l1) && AllFilesSorted(s.l0) && AllFilesSorted(s.l1)
    requires f in Pick(s.l1, L0Range(s.l0).0, L0Range(s.l0).1, false)
    ensures (forall e | IsInput(s, e) :: Left(f, e.key.user)) || (forall e | IsInput(s, e) :: Right(f, e.key.user))
  {
    var lo, hi := L0Range(s.l0).0, L0Range(s.l0).1;
    if Less(f.Largest(), lo) {
      forall e | IsInput(s, e) ensures Left(f, e.key.user) { InputRightOf(s, f, e); }
    } else {
      forall e | IsInput(s, e) ensures Right(f, e.key.user) { InputLeftOf(s, f, e); }
    }
  }

  lemma {:induction false} FileOrder(f: File)
    requires f.entries != [] && Sorted(f.entries)
    ensures AtMost(f.Smallest(), f.Largest())
  {
    InRange(f, f.entries[0]);
  }

  lemma {:induction false} Disjoint(fs: seq<File>, f: File, g: File)
    requires NoEmptyFile(fs) && L1Ok(fs) && f in fs && g in fs && f != g
    ensures Less(f.Largest(), g.Smallest()) || Less(g.Largest(), f.Smallest())
  {
    var i :| 0 <= i < |fs| && fs[i] == f;
    var j :| 0 <= j < |fs| && fs[j] == g;
  }

  lemma {:induction false} InputRightOf(s: Lsm, f: File, e: Entry)
    requires NoEmptyFile(s.l0) && NoEmptyFile(s.l1) && L1Ok(s.l1) && AllFilesSorted(s.l0) && AllFilesSorted(s.l1)
    requires f in s.l1 && Less(f.Largest(), L0Range(s.l0).0) && IsInput(s, e)
    ensures Less(f.Largest(), e.key.user)
  {
    var lo, hi := L0Range(s.l0).0, L0Range(s.l0).1;
    if g :| g in s.l0 && e in g.entries {
      L0RangeCovers(s.l0, g);
      InRange(g, e);
      AtMostTransitive(lo, g.Smallest(), e.key.user);
      AtMostLess(f.Largest(), lo, e.key.user);
    } else {
      var g :| g in Pick(s.l1, lo, hi, true) && e in g.entries;
      InRange(g, e);
      FileOrder(f);
      AtMostLess(f.Largest(), lo, g.Largest());
      AtMostLess(f.Smallest(), f.Largest(), g.Largest());
      LessAsymmetric(f.Smallest(), g.Largest());
      Disjoint(s.l1, f, g);
      AtMostLess(f.Largest(), g.Smallest(), e.key.user);
    }
  }

  lemma {:induction false} InputLeftOf(s: Lsm, f: File, e: Entry)
    requires NoEmptyFile(s.l0) && NoEmptyFile(s.l1) && L1Ok(s.l1) && AllFilesSorted(s.l0) && AllFilesSorted(s.l1)
    requires f in s.l1 && Less(L0Range(s.l0).1, f.Smallest()) && IsInput(s, e)
    ensures Less(e.key.user, f.Smallest())
  {
    var lo, hi := L0Range(s.l0).0, L0Range(s.l0).1;
    if g :| g in s.l0 && e in g.entries {
      L0RangeCovers(s.l0, g);
      InRange(g, e);
      AtMostTransitive(e.key.user, g.Largest(), hi);
      AtMostLess(e.key.user, hi, f.Smallest());
    } else {
      var g :| g in Pick(s.l1, lo, hi, true) && e in g.entries;
      InRange(g, e);
      FileOrder(f);
      AtMostLess(g.Smallest(), hi, f.Smallest());
      AtMostLess(g.Smallest(), f.Smallest(), f.Largest());
      LessAsymmetric(g.Smallest(), f.Largest());
      Disjoint(s.l1, f, g);
      AtMostLess(e.key.user, g.Largest(), f.Smallest());
    }
  }

  // ---- Level 1 after the compaction -----------------------------------------------------------

  lemma {:induction false} PickL1Ok(fs: seq<File>, lo: Bytes, hi: Bytes, b: bool)
    requires NoEmptyFile(fs) && L1Ok(fs)
    ensures L1Ok(Pick(fs, lo, hi, b))
  {
    if fs != [] {
      var tail := fs[1..];
      PickL1Ok(tail, lo, hi, b);
      var r, t := Pick(fs, lo, hi, b), Pick(tail, lo, hi, b);
      forall i, j | 0 <= i < j < |r| ensures Less(r[i].Largest(), r[j].Smallest()) {
        if |r| == |t| {
          assert r == t;
        } else if i == 0 {
          assert r[j] == t[j - 1] && r[j] in tail;
        } else {
          assert r[i] == t[i - 1] && r[j] == t[j - 1];
        }
      }
    }
  }

  ghost predicate Beside(f: File, g: File)
    requires f.entries != [] && g.entries != []
  {
    Less(f.Largest(), g.Smallest()) || Less(g.Largest(), f.Smallest())
  }

  lemma {:induction false} L1OkCons(f: File, fs: seq<File>)
    requires NoEmptyFile(fs) && L1Ok(fs) && f.entries != [] && forall g | g in fs :: Less(f.Largest(), g.Smallest())
    ensures NoEmptyFile([f] + fs) && L1Ok([f] + fs)
  {
    var r := [f] + fs;
    forall i, j | 0 <= i < j < |r| ensures Less(r[i].Largest(), r[j].Smallest()) {
      assert r[j] == fs[j - 1] && r[j] in fs;
    }
  }

  /** Two files side by side, ordered as their smallest keys are. */
  lemma {:induction false} BesideOrder(f: File, h: File)
    requires f.entries != [] && h.entries != [] && Sorted(f.entries) && Sorted(h.entries) && Beside(f, h)
    ensures Less(f.Smallest(), h.Smallest()) <==> Less(f.Largest(), h.Smallest())
    ensures !Less(f.Smallest(), h.Smallest()) ==> Less(h.Largest(), f.Smallest())
  {
    FileOrder(f);
    FileOrder(h);
    if Less(f.Largest(), h.Smallest()) { AtMostLess(f.Smallest(), f.Largest(), h.Smallest()); }
    if Less(h.Largest(), f.Smallest()) {
      AtMostLess(h.Smallest(), h.Largest(), f.Smallest());
      LessAsymmetric(h.Smallest(), f.Smallest());
    }
  }

  lemma {:induction false} PlaceL1Ok(fs: seq<File>, f: File)
    requires NoEmptyFile(fs) && L1Ok(fs) && f.entries != [] && AllFilesSorted(fs) && Sorted(f.entries)
    requires forall g | g in fs :: Beside(f, g)
    ensures L1Ok(Place(fs, f))
  {
    if fs != [] {
      var h, tail := fs[0], fs[1..];
      BesideOrder(f, h);
      FileOrder(h);
      if Less(f.Smallest(), h.Smallest()) {
        forall g | g in fs ensures Less(f.Largest(), g.Smallest()) {
          if g != h {
            var j :| 0 <= j < |fs| && fs[j] == g;
            AtMostLess(f.Largest(), h.Smallest(), h.Largest());
            LessTransitive(f.Largest(), h.Largest(), g.Smallest());
          }
        }
        L1OkCons(f, fs);
      } else {
        PlaceL1Ok(tail, f);
        forall g | g in Place(tail, f) ensures Less(h.Largest(), g.Smallest()) {
          if g in tail { var j :| 0 <= j < |tail| && tail[j] == g; assert fs[j + 1] == g; }
        }
        L1OkCons(h, Place(tail, f));
      }
    }
  }

  lemma {:induction false} MergeSorted(out: Table)
    requires forall i, j | 0 <= i < j < |out| :: Less(out[i].key.user, out[j].key.user)
    ensures Sorted(out)
  {
  }

  ghost predicate FilesOk(s: Lsm) {
    NoEmptyFile(s.l0) && NoEmptyFile(s.l1) && L1Ok(s.l1) && AllFilesSorted(s.l0) && AllFilesSorted(s.l1)
  }

  /** The output file touches no level-1 file that was left out. */
  lemma {:induction false} OutputBeside(s: Lsm, out: Table, f: File)
    requires FilesOk(s) && IsMerge(s, out) && out != []
    requires f in Pick(s.l1, L0Range(s.l0).0, L0Range(s.l0).1, false)
    ensures Beside(File(s.nextFile, out), f)
  {
    LeftOutApart(s, f);
    assert out[0] in out && out[|out| - 1] in out;
  }

  lemma {:induction false} CompactL1Ok(s: Lsm, out: Table)
    requires FilesOk(s) && IsMerge(s, out)
    ensures NoEmptyFile(Compact(s, out).l1) && L1Ok(Compact(s, out).l1) && AllFilesSorted(Compact(s, out).l1)
  {
    var lo, hi := L0Range(s.l0).0, L0Range(s.l0).1;
    var rest, f := Pick(s.l1, lo, hi, false), File(s.nextFile, out);
    PickL1Ok(s.l1, lo, hi, false);
    MergeSorted(out);
    if out != [] {
      forall g | g in rest ensures Beside(f, g) { OutputBeside(s, out, g); }
      PlaceL1Ok(rest, f);
    }
  }

  // ---- The stack after the compaction ------------------------------------------------------------

  lemma {:induction false} NewestFirstAt(fs: seq<File>, i: nat)
    requires i < |fs|
    ensures |NewestFirst(fs)| == |fs| && NewestFirst(fs)[i] == fs[|fs| - 1 - i].entries
  {
    var init := fs[..|fs| - 1];
    if init != [] {
      NewestFirstAt(init, if i == 0 then 0 else i - 1);
      if i > 0 { assert NewestFirst(fs)[i] == NewestFirst(init)[i - 1]; }
    }
  }

  /** Disjoint files hold no common user key, so they are layered in any order. */
  lemma {:induction false} L1Layered(fs: seq<File>)
    requires NoEmptyFile(fs) && L1Ok(fs) && AllFilesSorted(fs)
    ensures Layered(NewestFirst(fs))
  {
    var ts := NewestFirst(fs);
    forall i, j | 0 <= i < j < |ts| ensures TableAbove(ts[i], ts[j]) {
      if fs != [] { NewestFirstAt(fs, 0); }
      NewestFirstAt(fs, i);
      NewestFirstAt(fs, j);
      var f, g := fs[|fs| - 1 - i], fs[|fs| - 1 - j];
      forall e, e' | e in f.entries && e' in g.entries ensures e.key.user != e'.key.user {
        InRange(f, e);
        InRange(g, e');
        AtMostLess(e'.key.user, g.Largest(), f.Smallest());
        AtMostLess(e'.key.user, f.Smallest(), e.key.user);
        LessIrreflexive(e.key.user);
      }
    }
  }

  lemma {:induction false} AboveFewer(a: seq<Table>, b: seq<Table>, c: seq<Table>)
    requires Above(a, b) && forall e | InStack(c, e) :: InStack(b, e)
    ensures Above(a, c)
  {
    forall i, j | 0 <= i < |a| && 0 <= j < |c| ensures TableAbove(a[i], c[j]) {
      forall e, e' | e in a[i] && e' in c[j] && e.key.user == e'.key.user ensures e'.key.num <= e.key.num {
        assert InStack(c, e');
        var k :| 0 <= k < |b| && e' in b[k];
        assert TableAbove(a[i], b[k]);
      }
    }
  }

  /** Replacing what is below a part of the stack by fewer entries, themselves well formed. */
  lemma {:induction false} FewerBelow(a: seq<Table>, b: seq<Table>, c: seq<Table>, limit: nat)
    requires StackOk(a + b, limit) && AllSorted(c) && Layered(c)
    requires forall e | InStack(c, e) :: InStack(b, e)
    ensures StackOk(a + c, limit)
    ensures forall e :: InStack(a + c, e) <==> InStack(a, e) || InStack(c, e)
    ensures forall e :: InStack(a + b, e) <==> InStack(a, e) || InStack(b, e)
  {
    LayeredSplit(a, b);
    AboveFewer(a, b, c);
    LayeredJoin(a, c);
    forall e ensures InStack(a + c, e) <==> InStack(a, e) || InStack(c, e) { InStackConcat(a, c, e); }
    forall e ensures InStack(a + b, e) <==> InStack(a, e) || InStack(b, e) { InStackConcat(a, b, e); }
    forall i | 0 <= i < |a + c| ensures Sorted((a + c)[i]) { if i < |a| { assert (a + c)[i] == (a + b)[i]; } }
    forall x, y | InStack(a + c, x) && InStack(a + c, y) ensures Distinguished(x, y) { }
  }

  lemma {:induction false} InCompacted(s: Lsm, out: Table, e: Entry)
    requires FilesOk(s) && IsMerge(s, out)
    ensures var s' := Compact(s, out);
            InFiles(s'.l1, e) <==> e in out || InFiles(Pick(s.l1, L0Range(s.l0).0, L0Range(s.l0).1, false), e)
  {
    var s', f := Compact(s, out), File(s.nextFile, out);
    var rest := Pick(s.l1, L0Range(s.l0).0, L0Range(s.l0).1, false);
    if out != [] {
      if InFiles(s'.l1, e) {
        var g :| g in s'.l1 && e in g.entries;
      }
      if e in out { assert f in s'.l1; }
      if InFiles(rest, e) {
        var g :| g in rest && e in g.entries;
        assert g in s'.l1;
      }
    }
  }

  /** An old file entry is an input or in a file left out. */
  lemma {:induction false} InputOrRest(s: Lsm, e: Entry)
    requires FilesOk(s)
    ensures InFiles(s.l0, e) || InFiles(s.l1, e) <==>
            IsInput(s, e) || InFiles(Pick(s.l1, L0Range(s.l0).0, L0Range(s.l0).1, false), e)
  {
    var lo, hi := L0Range(s.l0).0, L0Range(s.l0).1;
    if g :| g in s.l1 && e in g.entries { assert g in Pick(s.l1, lo, hi, Overlaps(g, lo, hi)); }
  }

  /** No entry is newer than all that is left of its user key, and nothing left is new: so the files
      before and after hold the same newest entry of every user key, which is all that a read at the last
      sequence sees. */
  lemma {:induction false} NewestSurvives(s: Lsm, out: Table, e: Entry)
    requires FilesOk(s) && IsMerge(s, out)
    requires InFiles(s.l0, e) || InFiles(s.l1, e)
    ensures exists o :: InFiles(Compact(s, out).l1, o) && o.key.user == e.key.user && e.key.num <= o.key.num
    ensures forall o | InFiles(Compact(s, out).l1, o) :: InFiles(s.l0, o) || InFiles(s.l1, o)
  {
    forall o | InFiles(Compact(s, out).l1, o) ensures InFiles(s.l0, o) || InFiles(s.l1, o) {
      CompactedWasThere(s, out, o);
    }
    InputOrRest(s, e);
    if IsInput(s, e) {
      assert Covered(out, e);
      var o :| o in out && o.key.user == e.key.user;
      assert NotNewer(e, o);
      InCompacted(s, out, o);
    } else {
      InCompacted(s, out, e);
    }
  }

  lemma {:induction false} CompactedWasThere(s: Lsm, out: Table, e: Entry)
    requires FilesOk(s) && IsMerge(s, out) && InFiles(Compact(s, out).l1, e)
    ensures InFiles(s.l0, e) || InFiles(s.l1, e)
  {
    InCompacted(s, out, e);
    InputOrRest(s, e);
  }

  /** Everything above the files. */
  function Upper(s: Lsm): seq<Table> { [s.mem] + (if s.published then [] else OfOption(s.imm)) }

  lemma {:induction false} InFilesStack(s: Lsm, e: Entry)
    ensures InStack(NewestFirst(s.l0) + NewestFirst(s.l1), e) <==> InFiles(s.l0, e) || InFiles(s.l1, e)
  {
    InStackConcat(NewestFirst(s.l0), NewestFirst(s.l1), e);
    InNewestFirst(s.l0, e);
    InNewestFirst(s.l1, e);
  }

  lemma {:induction false} InvFiles(s: Lsm)
    requires Inv(s)
    ensures FilesOk(s)
  {
    var files := NewestFirst(s.l0) + NewestFirst(s.l1);
    assert Stack(s) == Upper(s) + files;
    assert AllSorted(NewestFirst(s.l0)) by {
      forall i | 0 <= i < |NewestFirst(s.l0)| ensures Sorted(NewestFirst(s.l0)[i]) {
        assert NewestFirst(s.l0)[i] == Stack(s)[|Upper(s)| + i];
      }
    }
    assert AllSorted(NewestFirst(s.l1)) by {
      forall i | 0 <= i < |NewestFirst(s.l1)| ensures Sorted(NewestFirst(s.l1)[i]) {
        assert NewestFirst(s.l1)[i] == Stack(s)[|Upper(s)| + |NewestFirst(s.l0)| + i];
      }
    }
    NewestFirstSorted(s.l0);
    NewestFirstSorted(s.l1);
  }

  lemma {:induction false} CompactStackOk(s: Lsm, out: Table)
    requires Inv(s) && !s.published && IsMerge(s, out)
    ensures var s' := Compact(s, out);
            && StackOk(Stack(s'), s.lastSeq) && Stack(s') == Upper(s) + NewestFirst(s'.l1)
            && (forall e :: InStack(Stack(s), e) <==> InStack(Upper(s), e) || InFiles(s.l0, e) || InFiles(s.l1, e))
            && (forall e :: InStack(Stack(s'), e) <==> InStack(Upper(s), e) || InFiles(s'.l1, e))
  {
    var s', a := Compact(s, out), Upper(s);
    var b, c := NewestFirst(s.l0) + NewestFirst(s.l1), NewestFirst(s'.l1);
    InvFiles(s);
    CompactL1Ok(s, out);
    NewestFirstSorted(s'.l1);
    L1Layered(s'.l1);
    forall e ensures InStack(b, e) <==> InFiles(s.l0, e) || InFiles(s.l1, e) { InFilesStack(s, e); }
    forall e ensures InStack(c, e) <==> InFiles(s'.l1, e) { InNewestFirst(s'.l1, e); }
    forall e | InStack(c, e) ensures InStack(b, e) { CompactedWasThere(s, out, e); }
    assert Stack(s) == a + b;
    assert Stack(s') == a + c by { assert NewestFirst(s'.l0) == []; assert [] + c == c; }
    FewerBelow(a, b, c, s.lastSeq);
  }

  // ---- File numbers -------------------------------------------------------------------------------

  lemma {:induction false} PickDistinct(fs: seq<File>, lo: Bytes, hi: Bytes, b: bool, limit: nat)
    requires NoEmptyFile(fs) && NumbersOk(fs, limit)
    ensures NumbersOk(Pick(fs, lo, hi, b), limit)
  {
    if fs != [] {
      var tail := fs[1..];
      PickDistinct(tail, lo, hi, b, limit);
      var r, t := Pick(fs, lo, hi, b), Pick(tail, lo, hi, b);
      if |r| == |t| {
        assert r == t;
      } else {
        assert r == [fs[0]] + t;
        forall j | 0 <= j < |t| ensures t[j].number != fs[0].number { assert t[j] in t; }
      }
    }
  }

  lemma {:induction false} PlaceDistinct(fs: seq<File>, f: File, limit: nat)
    requires NoEmptyFile(fs) && f.entries != [] && NumbersOk(fs, limit) && f.number < limit
    requires forall g | g in fs :: g.number != f.number
    ensures NumbersOk(Place(fs, f), limit)
  {
    if fs != [] && !Less(f.Smallest(), fs[0].Smallest()) {
      var tail := fs[1..];
      PlaceDistinct(tail, f, limit);
      var t := Place(tail, f);
      forall j | 0 <= j < |t| ensures t[j].number != fs[0].number { assert t[j] in t; }
    }
  }

  lemma {:induction false} CompactNumbers(s: Lsm, out: Table)
    requires NoEmptyFile(s.l0) && NoEmptyFile(s.l1) && NumbersOk(s.l0 + s.l1, s.nextFile)
    ensures NumbersOk(Compact(s, out).l0 + Compact(s, out).l1, s.nextFile + 1)
  {
    hide Pick, L0Range;
    var lo, hi := L0Range(s.l0).0, L0Range(s.l0).1;
    var all, s' := s.l0 + s.l1, Compact(s, out);
    assert NumbersOk(s.l1, s.nextFile) by {
      forall i | 0 <= i < |s.l1| ensures s.l1[i].number < s.nextFile { assert s.l1[i] == all[|s.l0| + i]; }
      forall i, j | 0 <= i < j < |s.l1| ensures s.l1[i].number != s.l1[j].number {
        assert s.l1[i] == all[|s.l0| + i] && s.l1[j] == all[|s.l0| + j];
      }
    }
    PickDistinct(s.l1, lo, hi, false, s.nextFile);
    var rest := Pick(s.l1, lo, hi, false);
    forall g | g in rest ensures g.number != s.nextFile {
      var i :| 0 <= i < |rest| && rest[i] == g;
      assert rest[i].number < s.nextFile;
    }
    if out != [] { PlaceDistinct(rest, File(s.nextFile, out), s.nextFile + 1); }
    assert s'.l0 + s'.l1 == s'.l1;
  }

  // ---- Compaction keeps the invariant and every current answer --------------------------------------

  lemma {:induction false} CompactSameNewest(s: Lsm, out: Table, u: Bytes, e: Entry)
    requires Inv(s) && !s.published && IsMerge(s, out) && IsNewest(Stack(s), u, s.lastSeq, e)
    ensures IsNewest(Stack(Compact(s, out)), u, s.lastSeq, e)
  {
    var s' := Compact(s, out);
    InvFiles(s);
    CompactStackOk(s, out);
    forall x | InStack(Stack(s'), x) ensures InStack(Stack(s), x) {
      if InFiles(s'.l1, x) { CompactedWasThere(s, out, x); }
    }
    if !InStack(Upper(s), e) {
      NewestSurvives(s, out, e);
      var o :| InFiles(s'.l1, o) && o.key.user == e.key.user && e.key.num <= o.key.num;
      assert InStack(Stack(s'), o) && InStack(Stack(s), o);
      assert Distinguished(e, o);
    }
  }

  lemma {:induction false} CompactKeeps(s: Lsm, out: Table, u: Bytes)
    requires Inv(s) && !s.published && IsMerge(s, out)
    ensures Inv(Compact(s, out)) && Get(Compact(s, out), u, s.lastSeq) == Get(s, u, s.lastSeq)
  {
    var s' := Compact(s, out);
    InvFiles(s);
    CompactStackOk(s, out);
    CompactL1Ok(s, out);
    CompactNumbers(s, out);
    LayersAgree(s, u, s.lastSeq);
    LayersAgree(s', u, s.lastSeq);
    forall e | IsNewest(Stack(s), u, s.lastSeq, e) ensures IsNewest(Stack(s'), u, s.lastSeq, e) {
      CompactSameNewest(s, out, u, e);
    }
    forall e | InStack(Stack(s'), e) && Visible(e, u, s.lastSeq) ensures InStack(Stack(s), e) {
      if InFiles(s'.l1, e) { CompactedWasThere(s, out, e); }
    }
    SameAnswer(Stack(s), Stack(s'), u, s.lastSeq);
  }
}
