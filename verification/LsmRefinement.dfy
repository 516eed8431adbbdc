/** Over every run of writes and background steps, in any order, the engine is a map. */
module LsmRefinement {
  import opened Values
  import opened InternalKeys
  import opened Tables
  import opened LsmEngine
  import opened LsmProof
  import opened CompactionProof

  datatype LsmOp =
    | PutOp(key: Bytes, value: Bytes)
    | DeleteOp(key: Bytes)
    | RotateOp
    | PublishOp
    | DropImmOp
    | CompactOp(out: Table)

  /** When a step may happen. Flush and compaction share one background thread, so compaction does
      not fall between the two steps of a flush. */
  ghost predicate CanStep(s: Lsm, op: LsmOp) {
    match op
    case PutOp(_, _) => true
    case DeleteOp(_) => true
    case RotateOp => s.imm.None?
    case PublishOp => s.imm.Some? && !s.published
    case DropImmOp => s.published
    case CompactOp(out) => !s.published && NoEmptyFile(s.l0) && NoEmptyFile(s.l1) && IsMerge(s, out)
  }

  function StepOf(s: Lsm, op: LsmOp): Lsm
    requires CanStep(s, op)
  {
    match op
    case PutOp(k, v) => Write(s, k, Put, v)
    case DeleteOp(k) => Write(s, k, Deletion, [])
    case RotateOp => Rotate(s)
    case PublishOp => Publish(s)
    case DropImmOp => DropImm(s)
    case CompactOp(out) => Compact(s, out)
  }

  ghost predicate IsRun(states: seq<Lsm>, ops: seq<LsmOp>) {
    && |states| == |ops| + 1
    && states[0] == NewLsm
    && forall i | 0 <= i < |ops| :: CanStep(states[i], ops[i]) && states[i + 1] == StepOf(states[i], ops[i])
  }

  /** The map after the first `n` operations: the last put wins, a delete removes, and background
      steps do nothing. */
  function MapAfter(ops: seq<LsmOp>, n: nat): map<Bytes, Bytes>
    requires n <= |ops|
  {
    if n == 0 then map[]
    else
      var m := MapAfter(ops, n - 1);
      match ops[n - 1]
      case PutOp(k, v) => m[k := v]
      case DeleteOp(k) => m - {k}
      case _ => m
  }

  function Lookup(m: map<Bytes, Bytes>, u: Bytes): Option<Bytes> { if u in m then Some(m[u]) else None }

  lemma {:induction false} NothingStacked()
    ensures StackOk([[]], 0)
  {
    var ts: seq<Table> := [[]];
    forall e ensures !InStack(ts, e) { }
  }

  lemma {:induction false} StartsEmpty(u: Bytes)
    ensures Inv(NewLsm) && Get(NewLsm, u, NewLsm.lastSeq).None?
  {
    var ts: seq<Table> := [[]];
    assert Stack(NewLsm) == ts && Layers(NewLsm) == ts && ts[1..] == [];
    hide StackGet;
    NothingStacked();
    var none: Table := [];
    assert ts[0] == none && TableGet(none, u, 0).None? && StackGet(ts[1..], u, 0).None?;
  }

  /** The engine refines a map: in every state of every run a read at the last sequence answers as
      the map does, and the layering invariant holds. */
  lemma {:induction false} EngineIsMap(states: seq<Lsm>, ops: seq<LsmOp>, n: nat, u: Bytes)
    requires IsRun(states, ops) && n < |states|
    ensures Inv(states[n])
    ensures Get(states[n], u, states[n].lastSeq) == Lookup(MapAfter(ops, n), u)
    decreases n
  {
    if n == 0 {
      StartsEmpty(u);
    } else {
      EngineIsMap(states, ops, n - 1, u);
      var s := states[n - 1];
      match ops[n - 1]
      case PutOp(k, v) => WriteKeeps(s, k, Put, v, u);
      case DeleteOp(k) => WriteKeeps(s, k, Deletion, [], u);
      case RotateOp => RotateKeeps(s, u, s.lastSeq);
      case PublishOp => PublishKeeps(s, u, s.lastSeq);
      case DropImmOp => DropImmKeeps(s, u, s.lastSeq);
      case CompactOp(out) => CompactKeeps(s, out, u);
    }
  }

  // ---- Reads at older snapshots --------------------------------------------------------------------

  /** What the snapshot sees of the user is in the compaction's inputs only, and so is a version too
      new for the snapshot. */
  ghost predicate Superseded(s: Lsm, u: Bytes, n: nat)
    requires NoEmptyFile(s.l0) && NoEmptyFile(s.l1)
  {
    var r := StackGet(Stack(s), u, n);
    && r.Some? && !InStack(Upper(s), r.value) && IsInput(s, r.value)
    && exists e :: IsInput(s, e) && e.key.user == u && e.key.num > n
  }

  /** A file left out holds no user key of the inputs. */
  lemma {:induction false} RestHasNone(s: Lsm, x: Entry, y: Entry)
    requires FilesOk(s) && IsInput(s, x) && InFiles(Pick(s.l1, L0Range(s.l0).0, L0Range(s.l0).1, false), y)
    ensures y.key.user != x.key.user
  {
    var f :| f in Pick(s.l1, L0Range(s.l0).0, L0Range(s.l0).1, false) && y in f.entries;
    LeftOutApart(s, f);
    InRange(f, y);
    assert Left(f, x.key.user) || Right(f, x.key.user);
  }

  lemma {:induction false} SupersededGone(s: Lsm, out: Table, u: Bytes, n: nat, y: Entry)
    requires Inv(s) && !s.published && IsMerge(s, out) && Superseded(s, u, n)
    requires InStack(Upper(s), y) || InFiles(Compact(s, out).l1, y)
    ensures !Visible(y, u, n)
  {
    var e := StackGet(Stack(s), u, n).value;
    var x :| IsInput(s, x) && x.key.user == u && x.key.num > n;
    StackGetNewest(Stack(s), u, n);
    if InStack(Upper(s), y) {
      if y.key.user == u {
        UpperNotOlder(s, y, e);
        assert Distinguished(y, e);
      }
    } else {
      InvFiles(s);
      InCompacted(s, out, y);
      if y in out { assert NotNewer(x, y); } else { RestHasNone(s, x, y); }
    }
  }

  lemma {:induction false} UpperNotOlder(s: Lsm, y: Entry, e: Entry)
    requires Inv(s) && InStack(Upper(s), y) && InStack(Stack(s), e) && !InStack(Upper(s), e) && y.key.user == e.key.user
    ensures e.key.num <= y.key.num && InStack(Stack(s), y)
  {
    var files := NewestFirst(s.l0) + NewestFirst(s.l1);
    assert Stack(s) == Upper(s) + files;
    LayeredSplit(Upper(s), files);
    InStackConcat(Upper(s), files, e);
    InStackConcat(Upper(s), files, y);
    var i :| 0 <= i < |Upper(s)| && y in Upper(s)[i];
    var j :| 0 <= j < |files| && e in files[j];
    assert TableAbove(Upper(s)[i], files[j]);
  }

  lemma {:induction false} NotSupersededKept(s: Lsm, out: Table, u: Bytes, n: nat, e: Entry)
    requires Inv(s) && !s.published && IsMerge(s, out) && !Superseded(s, u, n) && IsNewest(Stack(s), u, n, e)
    ensures IsNewest(Stack(Compact(s, out)), u, n, e)
  {
    var s' := Compact(s, out);
    InvFiles(s);
    CompactStackOk(s, out);
    StackGetNewest(Stack(s), u, n);
    NewestUnique(Stack(s), u, n, e, StackGet(Stack(s), u, n).value);
    forall x | InStack(Stack(s'), x) ensures InStack(Stack(s), x) {
      if InFiles(s'.l1, x) { CompactedWasThere(s, out, x); }
    }
    if !InStack(Upper(s), e) {
      InputOrRest(s, e);
      InCompacted(s, out, e);
      if IsInput(s, e) {
        assert Covered(out, e);
        var o :| o in out && o.key.user == u;
        assert IsInput(s, o) && NotNewer(e, o);
        InputOrRest(s, o);
        assert InStack(Stack(s), o) && Distinguished(e, o);
      }
    }
  }

  /** Exactly when a read at an older snapshot survives compaction: when what it saw was not
      superseded in the inputs, or it saw nothing anyway. */
  lemma {:induction false} SnapshotSurvives(s: Lsm, out: Table, u: Bytes, n: nat)
    requires Inv(s) && !s.published && IsMerge(s, out)
    ensures Get(Compact(s, out), u, n) == Get(s, u, n) <==> !Superseded(s, u, n) || Get(s, u, n).None?
  {
    var s' := Compact(s, out);
    InvFiles(s);
    CompactKeeps(s, out, u);
    CompactStackOk(s, out);
    LayersAgree(s, u, n);
    LayersAgree(s', u, n);
    StackGetNewest(Stack(s'), u, n);
    if Superseded(s, u, n) {
      forall y | InStack(Stack(s'), y) ensures !Visible(y, u, n) { SupersededGone(s, out, u, n, y); }
    } else {
      forall e | IsNewest(Stack(s), u, n, e) ensures IsNewest(Stack(s'), u, n, e) {
        NotSupersededKept(s, out, u, n, e);
      }
      forall e | InStack(Stack(s'), e) && Visible(e, u, n) ensures InStack(Stack(s), e) {
        if InFiles(s'.l1, e) { CompactedWasThere(s, out, e); }
      }
      SameAnswer(Stack(s), Stack(s'), u, n);
    }
  }

  // ---- A read that is lost --------------------------------------------------------------------------

  const Newer := Entry(IKey([], 2, Put), [1])
  const Older := Entry(IKey([], 1, Put), [0])

  /** One level-0 file with two versions of the empty user key. */
  const TwoVersions := Lsm([], None, false, [File(3, [Newer, Older])], [], 2, 4)

  lemma {:induction false} TwoVersionsStack(e: Entry)
    ensures Stack(TwoVersions) == [[], [Newer, Older]] && Layers(TwoVersions) == Stack(TwoVersions)
    ensures InStack(Stack(TwoVersions), e) <==> e == Newer || e == Older
  {
    var fs := TwoVersions.l0;
    assert fs[..0] == [] && NewestFirst(fs) == [[Newer, Older]] + NewestFirst(fs[..0]);
    assert Stack(TwoVersions) == [[], [Newer, Older]];
    assert Newer in Stack(TwoVersions)[1] && Older in Stack(TwoVersions)[1];
  }

  lemma {:induction false} TwoVersionsInv()
    ensures Inv(TwoVersions)
  {
    var ts := Stack(TwoVersions);
    TwoVersionsStack(Newer);
    forall e ensures InStack(ts, e) <==> e == Newer || e == Older { TwoVersionsStack(e); }
    assert Sorted(ts[0]) && Sorted(ts[1]);
    forall i, j | 0 <= i < j < |ts| ensures TableAbove(ts[i], ts[j]) { }
    forall x, y | InStack(ts, x) && InStack(ts, y) ensures Distinguished(x, y) { }
  }

  lemma {:induction false} TwoVersionsMerge()
    ensures IsMerge(TwoVersions, [Newer])
  {
    var s := TwoVersions;
    assert Pick(s.l1, L0Range(s.l0).0, L0Range(s.l0).1, true) == [];
    forall e ensures IsInput(s, e) <==> e == Newer || e == Older {
      assert s.l0[0] in s.l0;
    }
    forall e, o | IsInput(s, e) && o in [Newer] ensures NotNewer(e, o) { }
    forall e | IsInput(s, e) ensures Covered([Newer], e) { assert Newer in [Newer]; }
  }

  /** Two puts of the empty key and a flush. */
  const TwoPuts := [PutOp([], [0]), PutOp([], [1]), RotateOp, PublishOp, DropImmOp]

  const TwoPutStates := [
    NewLsm, NewLsm.(mem := [Older], lastSeq := 1), NewLsm.(mem := [Newer, Older], lastSeq := 2),
    NewLsm.(imm := Some([Newer, Older]), lastSeq := 2, nextFile := 3),
    NewLsm.(imm := Some([Newer, Older]), published := true, l0 := [File(3, [Newer, Older])],
            lastSeq := 2, nextFile := 4),
    TwoVersions]

  lemma {:induction false} TwoPutsRun()
    ensures IsRun(TwoPutStates, TwoPuts) && TwoPutStates[5] == TwoVersions
  {
    LessIrreflexive([]);
    assert Insert([], Older) == [Older];
    assert Insert([Older], Newer) == [Newer, Older];
    var ss, ops := TwoPutStates, TwoPuts;
    assert StepOf(ss[0], ops[0]) == ss[1] && StepOf(ss[1], ops[1]) == ss[2];
    assert StepOf(ss[2], ops[2]) == ss[3] && StepOf(ss[3], ops[3]) == ss[4] && StepOf(ss[4], ops[4]) == ss[5];
    forall i | 0 <= i < |ops| ensures CanStep(ss[i], ops[i]) && ss[i + 1] == StepOf(ss[i], ops[i]) { }
  }

  /** The compaction of that file loses what snapshot 1 could read; a run of two puts and a flush leads
      there. */
  lemma {:induction false} SnapshotLost()
    ensures IsRun(TwoPutStates, TwoPuts) && TwoPutStates[5] == TwoVersions && CanStep(TwoVersions, CompactOp([Newer]))
    ensures Inv(TwoVersions) && IsMerge(TwoVersions, [Newer])
    ensures Get(TwoVersions, [], 1) == Some([0]) && Get(Compact(TwoVersions, [Newer]), [], 1) == None
  {
    var s, ts := TwoVersions, Stack(TwoVersions);
    TwoPutsRun();
    TwoVersionsInv();
    TwoVersionsMerge();
    forall e ensures InStack(ts, e) <==> e == Newer || e == Older { TwoVersionsStack(e); }
    TwoVersionsStack(Older);
    StackGetNewest(ts, [], 1);
    assert Visible(Older, [], 1) && IsNewest(ts, [], 1, Older);
    NewestUnique(ts, [], 1, Older, StackGet(ts, [], 1).value);
    assert s.l0[0] in s.l0 && IsInput(s, Older) && IsInput(s, Newer);
    assert !InStack(Upper(s), Older);
    assert Superseded(s, [], 1);
    CompactKeeps(s, [Newer], []);
    CompactStackOk(s, [Newer]);
    InvFiles(s);
    var s' := Compact(s, [Newer]);
    LayersAgree(s', [], 1);
    StackGetNewest(Stack(s'), [], 1);
    forall y | InStack(Stack(s'), y) ensures !Visible(y, [], 1) { SupersededGone(s, [Newer], [], 1, y); }
  }
}
