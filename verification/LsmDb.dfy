/** The open database object: the write path with rotation, reads through all layers, the two steps
    of a flush, and compaction, each proved to be the matching step of the engine. */
module LsmDb {
  import opened Values
  import opened InternalKeys
  import opened Tables
  import opened LsmEngine
  import opened LsmProof
  import opened CompactionProof
  import opened Merging
  import Wal
  import opened DbIteration

  // ---- Reads with range checks -------------------------------------------------------------

  /** Outside a file's range there is nothing to find. */
  lemma {:induction false} OutsideRange(f: File, user: Bytes, s: nat)
    requires f.entries != [] && Sorted(f.entries) && (Less(user, f.Smallest()) || Less(f.Largest(), user))
    ensures TableGet(f.entries, user, s).None?
  {
    TableGetNewest(f.entries, user, s);
    if TableGet(f.entries, user, s).Some? { InRange(f, TableGet(f.entries, user, s).value); }
  }

  lemma {:induction false} StackGetConcat(a: seq<Table>, b: seq<Table>, user: Bytes, s: nat)
    ensures StackGet(a + b, user, s) == if StackGet(a, user, s).Some? then StackGet(a, user, s)
        else StackGet(b, user, s)
  {
    if a == [] {
      assert a + b == b;
    } else {
      assert (a + b)[1..] == a[1..] + b;
      StackGetConcat(a[1..], b, user, s);
    }
  }

  lemma {:induction false} LayersSplit(s: Lsm, user: Bytes, n: nat)
    ensures StackGet(Layers(s), user, n) ==
              if TableGet(s.mem, user, n).Some? then TableGet(s.mem, user, n)
              else if s.imm.Some? && TableGet(s.imm.value, user, n).Some? then TableGet(s.imm.value, user, n)
              else if StackGet(NewestFirst(s.l0), user, n).Some? then StackGet(NewestFirst(s.l0), user, n)
              else StackGet(NewestFirst(s.l1), user, n)
  {
    var files := NewestFirst(s.l0) + NewestFirst(s.l1);
    StackGetConcat([s.mem] + OfOption(s.imm), files, user, n);
    StackGetConcat([s.mem], OfOption(s.imm), user, n);
    StackGetConcat(NewestFirst(s.l0), NewestFirst(s.l1), user, n);
  }

  /** Newest file first; a file whose range does not hold the key is not opened. */
  method LevelGet(fs: seq<File>, user: Bytes, s: nat) returns (r: Option<Entry>)
    requires NoEmptyFile(fs) && AllFilesSorted(fs)
    ensures r == StackGet(NewestFirst(fs), user, s)
  {
    var n := |fs|;
    assert fs[..n] == fs;
    while n > 0
      invariant 0 <= n <= |fs|
      invariant StackGet(NewestFirst(fs), user, s) == StackGet(NewestFirst(fs[..n]), user, s)
    {
      var f := fs[n - 1];
      assert f in fs && fs[..n][..n - 1] == fs[..n - 1];
      assert NewestFirst(fs[..n])[1..] == NewestFirst(fs[..n - 1]);
      n := n - 1;
      if Less(user, f.Smallest()) || Less(f.Largest(), user) {
        OutsideRange(f, user, s);
        continue;
      }
      r := TableGet(f.entries, user, s);
      if r.Some? { return; }
    }
    r := None;
  }

  // ---- Compaction inputs ---------------------------------------------------------------------

  lemma {:induction false} PickSnoc(fs: seq<File>, f: File, lo: Bytes, hi: Bytes, b: bool)
    requires NoEmptyFile(fs) && f.entries != []
    ensures NoEmptyFile(fs + [f])
    ensures Pick(fs + [f], lo, hi, b) == Pick(fs, lo, hi, b) + if Overlaps(f, lo, hi) == b then [f] else []
  {
    hide Overlaps;
    if fs != [] {
      assert (fs + [f])[1..] == fs[1..] + [f];
      PickSnoc(fs[1..], f, lo, hi, b);
    } else {
      assert fs + [f] == [f];
    }
  }

  /** The first compaction loop: the user-key range of the level-0 files. */
  method RangeOfL0(fs: seq<File>) returns (lo: Bytes, hi: Bytes)
    requires NoEmptyFile(fs)
    ensures (lo, hi) == L0Range(fs)
  {
    lo, hi := [], [];
    var first := true;
    for n := 0 to |fs|
      invariant first == (n == 0) && NoEmptyFile(fs[..n]) && (lo, hi) == L0Range(fs[..n])
    {
      var f := fs[n];
      assert fs[..n + 1][..n] == fs[..n];
      if first || Less(f.Smallest(), lo) { lo := f.Smallest(); }
      if first || Less(hi, f.Largest()) { hi := f.Largest(); }
      first := false;
    }
    assert fs[..|fs|] == fs;
  }

  /** The second: the level-1 files that overlap it. */
  method PickOverlapping(fs: seq<File>, lo: Bytes, hi: Bytes) returns (picked: seq<File>)
    requires NoEmptyFile(fs)
    ensures picked == Pick(fs, lo, hi, true)
  {
    picked := [];
    for n := 0 to |fs|
      invariant picked == Pick(fs[..n], lo, hi, true)
    {
      assert fs[..n + 1] == fs[..n] + [fs[n]];
      PickSnoc(fs[..n], fs[n], lo, hi, true);
      if Overlaps(fs[n], lo, hi) { picked := picked + [fs[n]]; }
    }
    assert fs[..|fs|] == fs;
  }

  /** Deleting the picked files by number leaves the others. */
  method EraseNumbers(fs: seq<File>, picked: seq<File>, ghost lo: Bytes, ghost hi: Bytes,
      ghost limit: nat) returns (rest: seq<File>)
    requires NoEmptyFile(fs) && NumbersOk(fs, limit) && picked == Pick(fs, lo, hi, true)
    ensures rest == Pick(fs, lo, hi, false)
  {
    hide Overlaps;
    var doomed := set f | f in picked :: f.number;
    rest := [];
    for n := 0 to |fs|
      invariant rest == Pick(fs[..n], lo, hi, false)
    {
      var f := fs[n];
      assert fs[..n + 1] == fs[..n] + [f];
      PickSnoc(fs[..n], f, lo, hi, false);
      assert f.number in doomed <==> Overlaps(f, lo, hi) by {
        if Overlaps(f, lo, hi) { assert f in picked; }
        if f.number in doomed {
          var g :| g in picked && g.number == f.number;
          var m :| 0 <= m < |fs| && fs[m] == g;
          assert m == n;
        }
      }
      if f.number !in doomed { rest := rest + [f]; }
    }
    assert fs[..|fs|] == fs;
  }

  lemma {:induction false} EntriesStack(fs: seq<File>, ts: seq<Table>, e: Entry)
    requires |ts| == |fs| && forall i | 0 <= i < |fs| :: ts[i] == fs[i].entries
    ensures InStack(ts, e) <==> InFiles(fs, e)
  {
    if InStack(ts, e) {
      var i :| 0 <= i < |ts| && e in ts[i];
      assert fs[i] in fs;
    }
    if InFiles(fs, e) {
      var f :| f in fs && e in f.entries;
      var i :| 0 <= i < |fs| && fs[i] == f;
      assert e in ts[i];
    }
  }

  lemma {:induction false} InFilesConcat(a: seq<File>, b: seq<File>, e: Entry)
    ensures InFiles(a + b, e) <==> InFiles(a, e) || InFiles(b, e)
  {
    if InFiles(a + b, e) { var f :| f in a + b && e in f.entries; assert f in a || f in b; }
    if InFiles(a, e) { var f :| f in a && e in f.entries; assert f in a + b; }
    if InFiles(b, e) { var f :| f in b && e in f.entries; assert f in a + b; }
  }

  /** The merge of the input files. */
  method MergeInputs(ghost s: Lsm, inputs: seq<File>) returns (out: Table)
    requires FilesOk(s) && AllFilesSorted(inputs)
    requires inputs == s.l0 + Pick(s.l1, L0Range(s.l0).0, L0Range(s.l0).1, true)
    ensures IsMerge(s, out)
  {
    var ts := seq(|inputs|, i requires 0 <= i < |inputs| => inputs[i].entries);
    forall i | 0 <= i < |ts| ensures Sorted(ts[i]) { assert inputs[i] in inputs; }
    out := MergeNewest(ts);
    forall e ensures InStack(ts, e) <==> IsInput(s, e) {
      EntriesStack(inputs, ts, e);
      InFilesConcat(s.l0, Pick(s.l1, L0Range(s.l0).0, L0Range(s.l0).1, true), e);
    }
  }

  lemma {:induction false} RotateAll(s: Lsm)
    requires Inv(s) && s.imm.None?
    ensures Inv(Rotate(s)) && forall u :: Get(Rotate(s), u, s.lastSeq) == Get(s, u, s.lastSeq)
  {
    RotateKeeps(s, [], 0);
    forall u ensures Get(Rotate(s), u, s.lastSeq) == Get(s, u, s.lastSeq) { RotateKeeps(s, u, s.lastSeq); }
  }

  lemma {:induction false} WriteAll(s: Lsm, user: Bytes, kind: Kind, value: Bytes)
    requires Inv(s)
    ensures var s' := Write(s, user, kind, value);
            Inv(s') && forall u ::
                Get(s', u, s'.lastSeq) == if u == user then (if kind.Put? then Some(value) else None)
                    else Get(s, u, s.lastSeq)
  {
    var s' := Write(s, user, kind, value);
    WriteKeeps(s, user, kind, value, user);
    forall u ensures Get(s', u, s'.lastSeq) == if u == user then (if kind.Put? then Some(value) else None)
        else Get(s, u, s.lastSeq) {
      WriteKeeps(s, user, kind, value, u);
    }
  }

  /** The log of these writes, the memtable they made and the last sequence they used. */
  ghost predicate Logs(wal: Bytes, mem: Table, last: nat, ws: seq<Entry>) {
    && wal == Wal.Log(Wal.StoredCrc, Wal.RecordsOf(ws)) && mem == Wal.MemAfter(ws)
    && (forall e | e in ws :: e.key.num <= last) && (ws != [] ==> ws[|ws| - 1].key.num == last)
  }

  lemma {:induction false} LogsNothing(last: nat)
    ensures Logs([], [], last, [])
  {
  }

  lemma {:induction false} LogsOne(wal: Bytes, mem: Table, last: nat, ws: seq<Entry>, e: Entry)
    requires Logs(wal, mem, last, ws) && e.key.num > last
    ensures Logs(wal + Wal.Frame(Wal.StoredCrc, Wal.RecordOf(e)), Insert(mem, e), e.key.num, ws + [e])
  {
    hide Wal.Frame, Wal.RecordOf, Insert;
    var all := ws + [e];
    assert all[..|ws|] == ws;
    assert Wal.RecordsOf(all) == Wal.RecordsOf(ws) + [Wal.RecordOf(e)];
    Wal.LogSnoc(Wal.StoredCrc, Wal.RecordsOf(ws), Wal.RecordOf(e));
  }

  class DbImpl {
    var mem: Table
    /** The current log file. */
    var wal: Bytes
    var imm: Option<Table>
    var l0: seq<File>
    var l1: seq<File>
    var lastSequence: nat
    var nextFileNumber: nat
    var memoryUsage: nat
    const writeBufferSize: nat
    const compactionTrigger: nat
    /** Between the two critical sections of a flush. */
    ghost var published: bool
    /** The writes in the current log file. */
    ghost var logged: seq<Entry>

    constructor (writeBufferSize: nat, compactionTrigger: nat)
      ensures View() == NewLsm && memoryUsage == 0 && logged == [] && LogOk()
      ensures this.writeBufferSize == writeBufferSize && this.compactionTrigger == compactionTrigger
    {
      mem, imm, l0, l1, lastSequence, nextFileNumber, memoryUsage := [], None, [], [], 0, 2, 0;
      wal, logged := [], [];
      this.writeBufferSize, this.compactionTrigger, published := writeBufferSize, compactionTrigger, false;
    }

    ghost function View(): Lsm
      reads this
    {
      Lsm(mem, imm, published, l0, l1, lastSequence, nextFileNumber)
    }

    ghost predicate LogOk()
      reads this
    {
      Logs(wal, mem, lastSequence, logged)
    }

    ghost predicate Valid()
      reads this
    {
      Inv(View()) && LogOk()
    }

    /** The memtable becomes immutable when it is full and there is no other one. */
    method MakeRoomForWrite()
      requires Valid() && (imm.None? || memoryUsage < writeBufferSize)
      modifies this
      ensures Valid() && lastSequence == old(lastSequence)
      ensures View() == if old(memoryUsage) < writeBufferSize then old(View()) else LsmEngine.Rotate(old(View()))
      ensures memoryUsage == if old(memoryUsage) < writeBufferSize then old(memoryUsage) else 0
      ensures logged == if old(memoryUsage) < writeBufferSize then old(logged) else []
      ensures wal == if old(memoryUsage) < writeBufferSize then old(wal) else []
      ensures forall u :: LsmEngine.Get(View(), u, lastSequence) == LsmEngine.Get(old(View()), u, lastSequence)
    {
      hide Logs, LsmEngine.Get, LsmEngine.Inv;
      if memoryUsage >= writeBufferSize {
        RotateAll(View());
        imm, mem, memoryUsage, nextFileNumber := Some(mem), [], 0, nextFileNumber + 1;
        wal, logged := [], [];
        LogsNothing(lastSequence);
      }
    }

    /** A write waits until the memtable has room or can be rotated; then it takes the next sequence
        number. */
    method Write(user: Bytes, kind: Kind, value: Bytes, entrySize: nat)
      requires Valid() && (imm.None? || memoryUsage < writeBufferSize)
      modifies this
      ensures Valid()
      ensures View() == LsmEngine.Write(if old(memoryUsage) < writeBufferSize then old(View())
          else LsmEngine.Rotate(old(View())), user, kind, value)
      ensures memoryUsage == (if old(memoryUsage) < writeBufferSize then old(memoryUsage) else 0) + entrySize
      ensures var e := Entry(IKey(user, lastSequence, kind), value);
              && lastSequence == old(lastSequence) + 1
              && logged == (if old(memoryUsage) < writeBufferSize then old(logged) else []) + [e]
              && wal == (if old(memoryUsage) < writeBufferSize then old(wal)
                  else []) + Wal.Frame(Wal.StoredCrc, Wal.RecordOf(e))
      ensures forall u :: LsmEngine.Get(View(), u, lastSequence) ==
                            if u == user then (if kind.Put? then Some(value) else None)
                                else LsmEngine.Get(old(View()), u, old(lastSequence))
    {
      hide LsmEngine.Get, LsmEngine.Inv, LsmEngine.Insert, Logs, Wal.Frame, Wal.RecordOf;
      MakeRoomForWrite();
      WriteAll(View(), user, kind, value);
      lastSequence := lastSequence + 1;
      var e := Entry(IKey(user, lastSequence, kind), value);
      LogsOne(wal, mem, lastSequence - 1, logged, e);
      wal := wal + Wal.Frame(Wal.StoredCrc, Wal.RecordOf(e));
      mem := Insert(mem, e);
      logged := logged + [e];
      memoryUsage := memoryUsage + entrySize;
    }

    /** The current log always holds the current memtable: recovering it gives the memtable back, and
        with the first write also the last sequence. */
    lemma {:induction false} LogRestoresMem(last: nat)
      requires Valid() && Wal.AllLogged(logged) && last <= lastSequence
      ensures var r := Wal.RecoverLog(Wal.StoredCrc, wal, [], last);
              r.Restored? && r.mem == mem && r.last == if logged == [] then last else lastSequence
    {
      hide Wal.RecoverLog, Wal.Log, Wal.RecordsOf;
      Wal.CrcBounded();
      Wal.ReplayRebuilds(Wal.StoredCrc, logged, last);
      if logged != [] { assert logged[|logged| - 1] in logged; }
    }

    /** The memtable, the immutable one, level 0 newest first, then level 1; the first hit decides. */
    method Get(user: Bytes, snapshot: nat) returns (r: Option<Bytes>)
      requires Valid()
      ensures r == LsmEngine.Get(View(), user, snapshot)
    {
      InvFiles(View());
      LayersSplit(View(), user, snapshot);
      var hit := TableGet(mem, user, snapshot);
      if hit.Some? { return ValueOf(hit); }
      if imm.Some? {
        hit := TableGet(imm.value, user, snapshot);
        if hit.Some? { return ValueOf(hit); }
      }
      hit := LevelGet(l0, user, snapshot);
      if hit.None? { hit := LevelGet(l1, user, snapshot); }
      r := ValueOf(hit);
    }

    /** First half of FlushMemTable: the new level-0 file becomes visible. */
    method PublishFlush()
      requires Valid() && imm.Some? && !published
      modifies this
      ensures Valid() && View() == Publish(old(View()))
      ensures forall u, n :: LsmEngine.Get(View(), u, n) == LsmEngine.Get(old(View()), u, n)
    {
      hide Logs, LsmEngine.Get, LsmEngine.Inv;
      ghost var s0 := View();
      var number := nextFileNumber;
      nextFileNumber := nextFileNumber + 1;
      if imm.value != [] { l0 := l0 + [File(number, imm.value)]; }
      published := true;
      forall u, n ensures LsmEngine.Get(View(), u, n) == LsmEngine.Get(s0, u, n) { PublishKeeps(s0, u, n); }
      PublishKeeps(s0, [], 0);
    }

    /** Second half: the immutable memtable goes. */
    method FinishFlush()
      requires Valid() && published
      modifies this
      ensures Valid() && View() == LsmEngine.DropImm(old(View()))
      ensures forall u, n :: LsmEngine.Get(View(), u, n) == LsmEngine.Get(old(View()), u, n)
    {
      hide Logs, LsmEngine.Get, LsmEngine.Inv;
      ghost var s0 := View();
      imm, published := None, false;
      forall u, n ensures LsmEngine.Get(View(), u, n) == LsmEngine.Get(s0, u, n) { DropImmKeeps(s0, u, n); }
      DropImmKeeps(s0, [], 0);
    }

    /** Merge all of level 0 with the level-1 files in its range. */
    method CompactIfNeeded() returns (ghost out: Option<Table>)
      requires Valid() && !published
      modifies this
      ensures Valid() && out.Some? == (|old(l0)| >= compactionTrigger)
      ensures out.None? ==> unchanged(this)
      ensures out.Some? ==> IsMerge(old(View()), out.value) && View() == Compact(old(View()), out.value)
      ensures forall u :: LsmEngine.Get(View(), u, lastSequence) == LsmEngine.Get(old(View()), u, old(lastSequence))
    {
      hide Logs, LsmEngine.Get, StackOk, Stack, L1Ok, NumbersOk, NoEmptyFile, Place, Pick, L0Range, IsMerge;
      ghost var s0 := View();
      out := None;
      if |l0| < compactionTrigger { return; }
      InvFiles(s0);
      var number := nextFileNumber;
      nextFileNumber := nextFileNumber + 1;
      var lo, hi := RangeOfL0(l0);
      var picked := PickOverlapping(l1, lo, hi);
      var merged := MergeInputs(s0, l0 + picked);
      L1Numbers(s0);
      var rest := EraseNumbers(l1, picked, lo, hi, s0.nextFile);
      l0 := [];
      l1 := if merged == [] then rest else Place(rest, File(number, merged));
      out := Some(merged);
      forall u ensures LsmEngine.Get(View(), u, lastSequence) == LsmEngine.Get(s0, u, s0.lastSeq) {
        CompactKeeps(s0, merged, u);
      }
      CompactKeeps(s0, merged, []);
    }

    /** An iterator over everything a read at this moment would consult. */
    method NewIterator(snapshot: nat) returns (it: DbIterator)
      requires Valid()
      ensures fresh(it) && it.ts == Layers(View()) && it.snapshot == snapshot
      ensures AllSorted(it.ts) && SeqUnique(it.ts)
      ensures forall u, v :: Live(it.ts, snapshot, u, v) <==> LsmEngine.Get(View(), u, snapshot) == Some(v)
    {
      var files := FilesNewestFirst(l0);
      var older := FilesNewestFirst(l1);
      it := new DbIterator([mem] + (if imm.Some? then [imm.value] else []) + (files + older), snapshot);
      LayersOk(View());
      forall u, v ensures Live(it.ts, snapshot, u, v) <==> LsmEngine.Get(View(), u, snapshot) == Some(v) {
        LiveIsGet(View(), snapshot, u, v);
      }
    }
  }

  method FilesNewestFirst(fs: seq<File>) returns (ts: seq<Table>)
    ensures ts == NewestFirst(fs)
  {
    ts := [];
    for n := 0 to |fs|
      invariant ts == NewestFirst(fs[..n])
    {
      assert fs[..n + 1] == fs[..n] + [fs[n]];
      NewestFirstSnoc(fs[..n], fs[n]);
      ts := [fs[n].entries] + ts;
    }
    assert fs[..|fs|] == fs;
  }

  lemma {:induction false} L1Numbers(s: Lsm)
    requires NumbersOk(s.l0 + s.l1, s.nextFile)
    ensures NumbersOk(s.l1, s.nextFile)
  {
    var all := s.l0 + s.l1;
    forall i | 0 <= i < |s.l1| ensures s.l1[i].number < s.nextFile { assert s.l1[i] == all[|s.l0| + i]; }
    forall i, j | 0 <= i < j < |s.l1| ensures s.l1[i].number != s.l1[j].number {
      assert s.l1[i] == all[|s.l0| + i] && s.l1[j] == all[|s.l0| + j];
    }
  }

  // ---- The iterator agrees with Get ----------------------------------------------------------------

  lemma {:induction false} LayersOk(s: Lsm)
    requires Inv(s)
    ensures AllSorted(Layers(s)) && SeqUnique(Layers(s))
  {
    forall x, y | InStack(Layers(s), x) && InStack(Layers(s), y) ensures Distinguished(x, y) {
      InLayers(s, x);
      InLayers(s, y);
    }
    var files := NewestFirst(s.l0) + NewestFirst(s.l1);
    forall i | 0 <= i < |Layers(s)| ensures Sorted(Layers(s)[i]) {
      if s.published {
        assert Stack(s) == [s.mem] + files && Layers(s) == [s.mem] + ([s.imm.value] + files);
        if i == 0 { assert Layers(s)[0] == Stack(s)[0]; }
        if i > 1 { assert Layers(s)[i] == Stack(s)[i - 1]; }
      } else {
        assert Layers(s) == Stack(s);
      }
    }
  }

  /** A key is live for the iterator exactly when Get finds it, with the same value, at any
      snapshot, also while a flushed memtable is in two layers. */
  lemma {:induction false} LiveIsGet(s: Lsm, n: nat, u: Bytes, v: Bytes)
    requires Inv(s)
    ensures Live(Layers(s), n, u, v) <==> LsmEngine.Get(s, u, n) == Some(v)
  {
    LayersAgree(s, u, n);
    StackGetNewest(Stack(s), u, n);
    forall e ensures IsNewest(Layers(s), u, n, e) <==> IsNewest(Stack(s), u, n, e) {
      forall x ensures InStack(Layers(s), x) <==> InStack(Stack(s), x) { InLayers(s, x); }
    }
    var r := StackGet(Stack(s), u, n);
    if r.Some? {
      forall e | IsNewest(Layers(s), u, n, e) ensures e == r.value { NewestUnique(Stack(s), u, n, e, r.value); }
      assert IsNewest(Layers(s), u, n, r.value);
    }
  }
}
