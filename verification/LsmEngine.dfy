/** The LSM engine within one open session: a memtable, at most one immutable memtable, level-0
    files and level-1 files. Writes, rotation, the two steps of a flush and compaction, and the
    invariant under which they refine a map. */
module LsmEngine {
  import opened Values
  import opened InternalKeys
  import opened Tables

  datatype File = File(number: nat, entries: Table) {
    function Smallest(): Bytes
      requires entries != []
    {
      entries[0].key.user
    }

    function Largest(): Bytes
      requires entries != []
    {
      entries[|entries| - 1].key.user
    }
  }

  /** `published` holds between the two steps of a flush: the file is in level 0 and the immutable
      memtable is still there. Level 0 lists the newest file last. */
  datatype Lsm = Lsm(
    mem: Table, imm: Option<Table>, published: bool,
    l0: seq<File>, l1: seq<File>, lastSeq: nat, nextFile: nat)

  const NewLsm := Lsm([], None, false, [], [], 0, 2)

  function NewestFirst(fs: seq<File>): seq<Table> {
    if fs == [] then [] else [fs[|fs| - 1].entries] + NewestFirst(fs[..|fs| - 1])
  }

  function OfOption(t: Option<Table>): seq<Table> { if t.Some? then [t.value] else [] }

  /** The tables a read consults, in order. */
  function Layers(s: Lsm): seq<Table> {
    [s.mem] + OfOption(s.imm) + (NewestFirst(s.l0) + NewestFirst(s.l1))
  }

  /** The same without an immutable memtable that is already in level 0. */
  function Stack(s: Lsm): seq<Table> {
    [s.mem] + (if s.published then [] else OfOption(s.imm)) + (NewestFirst(s.l0) + NewestFirst(s.l1))
  }

  function ValueOf(e: Option<Entry>): Option<Bytes> {
    if e.Some? && e.value.key.kind.Put? then Some(e.value.value) else None
  }

  /** DB::Get at a snapshot: a live value, or None for NotFound. */
  function Get(s: Lsm, user: Bytes, snapshot: nat): Option<Bytes> { ValueOf(StackGet(Layers(s), user, snapshot)) }

  // ---- Steps ------------------------------------------------------------------------------

  /** The memtable keeps its entries in internal-key order; an equal key is replaced. */
  function Insert(t: Table, e: Entry): Table {
    var i := Position(t, e.key);
    if i < |t| && t[i].key == e.key then t[i := e] else t[..i] + [e] + t[i..]
  }

  function Write(s: Lsm, user: Bytes, kind: Kind, value: Bytes): Lsm {
    s.(lastSeq := s.lastSeq + 1, mem := Insert(s.mem, Entry(IKey(user, s.lastSeq + 1, kind), value)))
  }

  /** MakeRoomForWrite: a new log file number, and the memtable becomes immutable. */
  function Rotate(s: Lsm): Lsm
    requires s.imm.None?
  {
    s.(imm := Some(s.mem), mem := [], nextFile := s.nextFile + 1)
  }

  function Publish(s: Lsm): Lsm
    requires s.imm.Some? && !s.published
  {
    s.(published := true, nextFile := s.nextFile + 1,
       l0 := if s.imm.value == [] then s.l0 else s.l0 + [File(s.nextFile, s.imm.value)])
  }

  function DropImm(s: Lsm): Lsm
    requires s.published
  {
    s.(imm := None, published := false)
  }

  // ---- Compaction ---------------------------------------------------------------------------

  ghost predicate NoEmptyFile(fs: seq<File>) { forall i | 0 <= i < |fs| :: fs[i].entries != [] }

  function Min(a: Bytes, b: Bytes): Bytes { if Less(b, a) then b else a }
  function Max(a: Bytes, b: Bytes): Bytes { if Less(a, b) then b else a }

  /** The user-key range of the level-0 files; two empty keys when there is none. */
  function L0Range(fs: seq<File>): (Bytes, Bytes)
    requires NoEmptyFile(fs)
  {
    if fs == [] then ([], [])
    else
      var f, r := fs[|fs| - 1], L0Range(fs[..|fs| - 1]);
      if |fs| == 1 then (f.Smallest(), f.Largest()) else (Min(r.0, f.Smallest()), Max(r.1, f.Largest()))
  }

  predicate Overlaps(f: File, lo: Bytes, hi: Bytes)
    requires f.entries != []
  {
    !Less(f.Largest(), lo) && !Less(hi, f.Smallest())
  }

  /** The files that overlap the range, or those that do not. */
  function Pick(fs: seq<File>, lo: Bytes, hi: Bytes, overlapping: bool): (r: seq<File>)
    requires NoEmptyFile(fs)
    ensures forall f :: f in r <==> f in fs && Overlaps(f, lo, hi) == overlapping
    ensures NoEmptyFile(r)
  {
    if fs == [] then []
    else (if Overlaps(fs[0], lo, hi) == overlapping then [fs[0]] else []) + Pick(fs[1..], lo, hi, overlapping)
  }

  /** std::sort by smallest user key, for one new file in a sorted list. */
  function Place(fs: seq<File>, f: File): (r: seq<File>)
    requires NoEmptyFile(fs) && f.entries != []
    ensures forall g :: g in r <==> g in fs || g == f
    ensures NoEmptyFile(r)
  {
    if fs == [] || Less(f.Smallest(), fs[0].Smallest()) then [f] + fs
    else [fs[0]] + Place(fs[1..], f)
  }

  ghost predicate InFiles(fs: seq<File>, e: Entry) { exists f | f in fs :: e in f.entries }

  /** What compaction reads. */
  ghost predicate IsInput(s: Lsm, e: Entry)
    requires NoEmptyFile(s.l0) && NoEmptyFile(s.l1)
  {
    InFiles(s.l0, e) || InFiles(Pick(s.l1, L0Range(s.l0).0, L0Range(s.l0).1, true), e)
  }

  predicate NotNewer(e: Entry, o: Entry) { e.key.user == o.key.user ==> e.key.num <= o.key.num }

  ghost predicate Covered(out: Table, e: Entry) { exists o :: o in out && o.key.user == e.key.user }

  /** The merge result: ascending user keys, one entry per user key of the inputs, the newest,
      tombstones included. */
  ghost predicate IsMerge(s: Lsm, out: Table)
    requires NoEmptyFile(s.l0) && NoEmptyFile(s.l1)
  {
    && (forall i, j | 0 <= i < j < |out| :: Less(out[i].key.user, out[j].key.user))
    && (forall e | e in out :: IsInput(s, e))
    && (forall e, o {:trigger NotNewer(e, o)} | IsInput(s, e) && o in out :: NotNewer(e, o))
    && (forall e {:trigger Covered(out, e)} | IsInput(s, e) :: Covered(out, e))
  }

  function Compact(s: Lsm, out: Table): Lsm
    requires NoEmptyFile(s.l0) && NoEmptyFile(s.l1)
  {
    var r := L0Range(s.l0);
    var rest := Pick(s.l1, r.0, r.1, false);
    s.(l0 := [], nextFile := s.nextFile + 1,
       l1 := if out == [] then rest else Place(rest, File(s.nextFile, out)))
  }

  // ---- The invariant --------------------------------------------------------------------------

  /** Level 1 is sorted and its user-key ranges are disjoint. */
  ghost predicate L1Ok(fs: seq<File>)
    requires NoEmptyFile(fs)
  {
    forall i, j | 0 <= i < j < |fs| :: Less(fs[i].Largest(), fs[j].Smallest())
  }

  ghost predicate NumbersOk(fs: seq<File>, limit: nat) {
    && (forall i | 0 <= i < |fs| :: fs[i].number < limit)
    && (forall i, j | 0 <= i < j < |fs| :: fs[i].number != fs[j].number)
  }

  ghost predicate FlushOk(s: Lsm) {
    && (s.imm.Some? ==> Sorted(s.imm.value))
    && (s.published ==> s.imm.Some? && (s.imm.value == [] || (s.l0 != [] && s.l0[|s.l0| - 1].entries == s.imm.value)))
  }

  ghost predicate Inv(s: Lsm) {
    && StackOk(Stack(s), s.lastSeq)
    && FlushOk(s)
    && NoEmptyFile(s.l0) && NoEmptyFile(s.l1) && L1Ok(s.l1)
    && NumbersOk(s.l0 + s.l1, s.nextFile)
  }
}
