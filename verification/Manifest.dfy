/** Version edits as tagged fields, and the MANIFEST that logs them. */
module Manifest {
  import opened Values
  import opened Encoding

  datatype FileMeta = FileMeta(number: nat, size: nat, smallest: Bytes, largest: Bytes)

  /** One tagged field of an encoded edit. */
  datatype Field =
    | NextFile(n: nat)
    | LastSequence(n: nat)
    | LogNumber(n: nat)
    | DeleteFile(level: nat, number: nat)
    | AddFile(level: nat, file: FileMeta)

  datatype Edit = Edit(
    nextFile: Option<nat>, lastSequence: Option<nat>, logNumber: Option<nat>,
    deleted: seq<(nat, nat)>, added: seq<(nat, FileMeta)>)

  const NoEdit := Edit(None, None, None, [], [])

  // ---- Encoding -----------------------------------------------------------------------------------

  function EncodeField(f: Field): Bytes {
    match f
    case NextFile(n) => Varint(1) + Varint(n)
    case LastSequence(n) => Varint(2) + Varint(n)
    case LogNumber(n) => Varint(3) + Varint(n)
    case DeleteFile(level, n) => Varint(5) + (Varint(level) + Varint(n))
    case AddFile(level, m) =>
      Varint(4) + (Varint(level) + (Varint(m.number) +
        (Varint(m.size) + (LengthPrefixed(m.smallest) + LengthPrefixed(m.largest)))))
  }

  function Scalars(e: Edit): seq<Field> {
    (if e.nextFile.Some? then [NextFile(e.nextFile.value)] else [])
    + (if e.lastSequence.Some? then [LastSequence(e.lastSequence.value)] else [])
    + (if e.logNumber.Some? then [LogNumber(e.logNumber.value)] else [])
  }

  function Deletes(ds: seq<(nat, nat)>): seq<Field> {
    if ds == [] then [] else [DeleteFile(ds[0].0, ds[0].1)] + Deletes(ds[1..])
  }

  function Adds(fs: seq<(nat, FileMeta)>): seq<Field> {
    if fs == [] then [] else [AddFile(fs[0].0, fs[0].1)] + Adds(fs[1..])
  }

  /** The fields in the order Encode writes them. */
  function FieldsOf(e: Edit): seq<Field> { Scalars(e) + (Deletes(e.deleted) + Adds(e.added)) }

  function EncodeFields(fs: seq<Field>): Bytes {
    if fs == [] then [] else EncodeField(fs[0]) + EncodeFields(fs[1..])
  }

  function EncodeEdit(e: Edit): Bytes { EncodeFields(FieldsOf(e)) }

  // ---- Decoding -----------------------------------------------------------------------------------

  function Then<T, U>(p: Parsed<T>, f: (T, Bytes) -> Parsed<U>): Parsed<U> {
    match p
    case Fail => Fail
    case Done(v, rest) => f(v, rest)
  }

  function DecodeDelete(b: Bytes): Parsed<Field> {
    Then(GetVarint32(b), (level: nat, r) =>
      Then(GetVarint64(r), (n: nat, r') => Done(DeleteFile(level, n), r')))
  }

  function DecodeAdd(b: Bytes): Parsed<Field> {
    Then(GetVarint32(b), (level: nat, r0) =>
      Then(GetVarint64(r0), (number: nat, r1) =>
        Then(GetVarint64(r1), (size: nat, r2) =>
          Then(GetLengthPrefixed(r2), (smallest: Bytes, r3) =>
            Then(GetLengthPrefixed(r3), (largest: Bytes, r4) =>
              Done(AddFile(level, FileMeta(number, size, smallest, largest)), r4))))))
  }

  /** One field; an unknown tag is corruption. */
  function DecodeField(b: Bytes): (r: Parsed<Field>)
    ensures r.Done? ==> |r.rest| < |b|
  {
    match GetVarint32(b)
    case Fail => Fail
    case Done(tag, r) =>
      if tag == 1 then Then(GetVarint64(r), (n: nat, r') => Done(NextFile(n), r'))
      else if tag == 2 then Then(GetVarint64(r), (n: nat, r') => Done(LastSequence(n), r'))
      else if tag == 3 then Then(GetVarint64(r), (n: nat, r') => Done(LogNumber(n), r'))
      else if tag == 4 then DecodeAdd(r)
      else if tag == 5 then DecodeDelete(r)
      else Fail
  }

  predicate FieldFits(f: Field) {
    match f
    case NextFile(n) => n < Two64
    case LastSequence(n) => n < Two64
    case LogNumber(n) => n < Two64
    case DeleteFile(level, n) => level < Two32 && n < Two64
    case AddFile(level, m) =>
      level < Two32 && m.number < Two64 && m.size < Two64 && |m.smallest| < Two32 && |m.largest| < Two32
  }

  lemma {:induction false} ConcatFive(a: Bytes, b: Bytes, c: Bytes, d: Bytes, e: Bytes, rest: Bytes)
    ensures (a + (b + (c + (d + e)))) + rest == a + (b + (c + (d + (e + rest))))
  {
  }

  lemma {:induction false} AddRoundTrip(level: nat, m: FileMeta, rest: Bytes)
    requires FieldFits(AddFile(level, m))
    ensures DecodeAdd((Varint(level) + (Varint(m.number) +
              (Varint(m.size) + (LengthPrefixed(m.smallest) + LengthPrefixed(m.largest))))) + rest)
            == Done(AddFile(level, m), rest)
  {
    var r3 := LengthPrefixed(m.largest) + rest;
    var r2 := LengthPrefixed(m.smallest) + r3;
    var r1 := Varint(m.size) + r2;
    var r0 := Varint(m.number) + r1;
    ConcatFive(Varint(level), Varint(m.number), Varint(m.size), LengthPrefixed(m.smallest), LengthPrefixed(m.largest),
        rest);
    assert GetVarint32(Varint(level) + r0) == Done(level, r0) by { Varint32RoundTrip(level, r0); }
    assert GetVarint64(r0) == Done(m.number, r1) by { Varint64RoundTrip(m.number, r1); }
    assert GetVarint64(r1) == Done(m.size, r2) by { Varint64RoundTrip(m.size, r2); }
    assert GetLengthPrefixed(r2) == Done(m.smallest, r3) by { LengthPrefixedRoundTrip(m.smallest, r3); }
    assert GetLengthPrefixed(r3) == Done(m.largest, rest) by { LengthPrefixedRoundTrip(m.largest, rest); }
  }

  lemma {:induction false} DeleteRoundTrip(level: nat, n: nat, rest: Bytes)
    requires level < Two32 && n < Two64
    ensures DecodeDelete((Varint(level) + Varint(n)) + rest) == Done(DeleteFile(level, n), rest)
  {
    var r := Varint(n) + rest;
    assert (Varint(level) + Varint(n)) + rest == Varint(level) + r;
    assert GetVarint32(Varint(level) + r) == Done(level, r) by { Varint32RoundTrip(level, r); }
    assert GetVarint64(r) == Done(n, rest) by { Varint64RoundTrip(n, rest); }
  }

  lemma {:induction false} NumberRoundTrip(tag: nat, n: nat, rest: Bytes)
    requires tag < 0x80 && n < Two64
    ensures GetVarint32((Varint(tag) + Varint(n)) + rest) == Done(tag, Varint(n) + rest)
    ensures GetVarint64(Varint(n) + rest) == Done(n, rest)
  {
    assert (Varint(tag) + Varint(n)) + rest == Varint(tag) + (Varint(n) + rest);
    Varint32RoundTrip(tag, Varint(n) + rest);
    Varint64RoundTrip(n, rest);
  }

  lemma {:induction false} TagRoundTrip(tag: nat, body: Bytes, rest: Bytes)
    requires tag < 0x80
    ensures GetVarint32((Varint(tag) + body) + rest) == Done(tag, body + rest)
  {
    assert (Varint(tag) + body) + rest == Varint(tag) + (body + rest);
    Varint32RoundTrip(tag, body + rest);
  }

  lemma {:induction false} FieldRoundTrip(f: Field, rest: Bytes)
    requires FieldFits(f)
    ensures DecodeField(EncodeField(f) + rest) == Done(f, rest)
  {
    hide Varint, GetVarint32, GetVarint64, LengthPrefixed, DecodeAdd, DecodeDelete;
    match f
    case NextFile(n) => NumberRoundTrip(1, n, rest);
    case LastSequence(n) => NumberRoundTrip(2, n, rest);
    case LogNumber(n) => NumberRoundTrip(3, n, rest);
    case DeleteFile(level, n) =>
      TagRoundTrip(5, Varint(level) + Varint(n), rest);
      DeleteRoundTrip(level, n, rest);
    case AddFile(level, m) =>
      TagRoundTrip(4,
        Varint(level) + (Varint(m.number) +
          (Varint(m.size) + (LengthPrefixed(m.smallest) + LengthPrefixed(m.largest)))), rest);
      AddRoundTrip(level, m, rest);
  }

  function DecodeFields(b: Bytes): Option<seq<Field>>
    decreases |b|
  {
    if b == [] then Some([])
    else
      match DecodeField(b)
      case Fail => None
      case Done(f, rest) =>
        match DecodeFields(rest)
        case None => None
        case Some(fs) => Some([f] + fs)
  }

  lemma {:induction false} DecodeFieldsCons(b: Bytes, f: Field, rest: Bytes, fs: seq<Field>)
    requires b != [] && DecodeField(b) == Done(f, rest) && DecodeFields(rest) == Some(fs)
    ensures DecodeFields(b) == Some([f] + fs)
  {
  }

  lemma {:induction false} FieldsRoundTrip(fs: seq<Field>)
    requires forall f | f in fs :: FieldFits(f)
    ensures DecodeFields(EncodeFields(fs)) == Some(fs)
  {
    if fs != [] {
      var f, tail := fs[0], fs[1..];
      FieldsRoundTrip(tail);
      FieldRoundTrip(f, EncodeFields(tail));
      DecodeFieldsCons(EncodeField(f) + EncodeFields(tail), f, EncodeFields(tail), tail);
      assert fs == [f] + tail;
    }
  }

  /** What DecodeFrom does with a field: a scalar replaces, a file delta is appended. */
  function WithField(e: Edit, f: Field): Edit {
    match f
    case NextFile(n) => e.(nextFile := Some(n))
    case LastSequence(n) => e.(lastSequence := Some(n))
    case LogNumber(n) => e.(logNumber := Some(n))
    case DeleteFile(level, n) => e.(deleted := e.deleted + [(level, n)])
    case AddFile(level, m) => e.(added := e.added + [(level, m)])
  }

  function WithFields(e: Edit, fs: seq<Field>): Edit
    decreases |fs|
  {
    if fs == [] then e else WithFields(WithField(e, fs[0]), fs[1..])
  }

  /** None is Corruption. */
  function DecodeEdit(b: Bytes): Option<Edit> {
    match DecodeFields(b)
    case None => None
    case Some(fs) => Some(WithFields(NoEdit, fs))
  }

  lemma {:induction false} WithFieldsConcat(e: Edit, a: seq<Field>, b: seq<Field>)
    ensures WithFields(e, a + b) == WithFields(WithFields(e, a), b)
    decreases |a|
  {
    if a == [] {
      assert a + b == b;
    } else {
      assert (a + b)[1..] == a[1..] + b;
      WithFieldsConcat(WithField(e, a[0]), a[1..], b);
    }
  }

  lemma {:induction false} WithNone(e: Edit, fs: seq<Field>)
    requires fs == []
    ensures WithFields(e, fs) == e
  {
  }

  lemma {:induction false} WithCons(e: Edit, f: Field, rest: seq<Field>)
    ensures WithFields(e, [f] + rest) == WithFields(WithField(e, f), rest)
  {
    assert ([f] + rest)[1..] == rest;
  }

  lemma {:induction false} WithDeletes(e: Edit, ds: seq<(nat, nat)>)
    ensures WithFields(e, Deletes(ds)) == e.(deleted := e.deleted + ds)
    decreases |ds|
  {
    hide WithFields;
    if ds == [] {
      WithNone(e, Deletes(ds));
      assert e.deleted + ds == e.deleted;
    } else {
      var e', f := e.(deleted := e.deleted + [ds[0]]), DeleteFile(ds[0].0, ds[0].1);
      WithCons(e, f, Deletes(ds[1..]));
      WithDeletes(e', ds[1..]);
      assert e'.deleted + ds[1..] == e.deleted + ds;
    }
  }

  lemma {:induction false} WithAdds(e: Edit, fs: seq<(nat, FileMeta)>)
    ensures WithFields(e, Adds(fs)) == e.(added := e.added + fs)
    decreases |fs|
  {
    hide WithFields;
    if fs == [] {
      WithNone(e, Adds(fs));
      assert e.added + fs == e.added;
    } else {
      var e', f := e.(added := e.added + [fs[0]]), AddFile(fs[0].0, fs[0].1);
      WithCons(e, f, Adds(fs[1..]));
      WithAdds(e', fs[1..]);
      assert e'.added + fs[1..] == e.added + fs;
    }
  }

  lemma {:induction false} WithOne(e: Edit, f: Field)
    ensures WithFields(e, [f]) == WithField(e, f)
  {
    assert [f][1..] == [];
  }

  lemma {:induction false} WithScalars(e: Edit)
    ensures WithFields(NoEdit, Scalars(e)) == Edit(e.nextFile, e.lastSequence, e.logNumber, [], [])
  {
    var a := if e.nextFile.Some? then [NextFile(e.nextFile.value)] else [];
    var b := if e.lastSequence.Some? then [LastSequence(e.lastSequence.value)] else [];
    var c := if e.logNumber.Some? then [LogNumber(e.logNumber.value)] else [];
    WithFieldsConcat(NoEdit, a + b, c);
    WithFieldsConcat(NoEdit, a, b);
    var e1 := WithFields(NoEdit, a);
    var e2 := WithFields(e1, b);
    if a != [] { WithOne(NoEdit, a[0]); }
    if b != [] { WithOne(e1, b[0]); }
    if c != [] { WithOne(e2, c[0]); }
  }

  lemma {:induction false} FieldsRebuild(e: Edit)
    ensures WithFields(NoEdit, FieldsOf(e)) == e
  {
    var s := Edit(e.nextFile, e.lastSequence, e.logNumber, [], []);
    WithScalars(e);
    WithFieldsConcat(NoEdit, Scalars(e), Deletes(e.deleted) + Adds(e.added));
    WithFieldsConcat(s, Deletes(e.deleted), Adds(e.added));
    WithDeletes(s, e.deleted);
    WithAdds(s.(deleted := e.deleted), e.added);
    assert [] + e.deleted == e.deleted && [] + e.added == e.added;
  }

  ghost predicate EditFits(e: Edit) { forall f | f in FieldsOf(e) :: FieldFits(f) }

  /** Decoding an encoded edit gives the edit back. */
  lemma {:induction false} EditRoundTrip(e: Edit)
    requires EditFits(e)
    ensures DecodeEdit(EncodeEdit(e)) == Some(e)
  {
    FieldsRoundTrip(FieldsOf(e));
    FieldsRebuild(e);
  }

  lemma {:induction false} FieldsThenBad(fs: seq<Field>, bad: Bytes)
    requires (forall f | f in fs :: FieldFits(f)) && bad != [] && DecodeField(bad) == Fail
    ensures DecodeFields(EncodeFields(fs) + bad) == None
  {
    hide EncodeField, DecodeField, FieldFits;
    if fs == [] {
      assert EncodeFields(fs) + bad == bad;
    } else {
      var rest := EncodeFields(fs[1..]) + bad;
      assert EncodeFields(fs) + bad == EncodeField(fs[0]) + rest;
      FieldRoundTrip(fs[0], rest);
      FieldsThenBad(fs[1..], bad);
    }
  }

  /** An edit with anything behind it that begins with an unknown tag is refused. */
  lemma {:induction false} UnknownTag(e: Edit, tag: byte, rest: Bytes)
    requires EditFits(e) && tag < 0x80 && !(1 <= tag <= 5)
    ensures DecodeEdit(EncodeEdit(e) + ([tag] + rest)) == None
  {
    var bad := [tag] + rest;
    assert DecodeField(bad) == Fail by {
      assert Varint(tag) == [tag] && GetVarint32(bad) == Done(tag, rest) by { Varint32RoundTrip(tag, rest); }
    }
    FieldsThenBad(FieldsOf(e), bad);
  }

  function Joined(done: seq<Field>, r: Option<seq<Field>>): Option<seq<Field>> {
    match r
    case None => None
    case Some(fs) => Some(done + fs)
  }

  lemma {:induction false} JoinedStart(b: Bytes)
    ensures Joined([], DecodeFields(b)) == DecodeFields(b)
  {
    if DecodeFields(b).Some? { assert [] + DecodeFields(b).value == DecodeFields(b).value; }
  }

  lemma {:induction false} JoinedStep(done: seq<Field>, b: Bytes, f: Field, rest: Bytes)
    requires b != [] && DecodeField(b) == Done(f, rest)
    ensures Joined(done, DecodeFields(b)) == Joined(done + [f], DecodeFields(rest))
  {
    var r := DecodeFields(rest);
    if r.Some? { assert done + ([f] + r.value) == done + [f] + r.value; }
  }

  /** The decoding loop. */
  method DecodeFrom(src: Bytes) returns (r: Option<Edit>)
    ensures r == DecodeEdit(src)
  {
    var input, e := src, NoEdit;
    ghost var done: seq<Field> := [];
    JoinedStart(src);
    while input != []
      invariant e == WithFields(NoEdit, done)
      invariant DecodeFields(src) == Joined(done, DecodeFields(input))
      decreases |input|
    {
      var f := DecodeField(input);
      if f.Fail? { return None; }
      JoinedStep(done, input, f.value, f.rest);
      WithFieldsConcat(NoEdit, done, [f.value]);
      WithOne(e, f.value);
      e := WithField(e, f.value);
      done := done + [f.value];
      input := f.rest;
    }
    assert done + [] == done;
    r := Some(e);
  }

  // ---- The MANIFEST --------------------------------------------------------------------------------

  function FrameEdit(b: Bytes): Bytes { Fixed(|b| % Two32, Width32) + b }

  function ManifestOf(es: seq<Edit>): Bytes {
    if es == [] then [] else FrameEdit(EncodeEdit(es[0])) + ManifestOf(es[1..])
  }

  /** None is Corruption: a truncated header or record, or a bad edit. */
  function ParseManifest(b: Bytes): Option<seq<Edit>>
    decreases |b|
  {
    if b == [] then Some([])
    else
      match GetFixed(b, Width32)
      case Fail => None
      case Done(n, rest) =>
        if |rest| < n then None
        else
          match DecodeEdit(rest[..n])
          case None => None
          case Some(e) =>
            match ParseManifest(rest[n..])
            case None => None
            case Some(es) => Some([e] + es)
  }

  ghost predicate Loggable(es: seq<Edit>) { forall e | e in es :: EditFits(e) && |EncodeEdit(e)| < Two32 }

  lemma {:induction false} ParseFirst(e: Edit, rec: Bytes, tail: Bytes)
    requires rec == EncodeEdit(e) && EditFits(e) && |rec| < Two32
    ensures ParseManifest(FrameEdit(rec) + tail) ==
            match ParseManifest(tail) { case None => None case Some(es) => Some([e] + es) }
  {
    hide Fixed, GetFixed, EncodeEdit, DecodeEdit;
    var body := rec + tail;
    assert |rec| % Two32 == |rec|;
    assert FrameEdit(rec) + tail == Fixed(|rec|, Width32) + body;
    assert GetFixed(Fixed(|rec|, Width32) + body, Width32) == Done(|rec|, body) by { Fixed32RoundTrip(|rec|, body); }
    assert body[..|rec|] == rec && body[|rec|..] == tail;
    EditRoundTrip(e);
  }

  lemma {:induction false} ManifestRoundTrip(es: seq<Edit>)
    requires Loggable(es)
    ensures ParseManifest(ManifestOf(es)) == Some(es)
  {
    if es != [] {
      ManifestRoundTrip(es[1..]);
      ParseFirst(es[0], EncodeEdit(es[0]), ManifestOf(es[1..]));
      assert es == [es[0]] + es[1..];
    }
  }

  // ---- A MANIFEST cut short ----------------------------------------------------------------------------

  /** A first record cut anywhere but at its ends is corrupt. */
  lemma {:induction false} ParseCut(rec: Bytes, n: nat)
    requires |rec| < Two32 && 0 < n < |FrameEdit(rec)|
    ensures ParseManifest(FrameEdit(rec)[..n]) == None
  {
    hide Fixed, DecodeEdit;
    var a := Fixed(|rec|, Width32);
    assert |rec| % Two32 == |rec| && FrameEdit(rec) == a + rec;
    if n >= 4 {
      assert (a + rec)[..n] == a + rec[..n - 4];
      Fixed32RoundTrip(|rec|, rec[..n - 4]);
    }
  }

  lemma {:induction false} ParseEmpty(b: Bytes)
    requires b == []
    ensures ParseManifest(b) == Some([])
  {
  }

  /** Where record `m` begins in the MANIFEST. */
  function EditBoundary(es: seq<Edit>, m: nat): nat
    requires m <= |es|
  {
    if m == 0 then 0 else |FrameEdit(EncodeEdit(es[0]))| + EditBoundary(es[1..], m - 1)
  }

  lemma {:induction false} CutFirst(rec: Bytes, rest: Bytes, n: nat)
    requires |rec| < Two32 && n < |FrameEdit(rec)|
    ensures ParseManifest((FrameEdit(rec) + rest)[..n]) == if n == 0 then Some([]) else None
  {
    hide FrameEdit, ParseManifest;
    assert (FrameEdit(rec) + rest)[..n] == FrameEdit(rec)[..n];
    if n == 0 { ParseEmpty(FrameEdit(rec)[..n]); } else { ParseCut(rec, n); }
  }

  lemma {:induction false} CutLater(e: Edit, rec: Bytes, rest: Bytes, n: nat, parsed: Option<seq<Edit>>)
    requires rec == EncodeEdit(e) && EditFits(e) && |rec| < Two32 && |FrameEdit(rec)| <= n <= |FrameEdit(rec)| + |rest|
    requires ParseManifest(rest[..n - |FrameEdit(rec)|]) == parsed
    ensures ParseManifest((FrameEdit(rec) + rest)[..n]) == if parsed.None? then None else Some([e] + parsed.value)
  {
    hide FrameEdit, ParseManifest, EncodeEdit, EditFits;
    var k := n - |FrameEdit(rec)|;
    assert (FrameEdit(rec) + rest)[..n] == FrameEdit(rec) + rest[..k];
    ParseFirst(e, rec, rest[..k]);
  }

  lemma {:induction false} BoundarySplit(es: seq<Edit>, m: nat)
    requires m <= |es|
    ensures EditBoundary(es, 0) == 0
    ensures m > 0 ==> EditBoundary(es, m) == |FrameEdit(EncodeEdit(es[0]))| + EditBoundary(es[1..], m - 1)
  {
  }

  lemma {:induction false} ManifestSplit(es: seq<Edit>)
    requires es != [] && Loggable(es)
    ensures ManifestOf(es) == FrameEdit(EncodeEdit(es[0])) + ManifestOf(es[1..])
    ensures Loggable(es[1..]) && EditFits(es[0]) && |EncodeEdit(es[0])| < Two32
  {
    assert es[0] in es;
  }

  lemma {:induction false} CutWithin(es: seq<Edit>, n: nat, m: nat)
    requires Loggable(es) && n <= |ManifestOf(es)| && 0 < m <= |es|
    requires EditBoundary(es, m) <= n && (m < |es| ==> n < EditBoundary(es, m + 1))
    ensures ParseManifest(ManifestOf(es)[..n]) == if n == EditBoundary(es, m) then Some(es[..m]) else None
    decreases |es|, 0
  {
    hide FrameEdit, EncodeEdit, ParseManifest, EditFits, EditBoundary, ManifestOf, Loggable;
    var rec, tail := EncodeEdit(es[0]), es[1..];
    var f, rest := FrameEdit(rec), ManifestOf(tail);
    ManifestSplit(es);
    BoundarySplit(es, m);
    if m < |es| { BoundarySplit(es, m + 1); }
    CutManifest(tail, n - |f|, m - 1);
    CutLater(es[0], rec, rest, n, if n == EditBoundary(es, m) then Some(tail[..m - 1]) else None);
    assert es[..m] == [es[0]] + tail[..m - 1];
  }

  /** A MANIFEST cut at any byte, with `m` whole records before the cut: it parses if and only if the cut is
      at a record boundary, and then to the first `m` edits. */
  lemma {:induction false} CutManifest(es: seq<Edit>, n: nat, m: nat)
    requires Loggable(es) && n <= |ManifestOf(es)| && m <= |es|
    requires EditBoundary(es, m) <= n && (m < |es| ==> n < EditBoundary(es, m + 1))
    ensures ParseManifest(ManifestOf(es)[..n]) == if n == EditBoundary(es, m) then Some(es[..m]) else None
    decreases |es|, 1
  {
    if es == [] {
      ParseEmpty(ManifestOf(es)[..n]);
    } else if m == 0 {
      hide FrameEdit, EncodeEdit, ParseManifest, EditFits, EditBoundary, ManifestOf, Loggable;
      ManifestSplit(es);
      BoundarySplit(es, 1);
      BoundarySplit(es[1..], 0);
      CutFirst(EncodeEdit(es[0]), ManifestOf(es[1..]), n);
    } else {
      CutWithin(es, n, m);
    }
  }
}
