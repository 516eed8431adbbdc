/** Cells, rows and table schemas of the relational layer.

    `ValidateAgainst` and `PrimaryKeyOf` are the two checks that every stored row has
    passed; the schema lemmas say how ALTER TABLE changes a valid row. */
module Values {
  type byte = b: int | 0 <= b < 0x100
  type Bytes = seq<byte>
  type int64 = i: int | -0x8000_0000_0000_0000 <= i < 0x8000_0000_0000_0000

  datatype Option<+T> = None | Some(value: T)

  /** The status codes of the code base; `Ok` is success. */
  datatype Status = Ok | NotFound | InvalidArgument | Conflict | Corruption

  datatype ColumnType = NullType | Int64Type | StringType | BoolType

  datatype Value =
    | Null
    | Int64(i: int64)
    | Str(s: Bytes)
    | Bool(b: bool)
  {
    function Type(): ColumnType {
      match this
      case Null => NullType
      case Int64(_) => Int64Type
      case Str(_) => StringType
      case Bool(_) => BoolType
    }
  }

  type Row = seq<Value>

  datatype ColumnDef = ColumnDef(name: Bytes, typ: ColumnType, primaryKey: bool)
  datatype TableSchema = TableSchema(name: Bytes, columns: seq<ColumnDef>)

  function CountPks(cols: seq<ColumnDef>): nat {
    if cols == [] then 0
    else CountPks(cols[..|cols| - 1]) + if cols[|cols| - 1].primaryKey then 1 else 0
  }

  predicate DistinctNames(cols: seq<ColumnDef>) {
    forall i, j | 0 <= j < i < |cols| :: cols[j].name != cols[i].name
  }

  predicate ValidSchema(s: TableSchema) {
    && s.name != []
    && s.columns != []
    && (forall i | 0 <= i < |s.columns| :: s.columns[i].name != [] && s.columns[i].typ != NullType)
    && DistinctNames(s.columns)
    && CountPks(s.columns) == 1
  }

  /** Index of the last primary-key column, -1 when there is none. */
  function PkIndex(cols: seq<ColumnDef>): (r: int)
    ensures -1 <= r < |cols|
    ensures r >= 0 ==> cols[r].primaryKey
  {
    if cols == [] then -1
    else if cols[|cols| - 1].primaryKey then |cols| - 1
    else PkIndex(cols[..|cols| - 1])
  }

  /** Index of the first column with that name, -1 when there is none. */
  function ColumnIndex(cols: seq<ColumnDef>, name: Bytes, from: nat := 0): (r: int)
    requires from <= |cols|
    ensures r == -1 || from <= r < |cols|
    ensures r == -1 <==> forall i | from <= i < |cols| :: cols[i].name != name
    ensures r >= 0 ==> cols[r].name == name
    decreases |cols| - from
  {
    if from == |cols| then -1
    else if cols[from].name == name then from
    else ColumnIndex(cols, name, from + 1)
  }

  predicate CellsMatch(row: Row, cols: seq<ColumnDef>) {
    && |row| == |cols|
    && forall i | 0 <= i < |row| :: row[i] != Null && row[i].Type() == cols[i].typ
  }

  predicate ValidateAgainst(row: Row, s: TableSchema) {
    ValidSchema(s) && CellsMatch(row, s.columns)
  }

  function PrimaryKeyOf(row: Row, s: TableSchema): (r: Option<Value>)
    ensures r.Some? ==> r.value in row
  {
    if ValidateAgainst(row, s) && PkIndex(s.columns) >= 0
    then Some(row[PkIndex(s.columns)]) else None
  }

  lemma {:induction false} PksCountedIsIndexed(cols: seq<ColumnDef>)
    ensures CountPks(cols) > 0 <==> PkIndex(cols) >= 0
  {
    if cols != [] { PksCountedIsIndexed(cols[..|cols| - 1]); }
  }

  lemma {:induction false} NoPkIn(cols: seq<ColumnDef>, i: nat)
    requires CountPks(cols) == 0 && i < |cols|
    ensures !cols[i].primaryKey
  {
    if i < |cols| - 1 { NoPkIn(cols[..|cols| - 1], i); }
  }

  /** A schema counts one primary key exactly when one column, and no other, is marked; it is the one the
      index finds. */
  lemma {:induction false} OnePk(cols: seq<ColumnDef>)
    ensures CountPks(cols) == 1 <==>
              exists c | 0 <= c < |cols| ::
                cols[c].primaryKey && forall j | 0 <= j < |cols| && j != c :: !cols[j].primaryKey
    ensures forall c | 0 <= c < |cols| && cols[c].primaryKey && CountPks(cols) == 1 :: PkIndex(cols) == c
  {
    if cols != [] {
      var n, init := |cols| - 1, cols[..|cols| - 1];
      OnePk(init);
      PksCountedIsIndexed(init);
      if cols[n].primaryKey {
        if CountPks(init) == 0 {
          forall j | 0 <= j < n ensures !cols[j].primaryKey { NoPkIn(init, j); }
        } else {
          assert init[PkIndex(init)].primaryKey;
        }
      }
    }
  }

  /** A valid row always has a primary key. */
  lemma {:induction false} ValidRowHasPk(row: Row, s: TableSchema)
    requires ValidateAgainst(row, s)
    ensures PrimaryKeyOf(row, s).Some?
  {
    PksCountedIsIndexed(s.columns);
  }

  function RemoveAt<T>(xs: seq<T>, i: nat): (r: seq<T>)
    requires i < |xs|
    ensures |r| == |xs| - 1
    ensures forall j | 0 <= j < |r| :: r[j] == if j < i then xs[j] else xs[j + 1]
  {
    xs[..i] + xs[i + 1..]
  }

  lemma {:induction false} RemoveAtSnoc<T>(xs: seq<T>, x: T, i: nat)
    requires i <= |xs|
    ensures RemoveAt(xs + [x], i) == if i == |xs| then xs else RemoveAt(xs, i) + [x]
  {
  }

  lemma {:induction false} RemoveColumnPks(cols: seq<ColumnDef>, d: nat)
    requires d < |cols| && !cols[d].primaryKey
    ensures CountPks(RemoveAt(cols, d)) == CountPks(cols)
    ensures PkIndex(RemoveAt(cols, d)) == if PkIndex(cols) > d then PkIndex(cols) - 1 else PkIndex(cols)
  {
    var init, last := cols[..|cols| - 1], cols[|cols| - 1];
    assert cols == init + [last];
    hide CountPks, PkIndex, RemoveAt;
    RemoveAtSnoc(init, last, d);
    AppendColumnPks(init, last);
    if d < |init| {
      RemoveColumnPks(init, d);
      AppendColumnPks(RemoveAt(init, d), last);
    }
  }

  lemma {:induction false} AppendColumnPks(cols: seq<ColumnDef>, c: ColumnDef)
    ensures CountPks(cols + [c]) == CountPks(cols) + if c.primaryKey then 1 else 0
    ensures PkIndex(cols + [c]) == if c.primaryKey then |cols| else PkIndex(cols)
  {
    assert (cols + [c])[..|cols|] == cols;
  }

  /** ALTER TABLE ADD COLUMN: appending a cell of the new column's type keeps the row valid
      for the new schema and keeps its primary key. */
  lemma {:induction false} AddColumnKeepsPk(row: Row, s: TableSchema, col: ColumnDef, v: Value)
    requires ValidateAgainst(row, s)
    requires !col.primaryKey && v != Null && v.Type() == col.typ
    requires ValidSchema(s.(columns := s.columns + [col]))
    ensures ValidateAgainst(row + [v], s.(columns := s.columns + [col]))
    ensures PrimaryKeyOf(row + [v], s.(columns := s.columns + [col])) == PrimaryKeyOf(row, s)
  {
    assert (s.columns + [col])[..|s.columns|] == s.columns;
  }

  lemma {:induction false} RemoveColumnSchema(s: TableSchema, d: nat)
    requires ValidSchema(s) && d < |s.columns| && !s.columns[d].primaryKey
    ensures ValidSchema(s.(columns := RemoveAt(s.columns, d)))
  {
    var cols := RemoveAt(s.columns, d);
    RemoveColumnPks(s.columns, d);
    assert CountPks(cols) == 1;
    forall i, j | 0 <= j < i < |cols| ensures cols[j].name != cols[i].name {
      assert s.columns[if j < d then j else j + 1].name != s.columns[if i < d then i else i + 1].name;
    }
  }

  lemma {:induction false} RemoveCell(row: Row, cols: seq<ColumnDef>, d: nat)
    requires CellsMatch(row, cols) && d < |cols|
    ensures CellsMatch(RemoveAt(row, d), RemoveAt(cols, d))
  {
  }

  /** ALTER TABLE DROP COLUMN: removing a non-key column and its cell does the same. */
  lemma {:induction false} DropColumnKeepsPk(row: Row, s: TableSchema, d: nat)
    requires ValidateAgainst(row, s) && d < |s.columns| && !s.columns[d].primaryKey
    ensures ValidateAgainst(RemoveAt(row, d), s.(columns := RemoveAt(s.columns, d)))
    ensures PrimaryKeyOf(RemoveAt(row, d), s.(columns := RemoveAt(s.columns, d))) == PrimaryKeyOf(row, s)
  {
    RemoveColumnSchema(s, d);
    RemoveCell(row, s.columns, d);
    var p := PkIndex(s.columns);
    assert p != d;
    assert PkIndex(RemoveAt(s.columns, d)) == if p > d then p - 1 else p by { RemoveColumnPks(s.columns, d); }
    assert p >= 0 by { PksCountedIsIndexed(s.columns); }
  }
}
