/** Filter expressions over rows: comparisons, and AND, OR, NOT with NULL as a third truth value. */
module Expressions {
  import opened Values
  import opened InternalKeys

  datatype CmpOp = Eq | Ne | Lt | Le | Gt | Ge

  datatype Expr =
    | Literal(v: Value)
    | Column(name: Bytes)
    | Compare(op: CmpOp, left: Expr, right: Expr)
    | And(left: Expr, right: Expr)
    | Or(left: Expr, right: Expr)
    | Not(child: Expr)

  /** Expr::Bind succeeds: every column is one of the schema's. */
  predicate Binds(e: Expr, s: TableSchema) {
    match e
    case Literal(_) => true
    case Column(name) => ColumnIndex(s.columns, name) >= 0
    case Compare(_, l, r) => Binds(l, s) && Binds(r, s)
    case And(l, r) => Binds(l, s) && Binds(r, s)
    case Or(l, r) => Binds(l, s) && Binds(r, s)
    case Not(c) => Binds(c, s)
  }

  /** The column names an expression mentions. */
  function Mentioned(e: Expr): set<Bytes> {
    match e
    case Literal(_) => {}
    case Column(name) => {name}
    case Compare(_, l, r) => Mentioned(l) + Mentioned(r)
    case And(l, r) => Mentioned(l) + Mentioned(r)
    case Or(l, r) => Mentioned(l) + Mentioned(r)
    case Not(c) => Mentioned(c)
  }

  ghost predicate HasColumn(s: TableSchema, name: Bytes) {
    exists i | 0 <= i < |s.columns| :: s.columns[i].name == name
  }

  /** Binding succeeds exactly when every column mentioned is one of the table. */
  lemma {:induction false} BindsMeans(e: Expr, s: TableSchema)
    ensures Binds(e, s) <==> forall name | name in Mentioned(e) :: HasColumn(s, name)
  {
    match e
    case Literal(_) =>
    case Column(name) =>
      var i := ColumnIndex(s.columns, name);
      assert HasColumn(s, name) <==> i >= 0;
    case Compare(_, l, r) => BindsMeans(l, s); BindsMeans(r, s);
    case And(l, r) => BindsMeans(l, s); BindsMeans(r, s);
    case Or(l, r) => BindsMeans(l, s); BindsMeans(r, s);
    case Not(c) => BindsMeans(c, s);
  }

  /** Negative, zero or positive, as the values compare. */
  function Order(a: Value, b: Value): int
    requires a.Type() == b.Type()
  {
    match a
    case Null => 0
    case Int64(i) => if i < b.i then -1 else if i > b.i then 1 else 0
    case Str(s) => if Less(s, b.s) then -1 else if Less(b.s, s) then 1 else 0
    case Bool(x) => (if x then 1 else 0) - if b.b then 1 else 0
  }

  /** None is InvalidArgument. */
  function CompareValues(op: CmpOp, a: Value, b: Value): Option<Value> {
    if a.Null? || b.Null? then Some(Null)
    else if a.Type() != b.Type() then None
    else
      var c := Order(a, b);
      Some(Bool(match op
                case Eq => c == 0
                case Ne => c != 0
                case Lt => c < 0
                case Le => c <= 0
                case Gt => c > 0
                case Ge => c >= 0))
  }

  predicate Truth(v: Value) { v.Null? || v.Bool? }

  function Eval(e: Expr, row: Row, s: TableSchema): Option<Value> {
    match e
    case Literal(v) => Some(v)
    case Column(name) =>
      var i := ColumnIndex(s.columns, name);
      if i < 0 || i >= |row| then None else Some(row[i])
    case Compare(op, l, r) =>
      var a := Eval(l, row, s);
      if a.None? then None
      else
        var b := Eval(r, row, s);
        if b.None? then None else CompareValues(op, a.value, b.value)
    case Not(c) =>
      var a := Eval(c, row, s);
      if a.None? || !Truth(a.value) then None
      else if a.value.Null? then Some(Null) else Some(Bool(!a.value.b))
    case And(l, r) =>
      var a, b := Eval(l, row, s), Eval(r, row, s);
      if a.None? || b.None? || !Truth(a.value) || !Truth(b.value) then None
      else if a.value == Bool(false) || b.value == Bool(false) then Some(Bool(false))
      else if a.value.Null? || b.value.Null? then Some(Null) else Some(Bool(true))
    case Or(l, r) =>
      var a, b := Eval(l, row, s), Eval(r, row, s);
      if a.None? || b.None? || !Truth(a.value) || !Truth(b.value) then None
      else if a.value == Bool(true) || b.value == Bool(true) then Some(Bool(true))
      else if a.value.Null? || b.value.Null? then Some(Null) else Some(Bool(false))
  }

  /** As a WHERE condition: unknown filters the row out; None is InvalidArgument. */
  function EvalBool(e: Expr, row: Row, s: TableSchema): Option<bool> {
    match Eval(e, row, s)
    case None => None
    case Some(v) => if v.Null? then Some(false) else if v.Bool? then Some(v.b) else None
  }

  // ---- What the operators mean ----------------------------------------------------------------------

  /** The comparison as a relation: of numbers, of byte strings in lexicographic order, and of truth
      values with false below true. */
  predicate Below(a: Value, b: Value) {
    match a
    case Null => false
    case Int64(i) => b.Int64? && i < b.i
    case Str(s) => b.Str? && ComesFirst(s, b.s)
    case Bool(x) => b == Bool(true) && !x
  }

  predicate Related(op: CmpOp, a: Value, b: Value) {
    match op
    case Eq => a == b
    case Ne => a != b
    case Lt => Below(a, b)
    case Le => !Below(b, a)
    case Gt => Below(b, a)
    case Ge => !Below(a, b)
  }

  /** A comparison is unknown with NULL, an error across types, and otherwise the relation it names. */
  lemma {:induction false} CompareMeans(op: CmpOp, a: Value, b: Value)
    ensures CompareValues(op, a, b) == Some(Null) <==> a == Null || b == Null
    ensures CompareValues(op, a, b) == None <==> a != Null && b != Null && a.Type() != b.Type()
    ensures a != Null && b != Null && a.Type() == b.Type() ==>
              CompareValues(op, a, b) == Some(Bool(Related(op, a, b)))
  {
    if a.Str? && b.Str? {
      LessTotal(a.s, b.s);
      LessIrreflexive(a.s);
      if Less(a.s, b.s) { LessAsymmetric(a.s, b.s); }
      LessMeans(a.s, b.s);
      LessMeans(b.s, a.s);
    }
  }

  /** Comparing equal is being equal. */
  lemma {:induction false} EqualIsSame(a: Value, b: Value)
    requires !a.Null? && !b.Null? && a.Type() == b.Type()
    ensures CompareValues(Eq, a, b) == Some(Bool(a == b)) && CompareValues(Eq, b, a) == Some(Bool(a == b))
  {
    CompareMeans(Eq, a, b);
    CompareMeans(Eq, b, a);
  }

  /** Truth values on a scale from false over unknown to true; -1 is an error. */
  function Degree(v: Option<Value>): int {
    match v
    case None => -1
    case Some(Null) => 1
    case Some(Bool(b)) => if b then 2 else 0
    case Some(_) => -1
  }

  /** The three-valued tables: AND is the least of its operands, OR the greatest, NOT turns the scale
      round, and an operand that is an error or no truth value makes the whole an error. */
  lemma {:induction false} LogicMeans(l: Expr, r: Expr, row: Row, s: TableSchema)
    ensures var a, b, c := Degree(Eval(l, row, s)), Degree(Eval(r, row, s)), Eval(And(l, r), row, s);
            && (c.None? <==> a < 0 || b < 0)
            && (c.Some? ==> Degree(c) == if a < b then a else b)
    ensures var a, b, c := Degree(Eval(l, row, s)), Degree(Eval(r, row, s)), Eval(Or(l, r), row, s);
            && (c.None? <==> a < 0 || b < 0)
            && (c.Some? ==> Degree(c) == if a < b then b else a)
    ensures var a, c := Degree(Eval(l, row, s)), Eval(Not(l), row, s);
            (c.None? <==> a < 0) && (c.Some? ==> Degree(c) == 2 - a)
  {
  }

  /** A WHERE condition keeps a row exactly when it evaluates to true. */
  lemma {:induction false} WhereMeans(l: Expr, r: Expr, row: Row, s: TableSchema)
    ensures EvalBool(l, row, s) == Some(true) <==> Eval(l, row, s) == Some(Bool(true))
    ensures EvalBool(l, row, s) == None <==> Degree(Eval(l, row, s)) < 0
    ensures EvalBool(And(l, r), row, s) == Some(true) <==>
              EvalBool(l, row, s) == Some(true) && EvalBool(r, row, s) == Some(true)
    ensures EvalBool(Or(l, r), row, s) == Some(true) <==>
              && EvalBool(l, row, s) != None && EvalBool(r, row, s) != None
              && (EvalBool(l, row, s) == Some(true) || EvalBool(r, row, s) == Some(true))
    ensures EvalBool(Not(l), row, s) == Some(true) <==> Eval(l, row, s) == Some(Bool(false))
  {
    hide Eval;
    LogicMeans(l, r, row, s);
  }

  /** The duality of AND and OR survives NULL and errors, and so does double negation. */
  lemma {:induction false} DeMorgan(l: Expr, r: Expr, row: Row, s: TableSchema)
    ensures Eval(Not(And(l, r)), row, s) == Eval(Or(Not(l), Not(r)), row, s)
    ensures Eval(Not(Or(l, r)), row, s) == Eval(And(Not(l), Not(r)), row, s)
  {
    assert Eval(Or(Not(l), Not(r)), row, s).None? <==> Eval(Not(l), row, s).None? || Eval(Not(r), row, s).None?;
  }
}
