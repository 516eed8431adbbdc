/** The aggregate functions over the rows of one group: the accumulator the executor keeps, and what
    COUNT, SUM, AVG, MIN and MAX are supposed to be. */
module Aggregates {
  import opened Values

  datatype AggFunc = Count | Sum | Avg | Min | Max

  /** `star` is COUNT(*); otherwise `arg` is the column of the argument. */
  datatype AggSpec = AggSpec(func: AggFunc, star: bool, arg: int, name: Bytes)

  datatype AggAcc = AggAcc(n: nat, sum: int64, minv: int64, maxv: int64, hasNumeric: bool)

  const EmptyAcc := AggAcc(0, 0, 0, 0, false)

  predicate IsInt64(x: int) { -0x8000_0000_0000_0000 <= x < 0x8000_0000_0000_0000 }

  const MaxInt64: int := 0x7FFF_FFFF_FFFF_FFFF
  const MinInt64: int := -0x8000_0000_0000_0000

  /** Addition that refuses to leave the 64-bit range, and does not leave it to find out. */
  function AddChecked(sum: int64, delta: int64): (r: Option<int64>)
    ensures r == if IsInt64(sum + delta) then Some(sum + delta) else None
  {
    if (delta > 0 && sum > MaxInt64 - delta) || (delta < 0 && sum < MinInt64 - delta) then None else Some(sum + delta)
  }

  /** One more row of the group; None is an error. */
  function Accumulate(spec: AggSpec, row: Row, acc: AggAcc): Option<AggAcc> {
    if spec.func.Count? && spec.star then Some(acc.(n := acc.n + 1))
    else if spec.arg < 0 || spec.arg >= |row| then None
    else
      var cell := row[spec.arg];
      if spec.func.Count? then Some(if cell.Null? then acc else acc.(n := acc.n + 1))
      else if cell.Null? then Some(acc)
      else if !cell.Int64? then None
      else
        var v := cell.i;
        if spec.func.Min? then
          Some(acc.(minv := if !acc.hasNumeric || v < acc.minv then v
              else acc.minv, hasNumeric := true, n := acc.n + 1))
        else if spec.func.Max? then
          Some(acc.(maxv := if !acc.hasNumeric || v > acc.maxv then v
              else acc.maxv, hasNumeric := true, n := acc.n + 1))
        else
          var sum := AddChecked(acc.sum, v);
          if sum.None? then None else Some(acc.(sum := sum.value, hasNumeric := true, n := acc.n + 1))
  }

  /** Rounded toward zero: `n` times the quotient misses `x` by less than `n`, on the side of zero. */
  ghost predicate IsQuotient(q: int, x: int, n: int) {
    var m := x - q * n;
    -n < m < n && (x >= 0 ==> m >= 0) && (x <= 0 ==> m <= 0)
  }

  /** Division toward zero. */
  function TruncDiv(x: int, n: nat): (r: int)
    requires n > 0
    ensures if x >= 0 then 0 <= r <= x else x <= r <= 0
    ensures IsQuotient(r, x, n)
  {
    if x >= 0 then Shrinks(x, n); x / n else Shrinks(-x, n); -(-x / n)
  }

  lemma {:induction false} MulGrows(q: int, n: nat)
    requires n > 0
    ensures q >= 0 ==> q * n >= q
    ensures q < 0 ==> q * n + n <= 0
  {
    if n > 1 {
      MulGrows(q, n - 1);
      assert q * n == q * (n - 1) + q;
    }
  }

  lemma {:induction false} Shrinks(x: nat, n: nat)
    requires n > 0
    ensures 0 <= x / n <= x
  {
    var q, m := x / n, x % n;
    assert x == q * n + m && 0 <= m < n;
    MulGrows(q, n);
  }

  function FinalizeAgg(spec: AggSpec, acc: AggAcc): Value
    requires acc.n <= MaxInt64
  {
    match spec.func
    case Count => Int64(acc.n)
    case Sum => if !acc.hasNumeric then Null else Int64(acc.sum)
    case Avg => if !acc.hasNumeric || acc.n == 0 then Null else Int64(TruncDiv(acc.sum, acc.n))
    case Min => if !acc.hasNumeric then Null else Int64(acc.minv)
    case Max => if !acc.hasNumeric then Null else Int64(acc.maxv)
  }

  /** The accumulator after all rows of a group. */
  function Fold(spec: AggSpec, rows: seq<Row>): Option<AggAcc> {
    if rows == [] then Some(EmptyAcc)
    else
      var acc := Fold(spec, rows[..|rows| - 1]);
      if acc.None? then None else Accumulate(spec, rows[|rows| - 1], acc.value)
  }

  // ---- What the functions mean ------------------------------------------------------------------

  predicate InColumn(row: Row, c: int) { 0 <= c < |row| }

  /** The numbers in column `c`, in row order. */
  function Ints(rows: seq<Row>, c: int): seq<int64> {
    if rows == [] then []
    else
      var row := rows[|rows| - 1];
      Ints(rows[..|rows| - 1], c) + if InColumn(row, c) && row[c].Int64? then [row[c].i] else []
  }

  function NonNull(rows: seq<Row>, c: int): nat {
    if rows == [] then 0
    else
      var row := rows[|rows| - 1];
      NonNull(rows[..|rows| - 1], c) + if InColumn(row, c) && !row[c].Null? then 1 else 0
  }

  function Total(xs: seq<int64>): int { if xs == [] then 0 else Total(xs[..|xs| - 1]) + xs[|xs| - 1] }

  /** Every partial sum stays in the 64-bit range. */
  ghost predicate TotalsFit(xs: seq<int64>) { forall i {:trigger xs[..i]} | 0 <= i <= |xs| :: IsInt64(Total(xs[..i])) }

  /** A row whose argument the function does not accept. */
  predicate Refused(spec: AggSpec, row: Row) {
    && !(spec.func.Count? && spec.star)
    && (!InColumn(row, spec.arg) || (!spec.func.Count? && !row[spec.arg].Null? && !row[spec.arg].Int64?))
  }

  /** When the aggregate exists at all. */
  ghost predicate Defined(spec: AggSpec, rows: seq<Row>) {
    && (forall row | row in rows :: !Refused(spec, row))
    && (spec.func.Sum? || spec.func.Avg? ==> TotalsFit(Ints(rows, spec.arg)))
  }

  ghost predicate IsLeast(m: int, xs: seq<int64>) { m in xs && forall x | x in xs :: m <= x }
  ghost predicate IsGreatest(m: int, xs: seq<int64>) { m in xs && forall x | x in xs :: x <= m }

  ghost predicate IsAggregate(spec: AggSpec, rows: seq<Row>, v: Value) {
    var xs := Ints(rows, spec.arg);
    match spec.func
    case Count => v.Int64? && v.i == if spec.star then |rows| else NonNull(rows, spec.arg)
    case Sum => if xs == [] then v == Null else v.Int64? && v.i == Total(xs)
    case Avg => if xs == [] then v == Null else v.Int64? && IsQuotient(v.i, Total(xs), |xs|)
    case Min => if xs == [] then v == Null else v.Int64? && IsLeast(v.i, xs)
    case Max => if xs == [] then v == Null else v.Int64? && IsGreatest(v.i, xs)
  }

  // ---- The accumulator computes them --------------------------------------------------------------

  /** What the accumulator holds after these rows. */
  ghost predicate Sums(spec: AggSpec, rows: seq<Row>, acc: AggAcc) {
    var xs := Ints(rows, spec.arg);
    match spec.func
    case Count => acc.n == if spec.star then |rows| else NonNull(rows, spec.arg)
    case Min => acc.n == |xs| && acc.hasNumeric == (xs != []) && (xs != [] ==> IsLeast(acc.minv, xs))
    case Max => acc.n == |xs| && acc.hasNumeric == (xs != []) && (xs != [] ==> IsGreatest(acc.maxv, xs))
    case _ => acc.n == |xs| && acc.hasNumeric == (xs != []) && acc.sum == Total(xs)
  }

  lemma {:induction false} TotalsSnoc(xs: seq<int64>, x: int64)
    ensures TotalsFit(xs + [x]) <==> TotalsFit(xs) && IsInt64(Total(xs) + x)
  {
    var ys := xs + [x];
    assert ys[..|ys| - 1] == xs && ys[..|ys|] == ys && xs[..|xs|] == xs;
    if TotalsFit(ys) {
      forall i | 0 <= i <= |xs| ensures IsInt64(Total(xs[..i])) { assert ys[..i] == xs[..i]; }
    }
    if TotalsFit(xs) && IsInt64(Total(xs) + x) {
      forall i | 0 <= i <= |ys| ensures IsInt64(Total(ys[..i])) { if i <= |xs| { assert ys[..i] == xs[..i]; } }
    }
  }

  lemma {:induction false} DefinedSnoc(spec: AggSpec, rows: seq<Row>, row: Row)
    ensures Defined(spec, rows + [row]) <==>
              && Defined(spec, rows) && !Refused(spec, row)
              && ((spec.func.Sum? || spec.func.Avg?) && InColumn(row, spec.arg) && row[spec.arg].Int64?
                  ==> IsInt64(Total(Ints(rows, spec.arg)) + row[spec.arg].i))
  {
    var all, xs := rows + [row], Ints(rows, spec.arg);
    assert all[..|all| - 1] == rows;
    assert row in all && forall r | r in rows :: r in all;
    if InColumn(row, spec.arg) && row[spec.arg].Int64? {
      TotalsSnoc(xs, row[spec.arg].i);
    } else {
      assert xs + [] == xs;
    }
  }

  lemma {:induction false} SumsSnoc(spec: AggSpec, rows: seq<Row>, row: Row, acc: AggAcc)
    requires Sums(spec, rows, acc) && Accumulate(spec, row, acc).Some?
    ensures Sums(spec, rows + [row], Accumulate(spec, row, acc).value)
  {
    var all, xs := rows + [row], Ints(rows, spec.arg);
    assert all[..|all| - 1] == rows;
    if InColumn(row, spec.arg) && row[spec.arg].Int64? {
      var x := row[spec.arg].i;
      var ys := xs + [x];
      assert ys[..|ys| - 1] == xs && ys[|ys| - 1] == x;
    } else {
      assert xs + [] == xs;
    }
  }

  lemma {:induction false} AccumulateFails(spec: AggSpec, rows: seq<Row>, row: Row, acc: Option<AggAcc>)
    requires acc.Some? <==> Defined(spec, rows)
    requires acc.Some? ==> Sums(spec, rows, acc.value)
    ensures Defined(spec, rows + [row]) <==> acc.Some? && Accumulate(spec, row, acc.value).Some?
    ensures acc.Some? && Accumulate(spec, row, acc.value).Some? ==>
        Accumulate(spec, row, acc.value).value.n <= acc.value.n + 1
  {
    DefinedSnoc(spec, rows, row);
  }

  /** The accumulator fails exactly where the aggregate is undefined, and otherwise holds it. */
  lemma {:induction false} FoldMeans(spec: AggSpec, rows: seq<Row>)
    ensures Fold(spec, rows).Some? <==> Defined(spec, rows)
    ensures Fold(spec, rows).Some? ==> Sums(spec, rows, Fold(spec, rows).value) && Fold(spec, rows).value.n <= |rows|
  {
    if rows == [] {
      assert Ints(rows, spec.arg) == [];
    } else {
      var prior, row := rows[..|rows| - 1], rows[|rows| - 1];
      assert rows == prior + [row];
      hide Defined, Sums, Accumulate;
      FoldMeans(spec, prior);
      AccumulateFails(spec, prior, row, Fold(spec, prior));
      if Fold(spec, rows).Some? { SumsSnoc(spec, prior, row, Fold(spec, prior).value); }
    }
  }

  lemma {:induction false} FinalizeMeans(spec: AggSpec, rows: seq<Row>)
    requires Defined(spec, rows) && |rows| <= MaxInt64
    ensures Fold(spec, rows).Some? && Fold(spec, rows).value.n <= MaxInt64
    ensures IsAggregate(spec, rows, FinalizeAgg(spec, Fold(spec, rows).value))
  {
    FoldMeans(spec, rows);
  }
}
