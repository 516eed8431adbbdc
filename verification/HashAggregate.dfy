/** Hash aggregation: one pass over the input with a table from encoded group keys to accumulators.
    The result is GROUP BY: one row per group, in order of first appearance, each aggregate taken over
    exactly the rows of its group. */
module HashAggregate {
  import opened Values
  import opened RowCodec
  import opened Aggregates

  /** What an executor produces: all its rows, or an error. */
  datatype Produced = Rows(rows: seq<Row>) | Fault(status: Status)

  // ---- Groups -------------------------------------------------------------------------------------

  predicate Covers(row: Row, cs: seq<int>) { forall i | 0 <= i < |cs| :: 0 <= cs[i] < |row| }

  /** The grouping cells of a row. */
  function Parts(row: Row, cs: seq<int>): (r: seq<Value>)
    requires Covers(row, cs)
    ensures |r| == |cs|
  {
    seq(|cs|, i requires 0 <= i < |cs| => row[cs[i]])
  }

  ghost predicate AllCover(rows: seq<Row>, cs: seq<int>) { forall row | row in rows :: Covers(row, cs) }

  predicate InGroup(row: Row, cs: seq<int>, g: seq<Value>) { Covers(row, cs) && Parts(row, cs) == g }

  /** The rows of group `g`, in input order. */
  function Members(rows: seq<Row>, cs: seq<int>, g: seq<Value>): (r: seq<Row>)
    ensures |r| <= |rows|
  {
    if rows == [] then []
    else
      var row := rows[|rows| - 1];
      Members(rows[..|rows| - 1], cs, g) + if InGroup(row, cs, g) then [row] else []
  }

  /** The groups in order of first appearance. */
  function Groups(rows: seq<Row>, cs: seq<int>): seq<seq<Value>>
  {
    if rows == [] then []
    else
      var prior, row := Groups(rows[..|rows| - 1], cs), rows[|rows| - 1];
      if !Covers(row, cs) || Parts(row, cs) in prior then prior else prior + [Parts(row, cs)]
  }

  /** Each group once, and a group for exactly the rows there are. */
  lemma {:induction false} GroupsPartition(rows: seq<Row>, cs: seq<int>)
    ensures forall i, j {:trigger Groups(rows, cs)[i], Groups(rows, cs)[j]} | 0 <= i < j < |Groups(rows, cs)| ::
        Groups(rows, cs)[i] != Groups(rows, cs)[j]
    ensures forall g :: g in Groups(rows, cs) <==> Members(rows, cs, g) != []
  {
    if rows != [] {
      var prior, row := rows[..|rows| - 1], rows[|rows| - 1];
      GroupsPartition(prior, cs);
      forall g ensures g in Groups(rows, cs) <==> Members(rows, cs, g) != [] {
        assert g in Groups(prior, cs) <==> Members(prior, cs, g) != [];
      }
    }
  }

  /** Position of the first row of a group. */
  function FirstOf(rows: seq<Row>, cs: seq<int>, g: seq<Value>): (r: nat)
    ensures r <= |rows|
  {
    if rows == [] then 0 else if InGroup(rows[0], cs, g) then 0 else 1 + FirstOf(rows[1..], cs, g)
  }

  lemma {:induction false} FirstOfSnoc(rows: seq<Row>, row: Row, cs: seq<int>, g: seq<Value>)
    ensures FirstOf(rows + [row], cs, g) ==
            if FirstOf(rows, cs, g) < |rows| || InGroup(row, cs, g) then FirstOf(rows, cs, g) else |rows| + 1
  {
    var all := rows + [row];
    if rows != [] {
      assert all[0] == rows[0] && all[1..] == rows[1..] + [row];
      FirstOfSnoc(rows[1..], row, cs, g);
    } else {
      assert all[1..] == [];
    }
  }

  /** A group that is listed has appeared, and the list follows the order of first appearance. */
  lemma {:induction false} GroupsInOrder(rows: seq<Row>, cs: seq<int>, i: nat, j: nat)
    requires i < j < |Groups(rows, cs)|
    ensures FirstOf(rows, cs, Groups(rows, cs)[i]) < FirstOf(rows, cs, Groups(rows, cs)[j]) < |rows|
  {
    var prior, row, gs := rows[..|rows| - 1], rows[|rows| - 1], Groups(rows, cs);
    assert rows == prior + [row];
    var before := Groups(prior, cs);
    FirstOfSnoc(prior, row, cs, gs[i]);
    FirstOfSnoc(prior, row, cs, gs[j]);
    if j < |before| {
      GroupsInOrder(prior, cs, i, j);
    } else {
      GroupAppears(prior, cs, gs[i]);
      GroupAppears(prior, cs, gs[j]);
    }
  }

  lemma {:induction false} GroupAppears(rows: seq<Row>, cs: seq<int>, g: seq<Value>)
    ensures g in Groups(rows, cs) <==> FirstOf(rows, cs, g) < |rows|
  {
    if rows != [] {
      var prior, row := rows[..|rows| - 1], rows[|rows| - 1];
      assert rows == prior + [row];
      GroupAppears(prior, cs, g);
      FirstOfSnoc(prior, row, cs, g);
    }
  }

  // ---- What the result is ----------------------------------------------------------------------------

  /** Refused before any row is read; `width` is the number of input columns. */
  ghost predicate Malformed(width: nat, cs: seq<int>, aggs: seq<AggSpec>) {
    || (aggs == [] && cs == [])
    || (exists a | a in aggs :: a.name == [])
    || (exists a | a in aggs :: a.star && a.func != Count)
    || (exists a | a in aggs :: !a.star && a.arg < 0)
    || (exists i | 0 <= i < |cs| :: cs[i] < 0 || cs[i] >= width)
  }

  ghost predicate AllDefined(rows: seq<Row>, cs: seq<int>, aggs: seq<AggSpec>) {
    forall g, a {:trigger Members(rows, cs, g), aggs[a]} | g in Groups(rows, cs)
        && 0 <= a < |aggs| :: Defined(aggs[a], Members(rows, cs, g))
  }

  /** The grouping cells, then each aggregate over the rows of the group. */
  ghost predicate IsGroupRow(aggs: seq<AggSpec>, members: seq<Row>, g: seq<Value>, row: Row) {
    && |row| == |g| + |aggs| && row[..|g|] == g
    && forall a {:trigger aggs[a]} | 0 <= a < |aggs| :: IsAggregate(aggs[a], members, row[|g| + a])
  }

  ghost predicate IsGrouped(rows: seq<Row>, cs: seq<int>, aggs: seq<AggSpec>, result: seq<Row>) {
    var gs := Groups(rows, cs);
    && |result| == |gs|
    && forall j {:trigger result[j]} | 0 <= j < |gs| :: IsGroupRow(aggs, Members(rows, cs, gs[j]), gs[j], result[j])
  }

  ghost predicate CellsFit(row: Row) { forall v | v in row :: Fits(v) }

  ghost predicate AllFit(rows: seq<Row>) { forall row | row in rows :: CellsFit(row) }

  // ---- The table of groups -----------------------------------------------------------------------------

  datatype GroupState = GroupState(parts: seq<Value>, accs: seq<AggAcc>)

  type GroupTable = map<Bytes, GroupState>

  ghost predicate Folded(aggs: seq<AggSpec>, members: seq<Row>, accs: seq<AggAcc>) {
    |accs| == |aggs| && forall a {:trigger aggs[a]} {:trigger accs[a]} | 0 <= a < |aggs| ::
        Fold(aggs[a], members) == Some(accs[a])
  }

  ghost predicate TracksOne(groups: GroupTable, key: Bytes, rows: seq<Row>, cs: seq<int>, aggs: seq<AggSpec>,
      g: seq<Value>)
  {
    && key == GroupKey(g) && key in groups && groups[key].parts == g
    && Folded(aggs, Members(rows, cs, g), groups[key].accs)
  }

  /** The table after some rows: the groups seen, under their keys, each folded over its rows. */
  ghost predicate Tracks(groups: GroupTable, order: seq<Bytes>, rows: seq<Row>, cs: seq<int>, aggs: seq<AggSpec>) {
    var gs := Groups(rows, cs);
    && |order| == |gs| && (forall key | key in groups :: key in order)
    && forall j {:trigger order[j]} {:trigger gs[j]} | 0 <= j < |gs| ::
        TracksOne(groups, order[j], rows, cs, aggs, gs[j])
  }

  lemma {:induction false} PartsFit(row: Row, cs: seq<int>)
    requires Covers(row, cs) && CellsFit(row)
    ensures forall v | v in Parts(row, cs) :: Fits(v)
  {
  }

  lemma {:induction false} GroupsFit(rows: seq<Row>, cs: seq<int>)
    requires AllFit(rows)
    ensures forall g, v | g in Groups(rows, cs) && v in g :: Fits(v)
  {
    if rows != [] {
      var prior, row := rows[..|rows| - 1], rows[|rows| - 1];
      assert row in rows && forall r | r in prior :: r in rows;
      GroupsFit(prior, cs);
      if Covers(row, cs) { PartsFit(row, cs); }
    }
  }

  /** Looking a key up finds the group of those cells and no other. */
  lemma {:induction false} KeyFinds(groups: GroupTable, order: seq<Bytes>, rows: seq<Row>, cs: seq<int>,
      aggs: seq<AggSpec>, p: seq<Value>)
    requires Tracks(groups, order, rows, cs, aggs) && AllFit(rows) && forall v | v in p :: Fits(v)
    ensures GroupKey(p) in groups <==> p in Groups(rows, cs)
  {
    var gs := Groups(rows, cs);
    GroupsFit(rows, cs);
    if GroupKey(p) in groups {
      var j :| 0 <= j < |order| && order[j] == GroupKey(p);
      assert TracksOne(groups, order[j], rows, cs, aggs, gs[j]) && gs[j] in gs;
      GroupKeyInjective(gs[j], p);
    }
    if p in gs {
      var j :| 0 <= j < |gs| && gs[j] == p;
      assert TracksOne(groups, order[j], rows, cs, aggs, gs[j]);
    }
  }

  lemma {:induction false} MembersSnoc(rows: seq<Row>, row: Row, cs: seq<int>, g: seq<Value>)
    ensures Members(rows + [row], cs, g) == Members(rows, cs, g) + if InGroup(row, cs, g) then [row] else []
  {
    assert (rows + [row])[..|rows|] == rows;
  }

  lemma {:induction false} FoldedSnoc(aggs: seq<AggSpec>, members: seq<Row>, row: Row, accs: seq<AggAcc>,
      accs': seq<AggAcc>)
    requires Folded(aggs, members, accs) && |accs'| == |aggs|
    requires forall a | 0 <= a < |aggs| :: Accumulate(aggs[a], row, accs[a]) == Some(accs'[a])
    ensures Folded(aggs, members + [row], accs')
  {
    var all := members + [row];
    assert all[..|all| - 1] == members;
    forall a | 0 <= a < |aggs| ensures Fold(aggs[a], all) == Some(accs'[a]) {
      assert Fold(aggs[a], members) == Some(accs[a]);
    }
  }

  /** What the group's accumulators were before the row: those in the table, or fresh ones. */
  lemma {:induction false} StateOf(groups: GroupTable, order: seq<Bytes>, rows: seq<Row>, cs: seq<int>,
      aggs: seq<AggSpec>, p: seq<Value>, accs: seq<AggAcc>)
    requires Tracks(groups, order, rows, cs, aggs)
    requires p in Groups(rows, cs) ==> GroupKey(p) in groups && accs == groups[GroupKey(p)].accs
    requires p !in Groups(rows, cs) ==> accs == seq(|aggs|, _ => EmptyAcc)
    ensures Folded(aggs, Members(rows, cs, p), accs)
  {
    var gs := Groups(rows, cs);
    GroupsPartition(rows, cs);
    if p in gs {
      var j :| 0 <= j < |gs| && gs[j] == p;
      assert TracksOne(groups, order[j], rows, cs, aggs, gs[j]);
    } else {
      assert Members(rows, cs, p) == [];
    }
  }

  /** The table after one more row. */
  lemma {:induction false} TracksStep(groups: GroupTable, order: seq<Bytes>, rows: seq<Row>, cs: seq<int>,
      aggs: seq<AggSpec>, row: Row,
                                      accs: seq<AggAcc>, groups': GroupTable, order': seq<Bytes>)
    requires Tracks(groups, order, rows, cs, aggs) && AllFit(rows + [row]) && Covers(row, cs)
    requires var p := Parts(row, cs);
             && Folded(aggs, Members(rows, cs, p) + [row], accs)
                 && groups' == groups[GroupKey(p) := GroupState(p, accs)]
             && order' == if p in Groups(rows, cs) then order else order + [GroupKey(p)]
    ensures Tracks(groups', order', rows + [row], cs, aggs)
  {
    var p, all, gs := Parts(row, cs), rows + [row], Groups(rows, cs);
    assert all[..|rows|] == rows && row in all && forall r | r in rows :: r in all;
    GroupsFit(rows, cs);
    PartsFit(row, cs);
    var gs' := Groups(all, cs);
    forall j | 0 <= j < |gs'| ensures TracksOne(groups', order'[j], all, cs, aggs, gs'[j]) {
      MembersSnoc(rows, row, cs, gs'[j]);
      if j < |gs| {
        assert TracksOne(groups, order[j], rows, cs, aggs, gs[j]) && gs[j] in gs;
        if gs[j] == p {
        } else {
          if GroupKey(gs[j]) == GroupKey(p) { GroupKeyInjective(gs[j], p); }
          assert Members(all, cs, gs[j]) == Members(rows, cs, gs[j]);
        }
      }
    }
    TableKeys(groups, order, rows, cs, aggs, p);
  }

  lemma {:induction false} TableKeys(groups: GroupTable, order: seq<Bytes>, rows: seq<Row>, cs: seq<int>,
      aggs: seq<AggSpec>, p: seq<Value>)
    requires Tracks(groups, order, rows, cs, aggs)
    ensures p in Groups(rows, cs) ==> GroupKey(p) in order
  {
    var gs := Groups(rows, cs);
    if p in gs {
      var j :| 0 <= j < |gs| && gs[j] == p;
      assert TracksOne(groups, order[j], rows, cs, aggs, gs[j]);
    }
  }

  // ---- Failure ------------------------------------------------------------------------------------------

  lemma {:induction false} FoldStaysFailed(spec: AggSpec, rows: seq<Row>, cs: seq<int>, g: seq<Value>, i: nat)
    requires i <= |rows| && Fold(spec, Members(rows[..i], cs, g)).None?
    ensures Fold(spec, Members(rows, cs, g)).None?
    decreases |rows|
  {
    if i == |rows| {
      assert rows[..i] == rows;
    } else {
      var prior, row := rows[..|rows| - 1], rows[|rows| - 1];
      assert prior[..i] == rows[..i];
      FoldStaysFailed(spec, prior, cs, g, i);
      var m, all := Members(prior, cs, g), Members(rows, cs, g);
      if InGroup(row, cs, g) { assert all[..|all| - 1] == m; } else { assert all == m + [] == m; }
    }
  }

  /** A row its group's aggregate cannot take makes the whole aggregation undefined. */
  lemma {:induction false} FailureIsUndefined(rows: seq<Row>, cs: seq<int>, aggs: seq<AggSpec>, i: nat,
      accs: seq<AggAcc>, a: nat)
    requires i < |rows| && Covers(rows[i], cs) && a < |aggs|
    requires Folded(aggs, Members(rows[..i], cs, Parts(rows[i], cs)), accs)
        && Accumulate(aggs[a], rows[i], accs[a]).None?
    ensures !AllDefined(rows, cs, aggs)
  {
    var p, row := Parts(rows[i], cs), rows[i];
    assert rows[..i + 1] == rows[..i] + [row];
    MembersSnoc(rows[..i], row, cs, p);
    var m := Members(rows[..i], cs, p);
    assert (m + [row])[..|m|] == m && Fold(aggs[a], m) == Some(accs[a]);
    FoldStaysFailed(aggs[a], rows, cs, p, i + 1);
    FoldMeans(aggs[a], Members(rows, cs, p));
    GroupsPartition(rows, cs);
    assert Members(rows, cs, p) != [];
  }

  lemma {:induction false} TracksDefined(groups: GroupTable, order: seq<Bytes>, rows: seq<Row>, cs: seq<int>,
      aggs: seq<AggSpec>)
    requires Tracks(groups, order, rows, cs, aggs)
    ensures AllDefined(rows, cs, aggs)
  {
    var gs := Groups(rows, cs);
    forall g, a | g in gs && 0 <= a < |aggs| ensures Defined(aggs[a], Members(rows, cs, g)) {
      var j :| 0 <= j < |gs| && gs[j] == g;
      assert TracksOne(groups, order[j], rows, cs, aggs, gs[j]);
      assert Fold(aggs[a], Members(rows, cs, g)).Some?;
      FoldMeans(aggs[a], Members(rows, cs, g));
    }
  }

  // ---- The executor -----------------------------------------------------------------------------------------

  method CheckSpecs(width: nat, cs: seq<int>, aggs: seq<AggSpec>) returns (ok: bool)
    ensures ok == !Malformed(width, cs, aggs)
  {
    if aggs == [] && cs == [] { return false; }
    for a := 0 to |aggs|
      invariant forall k | 0 <= k < a :: aggs[k].name != []
      invariant forall k | 0 <= k < a :: if aggs[k].star then aggs[k].func == Count else aggs[k].arg >= 0
    {
      if aggs[a].name == [] { return false; }
      if aggs[a].star {
        if aggs[a].func != Count { return false; }
      } else if aggs[a].arg < 0 {
        return false;
      }
    }
    for i := 0 to |cs|
      invariant forall k | 0 <= k < i :: 0 <= cs[k] < width
    {
      if cs[i] < 0 || cs[i] >= width { return false; }
    }
    ok := true;
  }

  method KeyParts(row: Row, cs: seq<int>) returns (r: Option<seq<Value>>)
    ensures r == if Covers(row, cs) then Some(Parts(row, cs)) else None
  {
    var parts: seq<Value> := [];
    for i := 0 to |cs|
      invariant |parts| == i && forall k | 0 <= k < i :: 0 <= cs[k] < |row| && parts[k] == row[cs[k]]
    {
      if cs[i] < 0 || cs[i] >= |row| { return None; }
      parts := parts + [row[cs[i]]];
    }
    assert parts == Parts(row, cs);
    r := Some(parts);
  }

  /** The row goes into every accumulator of its group; the first failure ends it. */
  method AccumulateAll(aggs: seq<AggSpec>, row: Row, accs: seq<AggAcc>) returns (r: Option<seq<AggAcc>>)
    requires |accs| == |aggs|
    ensures r.Some? ==> |r.value| == |aggs| && forall a | 0 <= a < |aggs| ::
        Accumulate(aggs[a], row, accs[a]) == Some(r.value[a])
    ensures r.None? ==> exists a | 0 <= a < |aggs| :: Accumulate(aggs[a], row, accs[a]).None?
  {
    var done: seq<AggAcc> := [];
    for i := 0 to |aggs|
      invariant |done| == i && forall a | 0 <= a < i :: Accumulate(aggs[a], row, accs[a]) == Some(done[a])
    {
      var acc := Accumulate(aggs[i], row, accs[i]);
      if acc.None? { return None; }
      done := done + [acc.value];
    }
    r := Some(done);
  }

  ghost predicate Wide(groups: GroupTable, order: seq<Bytes>, n: nat, most: nat) {
    && (forall key | key in groups :: |groups[key].accs| == n && forall acc | acc in groups[key].accs :: acc.n <= most)
    && (forall key | key in order :: key in groups)
  }

  /** The cells of a result row. */
  method FinalizeAll(aggs: seq<AggSpec>, g: seq<Value>, accs: seq<AggAcc>) returns (row: Row)
    requires |accs| == |aggs| && forall acc | acc in accs :: acc.n <= MaxInt64
    ensures |row| == |g| + |aggs| && row[..|g|] == g
    ensures forall a | 0 <= a < |aggs| :: accs[a] in accs && row[|g| + a] == FinalizeAgg(aggs[a], accs[a])
  {
    row := g;
    for i := 0 to |aggs|
      invariant |row| == |g| + i && row[..|g|] == g
      invariant forall a | 0 <= a < i :: accs[a] in accs && row[|g| + a] == FinalizeAgg(aggs[a], accs[a])
    {
      assert accs[i] in accs;
      row := row + [FinalizeAgg(aggs[i], accs[i])];
    }
  }

  lemma {:induction false} FinalRow(aggs: seq<AggSpec>, members: seq<Row>, g: seq<Value>, accs: seq<AggAcc>, row: Row)
    requires Folded(aggs, members, accs) && |members| <= MaxInt64 && |row| == |g| + |aggs| && row[..|g|] == g
    requires forall a | 0 <= a < |aggs| :: accs[a].n <= MaxInt64 && row[|g| + a] == FinalizeAgg(aggs[a], accs[a])
    ensures IsGroupRow(aggs, members, g, row)
  {
    forall a | 0 <= a < |aggs| ensures IsAggregate(aggs[a], members, row[|g| + a]) {
      FoldMeans(aggs[a], members);
      FinalizeMeans(aggs[a], members);
    }
  }

  /** One row of the input. */
  method TakeRow(groups: GroupTable, order: seq<Bytes>, row: Row, p: seq<Value>, aggs: seq<AggSpec>,
      ghost rows: seq<Row>, ghost i: nat, ghost cs: seq<int>)
      returns (ok: bool, groups': GroupTable, order': seq<Bytes>)
    requires i < |rows| && row == rows[i] && Covers(row, cs) && p == Parts(row, cs) && Wide(groups, order, |aggs|, i)
    requires AllFit(rows) ==> Tracks(groups, order, rows[..i], cs, aggs)
    ensures Wide(groups', order', |aggs|, i + 1) && (ok ==> groups' != map[])
    ensures ok && AllFit(rows) ==> Tracks(groups', order', rows[..i + 1], cs, aggs)
    ensures !ok && AllFit(rows) ==> !AllDefined(rows, cs, aggs)
  {
    hide Tracks, AllDefined, GroupKey, Folded;
    var key := GroupKey(p);
    var accs := seq(|aggs|, _ => EmptyAcc);
    groups', order' := groups, order;
    if key in groups { accs := groups[key].accs; } else { order' := order + [key]; }
    if AllFit(rows) { TakeAccs(groups, order, rows, i, cs, aggs, accs); }
    var next := AccumulateAll(aggs, row, accs);
    if next.None? {
      if AllFit(rows) {
        ghost var a :| 0 <= a < |aggs| && Accumulate(aggs[a], row, accs[a]).None?;
        FailureIsUndefined(rows, cs, aggs, i, accs, a);
      }
      return false, groups, order;
    }
    groups' := groups[key := GroupState(p, next.value)];
    assert key in groups';
    ok := true;
    if AllFit(rows) { TakeStep(groups, order, rows, i, cs, aggs, accs, next.value, groups', order'); }
  }

  lemma {:induction false} TakeAccs(groups: GroupTable, order: seq<Bytes>, rows: seq<Row>, i: nat, cs: seq<int>,
      aggs: seq<AggSpec>, accs: seq<AggAcc>)
    requires i < |rows| && Covers(rows[i], cs) && AllFit(rows) && Tracks(groups, order, rows[..i], cs, aggs)
    requires var key := GroupKey(Parts(rows[i], cs));
             accs == if key in groups then groups[key].accs else seq(|aggs|, _ => EmptyAcc)
    ensures Folded(aggs, Members(rows[..i], cs, Parts(rows[i], cs)), accs)
  {
    var p, prior := Parts(rows[i], cs), rows[..i];
    assert rows[i] in rows && forall r | r in prior :: r in rows;
    PartsFit(rows[i], cs);
    KeyFinds(groups, order, prior, cs, aggs, p);
    StateOf(groups, order, prior, cs, aggs, p, accs);
  }

  lemma {:induction false} TakeStep(groups: GroupTable, order: seq<Bytes>, rows: seq<Row>, i: nat, cs: seq<int>,
      aggs: seq<AggSpec>,
                                    accs: seq<AggAcc>, accs': seq<AggAcc>, groups': GroupTable, order': seq<Bytes>)
    requires i < |rows| && Covers(rows[i], cs) && AllFit(rows) && Tracks(groups, order, rows[..i], cs, aggs)
    requires var p := Parts(rows[i], cs);
             && Folded(aggs, Members(rows[..i], cs, p), accs)
             && groups' == groups[GroupKey(p) := GroupState(p, accs')]
             && order' == if GroupKey(p) in groups then order else order + [GroupKey(p)]
    requires |accs'| == |aggs| && forall a | 0 <= a < |aggs| :: Accumulate(aggs[a], rows[i], accs[a]) == Some(accs'[a])
    ensures Tracks(groups', order', rows[..i + 1], cs, aggs)
  {
    hide Tracks, Folded, Groups, GroupKey, Members, Parts;
    var p, prior := Parts(rows[i], cs), rows[..i];
    assert rows[i] in rows && forall r | r in prior :: r in rows;
    PartsFit(rows[i], cs);
    KeyFinds(groups, order, prior, cs, aggs, p);
    FoldedSnoc(aggs, Members(prior, cs, p), rows[i], accs, accs');
    assert rows[..i + 1] == prior + [rows[i]];
    TracksStep(groups, order, prior, cs, aggs, rows[i], accs', groups', order');
  }

  /** The result rows, in order of first appearance. */
  method Emit(groups: GroupTable, order: seq<Bytes>, aggs: seq<AggSpec>, ghost rows: seq<Row>,
      ghost cs: seq<int>) returns (result: seq<Row>)
    requires Wide(groups, order, |aggs|, |rows|) && |rows| <= MaxInt64
    ensures Tracks(groups, order, rows, cs, aggs) ==> IsGrouped(rows, cs, aggs, result)
  {
    hide Members, Groups, FinalizeAgg, IsGroupRow, Folded, GroupKey;
    result := [];
    ghost var gs, sound := Groups(rows, cs), Tracks(groups, order, rows, cs, aggs);
    for j := 0 to |order|
      invariant |result| == j
      invariant sound ==> forall k | 0 <= k < j :: IsGroupRow(aggs, Members(rows, cs, gs[k]), gs[k], result[k])
    {
      assert order[j] in order;
      var st := groups[order[j]];
      var row := FinalizeAll(aggs, st.parts, st.accs);
      if sound {
        assert TracksOne(groups, order[j], rows, cs, aggs, gs[j]);
        FinalRow(aggs, Members(rows, cs, gs[j]), gs[j], st.accs, row);
      }
      result := result + [row];
    }
  }

  /** The whole operator: it fails exactly when a specification is malformed, a grouping column is
      missing from a row, or an aggregate is undefined on its group. */
  method HashAggregate(width: nat, rows: seq<Row>, cs: seq<int>, aggs: seq<AggSpec>) returns (r: Produced)
    requires |rows| <= MaxInt64
    ensures Malformed(width, cs, aggs) ==> r == Fault(InvalidArgument)
    ensures !Malformed(width, cs, aggs) && AllFit(rows) ==>
              if !AllCover(rows, cs) || !AllDefined(rows, cs, aggs) then r == Fault(InvalidArgument)
              else r.Rows? && if rows == [] && cs == [] then |r.rows| == 1 && IsGroupRow(aggs, [], [], r.rows[0])
                              else IsGrouped(rows, cs, aggs, r.rows)
  {
    var ok := CheckSpecs(width, cs, aggs);
    if !ok { return Fault(InvalidArgument); }
    var groups: GroupTable, order: seq<Bytes> := map[], [];
    for i := 0 to |rows|
      invariant Wide(groups, order, |aggs|, i) && (i > 0 ==> groups != map[])
          && forall k | 0 <= k < i :: Covers(rows[k], cs)
      invariant AllFit(rows) ==> Tracks(groups, order, rows[..i], cs, aggs)
    {
      var parts := KeyParts(rows[i], cs);
      if parts.None? {
        assert rows[i] in rows;
        return Fault(InvalidArgument);
      }
      ok, groups, order := TakeRow(groups, order, rows[i], parts.value, aggs, rows, i, cs);
      if !ok { return Fault(InvalidArgument); }
    }
    assert rows[..|rows|] == rows;
    if AllFit(rows) { TracksDefined(groups, order, rows, cs, aggs); }
    if groups == map[] {
      if cs != [] { return Rows([]); }
      var row := FinalizeAll(aggs, [], seq(|aggs|, _ => EmptyAcc));
      FinalRow(aggs, [], [], seq(|aggs|, _ => EmptyAcc), row);
      return Rows([row]);
    }
    var result := Emit(groups, order, aggs, rows, cs);
    r := Rows(result);
  }
}
