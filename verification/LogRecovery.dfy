/** Reading a log back into a memtable at start-up. */
module LogRecovery {
  import opened Values
  import opened Tables
  import opened SkipList
  import opened Encoding
  import opened Wal

  /** Only nodes that were there, or new ones. */
  twostate predicate Grown(new nodes: seq<Node>, was: seq<Node>) {
    forall i {:trigger nodes[i]} | 0 <= i < |nodes| :: nodes[i] in was || fresh(nodes[i])
  }

  /** The entries of one batch, under rising sequence numbers. */
  method AddEntries(mem: MemTable, start: nat, es: seq<BatchEntry>, last: nat) returns (max: nat)
    requires mem.table.Valid()
    modifies mem.table, mem.table.nodes
    ensures mem.table.Valid() && mem.table.Contents() == AddBatch(old(mem.table.Contents()), start, es)
    ensures max == RaisedBy(last, start, |es|)
    ensures Grown(mem.table.nodes, old(mem.table.nodes))
  {
    hide Shaped, Sorted, LsmEngine.Insert;
    max := last;
    for i := 0 to |es|
      invariant mem.table.Valid() && Grown(mem.table.nodes, old(mem.table.nodes))
      invariant AddBatch(mem.table.Contents(), start + i, es[i..]) == AddBatch(old(mem.table.Contents()), start, es)
      invariant max == RaisedBy(last, start, i)
    {
      assert es[i..][0] == es[i] && es[i..][1..] == es[i + 1..];
      ghost var before := mem.table.nodes;
      mem.Add(start + i, es[i].kind, es[i].key, es[i].value);
      forall j | 0 <= j < |mem.table.nodes| ensures mem.table.nodes[j] in old(mem.table.nodes)
          || fresh(mem.table.nodes[j]) {
        var n := mem.table.nodes[j];
        assert n in mem.table.nodes;
        if n in before { var k :| 0 <= k < |before| && before[k] == n; }
      }
      if start + i > max { max := start + i; }
    }
  }

  /** RecoverLogFile. A log that does not exist is an empty one; a torn frame or a bad batch is
      Corruption, and opening the database fails with it. */
  method RecoverLogFile(sum: Bytes -> nat, file: Option<Bytes>, mem: MemTable, last: nat) returns (st: Status, max: nat)
    requires mem.table.Valid()
    modifies mem.table, mem.table.nodes
    ensures mem.table.Valid()
    ensures var r := if file.None? then Restored(old(mem.table.Contents()), last)
                     else RecoverLog(sum, file.value, old(mem.table.Contents()), last);
            if r.Broken? then st == Corruption && max == last
            else st == Ok && mem.table.Contents() == r.mem && max == r.last
  {
    hide Shaped, Sorted, AddBatch, DecodeBatch, Unfixed;
    if file.None? { return Ok, last; }
    var rest := file.value;
    max := last;
    ghost var whole := RecoverLog(sum, file.value, mem.table.Contents(), last);
    while true
      invariant mem.table.Valid() && Grown(mem.table.nodes, old(mem.table.nodes))
      invariant RecoverLog(sum, rest, mem.table.Contents(), max) == whole
      decreases |rest|
    {
      var r := ReadRecord(sum, rest);
      if r.Eof? { return Ok, max; }
      if r.Corrupt? { return Corruption, last; }
      var batch := DecodeBatch(r.data);
      if batch.None? { return Corruption, last; }
      max := AddEntries(mem, batch.value.0, batch.value.1, max);
      rest := r.rest;
    }
  }
}
