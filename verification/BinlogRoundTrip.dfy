/**
 Writing items and reading them back, from the start of the log or from any position
 the producer ever had.
 */
module BinlogRoundTrip {
  import opened BinlogFormat
  import opened BinlogHistory
  import opened BinlogWriter
  import opened BinlogReader

  /** Puts the items in order and notes the producer position after each. */
  method PutAll(log: Binlog, items: seq<seq<byte>>, clock: (nat, bool) -> nat) returns (ends: seq<Position>)
    requires log.Valid() && log.isOpen
    modifies log
    ensures log.Valid() && log.isOpen && log.base == old(log.base) && |ends| == |items|
    ensures |log.entries| == |old(log.entries)| + |items| && log.entries[..|old(log.entries)|] == old(log.entries)
    ensures forall i | 0 <= i < |items| ::
              log.entries[|old(log.entries)| + i].item == items[i] && log.entries[|old(log.entries)| + i].End() == ends[i]
  {
    ends := [];
    ghost var n := |log.entries|;
    var i := 0;
    while i < |items|
      invariant 0 <= i <= |items| && |ends| == i
      invariant log.Valid() && log.isOpen && log.base == old(log.base)
      invariant |log.entries| == n + i && log.entries[..n] == old(log.entries)
      invariant forall j | 0 <= j < i :: log.entries[n + j].item == items[j] && log.entries[n + j].End() == ends[j]
    {
      var _ := log.Put(items[i], clock);
      ends := ends + [Position(log.proNum, log.proOffset)];
      i := i + 1;
    }
  }

  /** Reading from a position the producer had before entry `k` gives exactly the items
      put after it, each with the position the producer had after it. */
  method ReadFrom(log: Binlog, p: Position, ghost k: nat) returns (ok: bool, got: seq<(seq<byte>, Position)>)
    requires log.Valid() && NoEmptyItem(log.entries) && k <= |log.entries| && Boundary(log, k, p)
    ensures ok && |got| == |log.entries| - k
    ensures forall i | 0 <= i < |got| :: got[i] == (log.entries[k + i].item, log.entries[k + i].End())
  {
    var reader := new Reader();
    var res := reader.Seek(log, p.filenum, p.offset, k);
    got := reader.ReadAll(k);
    ok := res == 0;
  }

  /** What is put into a new log is what is read from its start, in order, each item at
      the offset the producer held right after it, however the items fall on blocks and
      files. */
  method RoundTrip(limit: nat, items: seq<seq<byte>>, clock: (nat, bool) -> nat) returns (ends: seq<Position>, got: seq<(seq<byte>, Position)>)
    requires forall item | item in items :: item != []
    ensures |got| == |ends| == |items|
    ensures forall i | 0 <= i < |items| :: got[i] == (items[i], ends[i])
  {
    var log := new Binlog(limit);
    ends := PutAll(log, items, clock);
    assert NoEmptyItem(log.entries) by {
      forall e | e in log.entries
        ensures e.item != []
      {
        var i :| 0 <= i < |log.entries| && log.entries[i] == e;
        assert log.entries[0 + i].item == items[i] && items[i] in items;
      }
    }
    var ok;
    ok, got := ReadFrom(log, Position(0, 0), 0);
    forall i | 0 <= i < |items|
      ensures got[i] == (items[i], ends[i])
    {
      assert got[i] == (log.entries[0 + i].item, log.entries[0 + i].End());
    }
  }
}
