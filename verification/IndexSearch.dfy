/**
 Finding a log entry by its logical index. The binlog files are searched for the one
 that must hold it, starting from a hint and moving one file at a time, and then that
 file is scanned.
 */
module IndexSearch {
  import opened BinlogHistory
  import opened Offsets
  import opened Options
  import opened ReplicatedLog

  datatype Search = Found(offset: LogOffset) | NotFound | Failed

  /** First entry from `i` on that lies in file `f` or a later one. */
  function FirstFrom(log: seq<Logged>, f: nat, i: nat): (k: nat)
    requires i <= |log|
    ensures i <= k <= |log|
    ensures forall j | i <= j < k :: log[j].end.filenum < f
    ensures k < |log| ==> log[k].end.filenum >= f
    decreases |log| - i
  {
    if i == |log| || log[i].end.filenum >= f then i else FirstFrom(log, f, i + 1)
  }

  function FirstOf(log: seq<Logged>, f: nat): nat { FirstFrom(log, f, 0) }

  function LowFile(log: seq<Logged>): nat
    requires log != []
  {
    log[0].end.filenum
  }

  function HighFile(log: seq<Logged>): nat
    requires log != []
  {
    log[|log| - 1].end.filenum
  }

  /** A later entry has a larger index and lies in the same or a later file; the next entry
      lies in the same file or the next. */
  predicate InOrder(log: seq<Logged>, i: int, j: int)
    requires 0 <= i < j < |log|
  {
    && log[i].rec.index < log[j].rec.index && log[i].end.filenum <= log[j].end.filenum
    && (j == i + 1 ==> log[j].end.filenum <= log[i].end.filenum + 1)
  }

  /** All the search needs of a log; indices may have gaps. */
  ghost predicate Ordered(log: seq<Logged>) {
    forall i, j | 0 <= i < j < |log| :: InOrder(log, i, j)
  }

  lemma {:induction false} PlacedInOrder(limit: nat, base: LogOffset, log: seq<Logged>, i: nat, j: nat)
    requires WellPlaced(limit, base, log) && i < j < |log|
    ensures InOrder(log, i, j)
  {
    assert Placed(limit, base, log, i) && Placed(limit, base, log, j);
    if i + 1 < j {
      PlacedInOrder(limit, base, log, i, j - 1);
    }
  }

  lemma PlacedIsOrdered(limit: nat, base: LogOffset, log: seq<Logged>)
    requires WellPlaced(limit, base, log)
    ensures Ordered(log)
  {
    forall i, j | 0 <= i < j < |log|
      ensures InOrder(log, i, j)
    {
      PlacedInOrder(limit, base, log, i, j);
    }
  }

  /** Every file from the lowest to the highest has a first entry. */
  lemma FirstExists(log: seq<Logged>, f: nat)
    requires Ordered(log) && log != [] && LowFile(log) <= f <= HighFile(log)
    ensures FirstOf(log, f) < |log| && log[FirstOf(log, f)].end.filenum == f
  {
    var k := FirstOf(log, f);
    assert log[|log| - 1].end.filenum >= f;
    if k > 0 {
      assert InOrder(log, k - 1, k);
    }
  }

  /** Index of the first entry of file `f`. */
  function FirstIndex(log: seq<Logged>, f: nat): nat {
    var k := FirstOf(log, f);
    if k < |log| then log[k].rec.index else 0
  }

  lemma FirstIndices(log: seq<Logged>, f: nat, g: nat)
    requires Ordered(log) && log != [] && LowFile(log) <= f < g <= HighFile(log)
    ensures FirstIndex(log, f) < FirstIndex(log, g)
  {
    FirstExists(log, f);
    FirstExists(log, g);
    assert InOrder(log, FirstOf(log, f), FirstOf(log, g));
  }

  lemma FileInRange(log: seq<Logged>, f: nat)
    requires Ordered(log) && log != [] && LowFile(log) <= f <= HighFile(log)
    ensures FirstOf(log, f) < |log|
    ensures f < HighFile(log) ==> FirstIndex(log, f) < FirstIndex(log, f + 1)
    ensures log[0].rec.index <= FirstIndex(log, f)
    ensures f == LowFile(log) ==> FirstIndex(log, f) == log[0].rec.index
  {
    FirstExists(log, f);
    if f < HighFile(log) {
      FirstIndices(log, f, f + 1);
    }
    if f > LowFile(log) {
      FirstIndices(log, LowFile(log), f);
    }
    assert FirstOf(log, LowFile(log)) == 0;
  }

  /** The file that must hold the entry with index `target`. */
  predicate HoldsIndex(log: seq<Logged>, f: nat, target: nat)
    requires log != []
  {
    && LowFile(log) <= f <= HighFile(log) && FirstIndex(log, f) <= target
    && (f < HighFile(log) ==> target < FirstIndex(log, f + 1))
  }

  /** After a full synchronisation the lowest file begins with padding, and reading from
      its start yields no item. */
  predicate Unreadable(log: seq<Logged>, filenum: nat, padded: bool) {
    padded && log != [] && filenum == LowFile(log)
  }

  /** Offset of the first entry at or after the start of a file. */
  method GetBinlogOffset(log: seq<Logged>, filenum: nat, padded: bool) returns (r: Search)
    ensures r == Failed <==> FirstOf(log, filenum) == |log| || Unreadable(log, filenum, padded)
    ensures r != Failed ==> r == Found(log[FirstOf(log, filenum)].Offset()) && r.offset.l.index == FirstIndex(log, filenum)
  {
    if Unreadable(log, filenum, padded) {
      return Failed;
    }
    var i := 0;
    while i < |log|
      invariant 0 <= i <= |log| && FirstOf(log, filenum) == FirstFrom(log, filenum, i)
    {
      if log[i].end.filenum >= filenum {
        return Found(log[i].Offset());
      }
      i := i + 1;
    }
    r := Failed;
  }

  /** The search for the file comes to the lowest one, by starting there or by moving down. */
  predicate ReachesLowest(log: seq<Logged>, target: nat, start: nat)
    requires log != []
  {
    start == LowFile(log) || target < FirstIndex(log, LowFile(log) + 1)
  }

  /** Moves file by file from the start until the first index changes side. */
  method FindBinlogFileNum(log: seq<Logged>, target: nat, start: nat, padded: bool)
      returns (failed: bool, found: bool, filenum: nat)
    requires Ordered(log) && log != [] && LowFile(log) <= start <= HighFile(log)
    ensures failed <==> padded && ReachesLowest(log, target, start)
    ensures !failed ==> (found <==> target >= log[0].rec.index)
    ensures !failed && found ==> HoldsIndex(log, filenum, target) && !Unreadable(log, filenum, padded)
  {
    var low, high := LowFile(log), HighFile(log);
    var left, right := false, false;
    filenum, failed := start, false;
    while true
      invariant low <= filenum <= high
      invariant left ==> filenum < high && target < FirstIndex(log, filenum + 1)
      invariant right ==> low < filenum && FirstIndex(log, filenum - 1) < target
      invariant !(left && right) && (!left && !right ==> filenum == start) && (left ==> filenum < start) && (right ==> start < filenum)
      invariant padded && right ==> start != low
      decreases if left || right then 0 else 1, if right then high - filenum else filenum
    {
      FileInRange(log, filenum);
      var first := GetBinlogOffset(log, filenum, padded);
      if first == Failed {
        return true, false, 0;
      }
      if target < first.offset.l.index {
        if right {
          filenum := filenum - 1;
          break;
        }
        left := true;
        if filenum == 0 || filenum - 1 < low {
          return false, false, 0;
        }
        filenum := filenum - 1;
      } else if target > first.offset.l.index {
        if left {
          break;
        }
        right := true;
        if filenum + 1 > high {
          break;
        }
        filenum := filenum + 1;
      } else {
        break;
      }
    }
    SearchEnds(log, target, start, filenum, padded);
    found := true;
  }

  /** What holds when the search for the file comes to rest. */
  lemma SearchEnds(log: seq<Logged>, target: nat, start: nat, f: nat, padded: bool)
    requires Ordered(log) && log != [] && LowFile(log) <= f <= HighFile(log)
    requires FirstIndex(log, f) <= target && (f < HighFile(log) ==> target < FirstIndex(log, f + 1))
    requires padded ==> LowFile(log) < f && start != LowFile(log)
    ensures HoldsIndex(log, f, target) && !Unreadable(log, f, padded)
    ensures target >= log[0].rec.index && !(padded && ReachesLowest(log, target, start))
  {
    FileInRange(log, f);
    FirstsAscend(log, target, f);
  }

  /** A target below the first index of the second file is below that of every later one. */
  lemma FirstsAscend(log: seq<Logged>, target: nat, f: nat)
    requires Ordered(log) && log != [] && LowFile(log) <= f <= HighFile(log)
    ensures f > LowFile(log) && FirstIndex(log, f) <= target ==> FirstIndex(log, LowFile(log) + 1) <= target
    ensures f > LowFile(log) ==> FirstIndex(log, LowFile(log)) < FirstIndex(log, f)
  {
    if f > LowFile(log) {
      FirstIndices(log, LowFile(log), f);
    }
    if f > LowFile(log) + 1 {
      FirstIndices(log, LowFile(log) + 1, f);
    }
  }

  /** Offsets of the entries from the start of a file up to a position. */
  method GetBinlogOffsets(log: seq<Logged>, filenum: nat, end: Position, padded: bool)
      returns (ok: bool, offsets: seq<LogOffset>, ghost n: nat)
    ensures ok <==> !Unreadable(log, filenum, padded)
    ensures ok ==> var k := FirstOf(log, filenum); k <= n <= |log| && |offsets| == n - k
    ensures ok ==> forall j | 0 <= j < |offsets| :: offsets[j] == log[FirstOf(log, filenum) + j].Offset() && offsets[j].b.AtMost(end)
    ensures ok && n < |log| ==> end.Less(log[n].end)
  {
    ok := !Unreadable(log, filenum, padded);
    if !ok {
      return false, [], 0;
    }
    var i := 0;
    while i < |log| && log[i].end.filenum < filenum
      invariant 0 <= i <= |log| && FirstOf(log, filenum) == FirstFrom(log, filenum, i)
    {
      i := i + 1;
    }
    ghost var k := i;
    offsets, n := [], i;
    while i < |log|
      invariant k <= i <= |log| && n == i && |offsets| == i - k
      invariant forall j | 0 <= j < |offsets| :: offsets[j] == log[k + j].Offset() && offsets[j].b.AtMost(end)
    {
      if end.Less(log[i].end) {
        return;
      }
      offsets := offsets + [log[i].Offset()];
      i, n := i + 1, n + 1;
    }
  }

  /** An entry with the index `target` lies in the file that must hold it. */
  lemma IndexInFile(log: seq<Logged>, f: nat, target: nat, k: nat)
    requires Ordered(log) && log != [] && HoldsIndex(log, f, target)
    requires k < |log| && log[k].rec.index == target
    ensures FirstOf(log, f) <= k && log[k].end.filenum == f
  {
    var i := FirstOf(log, f);
    FirstExists(log, f);
    Apart(log, k, i);
    if f < HighFile(log) {
      FirstExists(log, f + 1);
      Apart(log, k, FirstOf(log, f + 1));
    } else {
      Apart(log, k, |log| - 1);
    }
  }

  /** Of two entries, the one with the smaller index is the earlier one. */
  lemma Apart(log: seq<Logged>, i: nat, j: nat)
    requires Ordered(log) && i < |log| && j < |log|
    ensures i < j <==> log[i].rec.index < log[j].rec.index
    ensures i <= j ==> log[i].end.filenum <= log[j].end.filenum
    ensures j <= i ==> log[j].end.filenum <= log[i].end.filenum
  {
    if i < j {
      assert InOrder(log, i, j);
    } else if j < i {
      assert InOrder(log, j, i);
    }
  }

  /** Scans the offsets of one file for an index. */
  method ScanForIndex(offsets: seq<LogOffset>, target: nat) returns (r: Search)
    ensures r.Found? ==> r.offset in offsets && r.offset.l.index == target
    ensures !r.Found? ==> r == NotFound && forall j | 0 <= j < |offsets| :: offsets[j].l.index != target
  {
    var i := 0;
    while i < |offsets|
      invariant 0 <= i <= |offsets| && forall j | 0 <= j < i :: offsets[j].l.index != target
    {
      if offsets[i].l.index == target {
        return Found(offsets[i]);
      }
      i := i + 1;
    }
    r := NotFound;
  }

  /** `r` names the one entry with index `target`, or says rightly that there is none. */
  ghost predicate Finds(log: seq<Logged>, target: nat, r: Search) {
    && (r.Found? ==> exists k :: 0 <= k < |log| && log[k].rec.index == target && r.offset == log[k].Offset())
    && (r == NotFound ==> forall k | 0 <= k < |log| :: log[k].rec.index != target)
  }

  /** The file a search starts from. */
  function StartFile(log: seq<Logged>, hint: Position): nat
    requires log != []
  {
    if LowFile(log) <= hint.filenum <= HighFile(log) then hint.filenum else HighFile(log)
  }

  /** When a search cannot read what it needs: there is no entry, or it comes to padding. */
  predicate SearchFails(log: seq<Logged>, hint: Position, target: nat, padded: bool) {
    log == [] || (padded && ReachesLowest(log, target, StartFile(log, hint)))
  }

  /** The search fails exactly when it cannot read what it needs, and is right otherwise. */
  method FindLogicOffsetBySearchingBinlog(log: seq<Logged>, hint: Position, target: nat, padded: bool)
      returns (r: Search)
    requires Ordered(log)
    ensures Finds(log, target, r) && (r == Failed <==> SearchFails(log, hint, target, padded))
  {
    if log == [] {
      return Failed;
    }
    Apart(log, 0, |log| - 1);
    var failed, found, filenum := FindBinlogFileNum(log, target, StartFile(log, hint), padded);
    if failed {
      return Failed;
    }
    if !found {
      NoSmallerIndex(log, target);
      return NotFound;
    }
    var ok, offsets, n := GetBinlogOffsets(log, filenum, Position(filenum + 1, 0), padded);
    r := ScanForIndex(offsets, target);
    ScanIsComplete(log, filenum, target, offsets, n, r);
  }

  /** Scanning the file that must hold the index is as good as scanning the log. */
  lemma ScanIsComplete(log: seq<Logged>, filenum: nat, target: nat, offsets: seq<LogOffset>, n: nat, r: Search)
    requires Ordered(log) && log != [] && HoldsIndex(log, filenum, target)
    requires FirstOf(log, filenum) <= n <= |log| && |offsets| == n - FirstOf(log, filenum)
    requires forall j | 0 <= j < |offsets| :: offsets[j] == log[FirstOf(log, filenum) + j].Offset()
    requires n < |log| ==> Position(filenum + 1, 0).Less(log[n].end)
    requires r.Found? ==> r.offset in offsets && r.offset.l.index == target
    requires !r.Found? ==> r == NotFound && forall j | 0 <= j < |offsets| :: offsets[j].l.index != target
    ensures Finds(log, target, r)
  {
    var first := FirstOf(log, filenum);
    if r.Found? {
      var j :| 0 <= j < |offsets| && offsets[j] == r.offset;
      assert log[first + j].Offset() == r.offset;
    } else {
      forall k | 0 <= k < |log|
        ensures log[k].rec.index != target
      {
        if first <= k < n {
          assert offsets[k - first] == log[k].Offset();
        } else if log[k].rec.index == target {
          IndexInFile(log, filenum, target, k);
          Apart(log, n, k);
        }
      }
    }
  }

  lemma NoSmallerIndex(log: seq<Logged>, target: nat)
    requires Ordered(log) && log != [] && target < log[0].rec.index
    ensures forall k | 0 <= k < |log| :: log[k].rec.index != target
  {
    forall k | 0 <= k < |log|
      ensures log[k].rec.index != target
    {
      Apart(log, 0, k);
    }
  }

  /** Tries the entry read at the hinted position first. Whatever that read gives, an
      error or some entry of the log, the result is the one entry with the index. */
  method FindLogicOffset(log: seq<Logged>, hint: Position, probe: Option<nat>, target: nat, padded: bool) returns (r: Search)
    requires Ordered(log) && (probe.Some? ==> probe.value < |log|)
    ensures Finds(log, target, r)
    ensures r == Failed <==>
              && (probe.Some? ==> log[probe.value].rec.index != target)
              && SearchFails(log, hint, target, padded)
  {
    if probe.None? || log[probe.value].rec.index != target {
      r := FindLogicOffsetBySearchingBinlog(log, hint, target, padded);
    } else {
      r := Found(log[probe.value].Offset());
    }
  }

  /** At most one entry has a given index, so the result is determined by the log. */
  lemma FindsUnique(log: seq<Logged>, target: nat, r: Search, r': Search)
    requires Ordered(log) && Finds(log, target, r) && Finds(log, target, r') && r != Failed && r' != Failed
    ensures r == r'
  {
    if r.Found? && r'.Found? {
      var k :| 0 <= k < |log| && log[k].rec.index == target && r.offset == log[k].Offset();
      var k' :| 0 <= k' < |log| && log[k'].rec.index == target && r'.offset == log[k'].Offset();
      Apart(log, k, k');
      Apart(log, k', k);
    }
  }
}
