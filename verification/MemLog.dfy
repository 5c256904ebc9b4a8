/**
 The entries appended to a partition's log and not yet handed to the appliers, and
 the record of how far the appliers have got.
 */
module MemLog {
  import opened Offsets
  import opened SyncWindow
  import opened ReplicatedLog

  /** Position of the entry at `o`; the search gives up at the first entry past `o`. */
  function Find(logs: seq<Logged>, o: LogOffset): (k: int)
    ensures -1 <= k < |logs|
    ensures k >= 0 ==> logs[k].Offset().Same(o)
  {
    if logs == [] || o.Less(logs[0].Offset()) then -1
    else if logs[0].Offset().Same(o) then 0
    else var k := Find(logs[1..], o); if k < 0 then -1 else k + 1
  }

  /** Searching what is left of a log after its first `from` entries finds the end of
      the first `n` entries, unless they are all among those removed. */
  lemma {:induction false} FindPlaced(limit: nat, base: LogOffset, log: seq<Logged>, from: nat, n: nat)
    requires WellPlaced(limit, base, log) && from <= |log| && n <= |log|
    ensures Find(log[from..], OffsetBefore(base, log, n)) == if n > from then n - 1 - from else -1
    decreases |log| - from
  {
    if from < |log| {
      assert log[from..][0] == log[from] && log[from..][1..] == log[from + 1..];
      if n <= from {
        OffsetsIncrease(limit, base, log, n, from + 1);
      } else if n > from + 1 {
        OffsetsIncrease(limit, base, log, from + 1, n);
        FindPlaced(limit, base, log, from + 1, n);
      }
    }
  }

  class Log {
    var logs: seq<Logged>
    var lastOffset: LogOffset

    constructor ()
      ensures logs == [] && lastOffset == ZERO_OFFSET
    {
      logs, lastOffset := [], ZERO_OFFSET;
    }

    method AppendLog(item: Logged)
      modifies this
      ensures logs == old(logs) + [item] && lastOffset == item.Offset()
    {
      logs := logs + [item];
      lastOffset := item.Offset();
    }

    method FindLogByBinlogOffset(offset: LogOffset) returns (k: int)
      ensures k == Find(logs, offset)
    {
      var i := 0;
      assert logs[0..] == logs;
      while i < |logs|
        invariant 0 <= i <= |logs|
        invariant Find(logs, offset) == if Find(logs[i..], offset) < 0 then -1 else i + Find(logs[i..], offset)
      {
        assert logs[i..][0] == logs[i] && logs[i..][1..] == logs[i + 1..];
        if offset.Less(logs[i].Offset()) {
          return -1;
        }
        if logs[i].Offset().Same(offset) {
          return i;
        }
        i := i + 1;
      }
      k := -1;
    }

    /** Removes the entries up to and including the one at `offset`. */
    method PurgeLogs(offset: LogOffset) returns (ok: bool, taken: seq<Logged>)
      modifies this
      ensures ok <==> Find(old(logs), offset) >= 0
      ensures !ok ==> unchanged(this) && taken == []
      ensures
        var n := Find(old(logs), offset) + 1;
        taken == old(logs)[..n] && logs == old(logs)[n..]
      ensures taken + logs == old(logs) && lastOffset == old(lastOffset)
      ensures ok ==> taken != [] && taken[|taken| - 1].Offset().Same(offset)
    {
      var index := FindLogByBinlogOffset(offset);
      if index < 0 {
        return false, [];
      }
      ok, taken := true, logs[..index + 1];
      logs := logs[index + 1..];
    }

    /** Keeps the entries up to and including the one at `offset`. */
    method TruncateTo(offset: LogOffset) returns (ok: bool)
      modifies this
      ensures ok <==> Find(old(logs), offset) >= 0
      ensures !ok ==> unchanged(this)
      ensures ok ==> logs != [] && logs <= old(logs) && logs[|logs| - 1].Offset() == lastOffset && lastOffset.Same(offset)
      ensures ok ==> |logs| == Find(old(logs), offset) + 1
    {
      var index := FindLogByBinlogOffset(offset);
      if index < 0 {
        return false;
      }
      lastOffset := logs[index].Offset();
      logs := logs[..index + 1];
      ok := true;
    }

    method Reset(offset: LogOffset)
      modifies this
      ensures logs == [] && lastOffset == offset
    {
      logs, lastOffset := [], offset;
    }

    /** The entry with a logical index, if it is still held. */
    method FindLogItem(index: nat) returns (found: bool, offset: LogOffset)
      requires forall i, j | 0 <= i < j < |logs| :: logs[i].rec.index < logs[j].rec.index
      ensures found <==> exists k :: 0 <= k < |logs| && logs[k].rec.index == index
      ensures found ==> exists k :: 0 <= k < |logs| && logs[k].rec.index == index && offset == logs[k].Offset()
    {
      var i := 0;
      while i < |logs|
        invariant 0 <= i <= |logs|
        invariant forall k | 0 <= k < i :: logs[k].rec.index < index
      {
        if logs[i].rec.index > index {
          return false, ZERO_OFFSET;
        }
        if logs[i].rec.index == index {
          return true, logs[i].Offset();
        }
        i := i + 1;
      }
      found, offset := false, ZERO_OFFSET;
    }
  }

  /** Window items of entries that have just been handed over. */
  function Waiting(logs: seq<Logged>): (items: seq<WinItem>)
    ensures |items| == |logs|
    ensures forall k | 0 <= k < |logs| :: items[k] == WinItem(logs[k].Offset(), 0, false)
  {
    seq(|logs|, k requires 0 <= k < |logs| => WinItem(logs[k].Offset(), 0, false))
  }

  lemma NextWaiting(logs: seq<Logged>, i: nat)
    requires i < |logs|
    ensures logs[..i + 1] == logs[..i] + [logs[i]]
    ensures Waiting(logs[..i + 1]) == Waiting(logs[..i]) + [WinItem(logs[i].Offset(), 0, false)]
  {
  }

  /** The window and the applied index after the entry at `o` has finished. */
  function Finished(win: seq<WinItem>, applied: LogOffset, o: LogOffset): (seq<WinItem>, LogOffset) {
    if !RangeFound(win, o, o) then (win, applied)
    else
      var marked := Acknowledged(win, o, o);
      var n := AckedFront(marked);
      (marked[n..], if n > 0 && applied.Less(marked[n - 1].offset) then marked[n - 1].offset else applied)
  }

  class Context {
    var appliedIndex: LogOffset
    const window: Window

    constructor ()
      ensures appliedIndex == ZERO_OFFSET && window.win == [] && fresh(window)
    {
      appliedIndex := ZERO_OFFSET;
      window := new Window();
    }

    method PrepareUpdateAppliedIndex(offset: LogOffset)
      modifies window
      ensures window.win == old(window.win) + [WinItem(offset, 0, false)]
    {
      window.Push(WinItem(offset, 0, false));
    }

    method UpdateAppliedIndex(offset: LogOffset)
      modifies this, window
      ensures (window.win, appliedIndex) == Finished(old(window.win), old(appliedIndex), offset)
    {
      var _, cur := window.Update(offset, offset, ZERO_OFFSET);
      if appliedIndex.Less(cur) {
        appliedIndex := cur;
      }
    }
  }

  class Applier {
    const mem: Log
    const context: Context
    var handed: seq<Logged>  // tasks scheduled on the workers, in order

    constructor ()
      ensures mem.logs == [] && handed == [] && context.window.win == []
      ensures fresh(mem) && fresh(context) && fresh(context.window)
    {
      mem := new Log();
      context := new Context();
      handed := [];
    }

    /** The loop that gives entries to the workers one by one. */
    method HandOver(logs: seq<Logged>)
      modifies this`handed, context.window
      ensures handed == old(handed) + logs
      ensures context.window.win == old(context.window.win) + Waiting(logs)
    {
      ghost var handed0, win0 := handed, context.window.win;
      var i := 0;
      while i < |logs|
        invariant 0 <= i <= |logs|
        invariant handed == handed0 + logs[..i]
        invariant context.window.win == win0 + Waiting(logs[..i])
      {
        NextWaiting(logs, i);
        context.PrepareUpdateAppliedIndex(logs[i].Offset());
        handed := handed + [logs[i]];
        i := i + 1;
      }
      assert logs[..i] == logs;
    }

    /** Hands the entries up to the committed one to the workers, in log order. */
    method ScheduleApplyLog(committed: LogOffset) returns (ok: bool)
      modifies this, mem, context.window
      ensures ok <==> Find(old(mem.logs), committed) >= 0
      ensures mem.lastOffset == old(mem.lastOffset)
      ensures
        var n := Find(old(mem.logs), committed) + 1;
        && handed == old(handed) + old(mem.logs)[..n]
        && mem.logs == old(mem.logs)[n..]
        && context.window.win == old(context.window.win) + Waiting(old(mem.logs)[..n])
    {
      var logs;
      ok, logs := mem.PurgeLogs(committed);
      if !ok {
        return;
      }
      HandOver(logs);
    }
  }
}
