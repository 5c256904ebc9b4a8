/**
 The window of log entries sent to a follower (or handed to the appliers) and not
 yet acknowledged, in the order they were pushed. Acknowledgements come as ranges
 and may come in any order; the reported offset is the end of the acknowledged
 front of the window.
 */
module SyncWindow {
  import opened Offsets

  datatype WinItem = WinItem(offset: LogOffset, size: nat, acked: bool)

  /** Position of the last item at `offset`, -1 if there is none. */
  function LastIndexOf(win: seq<WinItem>, offset: LogOffset): (i: int)
    ensures -1 <= i < |win|
    ensures i >= 0 ==> win[i].offset.Same(offset)
    ensures forall j | i < j < |win| :: !win[j].offset.Same(offset)
  {
    if win == [] then -1
    else if win[|win| - 1].offset.Same(offset) then |win| - 1
    else LastIndexOf(win[..|win| - 1], offset)
  }

  /** Position of the first item at `offset`, the length of the window if there is none. */
  function FirstIndexOf(win: seq<WinItem>, offset: LogOffset): (i: nat)
    ensures i <= |win|
    ensures i < |win| ==> win[i].offset.Same(offset)
    ensures forall j | 0 <= j < i :: !win[j].offset.Same(offset)
  {
    if win == [] then 0
    else if win[0].offset.Same(offset) then 0
    else 1 + FirstIndexOf(win[1..], offset)
  }

  /** The items from `first` to `last` are marked acknowledged. */
  function Marked(win: seq<WinItem>, first: nat, last: nat): (win': seq<WinItem>)
    ensures |win'| == |win|
  {
    seq(|win|, i requires 0 <= i < |win| => if first <= i <= last then win[i].(acked := true) else win[i])
  }

  /** Length of the acknowledged front. */
  function AckedFront(win: seq<WinItem>): (n: nat)
    ensures n <= |win|
    ensures forall i | 0 <= i < n :: win[i].acked
    ensures n < |win| ==> !win[n].acked
  {
    if win == [] || !win[0].acked then 0 else 1 + AckedFront(win[1..])
  }

  function Sizes(win: seq<WinItem>): nat {
    if win == [] then 0 else win[0].size + Sizes(win[1..])
  }

  /** The range an acknowledgement names; it is refused unless its end is in the
      window and its start is there at or before that end. */
  predicate RangeFound(win: seq<WinItem>, start: LogOffset, end: LogOffset) {
    var last := FirstIndexOf(win, end);
    last < |win| && LastIndexOf(win[..last + 1], start) >= 0
  }

  /** The window after an acknowledgement: its marks set and its front removed. */
  function Acknowledged(win: seq<WinItem>, start: LogOffset, end: LogOffset): seq<WinItem>
    requires RangeFound(win, start, end)
  {
    var last := FirstIndexOf(win, end);
    Marked(win, LastIndexOf(win[..last + 1], start), last)
  }

  /** `j` is the first item at `end`, `i` the last one at `start` not after it. */
  ghost predicate Spans(win: seq<WinItem>, start: LogOffset, end: LogOffset, i: int, j: int) {
    && 0 <= i <= j < |win| && win[i].offset.Same(start) && win[j].offset.Same(end)
    && (forall k | 0 <= k < j :: !win[k].offset.Same(end))
    && (forall k | i < k <= j :: !win[k].offset.Same(start))
  }

  lemma MarkedAt(win: seq<WinItem>, first: nat, last: nat, i: nat)
    requires i < |win|
    ensures Marked(win, first, last)[i] == WinItem(win[i].offset, win[i].size, win[i].acked || first <= i <= last)
  {
  }

  /** An acknowledgement is accepted exactly when it names a range, and then it marks that
      range and nothing else. */
  lemma RangeNamed(win: seq<WinItem>, start: LogOffset, end: LogOffset)
    ensures RangeFound(win, start, end) <==> exists i, j :: Spans(win, start, end, i, j)
    ensures forall i, j | Spans(win, start, end, i, j) :: Acknowledged(win, start, end) == Marked(win, i, j)
  {
    var last := FirstIndexOf(win, end);
    if last < |win| {
      var first := LastIndexOf(win[..last + 1], start);
      assert forall k | 0 <= k <= last :: win[..last + 1][k] == win[k];
      assert first >= 0 ==> Spans(win, start, end, first, last);
      assert forall i, j | Spans(win, start, end, i, j) :: j == last && i == first;
    }
  }

  class Window {
    var win: seq<WinItem>
    var totalSize: int

    constructor ()
      ensures win == [] && totalSize == 0
    {
      win, totalSize := [], 0;
    }

    method Push(item: WinItem)
      modifies this
      ensures win == old(win) + [item] && totalSize == old(totalSize) + item.size
    {
      win := win + [item];
      totalSize := totalSize + item.size;
    }

    /** First loop of `Update`: looks for both ends of the range. */
    method FindRange(start: LogOffset, end: LogOffset) returns (startPos: nat, endPos: nat)
      ensures startPos <= |win| && endPos <= |win|
      ensures startPos < |win| && endPos < |win| <==> RangeFound(win, start, end)
      ensures RangeFound(win, start, end) ==>
                endPos == FirstIndexOf(win, end) && startPos == LastIndexOf(win[..endPos + 1], start)
    {
      startPos, endPos := |win|, |win|;
      var i := 0;
      while i < |win|
        invariant 0 <= i <= |win| && endPos == |win|
        invariant forall j | 0 <= j < i :: !win[j].offset.Same(end)
        invariant startPos == if LastIndexOf(win[..i], start) >= 0 then LastIndexOf(win[..i], start) else |win|
      {
        assert win[..i + 1][..i] == win[..i];
        if win[i].offset.Same(start) {
          startPos := i;
        }
        if win[i].offset.Same(end) {
          endPos := i;
          break;
        }
        i := i + 1;
      }
      assert endPos == FirstIndexOf(win, end);
    }

    /** Second loop of `Update`: marks the range and takes its sizes off the total. */
    method MarkRange(startPos: nat, endPos: nat)
      requires startPos <= endPos < |win|
      modifies this
      ensures win == Marked(old(win), startPos, endPos)
      ensures totalSize == old(totalSize) - Sizes(old(win)[startPos..endPos + 1])
    {
      ghost var range := win[startPos..endPos + 1];
      var i := startPos;
      while i <= endPos
        invariant startPos <= i <= endPos + 1
        invariant |win| == |old(win)|
        invariant forall j | 0 <= j < |win| :: win[j] == if startPos <= j < i then old(win)[j].(acked := true) else old(win)[j]
        invariant totalSize - Sizes(range[i - startPos..]) == old(totalSize) - Sizes(range)
      {
        assert range[i - startPos..][0] == old(win)[i];
        assert range[i - startPos..][1..] == range[i + 1 - startPos..];
        totalSize := totalSize - win[i].size;
        win := win[i := win[i].(acked := true)];
        i := i + 1;
      }
      assert range[endPos + 1 - startPos..] == [];
    }

    /** Third loop of `Update`: removes the acknowledged front. */
    method PopFront(acked: LogOffset) returns (acked': LogOffset)
      modifies this`win
      ensures
        var n := AckedFront(old(win));
        win == old(win)[n..] && acked' == if n == 0 then acked else old(win)[n - 1].offset
    {
      acked' := acked;
      ghost var n, k := AckedFront(win), 0;
      while win != []
        invariant k <= n && win == old(win)[k..]
        invariant acked' == if k == 0 then acked else old(win)[k - 1].offset
      {
        if win[0].acked {
          acked' := win[0].offset;
          win := win[1..];
          k := k + 1;
        } else {
          break;
        }
      }
    }

    /** Marks a range and removes the acknowledged front; `acked` becomes the offset
        of the last item removed. */
    method Update(start: LogOffset, end: LogOffset, acked: LogOffset) returns (ok: bool, acked': LogOffset)
      modifies this
      ensures ok <==> old(RangeFound(win, start, end))
      ensures !ok ==> unchanged(this) && acked' == acked
      ensures ok ==>
                var marked := Acknowledged(old(win), start, end);
                var n := AckedFront(marked);
                && win == marked[n..]
                && acked' == if n == 0 then acked else marked[n - 1].offset
      ensures ok ==>
                var last := FirstIndexOf(old(win), end);
                var first := LastIndexOf(old(win)[..last + 1], start);
                totalSize == old(totalSize) - Sizes(old(win)[first..last + 1])
    {
      var startPos, endPos := FindRange(start, end);
      if startPos == |win| || endPos == |win| {
        return false, acked;
      }
      MarkRange(startPos, endPos);
      ghost var marked := win;
      assert marked == Acknowledged(old(win), start, end);
      acked' := PopFront(acked);
      assert win == marked[AckedFront(marked)..];
      ok := true;
    }
  }

  /** The running total means the size of what is not yet acknowledged. */
  function UnackedSizes(win: seq<WinItem>): nat {
    if win == [] then 0 else (if win[0].acked then 0 else win[0].size) + UnackedSizes(win[1..])
  }

  /** Size of the items of a range that carry a mark already. */
  function AckedSizes(win: seq<WinItem>): nat {
    if win == [] then 0 else (if win[0].acked then win[0].size else 0) + AckedSizes(win[1..])
  }

  lemma {:induction false} UnackedSplit(a: seq<WinItem>, b: seq<WinItem>)
    ensures UnackedSizes(a + b) == UnackedSizes(a) + UnackedSizes(b)
  {
    if a == [] {
      assert a + b == b;
    } else {
      assert (a + b)[1..] == a[1..] + b;
      UnackedSplit(a[1..], b);
    }
  }

  lemma {:induction false} AckedCountsNothing(win: seq<WinItem>)
    requires forall i | 0 <= i < |win| :: win[i].acked
    ensures UnackedSizes(win) == 0
  {
    if win != [] {
      AckedCountsNothing(win[1..]);
    }
  }

  lemma {:induction false} SizesSplit(win: seq<WinItem>)
    ensures Sizes(win) == UnackedSizes(win) + AckedSizes(win)
  {
    if win != [] {
      SizesSplit(win[1..]);
    }
  }

  lemma MiddleCounts(pre: seq<WinItem>, mid: seq<WinItem>, post: seq<WinItem>)
    ensures UnackedSizes(pre + mid + post) == UnackedSizes(pre) + UnackedSizes(mid) + UnackedSizes(post)
  {
    UnackedSplit(pre + mid, post);
    UnackedSplit(pre, mid);
  }

  lemma MarkedParts(win: seq<WinItem>, first: nat, last: nat) returns (mid': seq<WinItem>)
    requires first <= last < |win|
    ensures win == win[..first] + win[first..last + 1] + win[last + 1..]
    ensures Marked(win, first, last) == win[..first] + mid' + win[last + 1..]
    ensures forall i | 0 <= i < |mid'| :: mid'[i].acked
  {
    mid' := Marked(win, first, last)[first..last + 1];
  }

  /** Marking a range takes its unacknowledged sizes out of the meaning of the total. */
  lemma MarkedSizes(win: seq<WinItem>, first: nat, last: nat)
    requires first <= last < |win|
    ensures UnackedSizes(Marked(win, first, last)) == UnackedSizes(win) - UnackedSizes(win[first..last + 1])
  {
    var mid' := MarkedParts(win, first, last);
    MiddleCounts(win[..first], win[first..last + 1], win[last + 1..]);
    MiddleCounts(win[..first], mid', win[last + 1..]);
    AckedCountsNothing(mid');
  }

  /** An accepted acknowledgement keeps the running total equal to the size of what is
      unacknowledged exactly when its range holds no marked item of positive size:
      a range acknowledged twice is subtracted twice. */
  lemma TotalStaysExact(win: seq<WinItem>, start: LogOffset, end: LogOffset, total: int)
    requires RangeFound(win, start, end) && total == UnackedSizes(win)
    ensures
      var last := FirstIndexOf(win, end);
      var first := LastIndexOf(win[..last + 1], start);
      var marked := Acknowledged(win, start, end);
      var left := marked[AckedFront(marked)..];
      total - Sizes(win[first..last + 1]) == UnackedSizes(left) <==> AckedSizes(win[first..last + 1]) == 0
  {
    var last := FirstIndexOf(win, end);
    var first := LastIndexOf(win[..last + 1], start);
    var marked := Acknowledged(win, start, end);
    var n := AckedFront(marked);
    MarkedSizes(win, first, last);
    SizesSplit(win[first..last + 1]);
    assert marked == marked[..n] + marked[n..];
    UnackedSplit(marked[..n], marked[n..]);
    AckedCountsNothing(marked[..n]);
  }

  /* ---------- what the marks mean ---------- */

  ghost predicate ItemsIn(win: seq<WinItem>, all: iset<LogOffset>) {
    forall k | 0 <= k < |win| :: win[k].offset in all
  }

  ghost predicate MarkedTo(win: seq<WinItem>, k: int, q: int) {
    0 <= k <= q < |win| && forall j | k <= j <= q :: win[j].acked
  }

  /** From item `k` on, the marks run to an item of `held`. */
  ghost predicate LeadsTo(win: seq<WinItem>, k: int, held: iset<LogOffset>) {
    exists q :: MarkedTo(win, k, q) && win[q].offset in held
  }

  /** The marks of every marked item run to an item of `held`. */
  ghost predicate MarksHeld(win: seq<WinItem>, held: iset<LogOffset>) {
    forall k {:trigger LeadsTo(win, k, held)} | 0 <= k < |win| :: win[k].acked ==> LeadsTo(win, k, held)
  }

  lemma MarksGrow(win: seq<WinItem>, held: iset<LogOffset>, held': iset<LogOffset>)
    requires MarksHeld(win, held) && held <= held'
    ensures MarksHeld(win, held')
  {
    forall k | 0 <= k < |win| && win[k].acked
      ensures LeadsTo(win, k, held')
    {
      assert LeadsTo(win, k, held);
      var q :| MarkedTo(win, k, q) && win[q].offset in held;
    }
  }

  lemma MarksPush(win: seq<WinItem>, items: seq<WinItem>, held: iset<LogOffset>)
    requires MarksHeld(win, held) && forall k | 0 <= k < |items| :: !items[k].acked
    ensures MarksHeld(win + items, held)
  {
    forall k | 0 <= k < |win + items| && (win + items)[k].acked
      ensures LeadsTo(win + items, k, held)
    {
      assert win[k].acked;
      assert LeadsTo(win, k, held);
      var q :| MarkedTo(win, k, q) && win[q].offset in held;
      assert MarkedTo(win + items, k, q);
    }
  }

  /** A range that ends in an item of `held` may be marked, whatever lies before its end. */
  lemma MarksMark(win: seq<WinItem>, first: nat, last: nat, held: iset<LogOffset>)
    requires MarksHeld(win, held) && first <= last < |win| && win[last].offset in held
    ensures MarksHeld(Marked(win, first, last), held)
  {
    var marked := Marked(win, first, last);
    forall k | 0 <= k < |marked| && marked[k].acked
      ensures LeadsTo(marked, k, held)
    {
      if first <= k <= last {
        assert MarkedTo(marked, k, last);
      } else {
        assert LeadsTo(win, k, held);
        var q :| MarkedTo(win, k, q) && win[q].offset in held;
        assert MarkedTo(marked, k, q);
      }
    }
  }

  /** The acknowledged front ends in an item of `held`. */
  lemma FrontHeld(win: seq<WinItem>, n: nat, held: iset<LogOffset>)
    requires MarksHeld(win, held) && 0 < n <= |win| && win[n - 1].acked && (n < |win| ==> !win[n].acked)
    ensures win[n - 1].offset in held
  {
    assert LeadsTo(win, n - 1, held);
    var q :| MarkedTo(win, n - 1, q) && win[q].offset in held;
  }

  lemma MarksDrop(win: seq<WinItem>, n: nat, rest: seq<WinItem>, held: iset<LogOffset>)
    requires MarksHeld(win, held) && n <= |win| && rest == win[n..]
    ensures MarksHeld(rest, held)
  {
    forall k | 0 <= k < |rest| && rest[k].acked
      ensures LeadsTo(rest, k, held)
    {
      assert LeadsTo(win, n + k, held);
      var q :| MarkedTo(win, n + k, q) && win[q].offset in held;
      forall j | k <= j <= q - n
        ensures rest[j].acked
      {
        assert rest[j] == win[n + j];
      }
      assert MarkedTo(rest, k, q - n) && rest[q - n] == win[q];
    }
  }

  /** An accepted acknowledgement that ends in an item of `held` moves the acknowledged
      offset, if at all, to an item of `held`. */
  lemma AcknowledgedHeld(win: seq<WinItem>, start: LogOffset, end: LogOffset, held: iset<LogOffset>)
    requires RangeFound(win, start, end) && MarksHeld(win, held)
    requires win[FirstIndexOf(win, end)].offset in held
    ensures
      var marked := Acknowledged(win, start, end);
      var n := AckedFront(marked);
      MarksHeld(marked[n..], held) && (n > 0 ==> marked[n - 1].offset in held)
  {
    var last := FirstIndexOf(win, end);
    MarksMark(win, LastIndexOf(win[..last + 1], start), last, held);
    var marked := Acknowledged(win, start, end);
    var n := AckedFront(marked);
    MarksDrop(marked, n, marked[n..], held);
    if n > 0 {
      FrontHeld(marked, n, held);
    }
  }

  /** The same range acknowledged twice, while an item before it is open: the total is then
      too small by the size of the range. */
  lemma AcknowledgedTwice(a: LogOffset, b: LogOffset, x: nat, y: nat)
    requires !a.Same(b) && y > 0
    ensures
      var once := [WinItem(a, x, false), WinItem(b, y, true)];
      && RangeFound(once, b, b) && Acknowledged(once, b, b) == once
      && AckedFront(once) == 0 && UnackedSizes(once) == x
      && x - Sizes(once[FirstIndexOf(once, b)..FirstIndexOf(once, b) + 1]) == UnackedSizes(once) - y
  {
    var once := [WinItem(a, x, false), WinItem(b, y, true)];
    assert once[1..] == [WinItem(b, y, true)] && once[1..][1..] == [];
    assert FirstIndexOf(once, b) == 1 && once[..2] == once;
    assert LastIndexOf(once, b) == 1;
    assert once[1..2] == [WinItem(b, y, true)] && once[1..2][1..] == [];
    assert UnackedSizes(once[1..]) == 0;
  }
}
