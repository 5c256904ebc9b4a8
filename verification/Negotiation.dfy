/**
 How a follower and its leader agree where to resume. The follower names its last
 offset; the leader accepts it, asks for a full synchronisation, or rejects it with
 the offsets of some of its own entries as hints; the follower then cuts its log back
 by the hints and asks again.
 */
module Negotiation {
  import opened BinlogHistory
  import opened Offsets
  import opened Options
  import opened ReplicatedLog
  import opened IndexSearch
  import MemLog

  const MAX_HINTS: nat := 100

  datatype Reply = Accept | Reject(hints: seq<LogOffset>) | NeedFullSync | LeaderFails

  /** The log has an entry with this index. */
  predicate HasIndex(base: LogOffset, log: seq<Logged>, index: nat) {
    base.l.index < index <= base.l.index + |log|
  }

  /** The entry with this index. */
  function EntryAt(base: LogOffset, log: seq<Logged>, index: nat): Logged
    requires HasIndex(base, log, index)
  {
    log[index - base.l.index - 1]
  }

  function OffsetsOf(log: seq<Logged>, i: nat, n: nat): (os: seq<LogOffset>)
    requires i <= n <= |log|
    ensures |os| == n - i
    ensures forall j | 0 <= j < |os| :: os[j] == log[i + j].Offset()
    decreases n - i
  {
    if i == n then [] else [log[i].Offset()] + OffsetsOf(log, i + 1, n)
  }

  /* ---------- the leader ---------- */

  /** Hints before the end of entry `n - 1` begin in the file before it, if there is
      one, and are at most a hundred. */
  function HintStart(log: seq<Logged>, n: nat): (k: nat)
    requires 0 < n <= |log|
  {
    var f := log[n - 1].end.filenum;
    var k := FirstOf(log, if f > 0 && LowFile(log) <= f - 1 then f - 1 else f);
    if k < n - MAX_HINTS then n - MAX_HINTS else k
  }

  /** The hints end with entry `n - 1`, and have an entry before it if there is one. */
  lemma HintRange(limit: nat, base: LogOffset, log: seq<Logged>, n: nat)
    requires WellPlaced(limit, base, log) && 0 < n <= |log|
    ensures HintStart(log, n) < n
    ensures n > 1 ==> HintStart(log, n) < n - 1
  {
    var f := log[n - 1].end.filenum;
    var g := if f > 0 && LowFile(log) <= f - 1 then f - 1 else f;
    assert FirstOf(log, g) <= n - 1;
    if n > 1 {
      PlacedInOrder(limit, base, log, n - 2, n - 1);
      if n > 2 {
        PlacedInOrder(limit, base, log, 0, n - 2);
      }
    }
  }

  function Hints(log: seq<Logged>, n: nat): seq<LogOffset>
    requires n <= |log|
  {
    if n == 0 || HintStart(log, n) > n then [] else OffsetsOf(log, HintStart(log, n), n)
  }

  /** The leader's answer to a follower whose last offset is `f`. */
  function LeaderReply(base: LogOffset, log: seq<Logged>, first: nat, f: LogOffset): Reply {
    if f.l.index > LastOffset(base, log).l.index then Reject(Hints(log, |log|))
    else if f.l.index < first then NeedFullSync
    else if f.l.index == 0 then Accept
    else if log == [] then LeaderFails
    else if !HasIndex(base, log, f.l.index) then NeedFullSync
    else
      var e := EntryAt(base, log, f.l.index);
      if e.rec.term != f.l.term || f.b != e.end then Reject(Hints(log, f.l.index - base.l.index)) else Accept
  }

  /** A scan that stops at the first entry past the end of entry `n - 1` stops at `n`. */
  lemma ScanEnds(limit: nat, base: LogOffset, log: seq<Logged>, n: nat, k: nat, m: nat)
    requires WellPlaced(limit, base, log) && k < n <= |log| && k <= m <= |log|
    requires forall i | k <= i < m :: log[i].end.AtMost(log[n - 1].end)
    requires m < |log| ==> log[n - 1].end.Less(log[m].end)
    ensures m == n
  {
    if m < |log| {
      OffsetUnique(limit, base, log, m + 1, n);
    }
    if m > n {
      OffsetUnique(limit, base, log, n + 1, n);
    }
  }

  lemma SameOffsets(os: seq<LogOffset>, log: seq<Logged>, i: nat, n: nat)
    requires i <= n <= |log| && |os| == n - i && forall j | 0 <= j < |os| :: os[j] == log[i + j].Offset()
    ensures os == OffsetsOf(log, i, n)
  {
  }

  method GetLogsBefore(log: seq<Logged>, n: nat, ghost limit: nat, ghost base: LogOffset) returns (hints: seq<LogOffset>)
    requires WellPlaced(limit, base, log) && n <= |log|
    ensures hints == Hints(log, n)
  {
    if n == 0 {
      return [];
    }
    var end := log[n - 1].end;
    var start := if end.filenum == 0 then 0 else end.filenum - 1;
    if start < LowFile(log) {
      start := end.filenum;
    }
    HintRange(limit, base, log, n);
    var _, offsets, m := GetBinlogOffsets(log, start, end, false);
    ghost var k := FirstOf(log, start);
    forall i | k <= i < m
      ensures log[i].end.AtMost(end)
    {
      assert offsets[i - k] == log[i].Offset();
    }
    ScanEnds(limit, base, log, n, k, m);
    hints := if |offsets| > MAX_HINTS then offsets[|offsets| - MAX_HINTS..] else offsets;
    SameOffsets(hints, log, HintStart(log, n), n);
  }

  lemma HintFiles(limit: nat, base: LogOffset, log: seq<Logged>, n: nat, j: nat)
    requires WellPlaced(limit, base, log) && 0 < n <= |log| && HintStart(log, n) <= j < n
    ensures log[n - 1].end.filenum <= log[j].end.filenum + 1
  {
    var f := log[n - 1].end.filenum;
    var first := FirstOf(log, if f > 0 && LowFile(log) <= f - 1 then f - 1 else f);
    if first < j {
      PlacedInOrder(limit, base, log, first, j);
    }
  }

  lemma BeforeHints(limit: nat, base: LogOffset, log: seq<Logged>, n: nat)
    requires WellPlaced(limit, base, log) && 0 < n <= |log| && 0 < HintStart(log, n) < n
    ensures
      var k := HintStart(log, n);
      n - k == MAX_HINTS || log[k - 1].end.filenum + 1 < log[n - 1].end.filenum
  {
    var k := HintStart(log, n);
    if k > 1 {
      PlacedInOrder(limit, base, log, 0, k - 1);
    }
  }

  /** The hints are consecutive entries that end with entry `n - 1`, at most a hundred;
      they reach back to the start of the file before the one it ends in, if they can. */
  lemma HintsReach(limit: nat, base: LogOffset, log: seq<Logged>, n: nat)
    requires WellPlaced(limit, base, log) && 0 < n <= |log|
    ensures
      var k := n - |Hints(log, n)|;
      && 0 <= k < n && |Hints(log, n)| <= MAX_HINTS && Hints(log, n) == OffsetsOf(log, k, n)
      && (forall j | k <= j < n :: log[n - 1].end.filenum <= log[j].end.filenum + 1)
      && (k > 0 ==> |Hints(log, n)| == MAX_HINTS || log[k - 1].end.filenum + 1 < log[n - 1].end.filenum)
  {
    HintRange(limit, base, log, n);
    var k := HintStart(log, n);
    forall j | k <= j < n
      ensures log[n - 1].end.filenum <= log[j].end.filenum + 1
    {
      HintFiles(limit, base, log, n, j);
    }
    if k > 0 {
      BeforeHints(limit, base, log, n);
    }
  }

  /** The log has an entry with exactly this offset: position, term and index. */
  ghost predicate HasOffset(log: seq<Logged>, o: LogOffset) {
    exists k :: 0 <= k < |log| && log[k].Offset() == o
  }

  /** The log has an entry of this index, with another term or position. */
  ghost predicate HasOther(log: seq<Logged>, o: LogOffset) {
    exists k :: 0 <= k < |log| && log[k].rec.index == o.l.index && log[k].Offset() != o
  }

  /** Exactly when each answer is given. */
  ghost predicate Decides(base: LogOffset, log: seq<Logged>, first: nat, f: LogOffset, reply: Reply) {
    var last := base.l.index + |log|;
    && (reply == Accept <==> first <= f.l.index <= last && (f.l.index == 0 || HasOffset(log, f)))
    && (reply == NeedFullSync <==> f.l.index <= last && (f.l.index < first || (log != [] && 0 < f.l.index <= base.l.index)))
    && (reply == LeaderFails <==> first <= f.l.index <= last && f.l.index != 0 && log == [])
    && (reply.Reject? <==> f.l.index > last || (first <= f.l.index && HasOther(log, f)))
  }

  lemma ReplyDecides(limit: nat, base: LogOffset, log: seq<Logged>, first: nat, f: LogOffset)
    requires WellPlaced(limit, base, log)
    ensures Decides(base, log, first, f, LeaderReply(base, log, first, f))
  {
    OffsetsIncrease(limit, base, log, 0, |log|);
    forall k | 0 <= k < |log|
      ensures log[k].rec.index == base.l.index + 1 + k
    {
      assert Placed(limit, base, log, k);
    }
    if HasIndex(base, log, f.l.index) {
      var e := EntryAt(base, log, f.l.index);
      assert e.Offset() == f <==> e.rec.term == f.l.term && e.end == f.b;
      assert HasOffset(log, f) <==> e.Offset() == f;
      assert HasOther(log, f) <==> e.Offset() != f;
    }
  }

  method LeaderNegotiate(log: seq<Logged>, first: nat, f: LogOffset, probe: Option<nat>, ghost limit: nat, base: LogOffset)
      returns (reply: Reply)
    requires WellPlaced(limit, base, log) && (probe.Some? ==> probe.value < |log|)
    ensures reply == LeaderReply(base, log, first, f)
    ensures Decides(base, log, first, f, reply)
  {
    ReplyDecides(limit, base, log, first, f);
    OffsetsIncrease(limit, base, log, 0, |log|);
    if f.l.index > LastOffset(base, log).l.index {
      var hints := GetLogsBefore(log, |log|, limit, base);
      return Reject(hints);
    }
    if f.l.index < first {
      return NeedFullSync;
    }
    if f.l.index == 0 {
      return Accept;
    }
    PlacedIsOrdered(limit, base, log);
    var r := FindLogicOffset(log, f.b, probe, f.l.index, false);
    FoundAt(limit, base, log, f.l.index, r);
    if !r.Found? {
      return if r == NotFound then NeedFullSync else LeaderFails;
    }
    if r.offset.l.term != f.l.term || f.b != r.offset.b {
      var hints := GetLogsBefore(log, f.l.index - base.l.index, limit, base);
      return Reject(hints);
    }
    reply := Accept;
  }

  /** What a search by index finds is the entry at that index. */
  lemma FoundAt(limit: nat, base: LogOffset, log: seq<Logged>, index: nat, r: Search)
    requires WellPlaced(limit, base, log) && Finds(log, index, r) && (r == Failed ==> log == [])
    ensures r.Found? <==> HasIndex(base, log, index)
    ensures r.Found? ==> r.offset == EntryAt(base, log, index).Offset()
  {
    if HasIndex(base, log, index) {
      assert Placed(limit, base, log, index - base.l.index - 1);
    }
    if r.Found? {
      var k :| 0 <= k < |log| && log[k].rec.index == index && r.offset == log[k].Offset();
      assert Placed(limit, base, log, k);
    }
  }

  /* ---------- the follower ---------- */

  /** Cuts a log with `m` committed entries back to the entry with `index`, and says
      whether that could be done. */
  function CutTo(base: LogOffset, log: seq<Logged>, m: nat, index: nat): (r: (seq<Logged>, bool))
    requires m <= |log|
    ensures r.0 <= log && |r.0| >= m
  {
    if HasIndex(base, log, index) && index >= base.l.index + m then (log[..index - base.l.index], true) else (log, false)
  }

  /** The walk over the hints `hints[..i]`, from the last one back. The memory log, in
      which entries are looked up, starts after `low` of them; committed entries may be
      in it, waiting to be handed over. */
  function Walk(base: LogOffset, log: seq<Logged>, m: nat, low: nat, hints: seq<LogOffset>, i: nat): (r: (seq<Logged>, bool))
    requires m <= |log| && i <= |hints| && hints != []
    ensures r.0 <= log && |r.0| >= m
  {
    if i == 0 then CutTo(base, log, m, hints[0].l.index)
    else
      var h, c := hints[i - 1].l, OffsetBefore(base, log, m).l;
      if h.index < c.index then (log, false)
      else if h == c then CutTo(base, log, m, h.index)
      else if !HasIndex(base, log, h.index) || h.index <= base.l.index + low then (log, false)
      else if EntryAt(base, log, h.index).rec.term == h.term then CutTo(base, log, m, h.index)
      else Walk(base, log, m, low, hints, i - 1)
  }

  /** Where the memory log starts after a cut: at the commit index it is emptied. */
  function LowAfter(base: LogOffset, m: nat, low: nat, index: nat): nat {
    if index == base.l.index + m then m else low
  }

  /** The follower's log after a rejection with hints, and whether it asks again. What
      is committed always stays. */
  function Settle(base: LogOffset, log: seq<Logged>, m: nat, low: nat, hints: seq<LogOffset>): (r: (seq<Logged>, bool))
    requires m <= |log|
    ensures r.0 <= log && |r.0| >= m
  {
    if hints == [] then (log, false)
    else
      var end := hints[|hints| - 1].l.index;
      var last := LastOffset(base, log).l.index;
      if last < hints[0].l.index then (log, true)
      else if OffsetBefore(base, log, m).l.index > end then (log, false)
      else if last > end then
        var (log', ok) := CutTo(base, log, m, end);
        if ok then Walk(base, log', m, LowAfter(base, m, low, end), hints, |hints|) else (log', false)
      else Walk(base, log, m, low, hints, |hints|)
  }

  /** Whatever the hints, a follower that asks again was behind all of them, or ends at
      the index of one of them: with that hint's term, or at the first hint. */
  ghost predicate EndsAt(hints: seq<LogOffset>, last: LogOffset) {
    exists i :: 0 <= i < |hints| && hints[i].l.index == last.l.index && (hints[i].l.term == last.l.term || i == 0)
  }

  lemma {:induction false} WalkEndsAtHint(limit: nat, base: LogOffset, log: seq<Logged>, m: nat, low: nat, hints: seq<LogOffset>, i: nat)
    requires WellPlaced(limit, base, log) && m <= |log| && i <= |hints| && hints != []
    requires Walk(base, log, m, low, hints, i).1
    ensures EndsAt(hints, LastOffset(base, Walk(base, log, m, low, hints, i).0))
  {
    var r := Walk(base, log, m, low, hints, i).0;
    OffsetsIncrease(limit, base, log, 0, |r|);
    OffsetsIncrease(limit, base, log, 0, m);
    assert LastOffset(base, r) == OffsetBefore(base, log, |r|);
    if i > 0 {
      var h := hints[i - 1].l;
      if h == OffsetBefore(base, log, m).l || EntryAt(base, log, h.index).rec.term == h.term {
        assert hints[i - 1].l == LastOffset(base, r).l;
      } else {
        WalkEndsAtHint(limit, base, log, m, low, hints, i - 1);
      }
    }
  }

  lemma SettleEndsAtHint(limit: nat, base: LogOffset, log: seq<Logged>, m: nat, low: nat, hints: seq<LogOffset>)
    requires WellPlaced(limit, base, log) && m <= |log| && Settle(base, log, m, low, hints).1
    ensures
      var log' := Settle(base, log, m, low, hints).0;
      (log' == log && LastOffset(base, log).l.index < hints[0].l.index) || EndsAt(hints, LastOffset(base, log'))
  {
    var end := hints[|hints| - 1].l.index;
    if LastOffset(base, log).l.index >= hints[0].l.index {
      if LastOffset(base, log).l.index > end {
        PrefixPlaced(limit, base, log, end - base.l.index);
        WalkEndsAtHint(limit, base, log[..end - base.l.index], m, LowAfter(base, m, low, end), hints, |hints|);
      } else {
        WalkEndsAtHint(limit, base, log, m, low, hints, |hints|);
      }
    }
  }

  /** Whatever the hints: a follower behind all of them asks again with its log as it is;
      without hints, or with hints that end before its commit index, it gives up. */
  lemma SettleOutside(base: LogOffset, log: seq<Logged>, m: nat, low: nat, hints: seq<LogOffset>)
    requires m <= |log|
    ensures hints == [] ==> Settle(base, log, m, low, hints) == (log, false)
    ensures hints != [] && LastOffset(base, log).l.index < hints[0].l.index ==> Settle(base, log, m, low, hints) == (log, true)
    ensures
      && hints != [] && LastOffset(base, log).l.index >= hints[0].l.index
      && hints[|hints| - 1].l.index < OffsetBefore(base, log, m).l.index ==>
        Settle(base, log, m, low, hints) == (log, false)
  {
  }

  class FollowerLog {
    const limit: nat
    const base: LogOffset
    var log: seq<Logged>
    var committed: LogOffset
    const mem: MemLog.Log
    ghost var m: nat    // committed entries
    ghost var low: nat  // entries handed over, or dropped from memory

    /** The memory log holds what is not committed, and what is but still waits. */
    ghost predicate Valid()
      reads this, mem
    {
      && WellPlaced(limit, base, log) && low <= m <= |log|
      && committed == OffsetBefore(base, log, m)
      && mem.logs == log[low..] && mem.lastOffset == LastOffset(base, log)
    }

    constructor (limit: nat, base: LogOffset)
      ensures Valid() && log == [] && fresh(mem)
      ensures this.limit == limit && this.base == base
    {
      this.limit, this.base := limit, base;
      log, committed, m, low := [], base, 0, 0;
      mem := new MemLog.Log();
      new;
      mem.Reset(base);
    }

    /** Cuts both logs to the entry with the index, or neither. The negotiation never asks
        for less than the commit index; what is committed and waits would go with it. */
    method TruncateTo(o: LogOffset, probe: Option<nat>) returns (ok: bool)
      requires Valid() && (probe.Some? ==> probe.value < |log|)
      modifies this, mem
      ensures committed == old(committed) && m == old(m)
      ensures !(base.l.index + old(low) < o.l.index < base.l.index + m) ==>
                && Valid() && (log, ok) == CutTo(base, old(log), m, o.l.index)
                && low == if ok then LowAfter(base, m, old(low), o.l.index) else old(low)
      ensures base.l.index + old(low) < o.l.index < base.l.index + m ==> ok && log == old(log)[..o.l.index - base.l.index]
    {
      PlacedIsOrdered(limit, base, log);
      var r := FindLogicOffset(log, o.b, probe, o.l.index, false);
      FoundAt(limit, base, log, o.l.index, r);
      if !r.Found? {
        return false;
      }
      ok := CutMemory(r.offset, o.l.index - base.l.index);
      if ok {
        PrefixPlaced(limit, base, log, o.l.index - base.l.index);
        log := log[..o.l.index - base.l.index];
        low := LowAfter(base, m, low, o.l.index);
      }
    }

    /** Cuts the memory log back to the end of the first `n` entries. */
    method CutMemory(o: LogOffset, n: nat) returns (ok: bool)
      requires Valid() && 0 < n <= |log| && o == OffsetBefore(base, log, n)
      modifies mem
      ensures ok <==> n == m || n > low
      ensures ok ==> mem.logs == (if n == m then [] else log[..n][low..]) && mem.lastOffset == o
      ensures !ok ==> unchanged(mem)
    {
      OffsetsIncrease(limit, base, log, 0, m);
      OffsetsIncrease(limit, base, log, 0, n);
      if o.l.index == committed.l.index {
        mem.Reset(committed);
        ok := true;
      } else {
        MemLog.FindPlaced(limit, base, log, low, n);
        ok := mem.TruncateTo(o);
      }
    }

    method FindInMemory(index: nat) returns (found: bool, offset: LogOffset)
      requires Valid()
      ensures found <==> HasIndex(base, log, index) && index > base.l.index + low
      ensures found ==> offset == EntryAt(base, log, index).Offset() && offset.l.index == index
    {
      HeldInMemory(limit, base, log, low, index);
      found, offset := mem.FindLogItem(index);
    }

    /** Walks back over the hints for one the follower agrees with. */
    method WalkHints(hints: seq<LogOffset>, probe: Option<nat>) returns (ok: bool)
      requires Valid() && hints != [] && (probe.Some? ==> probe.value < |log|)
      modifies this, mem
      ensures Valid() && committed == old(committed) && m == old(m)
      ensures (log, ok) == Walk(base, old(log), m, old(low), hints, |hints|)
    {
      OffsetsIncrease(limit, base, log, 0, m);
      var i := |hints|;
      while i > 0
        invariant 0 <= i <= |hints| && Valid()
        invariant log == old(log) && committed == old(committed) && m == old(m) && low == old(low)
        invariant Walk(base, log, m, low, hints, |hints|) == Walk(base, log, m, low, hints, i)
        invariant i < |hints| ==> hints[i].l.index >= committed.l.index
      {
        var h := hints[i - 1];
        if h.l.index < committed.l.index {
          return false;
        }
        if h.l.index == committed.l.index && h.l.term == committed.l.term {
          ok := TruncateTo(h, probe);
          return;
        }
        var found, offset := FindInMemory(h.l.index);
        if !found {
          return false;
        }
        if offset.l.term == h.l.term {
          ok := TruncateTo(offset, probe);
          return;
        }
        i := i - 1;
      }
      ok := TruncateTo(hints[0], probe);
    }

    method FollowerNegotiate(hints: seq<LogOffset>, probe: Option<nat>) returns (ok: bool, reply: LogOffset)
      requires Valid() && (probe.Some? ==> probe.value < |log|)
      modifies this, mem
      ensures Valid() && committed == old(committed) && m == old(m)
      ensures (log, ok) == Settle(base, old(log), m, old(low), hints)
      ensures ok ==> reply == LastOffset(base, log)
    {
      reply := ZERO_OFFSET;
      OffsetsIncrease(limit, base, log, 0, m);
      if hints == [] {
        return false, reply;
      }
      var end := hints[|hints| - 1];
      if mem.lastOffset.l.index < hints[0].l.index {
        return true, mem.lastOffset;
      }
      if committed.l.index > end.l.index {
        return false, reply;
      }
      if mem.lastOffset.l.index > end.l.index {
        ok := TruncateTo(end, probe);
        if !ok {
          return;
        }
      }
      ok := WalkHints(hints, if probe.Some? && probe.value < |log| then probe else None);
      reply := mem.lastOffset;
    }
  }

  /** The memory log holds exactly the entries with an index past the commit index. */
  lemma HeldInMemory(limit: nat, base: LogOffset, log: seq<Logged>, m: nat, index: nat)
    requires WellPlaced(limit, base, log) && m <= |log|
    ensures forall i, j | 0 <= i < j < |log[m..]| :: log[m..][i].rec.index < log[m..][j].rec.index
    ensures (exists k :: 0 <= k < |log[m..]| && log[m..][k].rec.index == index) <==> HasIndex(base, log, index) && index > base.l.index + m
    ensures forall k | 0 <= k < |log[m..]| && log[m..][k].rec.index == index :: k == index - base.l.index - 1 - m
  {
    forall k | 0 <= k < |log[m..]|
      ensures log[m..][k].rec.index == base.l.index + 1 + m + k
    {
      assert Placed(limit, base, log, m + k);
    }
    if HasIndex(base, log, index) && index > base.l.index + m {
      assert log[m..][index - base.l.index - 1 - m].rec.index == index;
    }
  }

  /* ---------- what a negotiation keeps and where it ends ---------- */

  /** The leader has an entry with the same index and term. */
  predicate Shared(base: LogOffset, log: seq<Logged>, e: Logged) {
    HasIndex(base, log, e.rec.index) && EntryAt(base, log, e.rec.index).rec.term == e.rec.term
  }

  /** A leader's log and a follower's log with `m` committed entries; entries with the
      same index and term lie at the same position. */
  ghost predicate Peers(limit: nat, lbase: LogOffset, llog: seq<Logged>, fbase: LogOffset, flog: seq<Logged>, m: nat) {
    && WellPlaced(limit, lbase, llog) && WellPlaced(limit, fbase, flog) && m <= |flog|
    && forall i | 0 <= i < |flog| ::
         Shared(lbase, llog, flog[i]) ==> EntryAt(lbase, llog, flog[i].rec.index).end == flog[i].end
  }

  /** Index up to which the hints `hints[..i]` reach. */
  function Reach(hints: seq<LogOffset>, i: nat): nat
    requires i <= |hints| && hints != []
  {
    if i == 0 then hints[0].l.index else hints[i - 1].l.index
  }

  lemma PeersPrefix(limit: nat, lbase: LogOffset, llog: seq<Logged>, fbase: LogOffset, flog: seq<Logged>, flog': seq<Logged>, m: nat)
    requires Peers(limit, lbase, llog, fbase, flog, m) && flog' <= flog && m <= |flog'|
    ensures Peers(limit, lbase, llog, fbase, flog', m)
  {
    PrefixPlaced(limit, fbase, flog, |flog'|);
    assert flog[..|flog'|] == flog';
  }

  /** Entries from `from` on, up to the index `reach`, are none the leader has. */
  ghost predicate NoneShared(lbase: LogOffset, llog: seq<Logged>, flog: seq<Logged>, from: nat, reach: nat) {
    forall j | from <= j < |flog| && flog[j].rec.index <= reach :: !Shared(lbase, llog, flog[j])
  }

  /** An entry of another term at the next index is none the leader has either. */
  lemma NoneSharedNext(limit: nat, lbase: LogOffset, llog: seq<Logged>, fbase: LogOffset, flog: seq<Logged>, from: nat, reach: nat, e: Logged)
    requires WellPlaced(limit, lbase, llog) && WellPlaced(limit, fbase, flog)
    requires NoneShared(lbase, llog, flog, from, reach) && e.rec.index <= reach + 1
    requires HasIndex(lbase, llog, e.rec.index) && EntryAt(lbase, llog, e.rec.index) == e
    requires HasIndex(fbase, flog, e.rec.index) && EntryAt(fbase, flog, e.rec.index).rec.term != e.rec.term
    ensures NoneShared(lbase, llog, flog, from, e.rec.index)
  {
    forall j | from <= j < |flog| && flog[j].rec.index <= e.rec.index
      ensures !Shared(lbase, llog, flog[j])
    {
      assert Placed(limit, fbase, flog, j);
    }
  }

  /** No entry past the first `n` has an index up to the one of entry `n`. */
  lemma NoneBetween(limit: nat, lbase: LogOffset, llog: seq<Logged>, fbase: LogOffset, flog: seq<Logged>, n: nat)
    requires WellPlaced(limit, fbase, flog)
    ensures NoneShared(lbase, llog, flog, n, fbase.l.index + n)
  {
    forall j | n <= j < |flog|
      ensures flog[j].rec.index > fbase.l.index + n
    {
      assert Placed(limit, fbase, flog, j);
    }
  }

  /** Walking over the leader's own offsets from entry `k` to `n` removes only entries
      the leader does not have, and cuts back to within the hints. */
  lemma {:induction false} WalkKeepsShared(limit: nat, lbase: LogOffset, llog: seq<Logged>, fbase: LogOffset, flog: seq<Logged>, m: nat,
                                           low: nat, k: nat, n: nat, i: nat)
    requires Peers(limit, lbase, llog, fbase, flog, m) && k < n <= |llog| && i <= n - k
    requires Walk(fbase, flog, m, low, OffsetsOf(llog, k, n), i).1
    ensures
      var hints, flog' := OffsetsOf(llog, k, n), Walk(fbase, flog, m, low, OffsetsOf(llog, k, n), i).0;
      && fbase.l.index + |flog'| <= Reach(hints, i)
      && NoneShared(lbase, llog, flog, |flog'|, Reach(hints, i))
  {
    var hints := OffsetsOf(llog, k, n);
    var flog' := Walk(fbase, flog, m, low, hints, i).0;
    NoneBetween(limit, lbase, llog, fbase, flog, |flog'|);
    if i > 0 {
      assert Placed(limit, lbase, llog, k + i - 1);
      var h, c := hints[i - 1].l, OffsetBefore(fbase, flog, m).l;
      if h.index >= c.index && h != c && HasIndex(fbase, flog, h.index) && EntryAt(fbase, flog, h.index).rec.term != h.term {
        if i > 1 {
          assert Placed(limit, lbase, llog, k + i - 2);
        }
        WalkKeepsShared(limit, lbase, llog, fbase, flog, m, low, k, n, i - 1);
        NoneSharedNext(limit, lbase, llog, fbase, flog, |Walk(fbase, flog, m, low, hints, i - 1).0|, Reach(hints, i - 1), llog[k + i - 1]);
      }
    }
  }

  /** A rejection of the follower's last offset, and what comes of it. */
  ghost predicate Rejected(lbase: LogOffset, llog: seq<Logged>, first: nat, fbase: LogOffset, flog: seq<Logged>, hints: seq<LogOffset>) {
    LeaderReply(lbase, llog, first, LastOffset(fbase, flog)) == Reject(hints)
  }

  /** The hints of a rejection are offsets of the leader's from entry `k` to `n`. Either
      the follower is past the leader's last index, or they end at its last index, where
      the leader has another term or position. */
  lemma RejectHints(limit: nat, lbase: LogOffset, llog: seq<Logged>, first: nat, fbase: LogOffset, flog: seq<Logged>, hints: seq<LogOffset>)
      returns (k: nat, n: nat)
    requires WellPlaced(limit, lbase, llog)
    requires Rejected(lbase, llog, first, fbase, flog, hints) && hints != []
    ensures k < n <= |llog| && hints == OffsetsOf(llog, k, n) && (n > 1 ==> k < n - 1)
    ensures hints[|hints| - 1].l.index == lbase.l.index + n
    ensures
      var f := LastOffset(fbase, flog);
      || (f.l.index > lbase.l.index + n && n == |llog|)
      || (f.l.index == lbase.l.index + n && (llog[n - 1].rec.term != f.l.term || f.b != llog[n - 1].end))
  {
    var f := LastOffset(fbase, flog);
    OffsetsIncrease(limit, lbase, llog, 0, |llog|);
    n := if f.l.index > lbase.l.index + |llog| then |llog| else f.l.index - lbase.l.index;
    HintRange(limit, lbase, llog, n);
    k := HintStart(llog, n);
    assert Placed(limit, lbase, llog, n - 1);
  }

  /** The follower first cuts its log to the end of the hints, then walks back. */
  lemma SettleByWalk(fbase: LogOffset, flog: seq<Logged>, m: nat, low: nat, hints: seq<LogOffset>) returns (flog': seq<Logged>, low': nat)
    requires m <= |flog| && hints != [] && Settle(fbase, flog, m, low, hints).1
    requires LastOffset(fbase, flog).l.index == fbase.l.index + |flog|
    requires hints[0].l.index <= LastOffset(fbase, flog).l.index
    ensures flog' <= flog && m <= |flog'|
    ensures fbase.l.index + |flog'| <= hints[|hints| - 1].l.index
    ensures |flog'| < |flog| <==> fbase.l.index + |flog| > hints[|hints| - 1].l.index
    ensures |flog'| < |flog| ==> fbase.l.index + |flog'| == hints[|hints| - 1].l.index
    ensures Settle(fbase, flog, m, low, hints) == Walk(fbase, flog', m, low', hints, |hints|)
  {
    var end := hints[|hints| - 1].l.index;
    if LastOffset(fbase, flog).l.index > end {
      flog', low' := CutTo(fbase, flog, m, end).0, LowAfter(fbase, m, low, end);
    } else {
      flog', low' := flog, low;
    }
  }

  /** A round never removes an entry the leader has too. */
  lemma RoundKeepsShared(limit: nat, lbase: LogOffset, llog: seq<Logged>, first: nat, fbase: LogOffset, flog: seq<Logged>, m: nat,
                         low: nat, hints: seq<LogOffset>)
    requires Peers(limit, lbase, llog, fbase, flog, m)
    requires Rejected(lbase, llog, first, fbase, flog, hints) && Settle(fbase, flog, m, low, hints).1
    ensures forall j | |Settle(fbase, flog, m, low, hints).0| <= j < |flog| :: !Shared(lbase, llog, flog[j])
  {
    OffsetsIncrease(limit, fbase, flog, 0, |flog|);
    var k, n := RejectHints(limit, lbase, llog, first, fbase, flog, hints);
    if hints[0].l.index <= LastOffset(fbase, flog).l.index {
      var flog', low' := SettleByWalk(fbase, flog, m, low, hints);
      PeersPrefix(limit, lbase, llog, fbase, flog, flog', m);
      WalkKeepsShared(limit, lbase, llog, fbase, flog', m, low', k, n, n - k);
      forall j | |Settle(fbase, flog, m, low, hints).0| <= j < |flog|
        ensures !Shared(lbase, llog, flog[j])
      {
        assert Placed(limit, fbase, flog, j);
        assert j < |flog'| ==> flog'[j] == flog[j];
      }
    }
  }

  /** Where the hints end at the follower's last index, its last entry is in memory and has
      another term than the leader's, and the walk goes on to the hint before. */
  lemma LastHintDiffers(limit: nat, lbase: LogOffset, llog: seq<Logged>, fbase: LogOffset, flog: seq<Logged>, m: nat, low: nat, k: nat, n: nat)
    requires Peers(limit, lbase, llog, fbase, flog, m) && k < n <= |llog|
    requires lbase.l.index + n == fbase.l.index + |flog|
    requires
      var f := LastOffset(fbase, flog);
      llog[n - 1].rec.term != f.l.term || f.b != llog[n - 1].end
    requires Walk(fbase, flog, m, low, OffsetsOf(llog, k, n), n - k).1
    ensures low < |flog| && !Shared(lbase, llog, flog[|flog| - 1])
    ensures Walk(fbase, flog, m, low, OffsetsOf(llog, k, n), n - k) == Walk(fbase, flog, m, low, OffsetsOf(llog, k, n), n - k - 1)
  {
    assert Placed(limit, lbase, llog, n - 1);
    OffsetsIncrease(limit, fbase, flog, 0, m);
    if flog != [] {
      assert Placed(limit, fbase, flog, |flog| - 1);
    }
  }

  /** Hints that end at the follower's last index: the walk shortens the log exactly when
      there is a hint before the last one. */
  lemma WalkShortens(limit: nat, lbase: LogOffset, llog: seq<Logged>, fbase: LogOffset, flog: seq<Logged>, m: nat, low: nat, k: nat, n: nat)
    requires Peers(limit, lbase, llog, fbase, flog, m) && k < n <= |llog| && (n > 1 ==> k < n - 1)
    requires lbase.l.index + n == fbase.l.index + |flog|
    requires Walk(fbase, flog, m, low, OffsetsOf(llog, k, n), n - k - 1).1
    ensures |Walk(fbase, flog, m, low, OffsetsOf(llog, k, n), n - k - 1).0| < |flog| <==> n > 1
  {
    WalkKeepsShared(limit, lbase, llog, fbase, flog, m, low, k, n, n - k - 1);
    assert Placed(limit, lbase, llog, k);
    if n > 1 {
      assert Placed(limit, lbase, llog, n - 2);
    }
  }

  lemma EvenRound(limit: nat, lbase: LogOffset, llog: seq<Logged>, fbase: LogOffset, flog: seq<Logged>, m: nat, low: nat, k: nat, n: nat)
    requires Peers(limit, lbase, llog, fbase, flog, m) && k < n <= |llog| && (n > 1 ==> k < n - 1)
    requires lbase.l.index + n == fbase.l.index + |flog|
    requires
      var f := LastOffset(fbase, flog);
      llog[n - 1].rec.term != f.l.term || f.b != llog[n - 1].end
    requires Walk(fbase, flog, m, low, OffsetsOf(llog, k, n), n - k).1
    ensures |Walk(fbase, flog, m, low, OffsetsOf(llog, k, n), n - k).0| < |flog| <==> n > 1
  {
    LastHintDiffers(limit, lbase, llog, fbase, flog, m, low, k, n);
    WalkShortens(limit, lbase, llog, fbase, flog, m, low, k, n);
  }

  /** A round after which the follower asks again has shortened its log, exactly unless
      its last index is that of the first entry the leader still has. */
  lemma RoundShortens(limit: nat, lbase: LogOffset, llog: seq<Logged>, first: nat, fbase: LogOffset, flog: seq<Logged>, m: nat,
                      low: nat, hints: seq<LogOffset>)
    requires Peers(limit, lbase, llog, fbase, flog, m)
    requires Rejected(lbase, llog, first, fbase, flog, hints) && Settle(fbase, flog, m, low, hints).1
    ensures |Settle(fbase, flog, m, low, hints).0| < |flog| <==> LastOffset(fbase, flog).l.index != lbase.l.index + 1
  {
    OffsetsIncrease(limit, fbase, flog, 0, |flog|);
    var k, n := RejectHints(limit, lbase, llog, first, fbase, flog, hints);
    assert Placed(limit, lbase, llog, k);
    var flog', low' := SettleByWalk(fbase, flog, m, low, hints);
    if |flog'| == |flog| {
      assert flog' == flog && hints == OffsetsOf(llog, k, n);
      EvenRound(limit, lbase, llog, fbase, flog, m, low', k, n);
    }
  }

  /** The other way round: there, with a different term and the last entry still in memory,
      the follower asks again with the same last offset, however often it is rejected. */
  lemma SingleHintRepeats(limit: nat, lbase: LogOffset, llog: seq<Logged>, first: nat, fbase: LogOffset, flog: seq<Logged>, m: nat, low: nat)
    requires Peers(limit, lbase, llog, fbase, flog, m) && llog != [] && low < |flog|
    requires first <= lbase.l.index + 1 == flog[|flog| - 1].rec.index && flog[|flog| - 1].rec.term != llog[0].rec.term
    ensures
      var hints := [llog[0].Offset()];
      Rejected(lbase, llog, first, fbase, flog, hints) && Settle(fbase, flog, m, low, hints) == (flog, true)
  {
    OffsetsIncrease(limit, fbase, flog, 0, |flog|);
    OffsetsIncrease(limit, fbase, flog, 0, m);
    OffsetsIncrease(limit, lbase, llog, 0, |llog|);
    assert Placed(limit, lbase, llog, 0);
    HintRange(limit, lbase, llog, 1);
    var hints := [llog[0].Offset()];
    assert Hints(llog, 1) == hints;
    assert flog[..|flog|] == flog;
    assert Walk(fbase, flog, m, low, hints, 0) == (flog, true);
    if flog != [] {
      assert Placed(limit, fbase, flog, |flog| - 1);
    }
  }

  datatype Outcome = Agreed(log: seq<Logged>) | FullSync(log: seq<Logged>) | GaveUp(log: seq<Logged>) | Stuck(log: seq<Logged>)

  function Low(m: nat, x: nat): nat { if x <= m then x else m }

  /** The whole exchange, round after round. In between, committed entries may be handed
      over: in each round the memory log starts after any number of them. */
  function Negotiate(lbase: LogOffset, llog: seq<Logged>, first: nat, fbase: LogOffset, flog: seq<Logged>, m: nat,
                     lows: nat -> nat, round: nat): (o: Outcome)
    requires m <= |flog|
    ensures o.log <= flog && |o.log| >= m
    decreases |flog|
  {
    match LeaderReply(lbase, llog, first, LastOffset(fbase, flog))
    case Accept => Agreed(flog)
    case NeedFullSync => FullSync(flog)
    case LeaderFails => GaveUp(flog)
    case Reject(hints) =>
      var (flog', ok) := Settle(fbase, flog, m, Low(m, lows(round)), hints);
      if !ok then GaveUp(flog')
      else if |flog'| < |flog| then Negotiate(lbase, llog, first, fbase, flog', m, lows, round + 1)
      else Stuck(flog')
  }

  /** Agreement means that the leader holds the entry the follower now ends with, at the
      same position, and that no entry both had was given up. A negotiation that does
      not end is stuck at the first entry the leader still has. */
  lemma {:induction false} NegotiationEnds(limit: nat, lbase: LogOffset, llog: seq<Logged>, first: nat, fbase: LogOffset, flog: seq<Logged>, m: nat,
                                           lows: nat -> nat, round: nat)
    requires Peers(limit, lbase, llog, fbase, flog, m)
    ensures
      var o := Negotiate(lbase, llog, first, fbase, flog, m, lows, round);
      var last := LastOffset(fbase, o.log);
      && (o.Agreed? ==> last.l.index == 0 ||
                        (HasIndex(lbase, llog, last.l.index) && EntryAt(lbase, llog, last.l.index).Offset() == last))
      && (o.Agreed? ==> forall j | |o.log| <= j < |flog| :: !Shared(lbase, llog, flog[j]))
      && (o.Stuck? ==> last.l.index == lbase.l.index + 1)
    decreases |flog|
  {
    var f := LastOffset(fbase, flog);
    var reply := LeaderReply(lbase, llog, first, f);
    if reply.Accept? {
      if f.l.index != 0 {
        assert Placed(limit, lbase, llog, f.l.index - lbase.l.index - 1);
      }
    } else if reply.Reject? && Settle(fbase, flog, m, Low(m, lows(round)), reply.hints).1 {
      var flog' := Settle(fbase, flog, m, Low(m, lows(round)), reply.hints).0;
      RoundKeepsShared(limit, lbase, llog, first, fbase, flog, m, Low(m, lows(round)), reply.hints);
      RoundShortens(limit, lbase, llog, first, fbase, flog, m, Low(m, lows(round)), reply.hints);
      PeersPrefix(limit, lbase, llog, fbase, flog, flog', m);
      if |flog'| < |flog| {
        NegotiationEnds(limit, lbase, llog, first, fbase, flog', m, lows, round + 1);
      }
    }
  }

  /** Logs in which a common index and term means a common history up to there. */
  ghost predicate Matching(llog: seq<Logged>, flog: seq<Logged>) {
    forall i | 0 <= i < |llog| && i < |flog| :: llog[i].rec.term == flog[i].rec.term ==> llog[..i + 1] == flog[..i + 1]
  }

  /** With matching logs from the same base, agreement leaves the follower exactly the
      longest common prefix. */
  lemma AgreesOnCommonPrefix(limit: nat, base: LogOffset, llog: seq<Logged>, first: nat, flog: seq<Logged>, m: nat, lows: nat -> nat)
    requires Peers(limit, base, llog, base, flog, m) && Matching(llog, flog)
    requires Negotiate(base, llog, first, base, flog, m, lows, 0).Agreed?
    ensures
      var log := Negotiate(base, llog, first, base, flog, m, lows, 0).log;
      && log <= llog && log <= flog
      && forall n | |log| < n <= |llog| && n <= |flog| :: llog[..n] != flog[..n]
  {
    NegotiationEnds(limit, base, llog, first, base, flog, m, lows, 0);
    CommonPrefix(limit, base, llog, flog, Negotiate(base, llog, first, base, flog, m, lows, 0).log);
  }

  lemma CommonPrefix(limit: nat, base: LogOffset, llog: seq<Logged>, flog: seq<Logged>, log: seq<Logged>)
    requires WellPlaced(limit, base, flog) && Matching(llog, flog) && log <= flog
    requires
      var last := LastOffset(base, log);
      last.l.index == 0 || (HasIndex(base, llog, last.l.index) && EntryAt(base, llog, last.l.index).Offset() == last)
    requires forall j | |log| <= j < |flog| :: !Shared(base, llog, flog[j])
    ensures log <= llog
    ensures forall n | |log| < n <= |llog| && n <= |flog| :: llog[..n] != flog[..n]
  {
    var k := |log|;
    if k > 0 {
      OffsetsIncrease(limit, base, flog, 0, k);
      AgreedPrefix(base, llog, flog, k);
      assert flog[..k] == log;
    }
    forall n | k < n <= |llog| && n <= |flog|
      ensures llog[..n] != flog[..n]
    {
      assert !Shared(base, llog, flog[n - 1]);
      UnsharedDiffers(limit, base, llog, flog, n);
    }
  }

  lemma AgreedPrefix(base: LogOffset, llog: seq<Logged>, flog: seq<Logged>, n: nat)
    requires Matching(llog, flog) && 0 < n <= |flog|
    requires flog[n - 1].rec.index == base.l.index + n && HasIndex(base, llog, base.l.index + n)
    requires EntryAt(base, llog, base.l.index + n).Offset() == flog[n - 1].Offset()
    ensures flog[..n] <= llog
  {
    var i := n - 1;
    assert llog[..i + 1] == flog[..i + 1];
  }

  lemma UnsharedDiffers(limit: nat, base: LogOffset, llog: seq<Logged>, flog: seq<Logged>, n: nat)
    requires WellPlaced(limit, base, flog) && 0 < n <= |llog| && n <= |flog| && !Shared(base, llog, flog[n - 1])
    ensures llog[..n] != flog[..n]
  {
    assert Placed(limit, base, flog, n - 1);
    assert llog[..n][n - 1].rec.term != flog[..n][n - 1].rec.term;
  }

  /* ---------- negotiations that succeed ---------- */

  /** A follower whose log is a prefix of the leader's is accepted at once, exactly when the
      leader still has that far back and knows the follower's last entry. */
  lemma PrefixAgrees(limit: nat, base: LogOffset, llog: seq<Logged>, first: nat, flog: seq<Logged>, m: nat, lows: nat -> nat)
    requires WellPlaced(limit, base, llog) && flog <= llog && m <= |flog|
    ensures
      var last := LastOffset(base, flog).l.index;
      Negotiate(base, llog, first, base, flog, m, lows, 0) == Agreed(flog) <==> first <= last && (flog != [] || last == 0)
  {
    var n := |flog|;
    OffsetsIncrease(limit, base, llog, 0, n);
    assert LastOffset(base, flog) == OffsetBefore(base, llog, n);
    ReplyDecides(limit, base, llog, first, LastOffset(base, flog));
    forall k | 0 <= k < |llog|
      ensures llog[k].rec.index == base.l.index + 1 + k
    {
      assert Placed(limit, base, llog, k);
    }
    if n > 0 {
      assert llog[n - 1].Offset() == LastOffset(base, flog);
    }
  }

  /** Where the leader holds what the follower has committed, a walk over its offsets that
      reaches back to the commit index, or stops short of it, cuts the log. */
  lemma {:induction false} WalkSucceeds(limit: nat, base: LogOffset, llog: seq<Logged>, flog: seq<Logged>, m: nat, low: nat, k: nat, n: nat, i: nat)
    requires WellPlaced(limit, base, llog) && WellPlaced(limit, base, flog)
    requires k < n <= |llog| && n <= |flog| && low <= m <= n && i <= n - k && m <= k + i
    requires flog[..m] == llog[..m] && m > 0
    ensures Walk(base, flog, m, low, OffsetsOf(llog, k, n), i).1
  {
    var hints := OffsetsOf(llog, k, n);
    OffsetsIncrease(limit, base, flog, 0, m);
    if i == 0 {
      assert Placed(limit, base, llog, k);
    } else {
      assert Placed(limit, base, llog, k + i - 1);
      if k + i == m {
        assert flog[..m][m - 1] == llog[..m][m - 1];
        assert hints[i - 1].l == OffsetBefore(base, flog, m).l;
      } else {
        WalkSucceeds(limit, base, llog, flog, m, low, k, n, i - 1);
      }
    }
  }

  /** Hints that end at entry `n` of the follower's log are walked over from there. */
  lemma SettleWalks(base: LogOffset, flog: seq<Logged>, m: nat, low: nat, hints: seq<LogOffset>, n: nat) returns (low': nat)
    requires hints != [] && 0 < n <= |flog| && low <= m <= n && hints[|hints| - 1].l.index == base.l.index + n
    requires LastOffset(base, flog).l.index == base.l.index + |flog| && OffsetBefore(base, flog, m).l.index == base.l.index + m
    requires hints[0].l.index <= base.l.index + n
    ensures low' <= m && Settle(base, flog, m, low, hints) == Walk(base, flog[..n], m, low', hints, |hints|)
  {
    assert |flog| == n ==> flog[..n] == flog;
    low' := if |flog| > n then LowAfter(base, m, low, base.l.index + n) else low;
  }

  /** So every rejection leads to another round. */
  lemma SettleSucceeds(limit: nat, base: LogOffset, llog: seq<Logged>, flog: seq<Logged>, m: nat, low: nat, k: nat, n: nat)
    requires WellPlaced(limit, base, llog) && WellPlaced(limit, base, flog)
    requires k < n <= |llog| && n <= |flog| && low <= m <= n
    requires flog[..m] == llog[..m] && m > 0
    ensures Settle(base, flog, m, low, OffsetsOf(llog, k, n)).1
  {
    OffsetsIncrease(limit, base, flog, 0, m);
    OffsetsIncrease(limit, base, flog, 0, |flog|);
    assert Placed(limit, base, llog, k) && Placed(limit, base, llog, n - 1);
    var low' := SettleWalks(base, flog, m, low, OffsetsOf(llog, k, n), n);
    PrefixPlaced(limit, base, flog, n);
    assert flog[..n][..m] == flog[..m];
    WalkSucceeds(limit, base, llog, flog[..n], m, low', k, n, n - k);
  }

  /** The leader still holds the first `m` entries of the follower, the committed ones. */
  ghost predicate HoldsCommitted(base: LogOffset, llog: seq<Logged>, first: nat, flog: seq<Logged>, m: nat) {
    0 < m <= |llog| && m <= |flog| && flog[..m] == llog[..m] && first <= base.l.index + m
  }

  /** A round that is not accepted shortens the follower's log, down to its committed
      entries at most. */
  lemma RoundGoesOn(limit: nat, base: LogOffset, llog: seq<Logged>, first: nat, flog: seq<Logged>, m: nat, low: nat)
    requires Peers(limit, base, llog, base, flog, m) && HoldsCommitted(base, llog, first, flog, m) && low <= m
    ensures
      var reply := LeaderReply(base, llog, first, LastOffset(base, flog));
      || reply == Accept
      || (reply.Reject? && Settle(base, flog, m, low, reply.hints).1 && |Settle(base, flog, m, low, reply.hints).0| < |flog|)
  {
    var last := LastOffset(base, flog);
    OffsetsIncrease(limit, base, flog, 0, |flog|);
    ReplyDecides(limit, base, llog, first, last);
    var reply := LeaderReply(base, llog, first, last);
    if reply.Reject? {
      var h := if |flog| > |llog| then |llog| else |flog|;
      OffsetsIncrease(limit, base, llog, 0, |llog|);
      HintRange(limit, base, llog, h);
      assert reply.hints == Hints(llog, h);
      var k, n := RejectHints(limit, base, llog, first, base, flog, reply.hints);
      SettleSucceeds(limit, base, llog, flog, m, low, k, n);
      RoundShortens(limit, base, llog, first, base, flog, m, low, reply.hints);
    }
  }

  /** The negotiation always ends in agreement where the leader holds what the follower
      has committed: whatever the rest of the logs, and however committed entries are
      handed over meanwhile. */
  lemma {:induction false} NegotiationSucceeds(limit: nat, base: LogOffset, llog: seq<Logged>, first: nat, flog: seq<Logged>, m: nat,
                                               lows: nat -> nat, round: nat)
    requires Peers(limit, base, llog, base, flog, m) && HoldsCommitted(base, llog, first, flog, m)
    ensures Negotiate(base, llog, first, base, flog, m, lows, round).Agreed?
    decreases |flog|
  {
    var low := Low(m, lows(round));
    RoundGoesOn(limit, base, llog, first, flog, m, low);
    var reply := LeaderReply(base, llog, first, LastOffset(base, flog));
    if reply.Reject? {
      var flog' := Settle(base, flog, m, low, reply.hints).0;
      PeersPrefix(limit, base, llog, base, flog, flog', m);
      assert flog'[..m] == flog[..m];
      NegotiationSucceeds(limit, base, llog, first, flog', m, lows, round + 1);
    }
  }

  /** With matching logs it then leaves the follower exactly the longest common prefix. */
  lemma NegotiationConverges(limit: nat, base: LogOffset, llog: seq<Logged>, first: nat, flog: seq<Logged>, m: nat, lows: nat -> nat)
    requires Peers(limit, base, llog, base, flog, m) && HoldsCommitted(base, llog, first, flog, m) && Matching(llog, flog)
    ensures
      var o := Negotiate(base, llog, first, base, flog, m, lows, 0);
      && o.Agreed? && o.log <= llog && o.log <= flog
      && forall n | |o.log| < n <= |llog| && n <= |flog| :: llog[..n] != flog[..n]
  {
    NegotiationSucceeds(limit, base, llog, first, flog, m, lows, 0);
    AgreesOnCommonPrefix(limit, base, llog, first, flog, m, lows);
  }
}
