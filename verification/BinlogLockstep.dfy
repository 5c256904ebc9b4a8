/**
 Two binlogs that start at the same position and put items of the same lengths
 stay at the same positions: the ground on which leader and follower compare
 physical offsets.
 */
module BinlogLockstep {
  import opened BinlogFormat
  import opened BinlogHistory
  import opened BinlogWriter
  import opened BinlogRoundTrip

  /** Longer items end later. */
  lemma {:induction false} SizeGrows(block: nat, a: nat, b: nat)
    requires block <= BLOCK_SIZE && a < b
    ensures Size(block, a) < Size(block, b)
    decreases b, block == BLOCK_SIZE - HEADER_SIZE
  {
    var n := FragmentLength(block, b);
    if n < a {
      SizeGrows(BLOCK_SIZE, a - n, b - n);
    }
  }

  /** From one position, two puts reach the same position exactly when the items
      are equally long. */
  lemma PutPositionInjective(p: Position, a: nat, b: nat, limit: nat)
    ensures PutPosition(p, a, limit) == PutPosition(p, b, limit) <==> a == b
  {
    var block := Rolled(p, limit).offset % BLOCK_SIZE;
    if a < b {
      SizeGrows(block, a, b);
    } else if b < a {
      SizeGrows(block, b, a);
    }
  }

  /** Offsets that padding reproduces. */
  predicate Reproducible(offset: nat) {
    offset % BLOCK_SIZE == 0 || offset % BLOCK_SIZE >= HEADER_SIZE
  }

  /** Restarting a log at `offset` brings both the producer offset and the length
      of the padded file to exactly that offset in these cases and no others. */
  lemma PaddingExact(offset: nat, now: nat)
    ensures
      RestartOffset(offset) == offset == |PaddingFor(AskedOffset(offset), now)| <==> Reproducible(offset)
  {
  }

  /** Every producer offset a log can reach from a reproducible one is reproducible. */
  lemma ReachableIsReproducible(limit: nat, base: Position, entries: seq<Entry>, k: nat)
    requires Chained(limit, base, entries) && k <= |entries|
    requires Reproducible(base.offset)
    requires forall e | e in entries :: e.item != []
    ensures Reproducible(Before(base, entries, k).offset)
  {
    if k > 0 {
      EndPhase(entries[k - 1].start.offset, |entries[k - 1].item|);
    }
  }

  /** A log that was restarted at the position another one had after `k` items,
      and then put items of the lengths of the following ones, is at the same
      position as the other after each of them, across file changes too. */
  lemma {:induction false} Lockstep(limit: nat, base: Position, entries: seq<Entry>, k: nat, entries': seq<Entry>, i: nat)
    requires Chained(limit, base, entries)
    requires k + |entries'| <= |entries| && i <= |entries'|
    requires Chained(limit, Before(base, entries, k), entries')
    requires forall j | 0 <= j < |entries'| :: |entries'[j].item| == |entries[k + j].item|
    ensures Before(Before(base, entries, k), entries', i) == Before(base, entries, k + i)
    ensures i < |entries'| ==> entries'[i].start == entries[k + i].start
  {
    if i > 0 {
      Lockstep(limit, base, entries, k, entries', i - 1);
      assert |entries'[i - 1].item| == |entries[k + (i - 1)].item|;
    }
    if i < |entries'| {
      assert Linked(limit, Before(base, entries, k), entries', i);
      assert Linked(limit, base, entries, k + i);
    }
  }

  /** Lengths of the items of a history. */
  ghost function Lengths(entries: seq<Entry>): seq<nat> {
    seq(|entries|, i requires 0 <= i < |entries| => |entries[i].item|)
  }

  ghost function LengthsOf(items: seq<seq<byte>>): seq<nat> {
    seq(|items|, i requires 0 <= i < |items| => |items[i]|)
  }

  /** What `PutAll` says about the entries it adds. */
  ghost predicate Added(before: seq<Entry>, items: seq<seq<byte>>, after: seq<Entry>) {
    && |after| == |before| + |items| && after[..|before|] == before
    && forall i | 0 <= i < |items| :: after[|before| + i].item == items[i]
  }

  lemma AddedLengths(before: seq<Entry>, items: seq<seq<byte>>, after: seq<Entry>)
    requires Added(before, items, after)
    ensures Lengths(after) == Lengths(before) + LengthsOf(items)
  {
    forall i | 0 <= i < |after|
      ensures Lengths(after)[i] == (Lengths(before) + LengthsOf(items))[i]
    {
      if i < |before| {
        assert after[i] == after[..|before|][i];
      } else {
        assert after[|before| + (i - |before|)].item == items[i - |before|];
      }
    }
  }

  lemma LockstepEnd(limit: nat, base: Position, entries: seq<Entry>, k: nat, entries': seq<Entry>)
    requires Chained(limit, base, entries) && k <= |entries|
    requires Chained(limit, Before(base, entries, k), entries')
    requires Lengths(entries') == Lengths(entries)[k..]
    ensures Before(Before(base, entries, k), entries', |entries'|) == Before(base, entries, |entries|)
  {
    forall j | 0 <= j < |entries'|
      ensures |entries'[j].item| == |entries[k + j].item|
    {
      assert Lengths(entries')[j] == Lengths(entries)[k..][j];
    }
    assert |Lengths(entries')| == |Lengths(entries)[k..]|;
    Lockstep(limit, base, entries, k, entries', |entries'|);
  }

  /** Restarts a second log at a position the first one had, after its first `k` items. */
  method RestartAt(first: Binlog, second: Binlog, p: Position, term: nat, index: nat, now: nat, ghost k: nat)
    requires first.Valid() && second.isOpen && first != second
    requires k <= |first.entries| && p == Before(first.base, first.entries, k)
    requires Reproducible(first.base.offset) && forall e | e in first.entries :: e.item != []
    modifies second
    ensures second.Valid() && second.isOpen && second.base == p && second.entries == []
  {
    HistoryChained(first.files, first.fileSize, first.base, first.entries);
    ReachableIsReproducible(first.fileSize, first.base, first.entries, k);
    PaddingExact(p.offset, now);
    var s := second.SetProducerStatus(p.filenum, p.offset, term, index, now);
  }

  /** The leader goes on putting items while a second log, restarted at any position the
      leader ever had, puts items of the same lengths as the leader's from there on: both
      end in the same file, at the same offset, and at the same place of a block. */
  method RestartAndFollow(first: Binlog, second: Binlog, p: Position, items: seq<seq<byte>>, copies: seq<seq<byte>>,
                          term: nat, index: nat, now: nat, clock: (nat, bool) -> nat, clock': (nat, bool) -> nat, ghost k: nat)
    requires first.Valid() && first.isOpen && second.isOpen && first != second && first.fileSize == second.fileSize
    requires k <= |first.entries| && p == Before(first.base, first.entries, k)
    requires Reproducible(first.base.offset) && forall e | e in first.entries :: e.item != []
    requires LengthsOf(copies) == Lengths(first.entries)[k..] + LengthsOf(items)
    modifies first, second
    ensures first.Valid() && second.Valid()
    ensures first.proNum == second.proNum && first.proOffset == second.proOffset
    ensures first.blockOffset % BLOCK_SIZE == second.blockOffset % BLOCK_SIZE
  {
    RestartAt(first, second, p, term, index, now, k);
    ghost var entries := first.entries;
    var _ := PutAll(first, items, clock);
    var _ := PutAll(second, copies, clock');
    FollowEnds(first.fileSize, first.base, entries, items, first.entries, k, copies, second.entries,
               first.files, second.files);
  }

  lemma FollowEnds(limit: nat, base: Position, before: seq<Entry>, items: seq<seq<byte>>, after: seq<Entry>, k: nat,
                   copies: seq<seq<byte>>, copied: seq<Entry>, files: map<nat, seq<byte>>, files': map<nat, seq<byte>>)
    requires k <= |before| && Added(before, items, after) && Added([], copies, copied)
    requires LengthsOf(copies) == Lengths(before)[k..] + LengthsOf(items)
    requires HistoryOk(files, limit, base, after) && HistoryOk(files', limit, Before(base, before, k), copied)
    ensures Before(Before(base, before, k), copied, |copied|) == Before(base, after, |after|)
  {
    AddedLengths(before, items, after);
    AddedLengths([], copies, copied);
    assert Lengths([]) + LengthsOf(copies) == LengthsOf(copies);
    assert Lengths(after)[k..] == Lengths(before)[k..] + LengthsOf(items);
    HistoryChained(files, limit, base, after);
    HistoryChained(files', limit, Before(base, before, k), copied);
    assert Before(base, after, k) == Before(base, before, k) by {
      assert k > 0 ==> after[k - 1] == after[..|before|][k - 1];
    }
    LockstepEnd(limit, base, after, k, copied);
  }
}
