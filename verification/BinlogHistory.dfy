/**
 The history a binlog holds: which item was put where, and what the files must
 contain for that history to be readable again.
 */
module BinlogHistory {
  import opened BinlogFormat

  /** A physical binlog position: file number and offset in that file. */
  datatype Position = Position(filenum: nat, offset: nat) {
    predicate AtMost(that: Position) {
      filenum < that.filenum || (filenum == that.filenum && offset <= that.offset)
    }

    predicate Less(that: Position) {
      filenum < that.filenum || (filenum == that.filenum && offset < that.offset)
    }
  }

  /** An item and the position its first byte was written for. */
  datatype Entry = Entry(item: seq<byte>, start: Position) {
    /** The producer position right after the item was put. */
    function End(): Position {
      Position(start.filenum, EndOf(start.offset, |item|))
    }
  }

  /** Where the next item goes when the producer is at `p`: a file longer than
      `limit` is closed and a new one begun. */
  function Rolled(p: Position, limit: nat): Position {
    if p.offset > limit then Position(p.filenum + 1, 0) else p
  }

  /** No item starts past the limit of a file: it stays where it is up to the limit, and
      past it goes to the start of the next file. */
  lemma StartsWithin(p: Position, limit: nat)
    ensures Rolled(p, limit).offset <= limit
    ensures p.offset <= limit ==> Rolled(p, limit) == p
    ensures p.offset > limit ==> Rolled(p, limit) == Position(p.filenum + 1, 0)
  {
  }

  /** Producer position after putting an item of `len` bytes. */
  function PutPosition(p: Position, len: nat, limit: nat): (q: Position)
    ensures p.Less(q)
  {
    var r := Rolled(p, limit);
    Position(r.filenum, EndOf(r.offset, len))
  }

  /** Producer position before entry `k` was put. */
  function Before(base: Position, entries: seq<Entry>, k: nat): Position
    requires k <= |entries|
  {
    if k == 0 then base else entries[k - 1].End()
  }

  /** Entry `k` starts where the producer was, and its file holds its fragments;
      a file that was left has its final length. */
  ghost predicate EntryOk(files: map<nat, seq<byte>>, limit: nat, base: Position, entries: seq<Entry>, k: nat)
    requires k < |entries|
  {
    var before, e := Before(base, entries, k), entries[k];
    && e.start == Rolled(before, limit)
    && before.filenum in files && e.start.filenum in files
    && (before.offset > limit ==> |files[before.filenum]| == before.offset)
    && FragmentsAt(files[e.start.filenum], e.start.offset, e.start.offset % BLOCK_SIZE, e.item, true)
  }

  /** Records, none of them crossing a block, lead from `p` to exactly `target`,
      and the last one ends an item (or is a bad record). */
  ghost predicate RecordsBetween(file: seq<byte>, p: nat, target: nat)
    decreases target - p
  {
    && p <= target <= |file|
    && (p < target ==>
          && p + HEADER_SIZE <= target
          && LengthAt(file, p) <= BLOCK_SIZE - HEADER_SIZE
          && TypeAt(file, p) in {FULL_TYPE, FIRST_TYPE, MIDDLE_TYPE, LAST_TYPE, BAD_RECORD}
          && var q := p + HEADER_SIZE + LengthAt(file, p);
          && (q == target ==> TypeAt(file, p) in {FULL_TYPE, LAST_TYPE, BAD_RECORD})
          && RecordsBetween(file, q, target))
  }

  function BlockStart(offset: nat): nat {
    offset - offset % BLOCK_SIZE
  }

  ghost predicate HistoryOk(files: map<nat, seq<byte>>, limit: nat, base: Position, entries: seq<Entry>) {
    && base.filenum in files
    && RecordsBetween(files[base.filenum], BlockStart(base.offset), base.offset)
    && forall k | 0 <= k < |entries| :: EntryOk(files, limit, base, entries, k)
  }

  /* ---------- order of positions ---------- */

  /** Every entry starts where the producer was. */
  ghost predicate Chained(limit: nat, base: Position, entries: seq<Entry>) {
    forall k | 0 <= k < |entries| :: Linked(limit, base, entries, k)
  }

  predicate Linked(limit: nat, base: Position, entries: seq<Entry>, k: nat)
    requires k < |entries|
  {
    entries[k].start == Rolled(Before(base, entries, k), limit)
  }

  lemma HistoryChained(files: map<nat, seq<byte>>, limit: nat, base: Position, entries: seq<Entry>)
    requires HistoryOk(files, limit, base, entries)
    ensures Chained(limit, base, entries)
  {
    forall k | 0 <= k < |entries|
      ensures Linked(limit, base, entries, k)
    {
      assert EntryOk(files, limit, base, entries, k);
    }
  }

  /** Producer positions only grow. */
  lemma {:induction false} PositionsIncrease(limit: nat, base: Position, entries: seq<Entry>, j: nat, k: nat)
    requires Chained(limit, base, entries)
    requires j <= k <= |entries|
    ensures Before(base, entries, j).AtMost(Before(base, entries, k))
    ensures j < k ==> Before(base, entries, j).Less(Before(base, entries, k))
    ensures j < k ==> entries[j].start.Less(Before(base, entries, k))
  {
    if j < k {
      PositionsIncrease(limit, base, entries, j, k - 1);
      assert Linked(limit, base, entries, k - 1);
    }
  }

  /** An item of at least one byte ends at a block boundary or past the first
      payload byte of a block: never within its first eight bytes. */
  lemma {:induction false} SizePhase(block: nat, left: nat)
    requires block <= BLOCK_SIZE && left > 0
    ensures
      var e := (block + Size(block, left)) % BLOCK_SIZE;
      e == 0 || e > HEADER_SIZE
    decreases left, block == BLOCK_SIZE - HEADER_SIZE
  {
    var n := FragmentLength(block, left);
    if n < left {
      SizePhase(BLOCK_SIZE, left - n);
      assert block + Size(block, left) == Gap(block) + block + HEADER_SIZE + n - BLOCK_SIZE + (BLOCK_SIZE + Size(BLOCK_SIZE, left - n));
    }
  }

  lemma EndPhase(pos: nat, len: nat)
    requires len > 0
    ensures EndOf(pos, len) % BLOCK_SIZE == 0 || EndOf(pos, len) % BLOCK_SIZE > HEADER_SIZE
  {
    SizePhase(pos % BLOCK_SIZE, len);
  }

  /* ---------- what keeps a history intact ---------- */

  lemma {:induction false} RecordsFrame(file: seq<byte>, file': seq<byte>, p: nat, target: nat)
    requires RecordsBetween(file, p, target)
    requires target <= |file'| && file[..target] == file'[..target]
    ensures RecordsBetween(file', p, target)
    decreases target - p
  {
    if p < target {
      assert forall i :: 0 <= i < target ==> file'[i] == file[..target][i];
      RecordsFrame(file, file', p + HEADER_SIZE + LengthAt(file, p), target);
    }
  }

  /** A history survives any change of the files that keeps what was written
      before its producer position. */
  lemma HistoryFrame(files: map<nat, seq<byte>>, files': map<nat, seq<byte>>, limit: nat, base: Position, entries: seq<Entry>)
    requires HistoryOk(files, limit, base, entries)
    requires forall f | f in files && f < Before(base, entries, |entries|).filenum :: f in files' && files'[f] == files[f]
    requires
      var pro := Before(base, entries, |entries|);
      && pro.filenum in files && pro.filenum in files'
      && pro.offset <= |files[pro.filenum]| && pro.offset <= |files'[pro.filenum]|
      && files[pro.filenum][..pro.offset] == files'[pro.filenum][..pro.offset]
    ensures HistoryOk(files', limit, base, entries)
  {
    var pro := Before(base, entries, |entries|);
    HistoryChained(files, limit, base, entries);
    PositionsIncrease(limit, base, entries, 0, |entries|);
    if base.filenum == pro.filenum {
      assert files[base.filenum][..base.offset] == files[pro.filenum][..pro.offset][..base.offset];
      assert files'[base.filenum][..base.offset] == files'[pro.filenum][..pro.offset][..base.offset];
      RecordsFrame(files[base.filenum], files'[base.filenum], BlockStart(base.offset), base.offset);
    }
    forall k | 0 <= k < |entries|
      ensures EntryOk(files', limit, base, entries, k)
    {
      EntryFrame(files, files', limit, base, entries, k);
    }
  }

  lemma EntryFrame(files: map<nat, seq<byte>>, files': map<nat, seq<byte>>, limit: nat, base: Position, entries: seq<Entry>, k: nat)
    requires HistoryOk(files, limit, base, entries) && k < |entries|
    requires forall f | f in files && f < Before(base, entries, |entries|).filenum :: f in files' && files'[f] == files[f]
    requires
      var pro := Before(base, entries, |entries|);
      && pro.filenum in files && pro.filenum in files'
      && pro.offset <= |files[pro.filenum]| && pro.offset <= |files'[pro.filenum]|
      && files[pro.filenum][..pro.offset] == files'[pro.filenum][..pro.offset]
    ensures EntryOk(files', limit, base, entries, k)
  {
    var pro := Before(base, entries, |entries|);
    var e := entries[k];
    assert EntryOk(files, limit, base, entries, k);
    HistoryChained(files, limit, base, entries);
    PositionsIncrease(limit, base, entries, k + 1, |entries|);
    if e.start.filenum == pro.filenum {
      FragmentsFrame(files[pro.filenum], files'[pro.filenum], e.start.offset, e.start.offset % BLOCK_SIZE, e.item, true, pro.offset);
    }
  }

  /** Appending an item's fragments at the producer position extends the history. */
  lemma HistoryExtend(files: map<nat, seq<byte>>, files': map<nat, seq<byte>>, limit: nat, base: Position, entries: seq<Entry>,
                      item: seq<byte>, entries': seq<Entry>)
    requires HistoryOk(files, limit, base, entries)
    requires entries' == entries + [Entry(item, Rolled(Before(base, entries, |entries|), limit))]
    requires
      var pro := Before(base, entries, |entries|);
      var start := Rolled(pro, limit);
      && pro.filenum in files && |files[pro.filenum]| == pro.offset
      && (forall f | f in files && f < start.filenum :: f in files' && files'[f] == files[f])
      && start.filenum in files' && start.offset <= |files'[start.filenum]|
      && (start == pro ==> files'[pro.filenum][..pro.offset] == files[pro.filenum])
      && FragmentsAt(files'[start.filenum], start.offset, start.offset % BLOCK_SIZE, item, true)
    ensures HistoryOk(files', limit, base, entries')
  {
    var pro := Before(base, entries, |entries|);
    assert files[pro.filenum][..pro.offset] == files[pro.filenum];
    HistoryFrame(files, files', limit, base, entries);
    forall k | 0 <= k < |entries'|
      ensures EntryOk(files', limit, base, entries', k)
    {
      assert Before(base, entries', k) == Before(base, entries, k);
      if k < |entries| {
        assert EntryOk(files', limit, base, entries, k);
      }
    }
  }

  /* ---------- every block start leads to every item end in its block ---------- */

  lemma {:induction false} RecordsAppend(file: seq<byte>, p: nat, mid: nat, t: byte, payload: seq<byte>, end: nat)
    requires RecordsBetween(file, p, mid)
    requires RecordAt(file, mid, t, payload) && |payload| <= BLOCK_SIZE - HEADER_SIZE
    requires t in {FULL_TYPE, LAST_TYPE, BAD_RECORD}
    requires end == mid + HEADER_SIZE + |payload|
    ensures RecordsBetween(file, p, end)
    decreases mid - p
  {
    if p < mid {
      RecordsAppend(file, p + HEADER_SIZE + LengthAt(file, p), mid, t, payload, end);
    }
  }

  lemma BlockEnds(pos: nat, block: nat, d: nat)
    requires block <= BLOCK_SIZE && pos % BLOCK_SIZE == block % BLOCK_SIZE
    requires block + d == BLOCK_SIZE || block + d == 2 * BLOCK_SIZE
    ensures (pos + d) % BLOCK_SIZE == 0
  {
  }

  /** The last fragment of an item starts at the start of the block it ends in,
      or is the item's only fragment. */
  lemma {:induction false} LastFragment(file: seq<byte>, pos: nat, block: nat, item: seq<byte>, begin: bool) returns (p: nat, t: byte, payload: seq<byte>)
    requires block <= BLOCK_SIZE && item != []
    requires pos % BLOCK_SIZE == block % BLOCK_SIZE
    requires FragmentsAt(file, pos, block, item, begin)
    ensures p + HEADER_SIZE + |payload| == pos + Size(block, |item|)
    ensures |payload| > 0
    ensures || (p == pos && block + HEADER_SIZE + |payload| <= BLOCK_SIZE)
            || (p % BLOCK_SIZE == 0 && HEADER_SIZE + |payload| <= BLOCK_SIZE)
    ensures t in {FULL_TYPE, LAST_TYPE} && RecordAt(file, p, t, payload)
    decreases |item|, block == BLOCK_SIZE - HEADER_SIZE
  {
    var n := FragmentLength(block, |item|);
    p, t, payload := pos + Gap(block), TypeOf(begin, n, |item|), item[..n];
    if n < |item| {
      BlockEnds(pos, block, Gap(block) + HEADER_SIZE + n);
      p, t, payload := LastFragment(file, p + HEADER_SIZE + n, BLOCK_SIZE, item[n..], false);
    } else if Gap(block) > 0 {
      BlockEnds(pos, block, Gap(block));
    }
  }

  lemma SameBlock(p: nat, d: nat)
    requires 0 < d && p % BLOCK_SIZE + d <= BLOCK_SIZE && (p + d) % BLOCK_SIZE != 0
    ensures BlockStart(p + d) == BlockStart(p)
  {
  }

  /** From the start of the block that holds a producer position, records lead
      to that position. */
  lemma {:induction false} BlockLeadsTo(files: map<nat, seq<byte>>, limit: nat, base: Position, entries: seq<Entry>, k: nat)
    requires HistoryOk(files, limit, base, entries)
    requires forall e | e in entries :: e.item != []
    requires k <= |entries|
    ensures
      var t := Before(base, entries, k);
      t.filenum in files && RecordsBetween(files[t.filenum], BlockStart(t.offset), t.offset)
  {
    if k > 0 {
      var before, e := Before(base, entries, k - 1), entries[k - 1];
      BlockLeadsTo(files, limit, base, entries, k - 1);
      assert EntryOk(files, limit, base, entries, k - 1);
      EntryBlock(files[e.start.filenum], e);
    }
  }

  lemma EntryBlock(file: seq<byte>, e: Entry)
    requires e.item != []
    requires FragmentsAt(file, e.start.offset, e.start.offset % BLOCK_SIZE, e.item, true)
    requires RecordsBetween(file, BlockStart(e.start.offset), e.start.offset)
    ensures RecordsBetween(file, BlockStart(e.End().offset), e.End().offset)
  {
    var start, end := e.start.offset, e.End().offset;
    var p, t, payload := LastFragment(file, start, start % BLOCK_SIZE, e.item, true);
    if end % BLOCK_SIZE != 0 {
      SameBlock(p, HEADER_SIZE + |payload|);
      RecordsAppend(file, BlockStart(p), p, t, payload, end);
    }
  }

  lemma PaddingLeadsTo(blocks: nat, rest: nat, now: nat, file: seq<byte>)
    requires rest < BLOCK_SIZE && file == Padding(blocks, rest, now)
    ensures RecordsBetween(file, blocks * BLOCK_SIZE, |file|)
  {
    if rest >= HEADER_SIZE {
      var p := blocks * BLOCK_SIZE;
      assert file == [] + Padding(blocks, rest, now);
      PaddingLastRecord([], blocks, rest, now, file, p);
      RecordsAppend(file, p, p, BAD_RECORD, Stars(rest - HEADER_SIZE), |file|);
    }
  }

  /** A file of padding is an empty history that starts at its end. */
  lemma PaddingHistory(files: map<nat, seq<byte>>, limit: nat, num: nat, len: nat, now: nat)
    requires num in files && files[num] == PaddingFor(len, now)
    ensures HistoryOk(files, limit, Position(num, PaddedLength(len)), [])
  {
    PaddingLeadsTo(len / BLOCK_SIZE, len % BLOCK_SIZE, now, files[num]);
    assert BlockStart(PaddedLength(len)) == len / BLOCK_SIZE * BLOCK_SIZE;
  }

  lemma HistoryPrefix(files: map<nat, seq<byte>>, limit: nat, base: Position, entries: seq<Entry>, k: nat)
    requires HistoryOk(files, limit, base, entries) && k <= |entries|
    ensures HistoryOk(files, limit, base, entries[..k])
  {
    forall i | 0 <= i < k
      ensures EntryOk(files, limit, base, entries[..k], i)
    {
      assert EntryOk(files, limit, base, entries, i);
      assert Before(base, entries[..k], i) == Before(base, entries, i);
    }
  }

  /** The file that holds a producer position reaches that far. */
  lemma PositionInFile(files: map<nat, seq<byte>>, limit: nat, base: Position, entries: seq<Entry>, k: nat)
    requires HistoryOk(files, limit, base, entries) && k <= |entries|
    ensures
      var t := Before(base, entries, k);
      t.filenum in files && t.offset <= |files[t.filenum]|
  {
    if k > 0 {
      var e := entries[k - 1];
      assert EntryOk(files, limit, base, entries, k - 1);
      FragmentsBound(files[e.start.filenum], e.start.offset, e.start.offset % BLOCK_SIZE, e.item, true);
    }
  }

  /** Cutting the files back to the producer position after `k` items leaves
      exactly those `k` items. */
  lemma HistoryCut(files: map<nat, seq<byte>>, files': map<nat, seq<byte>>, limit: nat, base: Position, entries: seq<Entry>, k: nat)
    requires HistoryOk(files, limit, base, entries) && k <= |entries|
    requires
      var t := Before(base, entries, k);
      && (forall f | f in files && f < t.filenum :: f in files' && files'[f] == files[f])
      && t.filenum in files && t.filenum in files'
      && t.offset <= |files[t.filenum]|
      && files'[t.filenum] == files[t.filenum][..t.offset]
    ensures HistoryOk(files', limit, base, entries[..k])
    ensures Before(base, entries[..k], k) == Before(base, entries, k)
  {
    HistoryPrefix(files, limit, base, entries, k);
    var t := Before(base, entries, k);
    assert Before(base, entries[..k], k) == t;
    assert files'[t.filenum][..t.offset] == files'[t.filenum];
    HistoryFrame(files, files', limit, base, entries[..k]);
  }
}
