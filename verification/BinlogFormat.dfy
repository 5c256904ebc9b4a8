/**
 Physical layout of a binlog file: 64 KB blocks holding records with an 8-byte
 header. An item is cut into fragments so that no record crosses a block.

 Positions are unbounded naturals; a file is the exact sequence of its bytes.
 `block` is the number of bytes used in the current block, from 0 to
 BLOCK_SIZE: a full block and an untouched next one are the same place.
 */
module BinlogFormat {
  type byte = x: int | 0 <= x < 256

  const BLOCK_SIZE: nat := 65536
  const HEADER_SIZE: nat := 8

  // Record type codes
  const ZERO_TYPE: byte := 0
  const FULL_TYPE: byte := 1
  const FIRST_TYPE: byte := 2
  const MIDDLE_TYPE: byte := 3
  const LAST_TYPE: byte := 4
  const EOF_CODE: byte := 5
  const BAD_RECORD: byte := 6
  const OLD_RECORD: byte := 7

  /* ---------- where the writer puts things ---------- */

  /** Trailer bytes skipped because no header fits in the rest of the block. */
  function Gap(block: nat): nat
    requires block <= BLOCK_SIZE
  {
    if BLOCK_SIZE - block < HEADER_SIZE then BLOCK_SIZE - block else 0
  }

  /** Bytes used in the block before the next header. */
  function RecordStart(block: nat): nat
    requires block <= BLOCK_SIZE
  {
    if BLOCK_SIZE - block < HEADER_SIZE then 0 else block
  }

  /** Item bytes in the next record, when `left` bytes are still to be written. */
  function FragmentLength(block: nat, left: nat): nat
    requires block <= BLOCK_SIZE
  {
    var avail := BLOCK_SIZE - RecordStart(block) - HEADER_SIZE;
    if left < avail then left else avail
  }

  /** Bytes appended to the file for the last `left` bytes of an item. */
  function Size(block: nat, left: nat): (size: nat)
    requires block <= BLOCK_SIZE
    ensures size >= HEADER_SIZE + left
    decreases left, block == BLOCK_SIZE - HEADER_SIZE
  {
    var n := FragmentLength(block, left);
    Gap(block) + HEADER_SIZE + n + if n == left then 0 else Size(BLOCK_SIZE, left - n)
  }

  /** Bytes used in the block where the last fragment ends. */
  function EndBlock(block: nat, left: nat): (end: nat)
    requires block <= BLOCK_SIZE
    ensures end <= BLOCK_SIZE
    decreases left, block == BLOCK_SIZE - HEADER_SIZE
  {
    var n := FragmentLength(block, left);
    if n == left then RecordStart(block) + HEADER_SIZE + n else EndBlock(BLOCK_SIZE, left - n)
  }

  /** The file length and the block fill stay in step. */
  lemma {:induction false} EndBlockPhase(block: nat, left: nat)
    requires block <= BLOCK_SIZE
    ensures EndBlock(block, left) % BLOCK_SIZE == (block + Size(block, left)) % BLOCK_SIZE
    decreases left, block == BLOCK_SIZE - HEADER_SIZE
  {
    var n := FragmentLength(block, left);
    if n < left {
      EndBlockPhase(BLOCK_SIZE, left - n);
    }
  }

  lemma SamePhase(a: nat, b: nat, d: nat)
    requires a % BLOCK_SIZE == b % BLOCK_SIZE
    ensures (a + d) % BLOCK_SIZE == (b + d) % BLOCK_SIZE
  {
  }

  /** A full block and an untouched next one are the same place. */
  lemma SizePeriod(block: nat, block': nat, left: nat)
    requires block <= BLOCK_SIZE && block' <= BLOCK_SIZE && block % BLOCK_SIZE == block' % BLOCK_SIZE
    ensures Size(block, left) == Size(block', left)
  {
    assert Gap(BLOCK_SIZE) == Gap(0) == 0;
  }

  /** Type of the record that holds `n` of the `left` bytes still to be written. */
  function TypeOf(begin: bool, n: nat, left: nat): byte {
    if begin && n == left then FULL_TYPE
    else if begin then FIRST_TYPE
    else if n == left then LAST_TYPE
    else MIDDLE_TYPE
  }

  /** Producer offset after putting an item of `len` bytes at offset `pos`. */
  function EndOf(pos: nat, len: nat): (e: nat)
    ensures e >= pos + HEADER_SIZE + len
  {
    pos + Size(pos % BLOCK_SIZE, len)
  }

  /** The block fill after an item agrees with the producer offset after it. */
  lemma EndsInSync(block: nat, pos: nat, len: nat)
    requires block <= BLOCK_SIZE && block % BLOCK_SIZE == pos % BLOCK_SIZE
    ensures pos + Size(block, len) == EndOf(pos, len)
    ensures EndBlock(block, len) % BLOCK_SIZE == EndOf(pos, len) % BLOCK_SIZE
  {
    SizePeriod(block, pos % BLOCK_SIZE, len);
    EndBlockPhase(block, len);
    SamePhase(block, pos, Size(block, len));
  }

  /* ---------- the bytes ---------- */

  function HeaderBytes(n: nat, now: nat, t: byte): (h: seq<byte>)
    requires n <= 0xff_ffff
    ensures |h| == HEADER_SIZE
  {
    [n % 256, n / 256 % 256, n / 65536,
     now % 256, now / 256 % 256, now / 65536 % 256, now / 16777216 % 256,
     t]
  }

  function Zeros(n: nat): (z: seq<byte>)
    ensures |z| == n
  {
    seq(n, i => 0)
  }

  /** One record as written: `gap` trailer bytes, the header, the payload. */
  function RecordBytes(gap: nat, payload: seq<byte>, now: nat, t: byte): (b: seq<byte>)
    requires |payload| <= 0xff_ffff
    ensures |b| == gap + HEADER_SIZE + |payload|
  {
    Zeros(gap) + HeaderBytes(|payload|, now, t) + payload
  }

  /** All bytes the writer appends for `item`; `clock(k)` is the second in which
      the record that leaves `k` item bytes unwritten before it is emitted. */
  function Layout(block: nat, item: seq<byte>, begin: bool, clock: (nat, bool) -> nat): (b: seq<byte>)
    requires block <= BLOCK_SIZE
    ensures |b| == Size(block, |item|)
    decreases |item|, block == BLOCK_SIZE - HEADER_SIZE
  {
    var n := FragmentLength(block, |item|);
    RecordBytes(Gap(block), item[..n], clock(|item|, begin), TypeOf(begin, n, |item|)) +
    if n == |item| then [] else Layout(BLOCK_SIZE, item[n..], false, clock)
  }

  /** An item that fits in its block, byte by byte: its length in three bytes and the second
      in four, both lowest byte first, the type of a whole item, and the item. */
  lemma SmallItem(block: nat, item: seq<byte>, clock: (nat, bool) -> nat)
    requires block + HEADER_SIZE + |item| <= BLOCK_SIZE
    ensures
      var b := Layout(block, item, true, clock);
      && |b| == 8 + |item| && b[8..] == item && b[7] == 1
      && b[0] as int + 256 * b[1] as int + 65536 * b[2] as int == |item|
      && b[3] as int == clock(|item|, true) % 256 && b[4] as int == clock(|item|, true) / 256 % 256
      && b[5] as int == clock(|item|, true) / 65536 % 256 && b[6] as int == clock(|item|, true) / 16777216 % 256
  {
    var now := clock(|item|, true);
    assert item[..|item|] == item;
    assert Layout(block, item, true, clock) == HeaderBytes(|item|, now, FULL_TYPE) + item;
  }

  function LengthAt(file: seq<byte>, p: nat): nat
    requires p + HEADER_SIZE <= |file|
  {
    file[p] as int + 256 * file[p + 1] as int + 65536 * file[p + 2] as int
  }

  function TypeAt(file: seq<byte>, p: nat): byte
    requires p + HEADER_SIZE <= |file|
  {
    file[p + 7]
  }

  /** The record at `p` has type `t` and payload `payload`. */
  ghost predicate RecordAt(file: seq<byte>, p: nat, t: byte, payload: seq<byte>) {
    && p + HEADER_SIZE + |payload| <= |file|
    && LengthAt(file, p) == |payload|
    && TypeAt(file, p) == t
    && file[p + HEADER_SIZE..p + HEADER_SIZE + |payload|] == payload
  }

  /** From `pos` on, where `block` bytes of the block are used, `file` holds the
      fragments of `item`. */
  ghost predicate FragmentsAt(file: seq<byte>, pos: nat, block: nat, item: seq<byte>, begin: bool)
    requires block <= BLOCK_SIZE
    decreases |item|, block == BLOCK_SIZE - HEADER_SIZE
  {
    var n := FragmentLength(block, |item|);
    var p := pos + Gap(block);
    && RecordAt(file, p, TypeOf(begin, n, |item|), item[..n])
    && (n < |item| ==> FragmentsAt(file, p + HEADER_SIZE + n, BLOCK_SIZE, item[n..], false))
  }

  lemma FragmentsPeriod(file: seq<byte>, pos: nat, block: nat, block': nat, item: seq<byte>, begin: bool)
    requires block <= BLOCK_SIZE && block' <= BLOCK_SIZE && block % BLOCK_SIZE == block' % BLOCK_SIZE
    requires FragmentsAt(file, pos, block, item, begin)
    ensures FragmentsAt(file, pos, block', item, begin)
  {
    if block != block' {
      assert Gap(block) == 0 == Gap(block') && RecordStart(block) == 0 == RecordStart(block');
      var n := FragmentLength(block, |item|);
      assert n == FragmentLength(block', |item|);
      assert RecordAt(file, pos, TypeOf(begin, n, |item|), item[..n]);
    }
  }

  lemma {:induction false} FragmentsBound(file: seq<byte>, pos: nat, block: nat, item: seq<byte>, begin: bool)
    requires block <= BLOCK_SIZE
    requires FragmentsAt(file, pos, block, item, begin)
    ensures pos + Size(block, |item|) <= |file|
    decreases |item|, block == BLOCK_SIZE - HEADER_SIZE
  {
    var n := FragmentLength(block, |item|);
    if n < |item| {
      FragmentsBound(file, pos + Gap(block) + HEADER_SIZE + n, BLOCK_SIZE, item[n..], false);
    }
  }

  lemma RecordAtFrame(file: seq<byte>, file': seq<byte>, p: nat, t: byte, payload: seq<byte>, upTo: nat)
    requires RecordAt(file, p, t, payload)
    requires p + HEADER_SIZE + |payload| <= upTo <= |file| && upTo <= |file'|
    requires file[..upTo] == file'[..upTo]
    ensures RecordAt(file', p, t, payload)
  {
    assert forall i :: 0 <= i < upTo ==> file'[i] == file[..upTo][i];
  }

  /** What an item occupies is settled by the bytes before its end. */
  lemma {:induction false} FragmentsFrame(file: seq<byte>, file': seq<byte>, pos: nat, block: nat,
                                          item: seq<byte>, begin: bool, upTo: nat)
    requires block <= BLOCK_SIZE
    requires FragmentsAt(file, pos, block, item, begin)
    requires pos + Size(block, |item|) <= upTo <= |file| && upTo <= |file'|
    requires file[..upTo] == file'[..upTo]
    ensures FragmentsAt(file', pos, block, item, begin)
    decreases |item|, block == BLOCK_SIZE - HEADER_SIZE
  {
    var n := FragmentLength(block, |item|);
    RecordAtFrame(file, file', pos + Gap(block), TypeOf(begin, n, |item|), item[..n], upTo);
    if n < |item| {
      FragmentsFrame(file, file', pos + Gap(block) + HEADER_SIZE + n, BLOCK_SIZE, item[n..], false, upTo);
    }
  }

  /** A record appended to `before`, after `gap` trailer bytes, is found again. */
  lemma AppendedRecord(before: seq<byte>, p: nat, gap: nat, payload: seq<byte>, now: nat, t: byte,
                       rest: seq<byte>, file: seq<byte>)
    requires |payload| <= 0xff_ffff && p == |before| + gap
    requires file == before + (RecordBytes(gap, payload, now, t) + rest)
    ensures RecordAt(file, p, t, payload)
  {
    var h := HeaderBytes(|payload|, now, t);
    assert forall i :: 0 <= i < HEADER_SIZE ==> file[p + i] == h[i];
    assert file[p + HEADER_SIZE..p + HEADER_SIZE + |payload|] == payload;
  }

  /** A layout is its first record and the layout of the rest of the item. */
  lemma LayoutRest(file: seq<byte>, pos: nat, block: nat, item: seq<byte>, begin: bool, clock: (nat, bool) -> nat, n: nat, pos': nat)
    requires pos <= |file| && block <= BLOCK_SIZE && n == FragmentLength(block, |item|) && n < |item|
    requires pos' == pos + Gap(block) + HEADER_SIZE + n
    requires file[pos..] == Layout(block, item, begin, clock)
    ensures pos' <= |file| && file[pos'..] == Layout(BLOCK_SIZE, item[n..], false, clock)
  {
    var record := RecordBytes(Gap(block), item[..n], clock(|item|, begin), TypeOf(begin, n, |item|));
    var rest := Layout(BLOCK_SIZE, item[n..], false, clock);
    assert file[pos..] == record + rest;
    assert file[pos'..] == file[pos..][|record|..];
  }

  lemma LayoutRecord(file: seq<byte>, pos: nat, block: nat, item: seq<byte>, begin: bool, clock: (nat, bool) -> nat, n: nat)
    requires pos <= |file| && block <= BLOCK_SIZE && n == FragmentLength(block, |item|)
    requires file[pos..] == Layout(block, item, begin, clock)
    ensures RecordAt(file, pos + Gap(block), TypeOf(begin, n, |item|), item[..n])
  {
    var now, t := clock(|item|, begin), TypeOf(begin, n, |item|);
    var rest := if n == |item| then [] else Layout(BLOCK_SIZE, item[n..], false, clock);
    assert file == file[..pos] + file[pos..];
    AppendedRecord(file[..pos], pos + Gap(block), Gap(block), item[..n], now, t, rest, file);
  }

  lemma FragmentsFrom(file: seq<byte>, pos: nat, block: nat, item: seq<byte>, begin: bool, n: nat, pos': nat)
    requires block <= BLOCK_SIZE && n == FragmentLength(block, |item|) && pos' == pos + Gap(block) + HEADER_SIZE + n
    requires RecordAt(file, pos + Gap(block), TypeOf(begin, n, |item|), item[..n])
    requires n < |item| ==> FragmentsAt(file, pos', BLOCK_SIZE, item[n..], false)
    ensures FragmentsAt(file, pos, block, item, begin)
  {
  }

  lemma LayoutStep(file: seq<byte>, pos: nat, block: nat, item: seq<byte>, begin: bool, clock: (nat, bool) -> nat, n: nat, pos': nat)
    requires pos <= |file| && block <= BLOCK_SIZE && n == FragmentLength(block, |item|)
    requires pos' == pos + Gap(block) + HEADER_SIZE + n
    requires file[pos..] == Layout(block, item, begin, clock)
    requires n < |item| ==> FragmentsAt(file, pos', BLOCK_SIZE, item[n..], false)
    ensures FragmentsAt(file, pos, block, item, begin)
  {
    LayoutRecord(file, pos, block, item, begin, clock, n);
    FragmentsFrom(file, pos, block, item, begin, n, pos');
  }

  /** The bytes of `Layout` are the fragments of the item. */
  lemma {:induction false} LayoutFragments(file: seq<byte>, pos: nat, block: nat, item: seq<byte>, begin: bool, clock: (nat, bool) -> nat)
    requires pos <= |file| && block <= BLOCK_SIZE
    requires file[pos..] == Layout(block, item, begin, clock)
    ensures FragmentsAt(file, pos, block, item, begin)
    decreases |item|, block == BLOCK_SIZE - HEADER_SIZE
  {
    var n := FragmentLength(block, |item|);
    var pos' := pos + Gap(block) + HEADER_SIZE + n;
    if n < |item| {
      LayoutRest(file, pos, block, item, begin, clock, n, pos');
      LayoutFragments(file, pos', BLOCK_SIZE, item[n..], false, clock);
    }
    LayoutStep(file, pos, block, item, begin, clock, n, pos');
  }

  lemma LayoutAtOffset(before: seq<byte>, pos: nat, block: nat, item: seq<byte>, clock: (nat, bool) -> nat, file: seq<byte>)
    requires pos == |before| && block <= BLOCK_SIZE && block % BLOCK_SIZE == pos % BLOCK_SIZE
    requires file == before + Layout(block, item, true, clock)
    ensures FragmentsAt(file, pos, pos % BLOCK_SIZE, item, true)
  {
    assert pos % BLOCK_SIZE % BLOCK_SIZE == pos % BLOCK_SIZE;
    assert file[pos..] == Layout(block, item, true, clock);
    LayoutFragments(file, pos, block, item, true, clock);
    FragmentsPeriod(file, pos, block, pos % BLOCK_SIZE, item, true);
  }

  /* ---------- padding after a full synchronisation ---------- */

  function Stars(n: nat): (b: seq<byte>)
    ensures |b| == n
  {
    seq(n, i => 42)
  }

  /** Bad records that fill `blocks` blocks and the first `rest` bytes of another;
      a rest too small for a header is dropped. */
  function Padding(blocks: nat, rest: nat, now: nat): (b: seq<byte>)
    requires rest < BLOCK_SIZE
    ensures |b| == blocks * BLOCK_SIZE + if rest < HEADER_SIZE then 0 else rest
  {
    if blocks > 0 then
      RecordBytes(0, Stars(BLOCK_SIZE - HEADER_SIZE), now, BAD_RECORD) + Padding(blocks - 1, rest, now)
    else if rest >= HEADER_SIZE then
      RecordBytes(0, Stars(rest - HEADER_SIZE), now, BAD_RECORD)
    else []
  }

  /** Offset at which padding for the offset `len` really ends. */
  function PaddedLength(len: nat): nat {
    if len % BLOCK_SIZE < HEADER_SIZE then len - len % BLOCK_SIZE else len
  }

  /** The offset padded for when a log is restarted at `offset`. */
  function AskedOffset(offset: nat): nat { if offset < 4 then 0 else offset }

  /** The producer offset after a restart at `offset`. */
  function RestartOffset(offset: nat): nat {
    if offset < 4 then 0 else if offset < HEADER_SIZE then offset else PaddedLength(offset)
  }

  function PaddingFor(len: nat, now: nat): (b: seq<byte>)
    ensures |b| == PaddedLength(len)
  {
    Padding(len / BLOCK_SIZE, len % BLOCK_SIZE, now)
  }

  lemma {:induction false} PaddingLastRecord(before: seq<byte>, blocks: nat, rest: nat, now: nat, file: seq<byte>, p: nat)
    requires HEADER_SIZE <= rest < BLOCK_SIZE && p == |before| + blocks * BLOCK_SIZE
    requires file == before + Padding(blocks, rest, now)
    ensures RecordAt(file, p, BAD_RECORD, Stars(rest - HEADER_SIZE))
    decreases blocks
  {
    if blocks == 0 {
      AppendedRecord(before, p, 0, Stars(rest - HEADER_SIZE), now, BAD_RECORD, [], file);
    } else {
      var record := RecordBytes(0, Stars(BLOCK_SIZE - HEADER_SIZE), now, BAD_RECORD);
      assert file == (before + record) + Padding(blocks - 1, rest, now);
      PaddingLastRecord(before + record, blocks - 1, rest, now, file, p);
    }
  }
}
