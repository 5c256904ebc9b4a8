/**
 The producer side of the binlog: a numbered family of files, the producer
 position, and the loops that cut items into records.

 File operations always succeed; the clock and the configured file size are
 parameters. `base` and `entries` are the history since the producer position
 was last set.
 */
module BinlogWriter {
  import opened BinlogFormat
  import opened BinlogHistory

  datatype Status = Ok | Busy | IOError

  class Binlog {
    const fileSize: nat
    var isOpen: bool
    var files: map<nat, seq<byte>>
    var proNum: nat
    var proOffset: nat
    var logicId: nat
    var term: nat
    var blockOffset: nat

    ghost var base: Position
    ghost var entries: seq<Entry>

    ghost predicate Valid()
      reads this
    {
      && InSync()
      && HistoryOk(files, fileSize, base, entries)
      && Position(proNum, proOffset) == Before(base, entries, |entries|)
    }

    /** The producer offset is the length of the current file, and the writer
        knows how much of the current block is used. */
    ghost predicate InSync()
      reads this
    {
      && proNum in files && |files[proNum]| == proOffset
      && blockOffset <= BLOCK_SIZE && blockOffset % BLOCK_SIZE == proOffset % BLOCK_SIZE
    }

    /** An empty directory: file 0 is created. */
    constructor (limit: nat)
      ensures Valid() && isOpen
      ensures fileSize == limit && proNum == 0 && proOffset == 0 && logicId == 0
      ensures base == Position(0, 0) && entries == []
    {
      fileSize := limit;
      isOpen := true;
      files := map[0 := []];
      proNum, proOffset, logicId, term := 0, 0, 0, 0;
      blockOffset := 0;
      base, entries := Position(0, 0), [];
    }

    /** Opens the files of an earlier log at the position its manifest holds; what lies
        beyond it in the current file is not part of the log. */
    constructor Reopen(limit: nat, disk: map<nat, seq<byte>>, num: nat, offset: nat, index: nat, term: nat,
                       ghost base: Position, ghost entries: seq<Entry>)
      requires HistoryOk(disk, limit, base, entries) && Position(num, offset) == Before(base, entries, |entries|)
      ensures Valid() && isOpen && fileSize == limit
      ensures proNum == num && proOffset == offset && logicId == index && this.term == term
      ensures this.base == base && this.entries == entries
    {
      PositionInFile(disk, limit, base, entries, |entries|);
      ghost var cut := disk[num := disk[num][..offset]];
      HistoryCut(disk, cut, limit, base, entries, |entries|);
      assert entries[..|entries|] == entries;
      fileSize := limit;
      isOpen := true;
      files := disk[num := disk[num][..offset]];
      proNum, proOffset, logicId, this.term := num, offset, index, term;
      blockOffset := offset % BLOCK_SIZE;
      this.base, this.entries := base, entries;
    }

    method InitLogFile()
      requires proNum in files
      modifies this`blockOffset, this`isOpen
      ensures isOpen && blockOffset == |files[proNum]| % BLOCK_SIZE
    {
      blockOffset := |files[proNum]| % BLOCK_SIZE;
      isOpen := true;
    }

    method EmitPhysicalRecord(t: byte, payload: seq<byte>, now: nat) returns (written: nat)
      requires proNum in files
      requires |payload| <= 0xff_ffff
      requires blockOffset + HEADER_SIZE + |payload| <= BLOCK_SIZE
      modifies this`files, this`blockOffset
      ensures files == old(files)[proNum := old(files)[proNum] + RecordBytes(0, payload, now, t)]
      ensures blockOffset == old(blockOffset) + HEADER_SIZE + |payload|
      ensures written == HEADER_SIZE + |payload|
    {
      var n := |payload|;
      var header := [n % 256, n / 256 % 256, n / 65536,
                     now % 256, now / 256 % 256, now / 65536 % 256, now / 16777216 % 256, t];
      files := files[proNum := files[proNum] + header];
      files := files[proNum := files[proNum] + payload];
      blockOffset := blockOffset + HEADER_SIZE + n;
      written := HEADER_SIZE + n;
      assert old(files)[proNum] + header + payload == old(files)[proNum] + RecordBytes(0, payload, now, t);
    }

    /** One round of the loop in `Produce`: a trailer if no header fits, then the
        next record of the `left` bytes still to be written. */
    method ProduceRecord(left: seq<byte>, begin: bool, now: nat) returns (n: nat, written: nat)
      requires proNum in files && blockOffset <= BLOCK_SIZE
      modifies this`files, this`blockOffset
      ensures n == FragmentLength(old(blockOffset), |left|) <= |left|
      ensures
        var record := RecordBytes(Gap(old(blockOffset)), left[..n], now, TypeOf(begin, n, |left|));
        files == old(files)[proNum := old(files)[proNum] + record]
      ensures blockOffset == RecordStart(old(blockOffset)) + HEADER_SIZE + n
      ensures written == Gap(old(blockOffset)) + HEADER_SIZE + n
    {
      var leftover := BLOCK_SIZE - blockOffset;
      written := 0;
      if leftover < HEADER_SIZE {
        if leftover > 0 {
          files := files[proNum := files[proNum] + Zeros(leftover)];
          written := leftover;
        }
        blockOffset := 0;
      }
      var avail := BLOCK_SIZE - blockOffset - HEADER_SIZE;
      n := if |left| < avail then |left| else avail;
      var end := |left| == n;
      var t := if begin && end then FULL_TYPE else if begin then FIRST_TYPE else if end then LAST_TYPE else MIDDLE_TYPE;
      var emitted := EmitPhysicalRecord(t, left[..n], now);
      written := written + emitted;
      GapThenRecord(old(files)[proNum], Gap(old(blockOffset)), left[..n], now, t);
    }

    /** Appends the records of `item`; the result is the producer offset after it. */
    method Produce(item: seq<byte>, clock: (nat, bool) -> nat) returns (offset: nat)
      requires proNum in files && blockOffset <= BLOCK_SIZE
      modifies this`files, this`blockOffset
      ensures files == old(files)[proNum := old(files)[proNum] + Layout(old(blockOffset), item, true, clock)]
      ensures offset == proOffset + Size(old(blockOffset), |item|)
      ensures blockOffset == EndBlock(old(blockOffset), |item|)
    {
      ghost var goal := files[proNum] + Layout(blockOffset, item, true, clock);
      var left, begin, done := item, true, false;
      offset := proOffset;
      while !done
        invariant proNum in files && files == old(files)[proNum := files[proNum]]
        invariant blockOffset <= BLOCK_SIZE
        invariant done ==>
                    && files[proNum] == goal
                    && offset == proOffset + Size(old(blockOffset), |item|)
                    && blockOffset == EndBlock(old(blockOffset), |item|)
        invariant !done ==>
                    && files[proNum] + Layout(blockOffset, left, begin, clock) == goal
                    && offset + Size(blockOffset, |left|) == proOffset + Size(old(blockOffset), |item|)
                    && EndBlock(blockOffset, |left|) == EndBlock(old(blockOffset), |item|)
        decreases !done, |left|, blockOffset == BLOCK_SIZE - HEADER_SIZE
      {
        ghost var file, block := files[proNum], blockOffset;
        var n, written := ProduceRecord(left, begin, clock(|left|, begin));
        offset := offset + written;
        StepAppends(file, block, left, begin, clock, files[proNum], goal);
        left := left[n..];
        begin := false;
        done := |left| == 0;
      }
    }

    /** Leaves a file that has grown past the limit for a new, empty one. */
    method RollIfFull()
      requires Valid() && isOpen
      modifies this
      ensures InSync() && isOpen && logicId == old(logicId) && term == old(term)
      ensures base == old(base) && entries == old(entries)
      ensures Position(proNum, proOffset) == Rolled(Position(old(proNum), old(proOffset)), fileSize)
      ensures files == if old(proOffset) > fileSize then old(files)[proNum := []] else old(files)
    {
      if |files[proNum]| > fileSize {
        proNum := proNum + 1;
        files := files[proNum := []];
        proOffset := 0;
        InitLogFile();
      }
    }

    /** Appends an item at the producer position of the current file. */
    method Append(item: seq<byte>, clock: (nat, bool) -> nat)
      requires InSync()
      modifies this`files, this`blockOffset, this`proOffset
      ensures InSync() && proOffset == EndOf(old(proOffset), |item|)
      ensures files == old(files)[proNum := old(files)[proNum] + Layout(old(blockOffset), item, true, clock)]
    {
      EndsInSync(blockOffset, proOffset, |item|);
      proOffset := Produce(item, clock);
    }

    /** Puts an item: rolls to a new file when the current one has grown past
        `fileSize`, then appends the item. */
    method Put(item: seq<byte>, clock: (nat, bool) -> nat) returns (s: Status)
      requires Valid()
      modifies this
      ensures Valid() && isOpen == old(isOpen) && term == old(term) && base == old(base)
      ensures !isOpen ==> s == Busy && files == old(files) && entries == old(entries) && logicId == old(logicId)
      ensures isOpen ==>
                && s == Ok
                && entries == old(entries) + [Entry(item, Rolled(Position(old(proNum), old(proOffset)), fileSize))]
                && Position(proNum, proOffset) == PutPosition(Position(old(proNum), old(proOffset)), |item|, fileSize)
                && logicId == old(logicId) + 1
    {
      if !isOpen {
        return Busy;
      }
      RollIfFull();
      ghost var start, block, file := Position(proNum, proOffset), blockOffset, files[proNum];
      Append(item, clock);
      LayoutAtOffset(file, start.offset, block, item, clock, files[proNum]);
      logicId := logicId + 1;
      ghost var entries' := entries + [Entry(item, start)];
      HistoryExtend(old(files), files, fileSize, base, entries, item, entries');
      entries := entries';
      return Ok;
    }

    /** Fills a new file with bad records; a length below one header is left as it is. */
    static method AppendPadding(file: seq<byte>, len: nat, now: nat) returns (padded: seq<byte>, length: nat)
      ensures padded == file + PaddingFor(len, now)
      ensures length == if len < HEADER_SIZE then len else PaddedLength(len)
    {
      padded, length := file, len;
      if len < HEADER_SIZE {
        return;
      }
      ghost var blocks, rest, done := len / BLOCK_SIZE, len % BLOCK_SIZE, false;
      ghost var goal := file + Padding(blocks, rest, now);
      var left: nat := len;
      while left > 0
        invariant left <= len
        invariant
          if done then left == 0 && rest >= HEADER_SIZE && padded == goal
          else left == blocks * BLOCK_SIZE + rest && padded + Padding(blocks, rest, now) == goal
      {
        var size := if left >= BLOCK_SIZE then BLOCK_SIZE else left;
        if size < HEADER_SIZE {
          break;
        }
        var bsize := size - HEADER_SIZE;
        ghost var was := padded;
        padded := padded + HeaderBytes(bsize, now, BAD_RECORD);
        padded := padded + Stars(bsize);
        PaddingStep(was, blocks, rest, now, goal, padded);
        left := left - size;
        blocks, done := if blocks > 0 then blocks - 1 else 0, blocks == 0;
      }
      length := len - left;
    }

    /** Replaces file `num`, and the initial file 0, by a file of padding. */
    method InstallPadding(num: nat, offset: nat, now: nat) returns (length: nat)
      modifies this`files
      ensures files == (old(files) - {0, num})[num := PaddingFor(offset, now)]
      ensures length == if offset < HEADER_SIZE then offset else PaddedLength(offset)
    {
      files := files - {0};
      files := files - {num};
      var padded;
      padded, length := AppendPadding([], offset, now);
      files := files[num := padded];
      assert padded == PaddingFor(offset, now);
      assert old(files) - {0} - {num} == old(files) - {0, num};
    }

    /** Moves the producer to the end of a new file of padding. */
    method OpenPadded(num: nat, offset: nat, now: nat)
      modifies this`files, this`proNum, this`proOffset, this`blockOffset, this`isOpen
      ensures isOpen && proNum == num && proOffset == RestartOffset(offset)
      ensures files == (old(files) - {0, num})[num := PaddingFor(AskedOffset(offset), now)]
      ensures blockOffset == PaddedLength(AskedOffset(offset)) % BLOCK_SIZE
    {
      var asked := if offset < 4 then 0 else offset;
      var length := InstallPadding(num, asked, now);
      proNum, proOffset := num, length;
      InitLogFile();
    }

    /** Restarts the log at a given position, after a full synchronisation: the
        new current file holds padding up to that offset. */
    method SetProducerStatus(num: nat, offset: nat, newTerm: nat, index: nat, now: nat) returns (s: Status)
      modifies this
      ensures !old(isOpen) ==> s == Busy && unchanged(this)
      ensures old(isOpen) ==>
                && s == Ok && isOpen
                && proNum == num && term == newTerm && logicId == index
                && proOffset == RestartOffset(offset)
                && files == (old(files) - {0, num})[num := PaddingFor(AskedOffset(offset), now)]
                && base == Position(num, proOffset) && entries == []
                && (Valid() <==> !(4 <= offset < HEADER_SIZE))
    {
      if !isOpen {
        return Busy;
      }
      OpenPadded(num, offset, now);
      term, logicId := newTerm, index;
      base, entries := Position(num, proOffset), [];
      PaddedStart(files, fileSize, num, offset, now);
      return Ok;
    }

    /** The first `k` items of the history end at `t` and are intact. */
    ghost predicate Keeps(k: nat, t: Position)
      reads this
    {
      && k <= |entries|
      && HistoryOk(files, fileSize, base, entries[..k])
      && Before(base, entries[..k], k) == t
    }

    /** Cuts the log back to a position. When that is the producer position after
        the first `k` items, exactly those items are kept. */
    method Truncate(num: nat, offset: nat, index: nat, ghost k: nat) returns (s: Status)
      modifies this
      ensures num !in old(files) <==> s == IOError
      ensures s == IOError ==> unchanged(this)
      ensures s != IOError ==>
                && s == Ok && isOpen && term == old(term)
                && proNum == num && proOffset == offset && logicId == index
      ensures s == Ok && old(Keeps(k, Position(num, offset))) ==>
                && Valid() && base == old(base) && entries == old(entries)[..k]
    {
      if num !in files {
        return IOError;
      }
      ghost var cut := Keeps(k, Position(num, offset));
      ghost var kept := if cut then entries[..k] else [];
      if cut {
        PositionInFile(files, fileSize, base, kept, k);
      }
      files := files[num := if offset <= |files[num]| then files[num][..offset] else files[num] + Zeros(offset - |files[num]|)];
      if cut {
        HistoryCut(old(files), files, fileSize, base, kept, k);
        assert kept[..k] == kept;
      }
      proNum, proOffset, logicId := num, offset, index;
      InitLogFile();
      if cut {
        entries := kept;
      } else {
        base, entries := Position(num, offset), [];
      }
      return Ok;
    }

    /** The stable log removes the later files and then cuts the log back. */
    method TruncateTo(num: nat, offset: nat, index: nat, ghost k: nat) returns (s: Status)
      requires Valid()
      modifies this
      ensures num !in old(files) <==> s == IOError
      ensures s == Ok && k <= old(|entries|) && old(Before(base, entries, k)) == Position(num, offset) ==>
                && Valid() && base == old(base) && entries == old(entries)[..k]
                && proNum == num && proOffset == offset && logicId == index && term == old(term)
    {
      if k <= |entries| && Before(base, entries, k) == Position(num, offset) {
        ghost var files' := map f | f in files && f <= num :: files[f];
        HistoryPrefix(files, fileSize, base, entries, k);
        PositionInFile(files, fileSize, base, entries, k);
        HistoryFrame(files, files', fileSize, base, entries[..k]);
      }
      files := map f | f in files && f <= num :: files[f];
      s := Truncate(num, offset, index, k);
    }
  }

  lemma PaddingStep(padded: seq<byte>, blocks: nat, rest: nat, now: nat, goal: seq<byte>, padded': seq<byte>)
    requires rest < BLOCK_SIZE && (blocks > 0 || rest >= HEADER_SIZE)
    requires padded + Padding(blocks, rest, now) == goal
    requires
      var n := (if blocks > 0 then BLOCK_SIZE else rest) - HEADER_SIZE;
      padded' == padded + HeaderBytes(n, now, BAD_RECORD) + Stars(n)
    ensures if blocks > 0 then padded' + Padding(blocks - 1, rest, now) == goal else padded' == goal
  {
    var n := (if blocks > 0 then BLOCK_SIZE else rest) - HEADER_SIZE;
    assert padded' == padded + RecordBytes(0, Stars(n), now, BAD_RECORD);
  }

  lemma GapThenRecord(file: seq<byte>, gap: nat, payload: seq<byte>, now: nat, t: byte)
    requires |payload| <= 0xff_ffff
    ensures file + Zeros(gap) + RecordBytes(0, payload, now, t) == file + RecordBytes(gap, payload, now, t)
  {
    assert Zeros(gap) + RecordBytes(0, payload, now, t) == RecordBytes(gap, payload, now, t);
  }

  /** One round of the loop in `Produce` writes the first record of `Layout`. */
  lemma StepAppends(file: seq<byte>, block: nat, left: seq<byte>, begin: bool, clock: (nat, bool) -> nat,
                    file': seq<byte>, goal: seq<byte>)
    requires block <= BLOCK_SIZE
    requires file + Layout(block, left, begin, clock) == goal
    requires
      var n := FragmentLength(block, |left|);
      file' == file + RecordBytes(Gap(block), left[..n], clock(|left|, begin), TypeOf(begin, n, |left|))
    ensures
      var n := FragmentLength(block, |left|);
      goal == file' + if n == |left| then [] else Layout(BLOCK_SIZE, left[n..], false, clock)
  {
  }

  /** Padding reaches the length asked for, unless that is too small for a header. */
  lemma PaddedStart(files: map<nat, seq<byte>>, limit: nat, num: nat, offset: nat, now: nat)
    requires num in files && files[num] == PaddingFor(AskedOffset(offset), now)
    ensures |files[num]| == RestartOffset(offset) <==> !(4 <= offset < HEADER_SIZE)
    ensures |files[num]| == RestartOffset(offset) ==> HistoryOk(files, limit, Position(num, RestartOffset(offset)), [])
  {
    PaddingHistory(files, limit, num, AskedOffset(offset), now);
  }
}
