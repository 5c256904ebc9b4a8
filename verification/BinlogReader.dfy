/**
 The consumer side of the binlog: reads records from the files of a `Binlog`,
 puts items together again, rolls to the next file, and seeks to an offset.

 A read that does not get all the bytes it asked for reports the end of the file
 and leaves the cursor there.
 */
module BinlogReader {
  import opened BinlogFormat
  import opened BinlogHistory
  import opened BinlogWriter

  datatype ReadStatus = Done | EndFile | IoError | Corruption

  /** The reader gives up a rest of a block that could only hold a header. */
  function Skip(block: nat): nat {
    if block <= BLOCK_SIZE && BLOCK_SIZE - block <= HEADER_SIZE then BLOCK_SIZE - block else 0
  }

  class Reader {
    var logger: Binlog?
    var curFilenum: nat
    var curOffset: nat
    var lastRecordOffset: nat
    var pos: nat  // cursor of the open file

    constructor ()
      ensures logger == null && curFilenum == 0 && curOffset == 0
    {
      logger := null;
      curFilenum, curOffset, lastRecordOffset, pos := 0, 0, 0, 0;
    }

    /** The cursor, the reported offset and the block fill agree. */
    ghost predicate Synced()
      reads this, logger
    {
      && logger != null && curFilenum in logger.files
      && pos == curOffset
      && lastRecordOffset <= BLOCK_SIZE && lastRecordOffset % BLOCK_SIZE == curOffset % BLOCK_SIZE
    }

    /** Everything before entry `k` has been read, and nothing after. */
    ghost predicate AtEntry(k: nat)
      reads this, logger
    {
      && Synced() && logger.Valid()
      && k <= |logger.entries|
      && (|| Position(curFilenum, curOffset) == Before(logger.base, logger.entries, k)
          || (k < |logger.entries| && Position(curFilenum, curOffset) == logger.entries[k].start))
    }

    method ReadToTheEnd() returns (b: bool)
      requires logger != null
      ensures b <==> Position(curFilenum, curOffset) == Position(logger.proNum, logger.proOffset)
    {
      b := logger.proNum == curFilenum && logger.proOffset == curOffset;
    }

    /** Reads one record; the out-parameters for the position keep their values
        unless a whole record was read. */
    method ReadPhysicalRecord(filenum: nat, offset: nat) returns (code: byte, payload: seq<byte>, filenum': nat, offset': nat)
      requires logger != null && curFilenum in logger.files
      modifies this`curOffset, this`lastRecordOffset, this`pos
      ensures
        var r := ReadRecord(logger.files[curFilenum], old(pos), old(curOffset), old(lastRecordOffset));
        && code == r.code && payload == r.payload
        && pos == r.pos && curOffset == r.cur && lastRecordOffset == r.last
        && filenum' == (if r.whole then curFilenum else filenum) && offset' == (if r.whole then r.cur else offset)
    {
      if lastRecordOffset <= BLOCK_SIZE && BLOCK_SIZE - lastRecordOffset <= HEADER_SIZE {
        var skip := BLOCK_SIZE - lastRecordOffset;
        pos := pos + skip;
        curOffset := curOffset + skip;
        lastRecordOffset := 0;
      }
      code, payload, filenum', offset' := ReadHeaderAndPayload(filenum, offset);
    }

    /** The part of `ReadPhysicalRecord` after a block rest has been skipped. */
    method ReadHeaderAndPayload(filenum: nat, offset: nat) returns (code: byte, payload: seq<byte>, filenum': nat, offset': nat)
      requires logger != null && curFilenum in logger.files
      modifies this`curOffset, this`lastRecordOffset, this`pos
      ensures
        var r := ReadHere(logger.files[curFilenum], old(pos), old(curOffset), old(lastRecordOffset));
        && code == r.code && payload == r.payload
        && pos == r.pos && curOffset == r.cur && lastRecordOffset == r.last
        && filenum' == (if r.whole then curFilenum else filenum) && offset' == (if r.whole then r.cur else offset)
    {
      var file := logger.files[curFilenum];
      payload, filenum', offset' := [], filenum, offset;
      if pos + HEADER_SIZE > |file| {
        pos := if pos < |file| then |file| else pos;
        return EOF_CODE, payload, filenum', offset';
      }
      var length := file[pos] as int + 256 * file[pos + 1] as int + 65536 * file[pos + 2] as int;
      var t := file[pos + 7];
      pos := pos + HEADER_SIZE;
      if length > BLOCK_SIZE - HEADER_SIZE {
        return BAD_RECORD, payload, filenum', offset';
      }
      if t == ZERO_TYPE || length == 0 {
        return OLD_RECORD, payload, filenum', offset';
      }
      var whole := pos + length <= |file|;
      var end := if whole then pos + length else |file|;
      payload := file[pos..end];
      pos := end;
      lastRecordOffset := lastRecordOffset + HEADER_SIZE + length;
      if whole {
        filenum' := curFilenum;
        curOffset := curOffset + HEADER_SIZE + length;
        offset' := curOffset;
      }
      code := t;
    }

    /** The rest of an item is waiting at the cursor. */
    ghost predicate HoldsRest(rest: seq<byte>, begin: bool)
      reads this, logger
    {
      && logger != null && curFilenum in logger.files
      && Waits(logger.files[curFilenum], pos, curOffset, lastRecordOffset, rest, begin)
    }

    /** The next record the reader finds is a bad one. */
    ghost predicate BeforeBadRecord()
      reads this, logger
    {
      && logger != null && curFilenum in logger.files
      && ReadRecord(logger.files[curFilenum], pos, curOffset, lastRecordOffset).code == BAD_RECORD
    }

    /** Puts one item together; `item` names the item waiting at the cursor, if any. */
    method Consume(scratch: seq<byte>, filenum: nat, offset: nat, ghost item: seq<byte>)
      returns (s: ReadStatus, scratch': seq<byte>, filenum': nat, offset': nat)
      requires logger != null && curFilenum in logger.files
      modifies this`curOffset, this`lastRecordOffset, this`pos
      ensures old(HoldsRest(item, true)) && scratch == [] ==>
                && s == Done && scratch' == item
                && Synced() && curOffset == old(curOffset) + Size(old(lastRecordOffset), |item|)
                && filenum' == curFilenum && offset' == curOffset
      ensures old(pos) == |logger.files[curFilenum]| ==> s == EndFile && scratch' == scratch
      ensures old(BeforeBadRecord()) ==> s == IoError && scratch' == scratch
    {
      ghost var bad := BeforeBadRecord();
      ghost var file := logger.files[curFilenum];
      scratch', filenum', offset' := scratch, filenum, offset;
      ghost var holds, rest, begin := HoldsRest(item, true) && scratch == [], item, true;
      ghost var target := if holds then curOffset + Size(lastRecordOffset, |item|) else 0;
      while true
        invariant old(pos) == |file| ==> pos == |file| && scratch' == scratch
        invariant bad ==> BeforeBadRecord() && scratch' == scratch
        invariant holds ==> Assembles(file, pos, curOffset, lastRecordOffset, scratch', rest, begin, item, target)
        decreases if pos <= |file| then |file| - pos else 0
      {
        ReadProgress(file, pos, curOffset, lastRecordOffset);
        ghost var n := 0;
        if holds {
          n := AssembleNext(file, pos, curOffset, lastRecordOffset, scratch', rest, begin, item, target);
        }
        var code, payload;
        code, payload, filenum', offset' := ReadPhysicalRecord(filenum', offset');
        if code == FULL_TYPE {
          scratch' := payload;
          return Done, scratch', filenum', offset';
        } else if code == FIRST_TYPE {
          scratch' := payload;
        } else if code == MIDDLE_TYPE {
          scratch' := scratch' + payload;
        } else if code == LAST_TYPE {
          scratch' := scratch' + payload;
          return Done, scratch', filenum', offset';
        } else if code == EOF_CODE || code == OLD_RECORD {
          return EndFile, scratch', filenum', offset';
        } else {
          return IoError, scratch', filenum', offset';
        }
        rest, begin := if holds then rest[n..] else rest, false;
      }
    }

    lemma ItemWaits(k: nat)
      requires AtEntry(k) && k < |logger.entries| && logger.entries[k].item != []
      requires Position(curFilenum, curOffset) == logger.entries[k].start
      ensures HoldsRest(logger.entries[k].item, true)
      ensures curOffset + Size(lastRecordOffset, |logger.entries[k].item|) == logger.entries[k].End().offset
    {
      var e := logger.entries[k];
      assert EntryOk(logger.files, logger.fileSize, logger.base, logger.entries, k);
      assert curOffset % BLOCK_SIZE % BLOCK_SIZE == curOffset % BLOCK_SIZE;
      FragmentsPeriod(logger.files[curFilenum], curOffset, curOffset % BLOCK_SIZE, lastRecordOffset, e.item, true);
      SizePeriod(curOffset % BLOCK_SIZE, lastRecordOffset, |e.item|);
    }

    lemma NextFileWaits(k: nat)
      requires AtEntry(k) && k < |logger.entries|
      requires Position(curFilenum, curOffset) != logger.entries[k].start
      ensures pos == |logger.files[curFilenum]|
      ensures curFilenum + 1 in logger.files && Position(curFilenum + 1, 0) == logger.entries[k].start
    {
      assert EntryOk(logger.files, logger.fileSize, logger.base, logger.entries, k);
    }

    lemma NotAtEnd(k: nat)
      requires AtEntry(k)
      ensures k < |logger.entries| <==> Position(curFilenum, curOffset) != Position(logger.proNum, logger.proOffset)
    {
      if k < |logger.entries| {
        HistoryChained(logger.files, logger.fileSize, logger.base, logger.entries);
        PositionsIncrease(logger.fileSize, logger.base, logger.entries, k, |logger.entries|);
      }
    }

    /** `Consume` when the reader is at entry `k`: the entry's item, or the end of the
        file before the one it starts. */
    method ConsumeEntry(scratch: seq<byte>, filenum: nat, offset: nat, ghost k: nat, ghost at: bool)
      returns (s: ReadStatus, scratch': seq<byte>, filenum': nat, offset': nat)
      requires logger != null && curFilenum in logger.files
      requires at ==> AtEntry(k) && k < |logger.entries| && NoEmptyItem(logger.entries) && scratch == []
      modifies this`curOffset, this`lastRecordOffset, this`pos
      ensures at && s != EndFile ==>
                && s == Done && scratch' == logger.entries[k].item
                && Position(filenum', offset') == Position(curFilenum, curOffset) == logger.entries[k].End()
                && AtEntry(k + 1)
      ensures old(BeforeBadRecord()) ==> s == IoError && scratch' == scratch
      ensures at && s == EndFile ==>
                scratch' == [] && curFilenum + 1 in logger.files && Position(curFilenum + 1, 0) == logger.entries[k].start
    {
      ghost var item := if at then logger.entries[k].item else [];
      if at {
        if Position(curFilenum, curOffset) == logger.entries[k].start {
          ItemWaits(k);
        } else {
          NextFileWaits(k);
        }
      }
      s, scratch', filenum', offset' := Consume(scratch, filenum, offset, item);
    }

    /** Goes on at the start of the next file. */
    method Roll(ghost k: nat, ghost at: bool)
      requires logger != null && curFilenum + 1 in logger.files
      requires at ==> logger.Valid() && k < |logger.entries| && Position(curFilenum + 1, 0) == logger.entries[k].start
      modifies this`curFilenum, this`curOffset, this`lastRecordOffset, this`pos
      ensures curFilenum == old(curFilenum) + 1 && pos == 0 && (at ==> AtEntry(k))
    {
      curFilenum, curOffset, lastRecordOffset, pos := curFilenum + 1, 0, 0, 0;
    }

    /** Reads the next item. The status of `Consume` is dropped unless it is the
        end of a file: after a bad record, too, the result is `Done`. */
    method Get(ghost k: nat) returns (s: ReadStatus, scratch: seq<byte>, filenum: nat, offset: nat)
      requires logger != null ==> curFilenum in logger.files
      modifies this
      ensures logger == old(logger)
      ensures logger == null <==> s == Corruption
      ensures logger != null && old(AtEntry(k)) && NoEmptyItem(logger.entries) ==>
                if k == |logger.entries| then s == EndFile && scratch == [] && AtEntry(k)
                else && s == Done && scratch == logger.entries[k].item
                     && Position(filenum, offset) == logger.entries[k].End()
                     && Position(curFilenum, curOffset) == logger.entries[k].End()
                     && AtEntry(k + 1)
      ensures old(BeforeBadRecord()) && Position(old(curFilenum), old(curOffset)) != Position(logger.proNum, logger.proOffset) ==>
                s == Done && scratch == []
    {
      scratch, filenum, offset := [], 0, 0;
      if logger == null {
        return Corruption, scratch, filenum, offset;
      }
      ghost var at := AtEntry(k) && NoEmptyItem(logger.entries);
      ghost var bad := BeforeBadRecord() && Position(curFilenum, curOffset) != Position(logger.proNum, logger.proOffset);
      while true
        invariant logger == old(logger) && curFilenum in logger.files
        invariant bad ==> BeforeBadRecord() && curFilenum == old(curFilenum) && curOffset == old(curOffset) && scratch == []
        invariant at ==> AtEntry(k) && scratch == []
        decreases Later(logger.files, curFilenum)
      {
        if at {
          NotAtEnd(k);
        }
        var end := ReadToTheEnd();
        if end {
          return EndFile, scratch, filenum, offset;
        }
        s, scratch, filenum, offset := ConsumeEntry(scratch, filenum, offset, k, at);
        if s != EndFile {
          return Done, scratch, filenum, offset;
        }
        if curFilenum + 1 !in logger.files {
          return IoError, scratch, filenum, offset;
        }
        LaterShrinks(logger.files, curFilenum);
        Roll(k, at);
      }
    }

    /** Skips records to the end of an item. Given a position `target` that records
        lead to, the skip does not pass it. */
    method GetNext(ghost target: nat) returns (isError: bool, size: nat)
      requires logger != null && curFilenum in logger.files
      modifies this`pos
      ensures !isError ==> size >= HEADER_SIZE
      ensures old(pos) < target && RecordsBetween(logger.files[curFilenum], old(pos), target) ==>
                !isError && pos == old(pos) + size && RecordsBetween(logger.files[curFilenum], pos, target)
    {
      var file := logger.files[curFilenum];
      ghost var leads := pos < target && RecordsBetween(file, pos, target);
      size, isError := 0, false;
      while true
        invariant leads ==> pos < target && RecordsBetween(file, pos, target) && pos == old(pos) + size
        decreases if pos <= |file| then |file| - pos else 0
      {
        if pos + HEADER_SIZE > |file| {
          pos := if pos < |file| then |file| else pos;
          return true, 0;
        }
        var length := file[pos] as int + 256 * file[pos + 1] as int + 65536 * file[pos + 2] as int;
        var t := file[pos + 7];
        pos := pos + HEADER_SIZE;
        if length > BLOCK_SIZE - HEADER_SIZE {
          return true, 0;
        }
        if t !in {FULL_TYPE, FIRST_TYPE, MIDDLE_TYPE, LAST_TYPE, BAD_RECORD} {
          return true, size;
        }
        pos := if pos + length <= |file| then pos + length else |file|;
        size := size + HEADER_SIZE + length;
        if t in {FULL_TYPE, LAST_TYPE, BAD_RECORD} {
          return;
        }
      }
    }

    /** Opens file `filenum` and moves to `offset`, reading whole items from the start
        of its block. When `offset` is the producer position before entry `k` was
        put, or where that entry starts, the reader ends up exactly there. */
    method Seek(log: Binlog, filenum: nat, offset: nat, ghost k: nat) returns (res: int)
      modifies this
      ensures filenum !in log.files ==> res == -1 && unchanged(this)
      ensures filenum in log.files ==> logger == log && curFilenum == filenum
      ensures res == 0 || res == -1
      ensures filenum in log.files && RecordsBetween(log.files[filenum], BlockStart(offset), offset) ==>
                res == 0 && pos == curOffset == offset && lastRecordOffset == offset % BLOCK_SIZE
      ensures log.Valid() && NoEmptyItem(log.entries) && k <= |log.entries| && Boundary(log, k, Position(filenum, offset)) ==>
                res == 0 && AtEntry(k) && Position(curFilenum, curOffset) == Position(filenum, offset)
    {
      ghost var at := log.Valid() && NoEmptyItem(log.entries) && k <= |log.entries| && Boundary(log, k, Position(filenum, offset));
      if at {
        BoundaryReached(log, k, filenum, offset);
      }
      if filenum !in log.files {
        return -1;
      }
      logger := log;
      curFilenum, curOffset := filenum, offset;
      lastRecordOffset := curFilenum % BLOCK_SIZE;
      res := MoveTo(offset);
      assert offset % BLOCK_SIZE % BLOCK_SIZE == offset % BLOCK_SIZE;
    }

    /** Reads from the start of the block up to `offset`; it gets exactly there when
        records lead there. */
    method MoveTo(offset: nat) returns (res: int)
      requires logger != null && curFilenum in logger.files
      modifies this`pos, this`curOffset, this`lastRecordOffset
      ensures res == 0 || res == -1
      ensures RecordsBetween(logger.files[curFilenum], BlockStart(offset), offset) ==>
                res == 0 && pos == curOffset == offset && lastRecordOffset == offset % BLOCK_SIZE
    {
      var startBlock := offset / BLOCK_SIZE * BLOCK_SIZE;
      pos := startBlock;
      var blockOffset := offset % BLOCK_SIZE;
      assert BlockStart(offset) == startBlock && startBlock + blockOffset == offset;
      var isError, read := SkipItems(blockOffset, offset);
      if isError {
        return -1;
      }
      curOffset := startBlock + read;
      lastRecordOffset := curOffset % BLOCK_SIZE;
      return 0;
    }

    /** Skips items until at least `count` bytes have been passed. */
    method SkipItems(count: nat, ghost target: nat) returns (isError: bool, read: nat)
      requires logger != null && curFilenum in logger.files
      modifies this`pos
      ensures old(pos) + count == target && RecordsBetween(logger.files[curFilenum], old(pos), target) ==>
                !isError && read == count && pos == target
    {
      ghost var leads := pos + count == target && RecordsBetween(logger.files[curFilenum], pos, target);
      isError, read := false, 0;
      while read < count
        invariant leads ==> pos == old(pos) + read && RecordsBetween(logger.files[curFilenum], pos, target)
      {
        var size;
        isError, size := GetNext(target);
        if isError {
          return;
        }
        read := read + size;
      }
    }

    /** The loop every user of the reader runs: `Get` until the end of the log. */
    method ReadAll(ghost k: nat) returns (items: seq<(seq<byte>, Position)>)
      requires AtEntry(k) && NoEmptyItem(logger.entries)
      modifies this
      ensures logger == old(logger)
      ensures |items| == |logger.entries| - k
      ensures forall i | 0 <= i < |items| :: items[i] == (logger.entries[k + i].item, logger.entries[k + i].End())
    {
      items := [];
      while true
        invariant logger == old(logger) && AtEntry(k + |items|)
        invariant forall i | 0 <= i < |items| :: items[i] == (logger.entries[k + i].item, logger.entries[k + i].End())
        decreases |logger.entries| - k - |items|
      {
        var s, item, filenum, offset := Get(k + |items|);
        if s == EndFile {
          return;
        }
        items := items + [(item, Position(filenum, offset))];
      }
    }
  }

  /** `p` is the producer position before entry `k`, or the start of entry `k`. */
  ghost predicate Boundary(log: Binlog, k: nat, p: Position)
    requires k <= |log.entries|
    reads log
  {
    || p == Before(log.base, log.entries, k)
    || (k < |log.entries| && p == log.entries[k].start)
  }

  lemma BoundaryReached(log: Binlog, k: nat, filenum: nat, offset: nat)
    requires log.Valid() && NoEmptyItem(log.entries) && k <= |log.entries|
    requires Boundary(log, k, Position(filenum, offset))
    ensures filenum in log.files && RecordsBetween(log.files[filenum], BlockStart(offset), offset)
  {
    BlockLeadsTo(log.files, log.fileSize, log.base, log.entries, k);
    if k < |log.entries| {
      assert EntryOk(log.files, log.fileSize, log.base, log.entries, k);
    }
  }

  function Later(files: map<nat, seq<byte>>, filenum: nat): set<nat> {
    set f | f in files && f > filenum
  }

  lemma LaterShrinks(files: map<nat, seq<byte>>, filenum: nat)
    requires filenum + 1 in files
    ensures Later(files, filenum + 1) < Later(files, filenum)
  {
    assert filenum + 1 in Later(files, filenum);
    assert filenum + 1 !in Later(files, filenum + 1);
  }

  ghost predicate NoEmptyItem(entries: seq<Entry>) {
    forall e | e in entries :: e.item != []
  }

  /** Bytes of the block used before the record the reader finds next. */
  function Fill(block: nat): nat {
    if Skip(block) > 0 || block == BLOCK_SIZE then 0 else block
  }

  lemma NextPhase(offset: nat, block: nat, n: nat)
    requires block <= BLOCK_SIZE && block % BLOCK_SIZE == offset % BLOCK_SIZE
    ensures (Fill(block) + HEADER_SIZE + n) % BLOCK_SIZE == (offset + Skip(block) + HEADER_SIZE + n) % BLOCK_SIZE
  {
    SamePhase(block, offset, Skip(block));
    SamePhase(Fill(block), offset + Skip(block), HEADER_SIZE + n);
  }

  /** Where a read of one record leaves the reader, and what it yields. */
  datatype ReadResult = ReadResult(code: byte, payload: seq<byte>, pos: nat, cur: nat, last: nat, whole: bool)

  /** Reading where a record is expected. */
  function ReadHere(file: seq<byte>, p: nat, cur: nat, last: nat): ReadResult {
    if p + HEADER_SIZE > |file| then ReadResult(EOF_CODE, [], if p < |file| then |file| else p, cur, last, false)
    else
      var length, t := LengthAt(file, p), TypeAt(file, p);
      if length > BLOCK_SIZE - HEADER_SIZE then ReadResult(BAD_RECORD, [], p + HEADER_SIZE, cur, last, false)
      else if t == ZERO_TYPE || length == 0 then ReadResult(OLD_RECORD, [], p + HEADER_SIZE, cur, last, false)
      else
        var end := p + HEADER_SIZE + length;
        if end > |file| then ReadResult(t, file[p + HEADER_SIZE..], |file|, cur, last + HEADER_SIZE + length, false)
        else ReadResult(t, file[p + HEADER_SIZE..end], end, cur + HEADER_SIZE + length, last + HEADER_SIZE + length, true)
  }

  function ReadRecord(file: seq<byte>, pos: nat, cur: nat, last: nat): ReadResult {
    ReadHere(file, pos + Skip(last), cur + Skip(last), Fill(last))
  }

  /** A whole record is read as it stands there. */
  lemma RecordReads(file: seq<byte>, p: nat, cur: nat, last: nat, t: byte, payload: seq<byte>)
    requires RecordAt(file, p, t, payload) && 0 < |payload| <= BLOCK_SIZE - HEADER_SIZE && t != ZERO_TYPE
    ensures
      var n := HEADER_SIZE + |payload|;
      ReadHere(file, p, cur, last) == ReadResult(t, payload, p + n, cur + n, last + n, true)
  {
  }

  /** A record that is neither bad nor old moves the cursor on within the file; at the
      end of the file there is none. */
  lemma ReadProgress(file: seq<byte>, pos: nat, cur: nat, last: nat)
    ensures
      var r := ReadRecord(file, pos, cur, last);
      && (r.code !in {EOF_CODE, BAD_RECORD, OLD_RECORD} ==> pos < r.pos <= |file|)
      && (pos == |file| ==> r.code == EOF_CODE)
  {
  }

  /** The rest of an item is in the file at the cursor, which agrees with the offset
      and the block fill. */
  ghost predicate Waits(file: seq<byte>, pos: nat, cur: nat, last: nat, rest: seq<byte>, begin: bool) {
    && pos == cur && last <= BLOCK_SIZE && last % BLOCK_SIZE == cur % BLOCK_SIZE && rest != []
    && FragmentsAt(file, pos, last, rest, begin)
  }

  lemma ReadsAsFound(file: seq<byte>, pos: nat, cur: nat, last: nat, p: nat, t: byte, payload: seq<byte>) returns (r: ReadResult)
    requires pos == cur && last <= BLOCK_SIZE && last % BLOCK_SIZE == cur % BLOCK_SIZE && p == pos + Skip(last)
    requires RecordAt(file, p, t, payload) && 0 < |payload| <= BLOCK_SIZE - HEADER_SIZE && t != ZERO_TYPE
    ensures r == ReadRecord(file, pos, cur, last)
    ensures r.code == t && r.payload == payload && r.whole
    ensures r.pos == r.cur == p + HEADER_SIZE + |payload| && r.last == Fill(last) + HEADER_SIZE + |payload|
    ensures r.last % BLOCK_SIZE == r.cur % BLOCK_SIZE
  {
    NextPhase(cur, last, |payload|);
    RecordReads(file, p, cur + Skip(last), Fill(last), t, payload);
    r := ReadRecord(file, pos, cur, last);
  }

  lemma RestWaits(file: seq<byte>, pos: nat, cur: nat, last: nat, rest: seq<byte>, n: nat)
    requires n <= |rest| && pos == cur && last <= BLOCK_SIZE && last % BLOCK_SIZE == cur % BLOCK_SIZE
    requires n < |rest| ==> last == BLOCK_SIZE && FragmentsAt(file, pos, BLOCK_SIZE, rest[n..], false)
    ensures n < |rest| ==> Waits(file, pos, cur, last, rest[n..], false)
  {
  }

  /** A read where the rest of an item waits yields the next `n` bytes of it; what then
      remains waits behind, and the end of the item stays where it was. */
  lemma NextRead(file: seq<byte>, pos: nat, cur: nat, last: nat, rest: seq<byte>, begin: bool) returns (n: nat, begin': bool)
    requires Waits(file, pos, cur, last, rest, begin)
    ensures 0 < n <= |rest| && (begin' ==> begin)
    ensures
      var r := ReadRecord(file, pos, cur, last);
      && r.code == TypeOf(begin', n, |rest|) && r.payload == rest[..n] && r.whole
      && r.pos == r.cur && r.last <= BLOCK_SIZE && r.last % BLOCK_SIZE == r.cur % BLOCK_SIZE
      && (n < |rest| ==> Waits(file, r.pos, r.cur, r.last, rest[n..], false))
      && r.cur + (if n < |rest| then Size(r.last, |rest| - n) else 0) == cur + Size(last, |rest|)
  {
    var p;
    p, n, begin' := NextRecord(file, pos, last, rest, begin);
    var r := ReadsAsFound(file, pos, cur, last, p, TypeOf(begin', n, |rest|), rest[..n]);
    RestWaits(file, r.pos, r.cur, r.last, rest, n);
  }

  /** `scratch` holds the part of `item` already read; the rest waits, up to `target`. */
  ghost predicate Assembles(file: seq<byte>, pos: nat, cur: nat, last: nat, scratch: seq<byte>, rest: seq<byte>, begin: bool,
                            item: seq<byte>, target: nat)
  {
    && Waits(file, pos, cur, last, rest, begin)
    && scratch + rest == item && (begin ==> scratch == [])
    && cur + Size(last, |rest|) == target
  }

  /** The record types tell what to do with a payload: an item in one record or its last
      part completes the item at its end, other parts leave the rest waiting. */
  lemma AssembleNext(file: seq<byte>, pos: nat, cur: nat, last: nat, scratch: seq<byte>, rest: seq<byte>, begin: bool,
                     item: seq<byte>, target: nat) returns (n: nat)
    requires Assembles(file, pos, cur, last, scratch, rest, begin, item, target)
    ensures n <= |rest|
    ensures
      var r := ReadRecord(file, pos, cur, last);
      && r.whole && r.code in {FULL_TYPE, FIRST_TYPE, MIDDLE_TYPE, LAST_TYPE}
      && (r.code == FULL_TYPE ==> r.payload == item) && (r.code == LAST_TYPE ==> scratch + r.payload == item)
      && (r.code in {FULL_TYPE, LAST_TYPE} ==>
            r.cur == target && r.pos == r.cur && r.last <= BLOCK_SIZE && r.last % BLOCK_SIZE == r.cur % BLOCK_SIZE)
      && (r.code == FIRST_TYPE ==> Assembles(file, r.pos, r.cur, r.last, r.payload, rest[n..], false, item, target))
      && (r.code == MIDDLE_TYPE ==> Assembles(file, r.pos, r.cur, r.last, scratch + r.payload, rest[n..], false, item, target))
  {
    var begin';
    n, begin' := NextRead(file, pos, cur, last, rest, begin);
    assert rest == rest[..n] + rest[n..];
    assert scratch + rest[..n] + rest[n..] == item;
    assert n == |rest| ==> rest[..n] == rest;
  }

  /** The record the reader finds next, for the rest of an item: it is where the
      reader looks after its skip, it is not empty, and it is followed by what is
      then left of the item. A header that the writer put in the last eight bytes
      of a block carries no data and is skipped with the rest of that block. */
  lemma NextRecord(file: seq<byte>, pos: nat, block: nat, rest: seq<byte>, begin: bool) returns (p: nat, n: nat, begin': bool)
    requires block <= BLOCK_SIZE && rest != []
    requires FragmentsAt(file, pos, block, rest, begin)
    ensures p == pos + Skip(block) && 0 < n <= |rest| && n <= BLOCK_SIZE - HEADER_SIZE
    ensures begin' ==> begin
    ensures RecordAt(file, p, TypeOf(begin', n, |rest|), rest[..n])
    ensures n < |rest| ==> FragmentsAt(file, p + HEADER_SIZE + n, BLOCK_SIZE, rest[n..], false)
    ensures Fill(block) + HEADER_SIZE + n <= BLOCK_SIZE
    ensures n < |rest| ==> Fill(block) + HEADER_SIZE + n == BLOCK_SIZE
    ensures n < |rest| ==> pos + Size(block, |rest|) == p + HEADER_SIZE + n + Size(BLOCK_SIZE, |rest| - n)
    ensures n == |rest| ==> pos + Size(block, |rest|) == p + HEADER_SIZE + n
  {
    if BLOCK_SIZE - block == HEADER_SIZE {
      p, n, begin' := pos + HEADER_SIZE, FragmentLength(BLOCK_SIZE, |rest|), false;
      assert rest[0..] == rest;
      assert FragmentsAt(file, p, BLOCK_SIZE, rest, false);
    } else {
      p, n, begin' := pos + Gap(block), FragmentLength(block, |rest|), begin;
    }
  }
}
