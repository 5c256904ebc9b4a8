/**
 Reading the first item of a binlog file. A file that was restarted begins with padding,
 and there the reader reports success with an empty item, which is not an item at all.
 */
module FileStart {
  import opened Options
  import opened BinlogFormat
  import opened BinlogHistory
  import opened BinlogWriter
  import opened BinlogReader
  import opened ItemCodec

  /** The file holds padding up to where the log starts. */
  ghost predicate Padded(log: Binlog, filenum: nat, now: nat)
    reads log
  {
    && filenum in log.files && log.base.filenum == filenum && HEADER_SIZE < log.base.offset <= |log.files[filenum]|
    && PaddingFor(log.base.offset, now) == log.files[filenum][..log.base.offset]
  }

  /** The first record of padding is a bad one. */
  lemma PaddingReads(file: seq<byte>, len: nat, now: nat)
    requires HEADER_SIZE < len <= |file| && PaddingFor(len, now) == file[..len]
    ensures ReadRecord(file, 0, 0, 0).code == BAD_RECORD
  {
    var n := (if len >= BLOCK_SIZE then BLOCK_SIZE else len) - HEADER_SIZE;
    var record := RecordBytes(0, Stars(n), now, BAD_RECORD);
    assert record <= PaddingFor(len, now) <= file;
    AppendedRecord([], 0, 0, Stars(n), now, BAD_RECORD, file[|record|..], file);
  }

  /** The producer is past the start of a file that begins with padding. */
  lemma PastPadding(log: Binlog, filenum: nat, now: nat)
    requires log.Valid() && Padded(log, filenum, now)
    ensures Position(filenum, 0) != Position(log.proNum, log.proOffset)
  {
    HistoryChained(log.files, log.fileSize, log.base, log.entries);
    PositionsIncrease(log.fileSize, log.base, log.entries, 0, |log.entries|);
  }

  /** Reads the item at the start of a file: the entry that starts there, if one does;
      nothing where the log is empty, and nothing that can be decoded where there is
      padding. `k` is the entry that starts there or is the next one. */
  method FirstItem(log: Binlog, filenum: nat, kind: nat, ghost k: nat, ghost now: nat) returns (r: Option<Item>)
    requires log.Valid() && NoEmptyItem(log.entries) && k <= |log.entries|
    ensures k < |log.entries| && log.entries[k].start == Position(filenum, 0) ==> r == BinlogDecode(kind, log.entries[k].item)
    ensures Padded(log, filenum, now) ==> r == None
    ensures log.entries == [] && log.base == Position(filenum, 0) ==> r == None
    ensures filenum !in log.files ==> r == None
  {
    var reader := new Reader();
    var res := reader.Seek(log, filenum, 0, k);
    if res != 0 || filenum !in log.files {
      return None;
    }
    if Padded(log, filenum, now) {
      PaddingReads(log.files[filenum], log.base.offset, now);
      PastPadding(log, filenum, now);
    }
    var s, binlog, _, _ := reader.Get(k);
    if s != Done {
      return None;
    }
    r := Decode(kind, binlog);
  }
}
