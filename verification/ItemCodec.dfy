/**
 The encoding of one log item: a 34-byte header of fixed-width little-endian numbers,
 followed by the content.
 */
module ItemCodec {
  import opened BinlogFormat
  import opened Options
  import opened ReplicatedLog

  datatype Item = Item(execTime: nat, term: nat, logicId: nat, filenum: nat, offset: nat, content: seq<byte>) {
    predicate InRange() {
      && execTime < Pow256(4) && term < Pow256(4) && logicId < Pow256(8)
      && filenum < Pow256(4) && offset < Pow256(8)
    }
  }

  function Pow256(k: nat): (p: nat)
    ensures p > 0
  {
    if k == 0 then 1 else 256 * Pow256(k - 1)
  }

  /** The low `k` bytes of a number, lowest first. */
  function PutFixed(n: nat, k: nat): (s: seq<byte>)
    ensures |s| == k
  {
    if k == 0 then [] else [(n % 256) as byte] + PutFixed(n / 256, k - 1)
  }

  function GetFixed(s: seq<byte>): (n: nat)
    ensures n < Pow256(|s|)
  {
    if s == [] then 0 else s[0] as nat + 256 * GetFixed(s[1..])
  }

  /** The lowest byte comes first. */
  lemma LowestFirst(a: byte, b: byte)
    ensures PutFixed(a as nat + 256 * b as nat, 2) == [a, b] && GetFixed([a, b]) == a as nat + 256 * b as nat
  {
    assert [a, b][1..] == [b] && [b][1..] == [];
    assert PutFixed(b as nat, 1) == [b];
  }

  lemma {:induction false} GetPut(n: nat, k: nat)
    requires n < Pow256(k)
    ensures GetFixed(PutFixed(n, k)) == n
    decreases k
  {
    if k > 0 {
      GetPut(n / 256, k - 1);
      assert PutFixed(n, k)[1..] == PutFixed(n / 256, k - 1);
    }
  }

  lemma {:induction false} PutGet(s: seq<byte>)
    ensures PutFixed(GetFixed(s), |s|) == s
  {
    if s != [] {
      LowByte(s[0] as nat, GetFixed(s[1..]));
      PutGet(s[1..]);
    }
  }

  lemma LowByte(b: nat, rest: nat)
    requires b < 256
    ensures (b + 256 * rest) % 256 == b && (b + 256 * rest) / 256 == rest
  {
  }

  function Header(kind: nat, item: Item): (s: seq<byte>)
    ensures |s| == RECORD_HEADER
  {
    PutFixed(kind, 2) + PutFixed(item.execTime, 4) + PutFixed(item.term, 4) + PutFixed(item.logicId, 8)
    + PutFixed(item.filenum, 4) + PutFixed(item.offset, 8) + PutFixed(|item.content| % Pow256(4), 4)
  }

  /** The length is stored in 32 bits, whatever the length of the content. */
  function BinlogEncode(kind: nat, item: Item): seq<byte> {
    Header(kind, item) + item.content
  }

  /** The numbers of a header, and the content length it announces. */
  datatype Fields = Fields(kind: nat, execTime: nat, term: nat, logicId: nat, filenum: nat, offset: nat, length: nat)

  function GetHeader(s: seq<byte>): Fields
    requires |s| >= RECORD_HEADER
  {
    Fields(GetFixed(s[..2]), GetFixed(s[2..6]), GetFixed(s[6..10]), GetFixed(s[10..18]), GetFixed(s[18..22]), GetFixed(s[22..30]),
           GetFixed(s[30..34]))
  }

  /** An item is read back only if its type is the one expected and exactly the
      announced number of bytes follows the header. */
  function BinlogDecode(kind: nat, s: seq<byte>): Option<Item> {
    if |s| < RECORD_HEADER then None
    else
      var h := GetHeader(s);
      if h.kind != kind || |s| - RECORD_HEADER != h.length then None
      else Some(Item(h.execTime, h.term, h.logicId, h.filenum, h.offset, s[RECORD_HEADER..]))
  }

  lemma HeaderParts(kind: nat, item: Item, s: seq<byte>)
    requires |s| >= RECORD_HEADER && s[..RECORD_HEADER] == Header(kind, item)
    ensures s[..2] == PutFixed(kind, 2) && s[2..6] == PutFixed(item.execTime, 4) && s[6..10] == PutFixed(item.term, 4)
    ensures s[10..18] == PutFixed(item.logicId, 8) && s[18..22] == PutFixed(item.filenum, 4) && s[22..30] == PutFixed(item.offset, 8)
    ensures s[30..34] == PutFixed(|item.content| % Pow256(4), 4)
  {
    var h := Header(kind, item);
    assert s[..2] == h[..2] && s[2..6] == h[2..6] && s[6..10] == h[6..10] && s[10..18] == h[10..18];
    assert s[18..22] == h[18..22] && s[22..30] == h[22..30] && s[30..34] == h[30..34];
  }

  lemma HeaderBack(kind: nat, item: Item, s: seq<byte>)
    requires kind < Pow256(2) && item.InRange()
    requires |s| >= RECORD_HEADER && s[..RECORD_HEADER] == Header(kind, item)
    ensures GetHeader(s)
         == Fields(kind, item.execTime, item.term, item.logicId, item.filenum, item.offset, |item.content| % Pow256(4))
  {
    HeaderParts(kind, item, s);
    GetPut(kind, 2);
    GetPut(item.execTime, 4);
    GetPut(item.term, 4);
    GetPut(item.logicId, 8);
    GetPut(item.filenum, 4);
    GetPut(item.offset, 8);
    GetPut(|item.content| % Pow256(4), 4);
  }

  /** An item is read back as it was written exactly when its content length fits in 32 bits. */
  lemma DecodeEncode(kind: nat, item: Item)
    requires kind < Pow256(2) && item.InRange()
    ensures BinlogDecode(kind, BinlogEncode(kind, item)) == Some(item) <==> |item.content| < Pow256(4)
    ensures |item.content| >= Pow256(4) ==> BinlogDecode(kind, BinlogEncode(kind, item)) == None
  {
    var s := BinlogEncode(kind, item);
    assert s[..RECORD_HEADER] == Header(kind, item) && s[RECORD_HEADER..] == item.content;
    HeaderBack(kind, item, s);
    DecodeAs(kind, item, s, |item.content| % Pow256(4));
    Remainder(|item.content|, Pow256(4));
  }

  lemma Remainder(n: nat, max: nat)
    requires max > 0
    ensures n % max == n <==> n < max
  {
  }

  /** Decoding what has this header and this content: the length it announces decides. */
  lemma DecodeAs(kind: nat, item: Item, s: seq<byte>, length: nat)
    requires |s| == RECORD_HEADER + |item.content| && s[RECORD_HEADER..] == item.content
    requires GetHeader(s) == Fields(kind, item.execTime, item.term, item.logicId, item.filenum, item.offset, length)
    ensures BinlogDecode(kind, s) == if |item.content| == length then Some(item) else None
  {
  }

  lemma JoinParts(s: seq<byte>)
    requires |s| >= RECORD_HEADER
    ensures s[..2] + s[2..6] + s[6..10] + s[10..18] + s[18..22] + s[22..30] + s[30..34] == s[..RECORD_HEADER]
  {
  }

  lemma HeaderFrom(kind: nat, item: Item, s: seq<byte>)
    requires |s| >= RECORD_HEADER && |item.content| < Pow256(4)
    requires GetHeader(s) == Fields(kind, item.execTime, item.term, item.logicId, item.filenum, item.offset, |item.content|)
    ensures Header(kind, item) == s[..RECORD_HEADER]
  {
    Remainder(|item.content|, Pow256(4));
    HeaderIs(kind, item, |item.content|, s);
    JoinParts(s);
  }

  lemma HeaderIs(kind: nat, item: Item, length: nat, s: seq<byte>)
    requires |s| >= RECORD_HEADER
    requires GetHeader(s) == Fields(kind, item.execTime, item.term, item.logicId, item.filenum, item.offset, length)
    ensures PutFixed(kind, 2) == s[..2] && PutFixed(item.execTime, 4) == s[2..6] && PutFixed(item.term, 4) == s[6..10]
    ensures PutFixed(item.logicId, 8) == s[10..18] && PutFixed(item.filenum, 4) == s[18..22] && PutFixed(item.offset, 8) == s[22..30]
    ensures PutFixed(length, 4) == s[30..34]
  {
    PutGet(s[..2]);
    PutGet(s[2..6]);
    PutGet(s[6..10]);
    PutGet(s[10..18]);
    PutGet(s[18..22]);
    PutGet(s[22..30]);
    PutGet(s[30..34]);
  }

  /** What is read is exactly what would be written for it. */
  lemma EncodeDecode(kind: nat, s: seq<byte>)
    requires BinlogDecode(kind, s).Some?
    ensures BinlogDecode(kind, s).value.InRange() && BinlogEncode(kind, BinlogDecode(kind, s).value) == s
  {
    HeaderFrom(kind, BinlogDecode(kind, s).value, s);
  }

  /** Takes the fields off the front of the item one by one. */
  method Decode(kind: nat, binlog: seq<byte>) returns (r: Option<Item>)
    ensures r == BinlogDecode(kind, binlog)
  {
    var s := binlog;
    if |s| < RECORD_HEADER {
      return None;
    }
    assert s[..2] == binlog[..2];
    var binlogType := GetFixed(s[..2]);
    s := s[2..];
    if binlogType != kind {
      return None;
    }
    assert s[..4] == binlog[2..6];
    var execTime := GetFixed(s[..4]);
    s := s[4..];
    assert s[..4] == binlog[6..10];
    var term := GetFixed(s[..4]);
    s := s[4..];
    assert s[..8] == binlog[10..18];
    var logicId := GetFixed(s[..8]);
    s := s[8..];
    assert s[..4] == binlog[18..22];
    var filenum := GetFixed(s[..4]);
    s := s[4..];
    assert s[..8] == binlog[22..30];
    var offset := GetFixed(s[..8]);
    s := s[8..];
    assert s[..4] == binlog[30..34];
    var length := GetFixed(s[..4]);
    s := s[4..];
    assert s == binlog[RECORD_HEADER..];
    if |s| != length {
      return None;
    }
    r := Some(Item(execTime, term, logicId, filenum, offset, s));
  }
}
