/**
 The CRC-32 that assigns keys to partitions: a table-driven update that does eight
 bits at a time, against the definition that does one bit at a time. Words are kept
 as their bits, lowest first.
 */
module Crc32 {
  import opened Bits
  import opened BinlogFormat

  type Word = w: seq<bool> | |w| == 32 witness seq(32, _ => false)

  function Zeros32(k: nat): (z: seq<bool>)
    ensures |z| == k && forall i | 0 <= i < k :: !z[i]
  {
    seq(k, _ => false)
  }

  /** The bits as the low end of a word. */
  function Low(bits: seq<bool>): (w: Word)
    requires |bits| <= 32
  {
    bits + Zeros32(32 - |bits|)
  }

  function Xor(a: seq<bool>, b: seq<bool>): (c: seq<bool>)
    requires |a| == |b|
    ensures |c| == |a| && forall i | 0 <= i < |c| :: c[i] == (a[i] != b[i])
  {
    seq(|a|, i requires 0 <= i < |a| => a[i] != b[i])
  }

  function Not(a: Word): (c: Word)
    ensures forall i | 0 <= i < 32 :: c[i] == !a[i]
  {
    seq(32, i requires 0 <= i < 32 => !a[i])
  }

  function ShiftRight(a: Word, k: nat): (c: Word)
    requires k <= 32
  {
    a[k..] + Zeros32(k)
  }

  /** One bit of the division: shifts right, and subtracts the polynomial if a one fell out. */
  function Shift(poly: Word, c: Word): Word {
    if c[0] then Xor(ShiftRight(c, 1), poly) else ShiftRight(c, 1)
  }

  function Shifts(poly: Word, c: Word, k: nat): Word
    decreases k
  {
    if k == 0 then c else Shifts(poly, Shift(poly, c), k - 1)
  }

  /** Feeds bits into the register, lowest first. */
  function FeedBits(poly: Word, c: Word, bits: seq<bool>): Word
    decreases |bits|
  {
    if bits == [] then c else FeedBits(poly, Shift(poly, Xor(c, Low(bits[..1]))), bits[1..])
  }

  /** The register after a message, one bit at a time. */
  function Feed(poly: Word, c: Word, msg: seq<byte>): Word {
    if msg == [] then c else FeedBits(poly, Feed(poly, c, msg[..|msg| - 1]), ToBits(msg[|msg| - 1] as int, 8))
  }

  /** The CRC of a message continued from an earlier CRC; the register is kept inverted. */
  function Crc(poly: Word, crc: Word, msg: seq<byte>): Word {
    Not(Feed(poly, Not(crc), msg))
  }

  lemma ShiftLinear(poly: Word, a: Word, b: Word)
    ensures Shift(poly, Xor(a, b)) == Xor(Shift(poly, a), Shift(poly, b))
  {
    assert ShiftRight(Xor(a, b), 1) == Xor(ShiftRight(a, 1), ShiftRight(b, 1));
  }

  lemma {:induction false} ShiftsLinear(poly: Word, a: Word, b: Word, k: nat)
    ensures Shifts(poly, Xor(a, b), k) == Xor(Shifts(poly, a, k), Shifts(poly, b, k))
    decreases k
  {
    if k > 0 {
      ShiftLinear(poly, a, b);
      ShiftsLinear(poly, Shift(poly, a), Shift(poly, b), k - 1);
    }
  }

  /** Only the lowest bit added has an effect on what a shift subtracts. */
  lemma ShiftAdded(poly: Word, c: Word, bits: seq<bool>)
    requires 0 < |bits| <= 32
    ensures Shift(poly, Xor(c, Low(bits))) == Xor(Shift(poly, Xor(c, Low(bits[..1]))), Low(bits[1..]))
  {
  }

  /** Feeding bits one by one is adding them all first and then shifting. */
  lemma {:induction false} FeedIsShifts(poly: Word, c: Word, bits: seq<bool>)
    requires |bits| <= 32
    ensures FeedBits(poly, c, bits) == Shifts(poly, Xor(c, Low(bits)), |bits|)
    decreases |bits|
  {
    if bits == [] {
      assert Xor(c, Low(bits)) == c;
    } else {
      FeedIsShifts(poly, Shift(poly, Xor(c, Low(bits[..1]))), bits[1..]);
      ShiftAdded(poly, c, bits);
    }
  }

  /** Shifts of a register whose low bits are zero only move it down. */
  lemma {:induction false} ShiftsHigh(poly: Word, c: Word, k: nat)
    requires k <= 32 && forall i | 0 <= i < k :: !c[i]
    ensures Shifts(poly, c, k) == ShiftRight(c, k)
    decreases k
  {
    if k == 0 {
      assert ShiftRight(c, 0) == c;
    } else {
      ShiftsHigh(poly, Shift(poly, c), k - 1);
      assert Shift(poly, c) == ShiftRight(c, 1);
      assert ShiftRight(ShiftRight(c, 1), k - 1) == ShiftRight(c, k);
    }
  }

  lemma LowHigh(x: Word, k: nat)
    requires k <= 32
    ensures x == Xor(Low(x[..k]), Zeros32(k) + x[k..])
  {
  }

  /** Several bits at a time: divide the low ones out and shift the rest down. */
  lemma ChunkStep(poly: Word, c: Word, bits: seq<bool>, k: nat)
    requires |bits| == k <= 32
    ensures FeedBits(poly, c, bits) == Xor(Shifts(poly, Low(Xor(c[..k], bits)), k), ShiftRight(c, k))
  {
    var x := Xor(c, Low(bits));
    var high: Word := Zeros32(k) + x[k..];
    FeedIsShifts(poly, c, bits);
    assert x[..k] == Xor(c[..k], bits);
    LowHigh(x, k);
    ShiftsLinear(poly, Low(x[..k]), high, k);
    ShiftsHigh(poly, high, k);
    assert ShiftRight(high, k) == ShiftRight(c, k);
  }

  lemma FeedNext(poly: Word, c: Word, msg: seq<byte>, next: seq<byte>, b: byte)
    requires next == msg + [b]
    ensures Feed(poly, c, next) == FeedBits(poly, Feed(poly, c, msg), ToBits(b as int, 8))
  {
    assert next[..|next| - 1] == msg;
  }

  lemma LastOff(a: seq<byte>, b: seq<byte>) returns (front: seq<byte>, x: byte)
    requires b != []
    ensures b == front + [x] && a + b == a + front + [x]
  {
    front, x := b[..|b| - 1], b[|b| - 1];
  }

  /** Updating over a concatenation is updating over its parts in turn. */
  lemma {:induction false} FeedConcat(poly: Word, c: Word, a: seq<byte>, b: seq<byte>)
    ensures Feed(poly, c, a + b) == Feed(poly, Feed(poly, c, a), b)
    decreases |b|
  {
    if b == [] {
      assert a + b == a;
    } else {
      var front, x := LastOff(a, b);
      FeedConcat(poly, c, a, front);
      FeedNext(poly, c, a + front, a + b, x);
      FeedNext(poly, Feed(poly, c, a), front, b, x);
    }
  }

  lemma CrcConcat(poly: Word, crc: Word, a: seq<byte>, b: seq<byte>)
    ensures Crc(poly, crc, a + b) == Crc(poly, Crc(poly, crc, a), b)
  {
    FeedConcat(poly, Not(crc), a, b);
    var c := Feed(poly, Not(crc), a);
    assert Not(Not(c)) == c;
  }

  /** Table entry of a low byte: the byte divided out. */
  function TableFor(poly: Word, i: nat): Word {
    Shifts(poly, ToBits(i, 32), 8)
  }

  class Distribution {
    const poly: Word
    const table: array<Word>

    /** Every entry is its index divided by the polynomial. */
    ghost predicate Valid()
      reads this, table
    {
      table.Length == 256 && forall i | 0 <= i < 256 :: table[i] == TableFor(poly, i)
    }

    constructor (poly: Word)
      ensures this.poly == poly && Valid() && fresh(table)
    {
      this.poly := poly;
      table := new Word[256];
      new;
      var i := 0;
      while i < 256
        invariant 0 <= i <= 256
        invariant forall n | 0 <= n < i :: table[n] == TableFor(poly, n)
      {
        var crc := TableValue(i);
        table[i] := crc;
        i := i + 1;
      }
    }

    method TableValue(i: nat) returns (crc: Word)
      ensures crc == TableFor(poly, i)
    {
      crc := Divide(ToBits(i, 32), 8);
    }

    /** The inner loop of the table: `n` bits, one by one. */
    method Divide(c: Word, n: nat) returns (crc: Word)
      ensures crc == Shifts(poly, c, n)
    {
      crc := c;
      var j := 0;
      while j < n
        invariant 0 <= j <= n && Shifts(poly, c, n) == Shifts(poly, crc, n - j)
      {
        if crc[0] {
          crc := Xor(ShiftRight(crc, 1), poly);
        } else {
          crc := ShiftRight(crc, 1);
        }
        j := j + 1;
      }
    }

    /** The table-driven update computes the bit-at-a-time CRC. */
    method Update(crc: Word, buf: seq<byte>) returns (r: Word)
      requires Valid()
      ensures r == Crc(poly, crc, buf)
    {
      var c := Not(crc);
      var i := 0;
      while i < |buf|
        invariant 0 <= i <= |buf| && c == Feed(poly, Not(crc), buf[..i])
      {
        var low := Xor(c[..8], ToBits(buf[i] as int, 8));
        TableStep(poly, table[..], c, buf[i]);
        assert buf[..i + 1][..i] == buf[..i];
        c := Xor(table[Value(low)], ShiftRight(c, 8));
        i := i + 1;
      }
      assert buf[..i] == buf;
      r := Not(c);
    }

    /** Partition of a key. */
    method Distribute(key: seq<byte>, partitions: nat) returns (p: nat)
      requires Valid() && partitions != 0
      ensures p < partitions
      ensures !HasTag(key) ==> p == Value(Crc(poly, Low([]), key)) % partitions
      ensures forall b, e | TagAt(key, b, e) :: p == Value(Crc(poly, Low([]), key[b + 1..e])) % partitions
    {
      HashedPart(key);
      var crc := Update(Low([]), GetHashkey(key));
      p := Value(crc) % partitions;
    }
  }

  /** The polynomial the program uses, reflected. What stands above holds for any. */
  const IEEE_POLY: nat := 0xEDB88320

  /** The polynomial is the one of CRC-32 in IEEE 802.3, with its highest powers in the
      lowest bits: power k counts 2 to the power 31 - k. The powers beside 32 are 26, 23,
      22, 16, 12, 11, 10, 8, 7, 5, 4, 2, 1 and 0, in this order. */
  lemma IeeePowers()
    ensures IEEE_POLY == 0x20 + 0x100 + 0x200 + 0x8000 + 0x8_0000 + 0x10_0000 + 0x20_0000 + 0x80_0000 + 0x100_0000
                         + 0x400_0000 + 0x800_0000 + 0x2000_0000 + 0x4000_0000 + 0x8000_0000
  {
  }

  lemma {:induction false} FeedBitsConcat(poly: Word, c: Word, a: seq<bool>, b: seq<bool>)
    ensures FeedBits(poly, c, a + b) == FeedBits(poly, FeedBits(poly, c, a), b)
    decreases |a|
  {
    if a == [] {
      assert a + b == b;
    } else {
      assert (a + b)[..1] == a[..1] && (a + b)[1..] == a[1..] + b;
      FeedBitsConcat(poly, Shift(poly, Xor(c, Low(a[..1]))), a[1..], b);
    }
  }

  /** A message as its bits. */
  function AllBits(msg: seq<byte>): (bits: seq<bool>)
    ensures |bits| == 8 * |msg|
  {
    if msg == [] then [] else AllBits(msg[..|msg| - 1]) + ToBits(msg[|msg| - 1] as int, 8)
  }

  lemma {:induction false} FeedIsBits(poly: Word, c: Word, msg: seq<byte>)
    ensures Feed(poly, c, msg) == FeedBits(poly, c, AllBits(msg))
  {
    if msg != [] {
      var n := |msg| - 1;
      FeedIsBits(poly, c, msg[..n]);
      FeedBitsConcat(poly, c, AllBits(msg[..n]), ToBits(msg[n] as int, 8));
    }
  }

  lemma EightOnes()
    ensures ToBits(255, 8) == seq(8, _ => true)
  {
  }

  lemma {:induction false} OnesAreOnes(msg: seq<byte>)
    requires forall i | 0 <= i < |msg| :: msg[i] == 255
    ensures forall i | 0 <= i < |AllBits(msg)| :: AllBits(msg)[i]
  {
    if msg != [] {
      OnesAreOnes(msg[..|msg| - 1]);
      EightOnes();
    }
  }

  lemma {:induction false} ZeroStays(poly: Word, k: nat)
    ensures Shifts(poly, Low([]), k) == Low([])
    decreases k
  {
    if k > 0 {
      assert ShiftRight(Low([]), 1) == Low([]);
      ZeroStays(poly, k - 1);
    }
  }

  lemma OnesCancel(poly: Word, bits: Word)
    requires forall i | 0 <= i < |bits| :: bits[i]
    ensures FeedBits(poly, Not(Low([])), bits) == Low([])
  {
    FeedIsShifts(poly, Not(Low([])), bits);
    assert Xor(Not(Low([])), Low(bits)) == Low([]);
    ZeroStays(poly, |bits|);
  }

  /** What the inversion gives: nothing fed changes nothing, and four bytes of ones take
      the CRC of nothing, all zeros, to all ones, whatever the polynomial. */
  lemma InvertedRegister(poly: Word, crc: Word, ones: seq<byte>)
    requires |ones| == 4 && forall i | 0 <= i < 4 :: ones[i] == 255
    ensures Crc(poly, crc, []) == crc
    ensures Crc(poly, Low([]), ones) == Not(Low([]))
  {
    assert Not(Not(crc)) == crc;
    OnesAreOnes(ones);
    FeedIsBits(poly, Not(Low([])), ones);
    OnesCancel(poly, AllBits(ones));
  }

  /** Partition of a key by the CRC-32 of its tag, or of the whole key if it has none. */
  method Partition(key: seq<byte>, partitions: nat) returns (p: nat)
    requires partitions != 0
    ensures p < partitions
    ensures !HasTag(key) ==> p == Value(Crc(ToBits(IEEE_POLY, 32), Low([]), key)) % partitions
    ensures forall b, e | TagAt(key, b, e) :: p == Value(Crc(ToBits(IEEE_POLY, 32), Low([]), key[b + 1..e])) % partitions
  {
    var distribution := new Distribution(ToBits(IEEE_POLY, 32));
    p := distribution.Distribute(key, partitions);
  }

  const TAG_BEGIN: byte := 123
  const TAG_END: byte := 125

  function IndexOf(s: seq<byte>, c: byte, from: nat): (i: nat)
    requires from <= |s|
    ensures from <= i <= |s| && (i < |s| ==> s[i] == c)
    ensures forall j | from <= j < i :: s[j] != c
    decreases |s| - from
  {
    if from == |s| || s[from] == c then from else IndexOf(s, c, from + 1)
  }

  /** The part of a key that is hashed: what stands between the first opening brace and
      the next closing one, or else the whole key. */
  function GetHashkey(key: seq<byte>): seq<byte> {
    var begin := IndexOf(key, TAG_BEGIN, 0);
    if begin == |key| then key
    else
      var end := IndexOf(key, TAG_END, begin + 1);
      if end == |key| then key else key[begin + 1..end]
  }

  /** The first opening brace is at `b`, and the first closing one after it at `e`. */
  ghost predicate TagAt(key: seq<byte>, b: int, e: int) {
    && 0 <= b < e < |key| && key[b] == TAG_BEGIN && key[e] == TAG_END
    && (forall i | 0 <= i < b :: key[i] != TAG_BEGIN)
    && (forall i | b < i < e :: key[i] != TAG_END)
  }

  ghost predicate HasTag(key: seq<byte>) { exists b, e :: TagAt(key, b, e) }

  /** Every key is hashed by its tag if it has one, and whole otherwise. */
  lemma HashedPart(key: seq<byte>)
    ensures forall b, e | TagAt(key, b, e) :: GetHashkey(key) == key[b + 1..e]
    ensures !HasTag(key) ==> GetHashkey(key) == key
  {
    var begin := IndexOf(key, TAG_BEGIN, 0);
    forall b, e | TagAt(key, b, e)
      ensures GetHashkey(key) == key[b + 1..e]
    {
      assert begin == b && IndexOf(key, TAG_END, b + 1) == e;
    }
    if begin < |key| {
      var end := IndexOf(key, TAG_END, begin + 1);
      assert end < |key| ==> TagAt(key, begin, end);
    }
  }

  /** A key without an opening brace is hashed whole, and so is one whose first opening
      brace is not closed. */
  lemma Untagged(before: seq<byte>, after: seq<byte>)
    requires TAG_BEGIN !in before && TAG_END !in after
    ensures GetHashkey(before) == before
    ensures GetHashkey(before + [TAG_BEGIN] + after) == before + [TAG_BEGIN] + after
  {
    var key := before + [TAG_BEGIN] + after;
    assert key[|before|] == TAG_BEGIN;
    assert forall i | 0 <= i < |before| :: key[i] == before[i];
    assert forall i | |before| < i < |key| :: key[i] == after[i - |before| - 1];
    forall b, e
      ensures !TagAt(before, b, e) && !TagAt(key, b, e)
    {
      assert TagAt(key, b, e) ==> b == |before|;
    }
    HashedPart(before);
    HashedPart(key);
  }

  /** Keys that carry the same tag are hashed alike, so they share a partition. */
  lemma TagDecides(before: seq<byte>, tag: seq<byte>, after: seq<byte>)
    requires TAG_BEGIN !in before && TAG_END !in tag
    ensures GetHashkey(before + [TAG_BEGIN] + tag + [TAG_END] + after) == tag
  {
    var key := before + [TAG_BEGIN] + tag + [TAG_END] + after;
    var b, e := |before|, |before| + 1 + |tag|;
    assert key[b] == TAG_BEGIN && key[e] == TAG_END;
    assert forall i | 0 <= i < b :: key[i] == before[i];
    assert IndexOf(key, TAG_BEGIN, 0) == b;
    assert key[b + 1..e] == tag;
    assert forall i | b + 1 <= i < e :: key[i] == key[b + 1..e][i - (b + 1)];
    assert IndexOf(key, TAG_END, b + 1) == e;
  }

  lemma TableStep(poly: Word, table: seq<Word>, c: Word, b: byte)
    requires |table| == 256 && forall i | 0 <= i < 256 :: table[i] == TableFor(poly, i)
    ensures
      var low := Xor(c[..8], ToBits(b as int, 8));
      Value(low) < 256 && FeedBits(poly, c, ToBits(b as int, 8)) == Xor(table[Value(low)], ShiftRight(c, 8))
  {
    TableEntry(Xor(c[..8], ToBits(b as int, 8)));
    ChunkStep(poly, c, ToBits(b as int, 8), 8);
  }

  lemma TableEntry(low: seq<bool>)
    requires |low| == 8
    ensures Value(low) < 256 && ToBits(Value(low), 32) == Low(low)
  {
    ValueBound(low);
    assert Pow2(8) == 256;
    PaddedBits(low, 24);
  }

  lemma {:induction false} PaddedBits(bits: seq<bool>, k: nat)
    ensures ToBits(Value(bits), |bits| + k) == bits + Zeros32(k)
  {
    if bits == [] {
      if k > 0 {
        PaddedBits(bits, k - 1);
      }
    } else {
      PaddedBits(bits[1..], k);
    }
  }
}
