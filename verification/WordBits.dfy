/** Machine words as sequences of bits, lowest first, and the 32-bit word of a number. */
module WordBits {
  import opened Bits

  predicate Small(x: bv64) { x & 0xFFFFFFFF == x }

  function BitsOf(x: bv64, k: nat): (l: seq<bool>)
    ensures |l| == k
    decreases k
  {
    if k == 0 then [] else [x & 1 == 1] + BitsOf(x >> 1, k - 1)
  }

  /** One more bit below the others, of which 32 are kept. */
  function Push(b: bool, w: bv64): bv64 {
    ((if b then 1 else 0) | (w << 1)) & 0xFFFFFFFF
  }

  function WordFrom(l: seq<bool>): bv64 {
    if l == [] then 0 else Push(l[0], WordFrom(l[1..]))
  }

  predicate LowOnes(m: bv64, k: nat)
    decreases k
  {
    k == 0 || (m & 1 == 1 && LowOnes(m >> 1, k - 1))
  }

  lemma OneMore(m: bv64, m': bv64, k: nat)
    requires m & 1 == 1 && m' == m >> 1 && LowOnes(m', k)
    ensures LowOnes(m, k + 1)
  {
  }

  lemma FourMore(m: bv64, m1: bv64, m2: bv64, m3: bv64, m4: bv64, k: nat)
    requires m1 == m >> 1 && m2 == m1 >> 1 && m3 == m2 >> 1 && m4 == m3 >> 1
    requires m & 1 == 1 && m1 & 1 == 1 && m2 & 1 == 1 && m3 & 1 == 1 && LowOnes(m4, k)
    ensures LowOnes(m, k + 4)
  {
    OneMore(m3, m4, k);
    OneMore(m2, m3, k + 1);
    OneMore(m1, m2, k + 2);
    OneMore(m, m1, k + 3);
  }

  lemma LowOnes32()
    ensures LowOnes(0xFFFFFFFF, 32)
  {
    FourMore(0xF, 0x7, 0x3, 0x1, 0x0, 0);
    FourMore(0xFF, 0x7F, 0x3F, 0x1F, 0xF, 4);
    FourMore(0xFFF, 0x7FF, 0x3FF, 0x1FF, 0xFF, 8);
    FourMore(0xFFFF, 0x7FFF, 0x3FFF, 0x1FFF, 0xFFF, 12);
    FourMore(0xFFFFF, 0x7FFFF, 0x3FFFF, 0x1FFFF, 0xFFFF, 16);
    FourMore(0xFFFFFF, 0x7FFFFF, 0x3FFFFF, 0x1FFFFF, 0xFFFFF, 20);
    FourMore(0xFFFFFFF, 0x7FFFFFF, 0x3FFFFFF, 0x1FFFFFF, 0xFFFFFF, 24);
    FourMore(0xFFFFFFFF, 0x7FFFFFFF, 0x3FFFFFFF, 0x1FFFFFFF, 0xFFFFFFF, 28);
  }

  lemma {:induction false} OnesLess(m: bv64, k: nat, j: nat)
    requires LowOnes(m, k) && j <= k
    ensures LowOnes(m, j)
    decreases j
  {
    if j > 0 {
      OnesLess(m >> 1, k - 1, j - 1);
    }
  }

  lemma MaskShift(x: bv64, m: bv64)
    ensures (x & m) >> 1 == (x >> 1) & (m >> 1)
  {
  }

  lemma MaskLow(x: bv64, m: bv64)
    requires m & 1 == 1
    ensures (x & m) & 1 == x & 1
  {
  }

  lemma {:induction false} MaskKeeps(x: bv64, m: bv64, k: nat)
    requires LowOnes(m, k)
    ensures BitsOf(x & m, k) == BitsOf(x, k)
    decreases k
  {
    if k > 0 {
      MaskLow(x, m);
      MaskShift(x, m);
      MaskKeeps(x >> 1, m >> 1, k - 1);
    }
  }

  lemma ShiftBack(b: bool, w: bv64)
    ensures Push(b, w) >> 1 == w & 0x7FFFFFFF
  {
  }

  lemma ShiftLow(b: bool, w: bv64)
    ensures Push(b, w) & 1 == 1 <==> b
  {
  }

  lemma OneBit(b: bool, w: bv64, k: nat)
    requires k < 32
    ensures BitsOf(Push(b, w), k + 1) == [b] + BitsOf(w, k)
  {
    ShiftBack(b, w);
    ShiftLow(b, w);
    LowOnes32();
    assert LowOnes(0x7FFFFFFF, 31);
    OnesLess(0x7FFFFFFF, 31, k);
    MaskKeeps(w, 0x7FFFFFFF, k);
  }

  lemma {:induction false} BitsBack(l: seq<bool>)
    requires |l| <= 32
    ensures BitsOf(WordFrom(l), |l|) == l
  {
    if l != [] {
      OneBit(l[0], WordFrom(l[1..]), |l| - 1);
      BitsBack(l[1..]);
    }
  }

  lemma FromIsSmall(l: seq<bool>)
    ensures Small(WordFrom(l))
  {
  }

  /** The word a number is cut to when it is handed on as 32 bits. */
  function Word32(n: nat): bv64 {
    WordFrom(ToBits(n, 32))
  }

  lemma WordOfNumber(n: nat)
    ensures Small(Word32(n)) && BitsOf(Word32(n), 32) == ToBits(n, 32)
  {
    FromIsSmall(ToBits(n, 32));
    BitsBack(ToBits(n, 32));
  }
}
