/**
 Interleaving two 32-bit numbers into a 64-bit word by masks and shifts, and taking
 them apart again.
 */
module Interleave64 {

  /** The bits of `lat` in the even positions, those of `long` in the odd ones. */
  function Interleave(lat: bv64, long: bv64): bv64 {
    var x1, y1 := (lat | (lat << 16)) & 0x0000FFFF0000FFFF, (long | (long << 16)) & 0x0000FFFF0000FFFF;
    var x2, y2 := (x1 | (x1 << 8)) & 0x00FF00FF00FF00FF, (y1 | (y1 << 8)) & 0x00FF00FF00FF00FF;
    var x3, y3 := (x2 | (x2 << 4)) & 0x0F0F0F0F0F0F0F0F, (y2 | (y2 << 4)) & 0x0F0F0F0F0F0F0F0F;
    var x4, y4 := (x3 | (x3 << 2)) & 0x3333333333333333, (y3 | (y3 << 2)) & 0x3333333333333333;
    var x5, y5 := (x4 | (x4 << 1)) & 0x5555555555555555, (y4 | (y4 << 1)) & 0x5555555555555555;
    x5 | (y5 << 1)
  }

  /** The even positions in the low half, the odd ones in the high half. */
  function Deinterleave(bits: bv64): bv64 {
    var x0, y0 := bits, bits >> 1;
    var x1, y1 := (x0 | (x0 >> 0)) & 0x5555555555555555, (y0 | (y0 >> 0)) & 0x5555555555555555;
    var x2, y2 := (x1 | (x1 >> 1)) & 0x3333333333333333, (y1 | (y1 >> 1)) & 0x3333333333333333;
    var x3, y3 := (x2 | (x2 >> 2)) & 0x0F0F0F0F0F0F0F0F, (y2 | (y2 >> 2)) & 0x0F0F0F0F0F0F0F0F;
    var x4, y4 := (x3 | (x3 >> 4)) & 0x00FF00FF00FF00FF, (y3 | (y3 >> 4)) & 0x00FF00FF00FF00FF;
    var x5, y5 := (x4 | (x4 >> 8)) & 0x0000FFFF0000FFFF, (y4 | (y4 >> 8)) & 0x0000FFFF0000FFFF;
    var x6, y6 := (x5 | (x5 >> 16)) & 0x00000000FFFFFFFF, (y5 | (y5 >> 16)) & 0x00000000FFFFFFFF;
    x6 | (y6 << 32)
  }

  /** The latitude comes back in the low half of the separated word. */
  lemma LatitudeBack(lat: bv64, long: bv64)
    requires lat & 0xFFFFFFFF == lat && long & 0xFFFFFFFF == long
    ensures Deinterleave(Interleave(lat, long)) & 0xFFFFFFFF == lat
  {
  }

  /** The longitude comes back in the high half. */
  lemma LongitudeBack(lat: bv64, long: bv64)
    requires lat & 0xFFFFFFFF == lat && long & 0xFFFFFFFF == long
    ensures Deinterleave(Interleave(lat, long)) >> 32 == long
  {
  }

  /** Every word is the interleaving of its own lanes. */
  lemma HashFromLanes(bits: bv64)
    ensures Interleave(Deinterleave(bits) & 0xFFFFFFFF, Deinterleave(bits) >> 32) == bits
  {
  }

  /** The lowest pair of bits holds the lowest bits of the two numbers. */
  lemma LowEven(lat: bv64, long: bv64)
    requires lat & 0xFFFFFFFF == lat && long & 0xFFFFFFFF == long
    ensures Interleave(lat, long) & 1 == lat & 1
  {
  }

  lemma LowOdd(lat: bv64, long: bv64)
    requires lat & 0xFFFFFFFF == lat && long & 0xFFFFFFFF == long
    ensures (Interleave(lat, long) >> 1) & 1 == long & 1
  {
  }

  /** Dropping that pair is dropping the lowest bit of each. */
  lemma HighPairs(lat: bv64, long: bv64)
    requires lat & 0xFFFFFFFF == lat && long & 0xFFFFFFFF == long
    ensures Interleave(lat, long) >> 2 == Interleave(lat >> 1, long >> 1)
  {
  }
}
