/**
 The machine-word interleaving and the lanes of a geohash are the same thing: the
 pairs of bits of an interleaved word are the bits of the two numbers side by side.
 */
module GeohashWord {
  import opened Geohash
  import opened GeohashScan
  import opened WordBits
  import I = Interleave64

  function PairsOf(x: bv64, k: nat): (w: Word)
    ensures |w| == k
    decreases k
  {
    if k == 0 then [] else [Pair(x & 1 == 1, (x >> 1) & 1 == 1)] + PairsOf(x >> 2, k - 1)
  }

  lemma HalfSmall(x: bv64)
    requires Small(x)
    ensures Small(x >> 1)
  {
  }

  /** What interleaving does to the lowest bits and to the rest determines it. */
  ghost predicate Interleaves(f: (bv64, bv64) -> bv64) {
    forall a: bv64, b: bv64 | Small(a) && Small(b) ::
      f(a, b) & 1 == a & 1 && (f(a, b) >> 1) & 1 == b & 1 && f(a, b) >> 2 == f(a >> 1, b >> 1)
  }

  lemma {:induction false} InterleavingIsLanes(f: (bv64, bv64) -> bv64, lat: bv64, long: bv64, k: nat)
    requires Interleaves(f) && Small(lat) && Small(long)
    ensures PairsOf(f(lat, long), k) == Lanes(BitsOf(lat, k), BitsOf(long, k), k)
    decreases k
  {
    if k > 0 {
      HalfSmall(lat);
      HalfSmall(long);
      InterleavingIsLanes(f, lat >> 1, long >> 1, k - 1);
    }
  }

  lemma InterleaveInterleaves()
    ensures Interleaves(I.Interleave)
  {
    forall a: bv64, b: bv64 | Small(a) && Small(b)
      ensures I.Interleave(a, b) & 1 == a & 1
    {
      I.LowEven(a, b);
    }
    forall a: bv64, b: bv64 | Small(a) && Small(b)
      ensures (I.Interleave(a, b) >> 1) & 1 == b & 1
    {
      I.LowOdd(a, b);
    }
    forall a: bv64, b: bv64 | Small(a) && Small(b)
      ensures I.Interleave(a, b) >> 2 == I.Interleave(a >> 1, b >> 1)
    {
      I.HighPairs(a, b);
    }
  }

  lemma InterleaveIsLanes(lat: bv64, long: bv64)
    requires Small(lat) && Small(long)
    ensures PairsOf(I.Interleave(lat, long), PAIRS) == Lanes(BitsOf(lat, PAIRS), BitsOf(long, PAIRS), PAIRS)
  {
    InterleaveInterleaves();
    InterleavingIsLanes(I.Interleave, lat, long, PAIRS);
  }

  /** The cell of a point is what the masks and shifts make of its two fixed-point numbers. */
  lemma EncodeInterleaves(longRange: Range, latRange: Range, longitude: real, latitude: real, step: nat)
    requires Inside(longRange, latRange, longitude, latitude) && 1 <= step <= PAIRS
    ensures
      var e := GeohashEncode(longRange, latRange, longitude, latitude, step);
      var lat, long := Fixed(OffsetIn(latitude, latRange), step), Fixed(OffsetIn(longitude, longRange), step);
      e.Cell? && e.bits == PairsOf(I.Interleave(Word32(lat), Word32(long)), PAIRS)
  {
    var lat, long := Fixed(OffsetIn(latitude, latRange), step), Fixed(OffsetIn(longitude, longRange), step);
    WordOfNumber(lat);
    WordOfNumber(long);
    InterleaveIsLanes(Word32(lat), Word32(long));
  }
}
