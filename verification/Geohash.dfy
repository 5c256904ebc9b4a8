/**
 Geohashes: two fixed-point coordinates with their bits interleaved, latitude in the
 even positions and longitude in the odd ones. A move to a neighbouring cell does
 arithmetic on one lane of the word and lets the carry run over the other.

 A 64-bit word is kept as its 32 pairs of bits, lowest first.
 */
module Geohash {
  import opened Bits

  datatype Pair = Pair(even: bool, odd: bool)

  const PAIRS: nat := 32

  type Word = seq<Pair>

  /* ---------- machine words ---------- */

  predicate Majority(a: bool, b: bool, c: bool) { (a && b) || (a && c) || (b && c) }

  /** Sum of two words and a carry; what leaves the top is lost. */
  function Add(a: Word, b: Word, carry: bool): (r: Word)
    requires |a| == |b|
    ensures |r| == |a|
  {
    if a == [] then []
    else
      var c := Majority(a[0].even, b[0].even, carry);
      [Pair(a[0].even != (b[0].even != carry), a[0].odd != (b[0].odd != c))]
      + Add(a[1..], b[1..], Majority(a[0].odd, b[0].odd, c))
  }

  /** Difference of two words and a borrow, modulo the word size. */
  function Sub(a: Word, b: Word, borrow: bool): (r: Word)
    requires |a| == |b|
    ensures |r| == |a|
  {
    if a == [] then []
    else
      var c := Majority(!a[0].even, b[0].even, borrow);
      [Pair(a[0].even != (b[0].even != borrow), a[0].odd != (b[0].odd != c))]
      + Sub(a[1..], b[1..], Majority(!a[0].odd, b[0].odd, c))
  }

  function And(a: Word, b: Word): (r: Word)
    requires |a| == |b|
    ensures |r| == |a|
  {
    if a == [] then [] else [Pair(a[0].even && b[0].even, a[0].odd && b[0].odd)] + And(a[1..], b[1..])
  }

  function Or(a: Word, b: Word): (r: Word)
    requires |a| == |b|
    ensures |r| == |a|
  {
    if a == [] then [] else [Pair(a[0].even || b[0].even, a[0].odd || b[0].odd)] + Or(a[1..], b[1..])
  }

  /** The pair `p` repeated `s` times at the low end of a word of `n` pairs. */
  function Mask(n: nat, s: nat, p: Pair): (r: Word)
    ensures |r| == n
  {
    if n == 0 then [] else [if s > 0 then p else Pair(false, false)] + Mask(n - 1, if s > 0 then s - 1 else 0, p)
  }

  const EVEN: Pair := Pair(true, false)
  const ODD: Pair := Pair(false, true)

  function One(n: nat): Word { Mask(n, 1, EVEN) }

  /* ---------- lanes ---------- */

  /** The word of `n` pairs whose lanes are `lat` and `long`, with zeros above. */
  function Lanes(lat: seq<bool>, long: seq<bool>, n: nat): (r: Word)
    requires |lat| == |long| <= n
    ensures |r| == n
  {
    if n == 0 then []
    else if lat == [] then [Pair(false, false)] + Lanes([], [], n - 1)
    else [Pair(lat[0], long[0])] + Lanes(lat[1..], long[1..], n - 1)
  }

  /** A lane plus a carry, modulo its size. */
  function Inc(l: seq<bool>, carry: bool): (r: seq<bool>)
    ensures |r| == |l|
  {
    if l == [] then [] else [l[0] != carry] + Inc(l[1..], l[0] && carry)
  }

  /** A lane minus a borrow, modulo its size. */
  function Dec(l: seq<bool>, borrow: bool): (r: seq<bool>)
    ensures |r| == |l|
  {
    if l == [] then [] else [l[0] != borrow] + Dec(l[1..], !l[0] && borrow)
  }

  /** In numbers, a lane counts modulo two to its length. */
  lemma {:induction false} IncValue(l: seq<bool>, carry: bool)
    ensures Value(Inc(l, carry)) == if carry && Value(l) + 1 == Pow2(|l|) then 0 else Value(l) + if carry then 1 else 0
  {
    if l != [] {
      IncValue(l[1..], l[0] && carry);
      ValueBound(l[1..]);
    } 
  }

  lemma {:induction false} DecValue(l: seq<bool>, borrow: bool)
    ensures Value(Dec(l, borrow)) == if borrow && Value(l) == 0 then Pow2(|l|) - 1 else Value(l) - if borrow then 1 else 0
  {
    if l != [] {
      DecValue(l[1..], !l[0] && borrow);
    }
  }

  lemma {:induction false} IncThenDec(l: seq<bool>, c: bool)
    ensures Dec(Inc(l, c), c) == l && Inc(Dec(l, c), c) == l
  {
    if l != [] {
      IncThenDec(l[1..], l[0] && c);
      IncThenDec(l[1..], !l[0] && c);
    }
  }

  /* ---------- moves ---------- */

  function MovedX(bits: Word, step: nat, d: int): (r: Word)
    requires step <= |bits|
    ensures |r| == |bits|
  {
    var n := |bits|;
    if d == 0 then bits
    else
      var x, y, zz := And(bits, Mask(n, n, ODD)), And(bits, Mask(n, n, EVEN)), Mask(n, step, EVEN);
      var zz1 := Add(zz, One(n), false);
      var x' := if d > 0 then Add(x, zz1, false) else Sub(Or(x, zz), zz1, false);
      Or(And(x', Mask(n, step, ODD)), y)
  }

  function MovedY(bits: Word, step: nat, d: int): (r: Word)
    requires step <= |bits|
    ensures |r| == |bits|
  {
    var n := |bits|;
    if d == 0 then bits
    else
      var x, y, zz := And(bits, Mask(n, n, ODD)), And(bits, Mask(n, n, EVEN)), Mask(n, step, ODD);
      var zz1 := Add(zz, One(n), false);
      var y' := if d > 0 then Add(y, zz1, false) else Sub(Or(y, zz), zz1, false);
      Or(x, And(y', Mask(n, step, EVEN)))
  }

  function Stepped(l: seq<bool>, d: int): (r: seq<bool>)
    ensures |r| == |l|
  {
    if d == 0 then l else if d > 0 then Inc(l, true) else Dec(l, true)
  }

  function Falses(n: nat): (l: seq<bool>)
    ensures |l| == n
  {
    if n == 0 then [] else [false] + Falses(n - 1)
  }

  lemma {:induction false} AddZero(a: Word)
    ensures Add(a, Mask(|a|, 0, EVEN), false) == a
  {
    if a != [] {
      AddZero(a[1..]);
    }
  }

  /** Adding or subtracting `zz + 1` is adding or subtracting `zz` with a carry in. */
  lemma PlusOne(a: Word, s: nat, p: Pair)
    requires 0 < s <= |a| && (p == EVEN || p == ODD)
    ensures
      var n := |a|;
      var zz1 := Add(Mask(n, s, p), One(n), false);
      && Add(a, zz1, false) == Add(a, Mask(n, s, p), true)
      && Sub(a, zz1, false) == Sub(a, Mask(n, s, p), true)
  {
    var n := |a|;
    AddZero(Mask(n - 1, s - 1, p));
    assert Mask(n, s, p)[1..] == Mask(n - 1, s - 1, p) && One(n)[1..] == Mask(n - 1, 0, EVEN);
  }

  lemma {:induction false} MaskedOut(a: Word, p: Pair)
    ensures And(a, Mask(|a|, 0, p)) == Lanes([], [], |a|)
  {
    if a != [] {
      MaskedOut(a[1..], p);
    }
  }

  lemma {:induction false} OddUp(l: seq<bool>, n: nat, c: bool)
    requires |l| <= n
    ensures And(Add(Lanes(Falses(|l|), l, n), Mask(n, |l|, EVEN), c), Mask(n, |l|, ODD)) == Lanes(Falses(|l|), Inc(l, c), n)
    decreases n
  {
    if l != [] {
      OddUp(l[1..], n - 1, l[0] && c);
    } else {
      MaskedOut(Add(Lanes([], [], n), Mask(n, 0, EVEN), c), ODD);
    }
  }

  lemma {:induction false} EvenUp(l: seq<bool>, n: nat, c: bool)
    requires |l| <= n
    ensures And(Add(Lanes(l, Falses(|l|), n), Mask(n, |l|, ODD), c), Mask(n, |l|, EVEN)) == Lanes(Inc(l, c), Falses(|l|), n)
    decreases n
  {
    if l != [] {
      EvenUp(l[1..], n - 1, l[0] && c);
    } else {
      MaskedOut(Add(Lanes([], [], n), Mask(n, 0, ODD), c), EVEN);
    }
  }

  lemma {:induction false} OddDown(l: seq<bool>, n: nat, b: bool)
    requires |l| <= n
    ensures And(Sub(Or(Lanes(Falses(|l|), l, n), Mask(n, |l|, EVEN)), Mask(n, |l|, EVEN), b), Mask(n, |l|, ODD))
         == Lanes(Falses(|l|), Dec(l, b), n)
    decreases n
  {
    if l != [] {
      OddDown(l[1..], n - 1, !l[0] && b);
    } else {
      MaskedOut(Sub(Or(Lanes([], [], n), Mask(n, 0, EVEN)), Mask(n, 0, EVEN), b), ODD);
    }
  }

  lemma {:induction false} EvenDown(l: seq<bool>, n: nat, b: bool)
    requires |l| <= n
    ensures And(Sub(Or(Lanes(l, Falses(|l|), n), Mask(n, |l|, ODD)), Mask(n, |l|, ODD), b), Mask(n, |l|, EVEN))
         == Lanes(Dec(l, b), Falses(|l|), n)
    decreases n
  {
    if l != [] {
      EvenDown(l[1..], n - 1, !l[0] && b);
    } else {
      MaskedOut(Sub(Or(Lanes([], [], n), Mask(n, 0, ODD)), Mask(n, 0, ODD), b), EVEN);
    }
  }

  lemma {:induction false} LanesApart(lat: seq<bool>, long: seq<bool>, n: nat)
    requires |lat| == |long| <= n
    ensures And(Lanes(lat, long, n), Mask(n, n, ODD)) == Lanes(Falses(|lat|), long, n)
    ensures And(Lanes(lat, long, n), Mask(n, n, EVEN)) == Lanes(lat, Falses(|lat|), n)
    decreases n
  {
    if n > 0 {
      LanesApart(if lat == [] then [] else lat[1..], if long == [] then [] else long[1..], n - 1);
    }
  }

  lemma {:induction false} LanesJoin(lat: seq<bool>, long: seq<bool>, n: nat)
    requires |lat| == |long| <= n
    ensures Or(Lanes(Falses(|lat|), long, n), Lanes(lat, Falses(|lat|), n)) == Lanes(lat, long, n)
    decreases n
  {
    if n > 0 {
      LanesJoin(if lat == [] then [] else lat[1..], if long == [] then [] else long[1..], n - 1);
    }
  }

  /** A move in x adds to the longitude, modulo the number of cells, and leaves the latitude. */
  lemma MoveXSteps(lat: seq<bool>, long: seq<bool>, n: nat, d: int)
    requires 0 < |lat| == |long| <= n
    ensures MovedX(Lanes(lat, long, n), |lat|, d) == Lanes(lat, Stepped(long, d), n)
  {
    var x := Lanes(Falses(|lat|), long, n);
    LanesApart(lat, long, n);
    if d > 0 {
      PlusOne(x, |lat|, EVEN);
      OddUp(long, n, true);
    } else if d < 0 {
      PlusOne(Or(x, Mask(n, |lat|, EVEN)), |lat|, EVEN);
      OddDown(long, n, true);
    }
    LanesJoin(lat, Stepped(long, d), n);
  }

  /** A move in y adds to the latitude, modulo the number of cells, and leaves the longitude. */
  lemma MoveYSteps(lat: seq<bool>, long: seq<bool>, n: nat, d: int)
    requires 0 < |lat| == |long| <= n
    ensures MovedY(Lanes(lat, long, n), |lat|, d) == Lanes(Stepped(lat, d), long, n)
  {
    var y := Lanes(lat, Falses(|lat|), n);
    LanesApart(lat, long, n);
    if d > 0 {
      PlusOne(y, |lat|, ODD);
      EvenUp(lat, n, true);
    } else if d < 0 {
      PlusOne(Or(y, Mask(n, |lat|, ODD)), |lat|, ODD);
      EvenDown(lat, n, true);
    }
    LanesJoin(Stepped(lat, d), long, n);
  }

  /** Opposite moves cancel. */
  lemma MovesCancel(lat: seq<bool>, long: seq<bool>, n: nat, d: int)
    requires 0 < |lat| == |long| <= n
    ensures
      var h, s := Lanes(lat, long, n), |lat|;
      MovedX(MovedX(h, s, d), s, -d) == h && MovedY(MovedY(h, s, d), s, -d) == h
  {
    IncThenDec(lat, true);
    IncThenDec(long, true);
    MoveXSteps(lat, long, n, d);
    MoveXSteps(lat, Stepped(long, d), n, -d);
    MoveYSteps(lat, long, n, d);
    MoveYSteps(Stepped(lat, d), long, n, -d);
  }

  /** Moves in x and y commute. */
  lemma MovesCommute(lat: seq<bool>, long: seq<bool>, n: nat, dx: int, dy: int)
    requires 0 < |lat| == |long| <= n
    ensures
      var h, s := Lanes(lat, long, n), |lat|;
      MovedX(MovedY(h, s, dy), s, dx) == MovedY(MovedX(h, s, dx), s, dy)
  {
    MoveXSteps(lat, long, n, dx);
    MoveYSteps(lat, Stepped(long, dx), n, dy);
    MoveYSteps(lat, long, n, dy);
    MoveXSteps(Stepped(lat, dy), long, n, dx);
  }

  class GeoHashBits {
    var bits: Word
    var step: nat

    constructor (bits: Word, step: nat)
      ensures this.bits == bits && this.step == step
    {
      this.bits, this.step := bits, step;
    }

    method MoveX(d: int)
      requires |bits| == PAIRS && 1 <= step <= PAIRS
      modifies this`bits
      ensures bits == MovedX(old(bits), step, d)
    {
      if d == 0 {
        return;
      }
      var x := And(bits, Mask(PAIRS, PAIRS, ODD));
      var y := And(bits, Mask(PAIRS, PAIRS, EVEN));
      var zz := Mask(PAIRS, step, EVEN);
      if d > 0 {
        x := Add(x, Add(zz, One(PAIRS), false), false);
      } else {
        x := Or(x, zz);
        x := Sub(x, Add(zz, One(PAIRS), false), false);
      }
      x := And(x, Mask(PAIRS, step, ODD));
      bits := Or(x, y);
    }

    method MoveY(d: int)
      requires |bits| == PAIRS && 1 <= step <= PAIRS
      modifies this`bits
      ensures bits == MovedY(old(bits), step, d)
    {
      if d == 0 {
        return;
      }
      var x := And(bits, Mask(PAIRS, PAIRS, ODD));
      var y := And(bits, Mask(PAIRS, PAIRS, EVEN));
      var zz := Mask(PAIRS, step, ODD);
      if d > 0 {
        y := Add(y, Add(zz, One(PAIRS), false), false);
      } else {
        y := Or(y, zz);
        y := Sub(y, Add(zz, One(PAIRS), false), false);
      }
      y := And(y, Mask(PAIRS, step, EVEN));
      bits := Or(x, y);
    }

    /** The cell `dx` to the east and `dy` to the north. */
    method Neighbor(dx: int, dy: int) returns (hash: GeoHashBits)
      requires |bits| == PAIRS && 1 <= step <= PAIRS
      ensures fresh(hash) && hash.step == step
      ensures forall lat, long | |lat| == |long| == step && bits == Lanes(lat, long, PAIRS) ::
                hash.bits == Lanes(Stepped(lat, dy), Stepped(long, dx), PAIRS)
    {
      hash := new GeoHashBits(bits, step);
      hash.MoveX(dx);
      hash.MoveY(dy);
      forall lat: seq<bool>, long: seq<bool> | |lat| == |long| == step && bits == Lanes(lat, long, PAIRS)
        ensures hash.bits == Lanes(Stepped(lat, dy), Stepped(long, dx), PAIRS)
      {
        MoveXSteps(lat, long, PAIRS, dx);
        MoveYSteps(lat, Stepped(long, dx), PAIRS, dy);
      }
    }
  }

  /* ---------- words as numbers ---------- */

  function Pow4(k: nat): (p: nat)
    ensures p > 0
  {
    if k == 0 then 1 else 4 * Pow4(k - 1)
  }

  function WordValue(w: Word): nat {
    if w == [] then 0 else (if w[0].even then 1 else 0) + (if w[0].odd then 2 else 0) + 4 * WordValue(w[1..])
  }

  lemma {:induction false} WordBound(w: Word)
    ensures WordValue(w) < Pow4(|w|)
  {
    if w != [] {
      WordBound(w[1..]);
    }
  }

  /** Addition of words is addition modulo the word size. */
  lemma {:induction false} AddValue(a: Word, b: Word, carry: bool)
    requires |a| == |b|
    ensures
      var sum := WordValue(a) + WordValue(b) + if carry then 1 else 0;
      WordValue(Add(a, b, carry)) == sum || WordValue(Add(a, b, carry)) == sum - Pow4(|a|)
  {
    if a != [] {
      var c := Majority(a[0].even, b[0].even, carry);
      AddValue(a[1..], b[1..], Majority(a[0].odd, b[0].odd, c));
    }
  }

  /** Subtraction of words is subtraction modulo the word size. */
  lemma {:induction false} SubValue(a: Word, b: Word, borrow: bool)
    requires |a| == |b|
    ensures
      var diff := WordValue(a) - WordValue(b) - if borrow then 1 else 0;
      WordValue(Sub(a, b, borrow)) == diff || WordValue(Sub(a, b, borrow)) == diff + Pow4(|a|)
  {
    if a != [] {
      var c := Majority(!a[0].even, b[0].even, borrow);
      SubValue(a[1..], b[1..], Majority(!a[0].odd, b[0].odd, c));
    }
  }
}
