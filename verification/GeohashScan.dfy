/**
 Encoding a point to a cell, decoding a cell to its box, and the score range that a
 radius query scans for a cell. Coordinates are exact real numbers.
 */
module GeohashScan {
  import opened Bits
  import opened Geohash

  const STEP_MAX: nat := 26

  datatype Range = Range(min: real, max: real) {
    predicate Zero() { min == 0.0 && max == 0.0 }
  }

  datatype Encoded = Cell(bits: Word, step: nat) | OutOfRange

  datatype Area = Area(lat: Range, long: Range)

  /** Position of a coordinate in its range, from 0 to 1. */
  function OffsetIn(x: real, r: Range): (o: real)
    requires r.min < r.max && r.min <= x <= r.max
    ensures 0.0 <= o <= 1.0 && r.min + o * (r.max - r.min) == x
  {
    var o := (x - r.min) / (r.max - r.min);
    assert o * (r.max - r.min) == x - r.min;
    assert 0.0 <= o <= 1.0 by { Quotient(x - r.min, r.max - r.min, o); }
    o
  }

  lemma Quotient(a: real, b: real, q: real)
    requires 0.0 <= a <= b && b > 0.0 && q * b == a
    ensures 0.0 <= q <= 1.0
  {
  }

  /** Fixed-point number with `s` bits after the point, rounded down. */
  function Fixed(o: real, s: nat): (n: nat)
    requires 0.0 <= o <= 1.0
  {
    FloorOfProduct(o, Pow2(s));
    (o * Pow2(s) as real).Floor
  }

  lemma FloorOfProduct(o: real, p: nat)
    requires 0.0 <= o <= 1.0
    ensures 0 <= (o * p as real).Floor <= p
  {
    assert 0.0 <= o * p as real <= p as real;
  }

  function GeohashEncode(longRange: Range, latRange: Range, longitude: real, latitude: real, step: nat): Encoded
    requires longRange.min < longRange.max && latRange.min < latRange.max
  {
    if step > 32 || step == 0 || latRange.Zero() || longRange.Zero() then OutOfRange
    else if !(-180.0 <= longitude <= 180.0 && -85.05112878 <= latitude <= 85.05112878) then OutOfRange
    else if !(latRange.min <= latitude <= latRange.max && longRange.min <= longitude <= longRange.max) then OutOfRange
    else
      var lat, long := Fixed(OffsetIn(latitude, latRange), step), Fixed(OffsetIn(longitude, longRange), step);
      Cell(Lanes(ToBits(lat, PAIRS), ToBits(long, PAIRS), PAIRS), step)
  }

  /* ---------- coarser cells are prefixes of finer ones ---------- */

  /** One bit less after the point drops the lowest bit. */
  lemma FixedHalves(o: real, s: nat)
    requires 0.0 <= o <= 1.0
    ensures Fixed(o, s) == Fixed(o, s + 1) / 2
  {
    var r := o * Pow2(s) as real;
    assert o * Pow2(s + 1) as real == 2.0 * r;
    HalfFloor(r);
  }

  lemma HalfFloor(r: real)
    requires r >= 0.0
    ensures r.Floor == (2.0 * r).Floor / 2
  {
    var n := r.Floor;
    assert n as real <= r < n as real + 1.0;
    assert (2 * n) as real <= 2.0 * r < (2 * n) as real + 2.0;
  }

  /** The number of the cell with these coordinates, from `k` bits of each. */
  function Number(lat: nat, long: nat, k: nat): nat { WordValue(Lanes(ToBits(lat, k), ToBits(long, k), k)) }

  lemma NumberDigit(lat: nat, long: nat, k: nat)
    requires k > 0
    ensures Number(lat, long, k) == lat % 2 + 2 * (long % 2) + 4 * Number(lat / 2, long / 2, k - 1)
  {
  }

  /** Numbers that fit in fewer bits give the same cell number with more of them. */
  lemma {:induction false} NumberWidens(lat: nat, long: nat, k: nat)
    requires lat < Pow2(k) && long < Pow2(k)
    ensures Number(lat, long, k + 1) == Number(lat, long, k)
    decreases k
  {
    NumberDigit(lat, long, k + 1);
    if k > 0 {
      NumberDigit(lat, long, k);
      NumberWidens(lat / 2, long / 2, k - 1);
    }
  }

  lemma NumberQuarter(lat: nat, long: nat, k: nat)
    requires k > 0 && lat < Pow2(k) && long < Pow2(k)
    ensures Number(lat / 2, long / 2, k) == Number(lat, long, k) / 4
  {
    NumberDigit(lat, long, k);
    NumberWidens(lat / 2, long / 2, k - 1);
  }

  lemma DivideExact(a: nat, p: nat, q: nat, r: nat)
    requires p > 0 && a == p * q + r && r < p
    ensures a / p == q
  {
    var d: int := a / p - q;
    assert d * p == r - a % p;
    Multiple(d, p);
  }

  lemma Multiple(d: int, p: int)
    requires p > 0 && d * p < p && d * p > 0 - p
    ensures d == 0
  {
  }

  /** The coarse cell of a point is its fine cell with the low bits dropped. */
  lemma {:induction false} CoarseCell(lat: real, long: real, s: nat, t: nat, k: nat)
    requires 0.0 <= lat <= 1.0 && 0.0 <= long <= 1.0 && s <= t < k
    ensures Number(Fixed(lat, s), Fixed(long, s), k) == Number(Fixed(lat, t), Fixed(long, t), k) / Pow4(t - s)
    decreases t - s
  {
    if s < t {
      CoarseCell(lat, long, s + 1, t, k);
      FixedHalves(lat, s);
      FixedHalves(long, s);
      FixedBound(lat, s + 1, k);
      FixedBound(long, s + 1, k);
      NumberQuarter(Fixed(lat, s + 1), Fixed(long, s + 1), k);
      DivideBack(Number(Fixed(lat, t), Fixed(long, t), k), Pow4(t - s - 1));
    }
  }

  lemma DivideBack(h: nat, p: nat)
    requires p > 0
    ensures h / p / 4 == h / (4 * p)
  {
    var q, r := h / p, h % p;
    assert h == p * q + r;
    var q', r' := q / 4, q % 4;
    Regroup(p, q', r', r);
    DivideExact(h, 4 * p, q', p * r' + r);
  }

  lemma Regroup(p: nat, q: nat, d: nat, r: nat)
    requires p > 0 && r < p && d < 4
    ensures p * (4 * q + d) + r == 4 * p * q + (p * d + r) && p * d + r < 4 * p
  {
    assert p * d <= p * 3;
  }

  lemma FixedBound(o: real, s: nat, k: nat)
    requires 0.0 <= o <= 1.0 && s < k
    ensures Fixed(o, s) < Pow2(k)
  {
    FloorOfProduct(o, Pow2(s));
    Pow2Grows(s, k);
    assert Fixed(o, s) <= Pow2(s);
  }

  lemma {:induction false} Pow2Grows(s: nat, k: nat)
    requires s < k
    ensures Pow2(s) < Pow2(k)
  {
    if s + 1 < k {
      Pow2Grows(s, k - 1);
    }
  }

  /* ---------- the range scan ---------- */

  /** A cell number moved up to the 52 bits of a score. */
  function Align52(number: nat, step: nat): nat
    requires step <= STEP_MAX
  {
    number * Pow4(STEP_MAX - step)
  }

  /** Where a member is: its ranges, its coordinates, and what is stored as its score. */
  predicate Inside(longRange: Range, latRange: Range, longitude: real, latitude: real) {
    && longRange.min < longRange.max && latRange.min < latRange.max && !longRange.Zero() && !latRange.Zero()
    && longRange.min <= longitude <= longRange.max && latRange.min <= latitude <= latRange.max
    && -180.0 <= longitude <= 180.0 && -85.05112878 <= latitude <= 85.05112878
  }

  /** The score is in the range scanned for a cell. Both ends belong to the range. */
  predicate Scanned(score: nat, cell: nat, step: nat)
    requires step <= STEP_MAX
  {
    Align52(cell, step) <= score <= Align52(cell + 1, step)
  }

  /** A member is in the range scanned for a cell exactly when its point lies in the cell,
      or in the lowest fine cell of the next one: the upper end of the range is the score
      of that corner. */
  lemma ScanFindsCell(longRange: Range, latRange: Range, longitude: real, latitude: real, step: nat, cell: nat)
    requires Inside(longRange, latRange, longitude, latitude) && 1 <= step <= STEP_MAX
    ensures
      var fine := GeohashEncode(longRange, latRange, longitude, latitude, STEP_MAX);
      var coarse := GeohashEncode(longRange, latRange, longitude, latitude, step);
      && fine.Cell? && coarse.Cell?
      && (Scanned(WordValue(fine.bits), cell, step) <==>
            || cell == WordValue(coarse.bits)
            || (cell + 1 == WordValue(coarse.bits) && WordValue(fine.bits) == Align52(cell + 1, step)))
  {
    var fine := GeohashEncode(longRange, latRange, longitude, latitude, STEP_MAX);
    var coarse := GeohashEncode(longRange, latRange, longitude, latitude, step);
    CellsNest(longRange, latRange, longitude, latitude, step);
    ScanOf(WordValue(fine.bits), WordValue(coarse.bits), step, cell);
  }

  /** The coarse cell of a point is its fine one without the lowest bits. */
  lemma CellsNest(longRange: Range, latRange: Range, longitude: real, latitude: real, step: nat)
    requires Inside(longRange, latRange, longitude, latitude) && 1 <= step <= STEP_MAX
    ensures
      var fine := GeohashEncode(longRange, latRange, longitude, latitude, STEP_MAX);
      var coarse := GeohashEncode(longRange, latRange, longitude, latitude, step);
      fine.Cell? && coarse.Cell? && WordValue(coarse.bits) == WordValue(fine.bits) / Pow4(STEP_MAX - step)
  {
    CoarseCell(OffsetIn(latitude, latRange), OffsetIn(longitude, longRange), step, STEP_MAX, PAIRS);
  }

  lemma ScanOf(h: nat, c: nat, step: nat, cell: nat)
    requires step <= STEP_MAX && c == h / Pow4(STEP_MAX - step)
    ensures Scanned(h, cell, step) <==> cell == c || (cell + 1 == c && h == Align52(cell + 1, step))
  {
    BetweenClosed(h, Pow4(STEP_MAX - step), cell);
  }

  lemma BetweenClosed(h: nat, p: nat, c: nat)
    requires p > 0
    ensures c * p <= h <= (c + 1) * p <==> c == h / p || (c + 1 == h / p && h == (c + 1) * p)
  {
    Between(h, p, c);
    if h == (c + 1) * p {
      DivideExact(h, p, c + 1, 0);
    }
  }

  /** No member of a cell is missed when the cell is scanned. */
  lemma NoneMissed(longRange: Range, latRange: Range, longitude: real, latitude: real, step: nat)
    requires Inside(longRange, latRange, longitude, latitude) && 1 <= step <= STEP_MAX
    ensures
      var fine := GeohashEncode(longRange, latRange, longitude, latitude, STEP_MAX);
      var coarse := GeohashEncode(longRange, latRange, longitude, latitude, step);
      fine.Cell? && coarse.Cell? && Scanned(WordValue(fine.bits), WordValue(coarse.bits), step)
  {
    var coarse := GeohashEncode(longRange, latRange, longitude, latitude, step);
    ScanFindsCell(longRange, latRange, longitude, latitude, step, WordValue(coarse.bits));
  }

  const LONGITUDES := Range(-180.0, 180.0)
  const LATITUDES := Range(-85.05112878, 85.05112878)

  /** A member in the middle of the lower edge: at step 1 it lies in cell 2, yet it is
      found when cell 1 is scanned as well, so a query that scans both lists it twice. */
  lemma CornerListedTwice()
    ensures
      var fine := GeohashEncode(LONGITUDES, LATITUDES, 0.0, -85.05112878, STEP_MAX);
      var coarse := GeohashEncode(LONGITUDES, LATITUDES, 0.0, -85.05112878, 1);
      && fine.Cell? && coarse.Cell? && WordValue(coarse.bits) == 2
      && Scanned(WordValue(fine.bits), 1, 1) && Scanned(WordValue(fine.bits), 2, 1)
  {
    CornerNumber(STEP_MAX);
    CornerNumber(1);
  }

  lemma CornerNumber(step: nat)
    requires 1 <= step <= STEP_MAX
    ensures
      var e := GeohashEncode(LONGITUDES, LATITUDES, 0.0, -85.05112878, step);
      e.Cell? && WordValue(e.bits) == 2 * Pow4(step - 1)
  {
    var lat, long := OffsetIn(-85.05112878, LATITUDES), OffsetIn(0.0, LONGITUDES);
    EdgeAndMiddle(lat, long, step);
    HighBit(step - 1, PAIRS);
  }

  lemma EdgeAndMiddle(lat: real, long: real, s: nat)
    requires s > 0 && lat == 0.0 && long == 0.5
    ensures Fixed(lat, s) == 0 && Fixed(long, s) == Pow2(s - 1)
  {
    assert long * Pow2(s) as real == Pow2(s - 1) as real;
  }

  lemma {:induction false} HighBit(j: nat, k: nat)
    requires j < k
    ensures Number(0, Pow2(j), k) == 2 * Pow4(j)
  {
    NumberDigit(0, Pow2(j), k);
    if j == 0 {
      NumberZero(k - 1);
    } else {
      HighBit(j - 1, k - 1);
    }
  }

  lemma {:induction false} NumberZero(k: nat)
    ensures Number(0, 0, k) == 0
  {
    if k > 0 {
      NumberDigit(0, 0, k);
      NumberZero(k - 1);
    }
  }

  lemma Between(h: nat, p: nat, c: nat)
    requires p > 0
    ensures c * p <= h < (c + 1) * p <==> c == h / p
  {
    assert h == h / p * p + h % p;
    if c * p <= h < (c + 1) * p {
      DivideExact(h, p, c, h - c * p);
    }
  }

  /* ---------- decoding ---------- */

  function Evens(w: Word): (l: seq<bool>)
    ensures |l| == |w|
  {
    if w == [] then [] else [w[0].even] + Evens(w[1..])
  }

  function Odds(w: Word): (l: seq<bool>)
    ensures |l| == |w|
  {
    if w == [] then [] else [w[0].odd] + Odds(w[1..])
  }

  lemma {:induction false} LanesSeparate(lat: seq<bool>, long: seq<bool>)
    requires |lat| == |long|
    ensures Evens(Lanes(lat, long, |lat|)) == lat && Odds(Lanes(lat, long, |lat|)) == long
  {
    if lat != [] {
      LanesSeparate(lat[1..], long[1..]);
    }
  }

  function Edge(r: Range, n: nat, step: nat): real {
    r.min + n as real / Pow2(step) as real * (r.max - r.min)
  }

  /** The number of the next mark, in `k` bits. */
  function Wrap(n: nat, k: nat): nat { (n + 1) % Pow2(k) }

  function NextMark(n: nat): nat { Wrap(n, PAIRS) }

  function GeohashDecode(longRange: Range, latRange: Range, bits: Word, step: nat): Area {
    var lat, long := Value(Evens(bits)), Value(Odds(bits));
    Area(Range(Edge(latRange, lat, step), Edge(latRange, NextMark(lat), step)),
         Range(Edge(longRange, long, step), Edge(longRange, NextMark(long), step)))
  }

  lemma EdgesEnclose(r: Range, x: real, step: nat)
    requires r.min < r.max && r.min <= x <= r.max
    ensures
      var n := Fixed(OffsetIn(x, r), step);
      Edge(r, n, step) <= x < Edge(r, n + 1, step)
  {
    var o, p := OffsetIn(x, r), Pow2(step) as real;
    var n := Fixed(o, step);
    assert n as real <= o * p < n as real + 1.0;
    Around(n as real, (n + 1) as real, o, p, r.min, r.max - r.min, x);
  }

  /** Scaling keeps what lies between two marks between them. */
  lemma Around(a: real, b: real, o: real, p: real, min: real, d: real, x: real)
    requires a <= o * p < b && p > 0.0 && d > 0.0 && min + o * d == x
    ensures min + a / p * d <= x < min + b / p * d
  {
    var v := o * p;
    assert v / p == o;
    Scale(a, v, p);
    ScaleStrict(v, b, p);
    Stretch(a / p, o, d);
    StretchStrict(o, b / p, d);
  }

  lemma Scale(a: real, b: real, p: real)
    requires a <= b && p > 0.0
    ensures a / p <= b / p
  {
  }

  lemma ScaleStrict(a: real, b: real, p: real)
    requires a < b && p > 0.0
    ensures a / p < b / p
  {
  }

  lemma Stretch(a: real, b: real, d: real)
    requires a <= b && d > 0.0
    ensures a * d <= b * d
  {
  }

  lemma StretchStrict(a: real, b: real, d: real)
    requires a < b && d > 0.0
    ensures a * d < b * d
  {
  }

  /** The fixed-point number of the coordinate has a successor in `k` bits. */
  predicate HasNext(r: Range, x: real, step: nat, k: nat)
    requires r.min < r.max && r.min <= x <= r.max
  {
    Fixed(OffsetIn(x, r), step) + 1 < Pow2(k)
  }

  /** Decoding one coordinate gives an interval that contains it exactly when the number
      of the next mark fits `k` bits. */
  lemma DecodeOne(r: Range, x: real, step: nat, k: nat)
    requires r.min < r.max && r.min <= x <= r.max && 1 <= step <= k
    ensures
      var n := Value(ToBits(Fixed(OffsetIn(x, r), step), k));
      Edge(r, n, step) <= x < Edge(r, Wrap(n, k), step) <==> HasNext(r, x, step, k)
  {
    var n := Fixed(OffsetIn(x, r), step);
    FixedTop(OffsetIn(x, r), step, k);
    if n < Pow2(k) {
      ValueOfBits(n, k);
      MarkAfter(r, x, step, k, n);
    } else {
      PowerBits(k);
      LastMark(r, x, k);
    }
  }

  lemma MarkAfter(r: Range, x: real, step: nat, k: nat, n: nat)
    requires r.min < r.max && r.min <= x <= r.max
    requires n == Fixed(OffsetIn(x, r), step) < Pow2(k)
    ensures Edge(r, n, step) <= x < Edge(r, Wrap(n, k), step) <==> n + 1 < Pow2(k)
  {
    EdgesEnclose(r, x, step);
    WrapIs(n, Pow2(k));
    if n + 1 == Pow2(k) {
      assert Edge(r, 0, step) == r.min;
    }
  }

  lemma WrapIs(n: nat, p: nat)
    requires n < p
    ensures (n + 1) % p == if n + 1 == p then 0 else n + 1
  {
  }

  lemma FloorBelow(o: real, p: nat)
    requires 0.0 <= o < 1.0 && p > 0
    ensures 0 <= (o * p as real).Floor < p
  {
    StretchStrict(o, 1.0, p as real);
    FloorOfProduct(o, p);
  }

  lemma FixedTop(o: real, step: nat, k: nat)
    requires 0.0 <= o <= 1.0 && step <= k
    ensures Fixed(o, step) <= Pow2(k)
    ensures Fixed(o, step) == Pow2(k) ==> step == k && o == 1.0
  {
    if o < 1.0 {
      FloorBelow(o, Pow2(step));
    } else {
      FloorOfProduct(o, Pow2(step));
    }
    if step < k {
      Pow2Grows(step, k);
    }
  }

  /** At the upper end of the range, as many bits as there are after the point hold zero. */
  lemma LastMark(r: Range, x: real, k: nat)
    requires r.min < r.max && r.min <= x <= r.max && k > 0
    requires OffsetIn(x, r) == 1.0
    ensures !(x < Edge(r, Wrap(0, k), k))
  {
    WrapIs(0, Pow2(k));
    assert Pow2(k) == 2 * Pow2(k - 1);
    FirstEdge(r.min, 1 as real, Pow2(k) as real, r.max - r.min, OffsetIn(x, r), x);
  }

  lemma FirstEdge(min: real, one: real, p: real, d: real, o: real, x: real)
    requires one == o == 1.0 && p >= 1.0 && d > 0.0 && min + o * d == x
    ensures !(x < min + one / p * d)
  {
    Scale(one, p, p);
    Stretch(one / p, o, d);
  }

  lemma {:induction false} PowerBits(k: nat)
    ensures Value(ToBits(Pow2(k), k)) == 0
  {
    if k > 0 {
      assert Pow2(k) / 2 == Pow2(k - 1) && Pow2(k) % 2 == 0;
      PowerBits(k - 1);
    }
  }

  /** The box of a point's cell contains the point exactly when both fixed-point numbers
      have a successor in 32 bits. At steps below 32 they always have. */
  lemma DecodeEncloses(longRange: Range, latRange: Range, longitude: real, latitude: real, step: nat)
    requires Inside(longRange, latRange, longitude, latitude) && 1 <= step <= PAIRS
    ensures
      var e := GeohashEncode(longRange, latRange, longitude, latitude, step);
      e.Cell? &&
      var area := GeohashDecode(longRange, latRange, e.bits, e.step);
      && ((area.lat.min <= latitude < area.lat.max && area.long.min <= longitude < area.long.max) <==>
            HasNext(latRange, latitude, step, PAIRS) && HasNext(longRange, longitude, step, PAIRS))
  {
    var lat, long := Fixed(OffsetIn(latitude, latRange), step), Fixed(OffsetIn(longitude, longRange), step);
    LanesSeparate(ToBits(lat, PAIRS), ToBits(long, PAIRS));
    DecodeOne(latRange, latitude, step, PAIRS);
    DecodeOne(longRange, longitude, step, PAIRS);
  }

  lemma BelowLastStep(r: Range, x: real, step: nat, k: nat)
    requires r.min < r.max && r.min <= x <= r.max && 1 <= step < k
    ensures HasNext(r, x, step, k)
  {
    FloorOfProduct(OffsetIn(x, r), Pow2(step));
    assert Fixed(OffsetIn(x, r), step) <= Pow2(step);
    if step < k - 1 {
      Pow2Grows(step, k - 1);
    }
    assert Pow2(k) == 2 * Pow2(k - 1) && Pow2(k - 1) == 2 * Pow2(k - 2);
  }

  /** The upper corner of the map at step 32: its cell wraps around and the decoded box
      does not contain it. */
  lemma LastCellWraps()
    ensures
      var e := GeohashEncode(LONGITUDES, LATITUDES, 180.0, 85.05112878, PAIRS);
      e.Cell? &&
      var area := GeohashDecode(LONGITUDES, LATITUDES, e.bits, e.step);
      !(area.lat.min <= 85.05112878 < area.lat.max && area.long.min <= 180.0 < area.long.max)
  {
    FullFixed(OffsetIn(85.05112878, LATITUDES), PAIRS);
    DecodeEncloses(LONGITUDES, LATITUDES, 180.0, 85.05112878, PAIRS);
  }

  lemma FullFixed(o: real, k: nat)
    requires o == 1.0
    ensures Fixed(o, k) == Pow2(k)
  {
    assert o * Pow2(k) as real == Pow2(k) as real;
  }
}
