/**
 * The visual encoder of the earthquake map: marker radius from magnitude and
 * marker fill colour from depth (static/js/logic.js, `markerSize` and
 * `chooseColor`). Depth and magnitude are modelled as exact reals; every
 * comparison in the source is a plain `>` on numbers.
 */
module Encoding {

  import opened Wrappers

  /** The six fill colours, declared from the shallowest tier to the deepest. */
  datatype Colour = Lime | GreenYellow | Gold | Orange | OrangeRed | Red

  /** Position of a colour in the depth scale: lime is 0, red is 5. */
  function Tier(c: Colour): (t: nat)
    ensures t < 6
  {
    match c
    case Lime => 0
    case GreenYellow => 1
    case Gold => 2
    case Orange => 3
    case OrangeRed => 4
    case Red => 5
  }

  /** The colour of a tier; inverse of `Tier`. */
  function ColourOfTier(t: nat): (c: Colour)
    requires t < 6
    ensures Tier(c) == t
  {
    if t == 0 then Lime
    else if t == 1 then GreenYellow
    else if t == 2 then Gold
    else if t == 3 then Orange
    else if t == 4 then OrangeRed
    else Red
  }

  /** The CSS colour keyword the source writes for each colour. */
  function Name(c: Colour): string
  {
    match c
    case Lime => "lime"
    case GreenYellow => "greenyellow"
    case Gold => "gold"
    case Orange => "orange"
    case OrangeRed => "orangered"
    case Red => "red"
  }

  /** Distinct colours have distinct CSS names, so a name identifies its bucket. */
  lemma NameInjective(a: Colour, b: Colour)
    ensures Name(a) == Name(b) <==> a == b
  {
  }

  /** The exclusive lower bound of each bucket; lime has none (it takes everything up to 10). */
  function LowerBound(c: Colour): Option<real>
  {
    match c
    case Lime => None
    case GreenYellow => Some(10.0)
    case Gold => Some(30.0)
    case Orange => Some(50.0)
    case OrangeRed => Some(70.0)
    case Red => Some(90.0)
  }

  /** The inclusive upper bound of each bucket; red has none. */
  function UpperBound(c: Colour): Option<real>
  {
    match c
    case Lime => Some(10.0)
    case GreenYellow => Some(30.0)
    case Gold => Some(50.0)
    case Orange => Some(70.0)
    case OrangeRed => Some(90.0)
    case Red => None
  }

  /** Depth `d` lies in the half-open interval (lower, upper] of colour `c`. */
  predicate InBucket(c: Colour, d: real)
  {
    (LowerBound(c).None? || LowerBound(c).value < d) &&
    (UpperBound(c).None? || d <= UpperBound(c).value)
  }

  /**
   * `chooseColor`: the threshold cascade 90, 70, 50, 30, 10, checked top-down
   * with a strict `>`; everything that exceeds none of them is lime.
   */
  function ChooseColor(depth: real): (c: Colour)
    ensures c == Red <==> depth > 90.0
    ensures c == OrangeRed <==> 70.0 < depth <= 90.0
    ensures c == Orange <==> 50.0 < depth <= 70.0
    ensures c == Gold <==> 30.0 < depth <= 50.0
    ensures c == GreenYellow <==> 10.0 < depth <= 30.0
    ensures c == Lime <==> depth <= 10.0
  {
    if depth > 90.0 then Red
    else if depth > 70.0 then OrangeRed
    else if depth > 50.0 then Orange
    else if depth > 30.0 then Gold
    else if depth > 10.0 then GreenYellow
    else Lime
  }

  /**
   * The buckets partition the real line: every depth lies in exactly one
   * bucket, and that bucket is the colour `ChooseColor` returns.
   */
  lemma BucketsPartition(d: real, c: Colour)
    ensures InBucket(c, d) <==> ChooseColor(d) == c
  {
  }

  /** Adjacent buckets meet: the upper bound of tier t is the lower bound of tier t + 1. */
  lemma BucketsContiguous(t: nat)
    requires t < 5
    ensures UpperBound(ColourOfTier(t)).Some?
    ensures LowerBound(ColourOfTier(t + 1)) == UpperBound(ColourOfTier(t))
  {
  }

  /** Each threshold belongs to the bucket below it; the next real above belongs to the bucket above. */
  lemma ThresholdsAreExclusive()
    ensures ChooseColor(90.0) == OrangeRed && ChooseColor(70.0) == Orange
    ensures ChooseColor(50.0) == Gold && ChooseColor(30.0) == GreenYellow
    ensures ChooseColor(10.0) == Lime
    ensures forall d: real :: d > 90.0 ==> ChooseColor(d) == Red
    ensures forall d: real :: d <= 10.0 ==> ChooseColor(d) == Lime
    ensures ChooseColor(91.0) == Red && ChooseColor(-5.0) == Lime
  {
  }

  /** The colour table as data: (exclusive lower bound, colour), strictly descending by bound. */
  const BucketTable: seq<(real, Colour)> :=
    [(90.0, Red), (70.0, OrangeRed), (50.0, Orange), (30.0, Gold), (10.0, GreenYellow)]

  /** The bounds of the table alone, in the same descending order. */
  const Bounds: seq<real> := seq(|BucketTable|, i requires 0 <= i < |BucketTable| => BucketTable[i].0)

  /**
   * A generic first-match lookup over a bucket table: the colour of the first
   * entry whose bound `d` exceeds, or `fallback` when it exceeds none.
   */
  function Lookup(table: seq<(real, Colour)>, fallback: Colour, d: real): (c: Colour)
    ensures (exists i :: 0 <= i < |table| && d > table[i].0 && c == table[i].1 &&
               forall j :: 0 <= j < i ==> d <= table[j].0)
         || (c == fallback && forall i :: 0 <= i < |table| ==> d <= table[i].0)
  {
    if |table| == 0 then fallback
    else if d > table[0].0 then table[0].1
    else
      var c := Lookup(table[1..], fallback, d);
      assert forall i :: 1 <= i < |table| ==> table[i] == table[1..][i - 1];
      c
  }

  /** `chooseColor` agrees with the first-match lookup over the descending bucket table. */
  lemma ChooseColorMatchesTable(d: real)
    ensures ChooseColor(d) == Lookup(BucketTable, Lime, d)
  {
    // The table's successive tails: tk drops the first k entries.
    var t := BucketTable;
    var t1 := t[1..];
    var t2 := t1[1..];
    var t3 := t2[1..];
    var t4 := t3[1..];
    assert t4[1..] == [];
    assert Lookup(t4, Lime, d) == if d > 10.0 then GreenYellow else Lime;
    assert Lookup(t3, Lime, d) == if d > 30.0 then Gold else Lookup(t4, Lime, d);
    assert Lookup(t2, Lime, d) == if d > 50.0 then Orange else Lookup(t3, Lime, d);
    assert Lookup(t1, Lime, d) == if d > 70.0 then OrangeRed else Lookup(t2, Lime, d);
  }

  /** The number of bounds in `bounds` that `d` strictly exceeds. */
  function Exceeded(bounds: seq<real>, d: real): (n: nat)
    ensures n <= |bounds|
    ensures n == 0 <==> forall i :: 0 <= i < |bounds| ==> d <= bounds[i]
  {
    if |bounds| == 0 then 0
    else
      var rest := Exceeded(bounds[1..], d);
      assert forall i :: 1 <= i < |bounds| ==> bounds[i] == bounds[1..][i - 1];
      (if d > bounds[0] then 1 else 0) + rest
  }

  /** Exceeding more depth never exceeds fewer bounds. */
  lemma {:induction false} ExceededMonotone(bounds: seq<real>, d1: real, d2: real)
    requires d1 <= d2
    ensures Exceeded(bounds, d1) <= Exceeded(bounds, d2)
  {
    if |bounds| > 0 {
      ExceededMonotone(bounds[1..], d1, d2);
    }
  }

  /** The tier of the chosen colour is exactly the number of thresholds the depth exceeds. */
  lemma TierCountsExceededBounds(d: real)
    ensures Tier(ChooseColor(d)) == Exceeded(Bounds, d)
  {
    // The bounds' successive tails: bk drops the first k bounds.
    var b := Bounds;
    assert b == [90.0, 70.0, 50.0, 30.0, 10.0];
    var b1 := b[1..];
    var b2 := b1[1..];
    var b3 := b2[1..];
    var b4 := b3[1..];
    assert b4[1..] == [];
    assert Exceeded(b4, d) == if d > 10.0 then 1 else 0;
    assert Exceeded(b3, d) == (if d > 30.0 then 1 else 0) + Exceeded(b4, d);
    assert Exceeded(b2, d) == (if d > 50.0 then 1 else 0) + Exceeded(b3, d);
    assert Exceeded(b1, d) == (if d > 70.0 then 1 else 0) + Exceeded(b2, d);
    assert Exceeded(b, d) == (if d > 90.0 then 1 else 0) + Exceeded(b1, d);
  }

  /** Colour tier is monotone in depth: a deeper quake never gets a shallower colour. */
  lemma ChooseColorMonotone(d1: real, d2: real)
    requires d1 <= d2
    ensures Tier(ChooseColor(d1)) <= Tier(ChooseColor(d2))
  {
    TierCountsExceededBounds(d1);
    TierCountsExceededBounds(d2);
    ExceededMonotone(Bounds, d1, d2);
  }

  /** The multiplier of `markerSize`. */
  const RadiusScale: real := 4.0

  /** `markerSize`: the marker radius is the magnitude scaled by four; no validation is done. */
  function MarkerSize(magnitude: real): (radius: real)
    ensures radius > 0.0 <==> magnitude > 0.0
    ensures radius == 0.0 <==> magnitude == 0.0
    ensures radius / RadiusScale == magnitude
  {
    magnitude * RadiusScale
  }

  /** The radius is strictly increasing in magnitude, and additive: it is a linear scale. */
  lemma MarkerSizeStrictlyIncreasing(m1: real, m2: real)
    ensures m1 < m2 <==> MarkerSize(m1) < MarkerSize(m2)
    ensures MarkerSize(m1 + m2) == MarkerSize(m1) + MarkerSize(m2)
  {
  }

  /** The circle-marker options the source builds for each quake. */
  datatype MarkerStyle = MarkerStyle(
    radius: real,
    fillColor: Colour,
    fillOpacity: real,
    strokeColor: string,
    stroke: bool,
    weight: real)

  /** The style of the circle marker for a quake of magnitude `mag` at depth `depth` km. */
  function StyleFor(mag: real, depth: real): (s: MarkerStyle)
    ensures InBucket(s.fillColor, depth)
    ensures s.radius / RadiusScale == mag
    ensures s.fillOpacity == 0.7 && s.strokeColor == "black" && s.stroke && s.weight == 0.6
  {
    BucketsPartition(depth, ChooseColor(depth));
    MarkerStyle(MarkerSize(mag), ChooseColor(depth), 0.7, "black", true, 0.6)
  }
}
