/**
 What held option legs are worth at expiry (`payoffAt` in lib/paper-trading.ts). Money and spots are
 exact reals. The payoff is linear wherever no strike lies, so its extremes are among its values at
 zero and at the strikes.
 */
module Payoff {
  import opened Wrappers
  import opened RealSets

  datatype OptionType = Call | Put

  type Strike = k: real | k >= 0.0 witness 0.0

  datatype Contract = Contract(underlying: string, strike: Strike, kind: OptionType)

  /** A held leg; `contract` is absent when its symbol is not an option's. */
  datatype Leg = Leg(contract: Option<Contract>, quantity: real, avgCost: real) {
    predicate Live() { contract.Some? && quantity != 0.0 }
  }

  function Max(x: real, y: real): real { if x > y then x else y }

  function Min(x: real, y: real): real { if x < y then x else y }

  // ---- The payoff ----

  function Intrinsic(contract: Contract, spot: real): real {
    match contract.kind
    case Call => Max(spot - contract.strike, 0.0)
    case Put => Max(contract.strike - spot, 0.0)
  }

  function LegAt(leg: Leg, spot: real): real {
    if leg.Live() then leg.quantity * (Intrinsic(leg.contract.value, spot) - leg.avgCost) else 0.0
  }

  function PayoffAt(legs: seq<Leg>, spot: real): real {
    if legs == [] then 0.0 else PayoffAt(legs[..|legs| - 1], spot) + LegAt(legs[|legs| - 1], spot)
  }

  method ComputePayoffAt(legs: seq<Leg>, spot: real) returns (total: real)
    ensures total == PayoffAt(legs, spot)
  {
    total := 0.0;
    for i := 0 to |legs|
      invariant total == PayoffAt(legs[..i], spot)
    {
      assert legs[..i + 1][..i] == legs[..i];
      var leg := legs[i];
      if leg.contract.None? || leg.quantity == 0.0 {
        continue;
      }
      total := total + leg.quantity * (Intrinsic(leg.contract.value, spot) - leg.avgCost);
    }
    assert legs[..|legs|] == legs;
  }

  /** The slope of a leg's payoff just above `x`. */
  function LegSlope(leg: Leg, x: real): real {
    if !leg.Live() then 0.0
    else match leg.contract.value.kind
      case Call => if leg.contract.value.strike <= x then leg.quantity else 0.0
      case Put => if leg.contract.value.strike <= x then 0.0 else -leg.quantity
  }

  function Slope(legs: seq<Leg>, x: real): real {
    if legs == [] then 0.0 else Slope(legs[..|legs| - 1], x) + LegSlope(legs[|legs| - 1], x)
  }

  /** No strike of a live leg lies strictly between `x` and `y`. */
  ghost predicate StrikeFree(legs: seq<Leg>, x: real, y: real) {
    forall leg :: leg in legs && leg.Live() ==> leg.contract.value.strike <= x || y <= leg.contract.value.strike
  }

  /** `v` is what `u` becomes after `d` along a line of this slope. */
  predicate OnLine(u: real, slope: real, d: real, v: real) {
    v == u + slope * d
  }

  lemma LegLinear(leg: Leg, x: real, d: real)
    requires d >= 0.0 && (leg.Live() ==> leg.contract.value.strike <= x || x + d <= leg.contract.value.strike)
    ensures OnLine(LegAt(leg, x), LegSlope(leg, x), d, LegAt(leg, x + d))
  {
    if leg.Live() {
      var k, q, c := leg.contract.value.strike, leg.quantity, leg.avgCost;
      match leg.contract.value.kind
      case Call =>
        if k <= x {
          assert q * (x + d - k - c) == q * (x - k - c) + q * d;
        }
      case Put =>
        if k > x {
          assert q * (k - (x + d) - c) == q * (k - x - c) + -q * d;
        }
    }
  }

  /** Up to the next strike the payoff is a straight line. */
  lemma {:induction false} PayoffLinear(legs: seq<Leg>, x: real, d: real)
    requires d >= 0.0 && StrikeFree(legs, x, x + d)
    ensures OnLine(PayoffAt(legs, x), Slope(legs, x), d, PayoffAt(legs, x + d))
  {
    if legs == [] {
      LinesAdd(0.0, 0.0, 0.0, 0.0, 0.0, 0.0, PayoffAt(legs, x), PayoffAt(legs, x + d), Slope(legs, x), d);
    } else {
      var rest, leg := legs[..|legs| - 1], legs[|legs| - 1];
      assert leg in legs && forall other :: other in rest ==> other in legs;
      PayoffLinear(rest, x, d);
      LegLinear(leg, x, d);
      LinesAdd(PayoffAt(rest, x), PayoffAt(rest, x + d), Slope(rest, x), LegAt(leg, x), LegAt(leg, x + d), LegSlope(leg, x),
               PayoffAt(legs, x), PayoffAt(legs, x + d), Slope(legs, x), d);
    }
  }

  lemma LinesAdd(u: real, u': real, s: real, v: real, v': real, t: real, sum: real, sum': real, slope: real, d: real)
    requires OnLine(u, s, d, u') && OnLine(v, t, d, v')
    requires sum == u + v && sum' == u' + v' && slope == s + t
    ensures OnLine(sum, slope, d, sum')
  {
  }

  /** The net number of calls held. */
  function NetCalls(legs: seq<Leg>): real {
    if legs == [] then 0.0
    else
      var leg := legs[|legs| - 1];
      NetCalls(legs[..|legs| - 1]) + if leg.Live() && leg.contract.value.kind == Call then leg.quantity else 0.0
  }

  /** Above every strike only the calls still move. */
  lemma {:induction false} SlopeAboveStrikes(legs: seq<Leg>, x: real)
    requires forall leg :: leg in legs && leg.Live() ==> leg.contract.value.strike <= x
    ensures Slope(legs, x) == NetCalls(legs)
  {
    if legs != [] {
      SlopeAboveStrikes(legs[..|legs| - 1], x);
      assert legs[|legs| - 1] in legs;
    }
  }

  /** `w`, at `s`, lies on the straight line from `u` at `x` to `v` at `y`. */
  predicate Interpolates(x: real, u: real, y: real, v: real, s: real, w: real)
    requires x < y
  {
    w == u + (v - u) * ((s - x) / (y - x))
  }

  lemma OnTheLine(x: real, u: real, y: real, v: real, s: real, w: real, slope: real)
    requires x < y && OnLine(u, slope, y - x, v) && OnLine(u, slope, s - x, w)
    ensures Interpolates(x, u, y, v, s, w)
  {
    var d, t := y - x, s - x;
    var q := t / d;
    assert t == q * d;
    assert (v - u) * q == (slope * d) * q == slope * (q * d);
  }

  /** Between two points with no strike between them the payoff lies on the line that joins its values there. */
  lemma PayoffInterpolates(legs: seq<Leg>, x: real, y: real, s: real)
    requires x < y && x <= s <= y && StrikeFree(legs, x, y)
    ensures Interpolates(x, PayoffAt(legs, x), y, PayoffAt(legs, y), s, PayoffAt(legs, s))
  {
    PayoffLinear(legs, x, y - x);
    PayoffLinear(legs, x, s - x);
    assert x + (y - x) == y && x + (s - x) == s;
    OnTheLine(x, PayoffAt(legs, x), y, PayoffAt(legs, y), s, PayoffAt(legs, s), Slope(legs, x));
  }

  lemma Between(u: real, slope: real, t: real, w: real, d: real, v: real)
    requires 0.0 <= t <= d && OnLine(u, slope, t, w) && OnLine(u, slope, d, v)
    ensures Min(u, v) <= w <= Max(u, v)
  {
    if slope >= 0.0 {
      Scaled(slope, t, d);
    } else {
      Scaled(-slope, t, d);
    }
  }

  lemma Scaled(k: real, t: real, d: real)
    requires k >= 0.0 && 0.0 <= t <= d
    ensures 0.0 <= k * t <= k * d
  {
    assert k * d == k * t + k * (d - t);
  }

  // ---- The kinks ----

  function LiveLegs(legs: seq<Leg>): (live: seq<Leg>)
    ensures forall leg :: leg in live <==> leg in legs && leg.Live()
  {
    if legs == [] then []
    else LiveLegs(legs[..|legs| - 1]) + if legs[|legs| - 1].Live() then [legs[|legs| - 1]] else []
  }

  /** Legs that are not open options change nothing. */
  lemma {:induction false} LiveLegsPayoff(legs: seq<Leg>, spot: real)
    ensures PayoffAt(LiveLegs(legs), spot) == PayoffAt(legs, spot)
    ensures NetCalls(LiveLegs(legs)) == NetCalls(legs)
  {
    if legs != [] {
      var rest, leg := legs[..|legs| - 1], legs[|legs| - 1];
      LiveLegsPayoff(rest, spot);
      if leg.Live() {
        assert (LiveLegs(rest) + [leg])[..|LiveLegs(rest)|] == LiveLegs(rest);
      } else {
        assert LiveLegs(legs) == LiveLegs(rest);
      }
    }
  }

  function StrikesOf(legs: seq<Leg>): (strikes: seq<real>)
    ensures forall leg :: leg in legs && leg.Live() ==> leg.contract.value.strike in strikes
    ensures forall k :: k in strikes ==> IsStrike(legs, k)
  {
    if legs == [] then []
    else
      assert forall leg :: leg in legs ==> leg == legs[0] || leg in legs[1..];
      (if legs[0].Live() then [legs[0].contract.value.strike] else []) + StrikesOf(legs[1..])
  }

  /** The points of a payoff: zero, then ascending strikes, among them every strike of a live leg. */
  ghost predicate Kinks(points: seq<real>, legs: seq<Leg>) {
    && |points| > 1 && points[0] == 0.0
    && StrictlyAscending(points[1..]) && points[1] >= 0.0
    && (forall leg :: leg in legs && leg.Live() ==> leg.contract.value.strike in points[1..])
    && (forall k :: k in points[1..] ==> IsStrike(legs, k))
  }

  ghost predicate IsStrike(legs: seq<Leg>, k: real) {
    exists leg :: leg in legs && leg.Live() && leg.contract.value.strike == k
  }

  lemma KinksAscend(points: seq<real>, legs: seq<Leg>, i: nat, j: nat)
    requires Kinks(points, legs) && i < j < |points|
    ensures 0.0 <= points[i] <= points[j] && (0 < i ==> points[i] < points[j])
  {
    if i > 0 {
      assert points[1..][i - 1] < points[1..][j - 1];
    }
    if j > 1 {
      assert points[1..][0] < points[1..][j - 1];
    }
    if i > 1 {
      assert points[1..][0] < points[1..][i - 1];
    }
  }

  /** No strike lies between neighbouring points, nor above the last one. */
  lemma NoStrikeBetween(points: seq<real>, legs: seq<Leg>, i: nat)
    requires Kinks(points, legs) && i < |points|
    ensures i + 1 < |points| ==> StrikeFree(legs, points[i], points[i + 1])
    ensures i + 1 == |points| ==> forall leg :: leg in legs && leg.Live() ==> leg.contract.value.strike <= points[i]
  {
    forall leg | leg in legs && leg.Live()
      ensures leg.contract.value.strike <= points[i] || (i + 1 < |points| && points[i + 1] <= leg.contract.value.strike)
    {
      var k := leg.contract.value.strike;
      var at :| 0 <= at < |points[1..]| && points[1..][at] == k;
      if at + 1 < i {
        KinksAscend(points, legs, at + 1, i);
      } else if at + 1 > i + 1 {
        KinksAscend(points, legs, i + 1, at + 1);
      }
    }
  }

  /** The last point that is not above `spot`. */
  function PointBelow(points: seq<real>, spot: real): (i: nat)
    requires |points| > 0 && points[0] <= spot
    ensures i < |points| && points[i] <= spot && (i + 1 < |points| ==> spot < points[i + 1])
    decreases |points|
  {
    if |points| == 1 then 0
    else if points[|points| - 1] <= spot then |points| - 1
    else
      PointBelow(points[..|points| - 1], spot)
  }

  function ValuesAt(legs: seq<Leg>, spots: seq<real>): (values: seq<real>)
    ensures |values| == |spots| && forall i :: 0 <= i < |spots| ==> values[i] == PayoffAt(legs, spots[i])
  {
    if spots == [] then [] else [PayoffAt(legs, spots[0])] + ValuesAt(legs, spots[1..])
  }

  lemma LiveValues(legs: seq<Leg>, spots: seq<real>)
    ensures ValuesAt(LiveLegs(legs), spots) == ValuesAt(legs, spots)
    ensures NetCalls(LiveLegs(legs)) == NetCalls(legs)
  {
    LiveLegsPayoff(legs, 0.0);
    forall i | 0 <= i < |spots|
      ensures ValuesAt(LiveLegs(legs), spots)[i] == ValuesAt(legs, spots)[i]
    {
      LiveLegsPayoff(legs, spots[i]);
    }
  }

  /** Where the payoff at `spot` lies: between the values at the points around it, or on the last line. */
  lemma PayoffAround(points: seq<real>, legs: seq<Leg>, spot: real)
    requires Kinks(points, legs) && spot >= 0.0
    ensures var i := PointBelow(points, spot);
      var u, w := PayoffAt(legs, points[i]), PayoffAt(legs, spot);
      if i + 1 < |points| then
        var v := PayoffAt(legs, points[i + 1]);
        Min(u, v) <= w <= Max(u, v)
      else OnLine(u, NetCalls(legs), spot - points[i], w)
  {
    var i := PointBelow(points, spot);
    var x := points[i];
    NoStrikeBetween(points, legs, i);
    assert x + (spot - x) == spot;
    if i + 1 < |points| {
      var y := points[i + 1];
      assert x + (y - x) == y;
      PayoffLinear(legs, x, spot - x);
      PayoffLinear(legs, x, y - x);
      Between(PayoffAt(legs, x), Slope(legs, x), spot - x, PayoffAt(legs, spot), y - x, PayoffAt(legs, y));
    } else {
      PayoffLinear(legs, x, spot - x);
      SlopeAboveStrikes(legs, x);
    }
  }

  // ---- The extremes ----

  ghost predicate Exceeds(legs: seq<Leg>, m: real) {
    exists spot :: spot >= 0.0 && PayoffAt(legs, spot) > m
  }

  ghost predicate FallsBelow(legs: seq<Leg>, m: real) {
    exists spot :: spot >= 0.0 && PayoffAt(legs, spot) < m
  }

  ghost predicate Attains(legs: seq<Leg>, m: real) {
    exists spot :: spot >= 0.0 && PayoffAt(legs, spot) == m
  }

  /** The best result at expiry: absent exactly when every amount is exceeded, else attained and never exceeded. */
  ghost predicate BestIs(legs: seq<Leg>, best: Option<real>) {
    match best
    case None => forall m :: Exceeds(legs, m)
    case Some(m) => Attains(legs, m) && !Exceeds(legs, m)
  }

  /** The worst result at expiry, likewise. */
  ghost predicate WorstIs(legs: seq<Leg>, worst: Option<real>) {
    match worst
    case None => forall m :: FallsBelow(legs, m)
    case Some(m) => Attains(legs, m) && !FallsBelow(legs, m)
  }

  lemma ExtremesAmongValues(points: seq<real>, legs: seq<Leg>, spot: real)
    requires Kinks(points, legs) && spot >= 0.0
    ensures NetCalls(legs) <= 0.0 ==> PayoffAt(legs, spot) <= MaxOf(ValuesAt(legs, points))
    ensures NetCalls(legs) >= 0.0 ==> PayoffAt(legs, spot) >= MinOf(ValuesAt(legs, points))
  {
    PayoffAround(points, legs, spot);
    var values := ValuesAt(legs, points);
    var i := PointBelow(points, spot);
    assert values[i] in values;
    if i + 1 < |points| {
      assert values[i + 1] in values;
    } else {
      SlopeSign(values[i], NetCalls(legs), spot - points[i], PayoffAt(legs, spot));
    }
  }

  lemma SlopeSign(u: real, slope: real, t: real, w: real)
    requires OnLine(u, slope, t, w) && t >= 0.0
    ensures slope <= 0.0 ==> w <= u
    ensures slope >= 0.0 ==> w >= u
  {
  }

  /** Far enough above the last strike a payoff that slopes up passes any amount, one that slopes down falls below it. */
  lemma SlopesAway(points: seq<real>, legs: seq<Leg>, m: real)
    requires Kinks(points, legs)
    ensures NetCalls(legs) > 0.0 ==> Exceeds(legs, m)
    ensures NetCalls(legs) < 0.0 ==> FallsBelow(legs, m)
  {
    var slope, x := NetCalls(legs), points[|points| - 1];
    KinksAscend(points, legs, 0, |points| - 1);
    NoStrikeBetween(points, legs, |points| - 1);
    if slope != 0.0 {
      var u := PayoffAt(legs, x);
      var t := FarEnough(u, slope, m);
      PayoffLinear(legs, x, t);
      SlopeAboveStrikes(legs, x);
      Far(u, slope, m, PayoffAt(legs, x + t));
      assert x + t >= 0.0;
    }
  }

  function FarEnough(u: real, slope: real, m: real): (t: real)
    requires slope != 0.0
    ensures t >= 0.0
  {
    Max(0.0, (m - u) / slope) + 1.0
  }

  lemma Far(u: real, slope: real, m: real, w: real)
    requires slope != 0.0 && OnLine(u, slope, FarEnough(u, slope, m), w)
    ensures if slope > 0.0 then w > m else w < m
  {
    var q := (m - u) / slope;
    assert q * slope == m - u;
    var t := FarEnough(u, slope, m);
    assert slope * t == slope * q + slope * (t - q);
    assert t - q > 0.0;
    if slope > 0.0 {
      assert slope * (t - q) > 0.0;
    } else {
      assert slope * (t - q) < 0.0;
    }
  }

  lemma Extremes(points: seq<real>, legs: seq<Leg>)
    requires Kinks(points, legs)
    ensures BestIs(legs, if NetCalls(legs) > 0.0 then None else Some(MaxOf(ValuesAt(legs, points))))
    ensures WorstIs(legs, if NetCalls(legs) < 0.0 then None else Some(MinOf(ValuesAt(legs, points))))
  {
    var values := ValuesAt(legs, points);
    forall m ensures NetCalls(legs) > 0.0 ==> Exceeds(legs, m) { SlopesAway(points, legs, m); }
    forall m ensures NetCalls(legs) < 0.0 ==> FallsBelow(legs, m) { SlopesAway(points, legs, m); }
    forall spot | spot >= 0.0
      ensures NetCalls(legs) <= 0.0 ==> PayoffAt(legs, spot) <= MaxOf(values)
      ensures NetCalls(legs) >= 0.0 ==> PayoffAt(legs, spot) >= MinOf(values)
    {
      ExtremesAmongValues(points, legs, spot);
    }
    ValueAttained(points, legs, MaxOf(values));
    ValueAttained(points, legs, MinOf(values));
  }

  lemma ValueAttained(points: seq<real>, legs: seq<Leg>, m: real)
    requires Kinks(points, legs) && m in ValuesAt(legs, points)
    ensures Attains(legs, m)
  {
    var i :| 0 <= i < |points| && ValuesAt(legs, points)[i] == m;
    if i > 0 {
      KinksAscend(points, legs, 0, i);
    }
  }
}
