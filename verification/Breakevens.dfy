/**
 Where the payoff of held option legs crosses zero (`payoffSummary` in lib/paper-trading.ts): what the
 loop lists is exactly the zeros at strikes, the crossings between strikes and the one beyond them all.
 */
module Breakevens {
  import opened RealSets
  import opened Payoff

  predicate Opposite(u: real, v: real) {
    (u < 0.0 && v > 0.0) || (u > 0.0 && v < 0.0)
  }

  /** Where the line from `u` at `x` to `v` at `y` crosses zero. */
  function Crossing(x: real, u: real, y: real, v: real): real
    requires Opposite(u, v)
  {
    x + CrossingOffset(u, v, y - x)
  }

  /** How far along a stretch of length `d` the line from `u` to `v` crosses zero. */
  function CrossingOffset(u: real, v: real, d: real): real
    requires Opposite(u, v)
  {
    ((0.0 - u) / (v - u)) * d
  }

  /** The line beyond the last point crosses zero. */
  predicate CrossesBeyond(last: real, slope: real) {
    slope != 0.0 && ((last < 0.0 && slope > 0.0) || (last > 0.0 && slope < 0.0))
  }

  function BeyondOffset(last: real, slope: real): real
    requires slope != 0.0
  {
    -last / slope
  }

  /** `x` is listed when it is a crossing between points, a zero at a strike, or the crossing beyond the last one. */
  ghost predicate Listed(x: real, points: seq<real>, values: seq<real>, slope: real)
    requires |points| == |values| > 0
  {
    var n := |points|;
    || CrossesWithin(x, points, values, n - 1)
    || ZeroAtStrike(x, points, values, n)
    || (CrossesBeyond(values[n - 1], slope) && x == points[n - 1] + BeyondOffset(values[n - 1], slope))
  }

  ghost predicate CrossesWithin(x: real, points: seq<real>, values: seq<real>, upTo: nat)
    requires |points| == |values| && upTo < |points|
  {
    exists i :: 0 <= i < upTo && Opposite(values[i], values[i + 1]) && x == Crossing(points[i], values[i], points[i + 1], values[i + 1])
  }

  ghost predicate ZeroAtStrike(x: real, points: seq<real>, values: seq<real>, upTo: nat)
    requires |points| == |values| && upTo <= |points|
  {
    exists i :: 0 < i < upTo && values[i] == 0.0 && x == points[i]
  }

  /** The loop of `payoffSummary` that finds the break-evens. */
  method FindBreakevens(points: seq<real>, values: seq<real>, slope: real) returns (breakevens: seq<real>)
    requires |points| == |values| > 1
    ensures forall x :: x in breakevens <==> Listed(x, points, values, slope)
  {
    breakevens := [];
    var n := |points|;
    var i := 0;
    while i + 1 < n
      invariant 0 <= i < n
      invariant forall x :: x in breakevens <==> CrossesWithin(x, points, values, i) || ZeroAtStrike(x, points, values, i)
    {
      var a, b := values[i], values[i + 1];
      ghost var before := breakevens;
      if Opposite(a, b) {
        breakevens := breakevens + [Crossing(points[i], a, points[i + 1], b)];
      } else if a == 0.0 && i > 0 {
        breakevens := breakevens + [points[i]];
      }
      forall x
        ensures CrossesWithin(x, points, values, i + 1) <==>
          CrossesWithin(x, points, values, i) || (Opposite(a, b) && x == Crossing(points[i], a, points[i + 1], b))
        ensures ZeroAtStrike(x, points, values, i + 1) <==> ZeroAtStrike(x, points, values, i) || (i > 0 && a == 0.0 && x == points[i])
      {
      }
      i := i + 1;
    }
    var last := values[n - 1];
    forall x
      ensures ZeroAtStrike(x, points, values, n) <==> ZeroAtStrike(x, points, values, n - 1) || (last == 0.0 && x == points[n - 1])
    {
    }
    if last == 0.0 {
      breakevens := breakevens + [points[n - 1]];
    }
    if CrossesBeyond(last, slope) {
      breakevens := breakevens + [points[n - 1] + BeyondOffset(last, slope)];
    }
  }

  predicate IsZero(legs: seq<Leg>, x: real) {
    x >= 0.0 && PayoffAt(legs, x) == 0.0
  }

  /** The payoff is zero all the way between `x` and `k`. */
  ghost predicate FlatBetween(legs: seq<Leg>, x: real, k: real) {
    forall s :: Min(x, k) <= s <= Max(x, k) ==> PayoffAt(legs, s) == 0.0
  }

  lemma CrossingInside(u: real, v: real, d: real)
    requires d > 0.0 && Opposite(u, v)
    ensures 0.0 < CrossingOffset(u, v, d) < d
  {
    var q := (0.0 - u) / (v - u);
    QuotientInside(0.0 - u, v - u);
    var t := q * d;
    PartOf(q, d, t);
    assert t == CrossingOffset(u, v, d);
  }

  lemma PartOf(q: real, d: real, t: real)
    requires 0.0 < q < 1.0 && d > 0.0 && t == q * d
    ensures 0.0 < t < d
  {
    var rest := 1.0 - q;
    var e := rest * d;
    assert e == d - t;
    assert e > 0.0;
  }

  lemma QuotientInside(a: real, b: real)
    requires 0.0 < a < b || b < a < 0.0
    ensures 0.0 < a / b < 1.0
  {
    var q := a / b;
    assert q * b == a;
    assert b > 0.0 && q <= 0.0 ==> q * b <= 0.0;
    assert b > 0.0 && q >= 1.0 ==> q * b >= 1.0 * b;
    assert b < 0.0 && q <= 0.0 ==> q * b >= 0.0;
    assert b < 0.0 && q >= 1.0 ==> q * b <= 1.0 * b;
  }

  lemma CrossingOnLine(u: real, slope: real, d: real, v: real, t: real, w: real)
    requires d > 0.0 && Opposite(u, v) && OnLine(u, slope, d, v) && OnLine(u, slope, t, w)
    ensures w == 0.0 <==> t == CrossingOffset(u, v, d)
  {
    var q := (0.0 - u) / (v - u);
    assert q * (v - u) == 0.0 - u;
    assert slope * d == v - u;
    assert slope * (q * d) == q * (slope * d) == 0.0 - u;
    if w == 0.0 {
      assert slope * (t - q * d) == 0.0;
      assert slope != 0.0;
    }
  }

  lemma BeyondOnLine(u: real, slope: real, t: real, w: real)
    requires slope != 0.0 && OnLine(u, slope, t, w)
    ensures w == 0.0 <==> t == BeyondOffset(u, slope)
  {
    var q := -u / slope;
    assert q * slope == -u;
    if w == 0.0 {
      assert slope * (t - q) == 0.0;
    }
  }

  lemma BeyondSign(u: real, slope: real)
    requires slope != 0.0 && u != 0.0
    ensures CrossesBeyond(u, slope) <==> BeyondOffset(u, slope) > 0.0
  {
    var q := -u / slope;
    assert q * slope == -u;
  }

  /** Every listed break-even is a zero of the payoff. */
  lemma BreakevenIsZero(points: seq<real>, legs: seq<Leg>, x: real)
    requires Kinks(points, legs) && Listed(x, points, ValuesAt(legs, points), NetCalls(legs))
    ensures IsZero(legs, x)
  {
    var n, values, slope := |points|, ValuesAt(legs, points), NetCalls(legs);
    if CrossesWithin(x, points, values, n - 1) {
      var i :| 0 <= i < n - 1 && Opposite(values[i], values[i + 1]) && x == Crossing(points[i], values[i], points[i + 1], values[i + 1]);
      CrossingWithinIsZero(points, legs, i);
    } else if ZeroAtStrike(x, points, values, n) {
      var i :| 0 < i < n && values[i] == 0.0 && x == points[i];
      KinksAscend(points, legs, 0, i);
    } else {
      CrossingBeyondIsZero(points, legs);
    }
  }

  lemma CrossingBeyondIsZero(points: seq<real>, legs: seq<Leg>)
    requires Kinks(points, legs) && CrossesBeyond(PayoffAt(legs, points[|points| - 1]), NetCalls(legs))
    ensures var from := points[|points| - 1]; IsZero(legs, from + BeyondOffset(PayoffAt(legs, from), NetCalls(legs)))
  {
    var from, slope := points[|points| - 1], NetCalls(legs);
    var u := PayoffAt(legs, from);
    var t := BeyondOffset(u, slope);
    BeyondSign(u, slope);
    KinksAscend(points, legs, 0, |points| - 1);
    NoStrikeBetween(points, legs, |points| - 1);
    PayoffLinear(legs, from, t);
    SlopeAboveStrikes(legs, from);
    BeyondOnLine(u, slope, t, PayoffAt(legs, from + t));
  }

  lemma CrossingWithinIsZero(points: seq<real>, legs: seq<Leg>, i: nat)
    requires Kinks(points, legs) && i + 1 < |points|
    requires Opposite(PayoffAt(legs, points[i]), PayoffAt(legs, points[i + 1]))
    ensures IsZero(legs, Crossing(points[i], PayoffAt(legs, points[i]), points[i + 1], PayoffAt(legs, points[i + 1])))
  {
    var from, to := points[i], points[i + 1];
    var u, v := PayoffAt(legs, from), PayoffAt(legs, to);
    KinksAscend(points, legs, i, i + 1);
    KinksAscend(points, legs, 0, i + 1);
    NoStrikeBetween(points, legs, i);
    var d := to - from;
    assert from + d == to;
    var t := CrossingOffset(u, v, d);
    CrossingInside(u, v, d);
    PayoffLinear(legs, from, d);
    PayoffLinear(legs, from, t);
    CrossingOnLine(u, Slope(legs, from), d, v, t, PayoffAt(legs, from + t));
  }

  /** Every positive zero is listed, or the payoff is zero from it to a listed strike. */
  lemma ZeroIsCovered(points: seq<real>, legs: seq<Leg>, x: real)
    requires Kinks(points, legs) && x > 0.0 && PayoffAt(legs, x) == 0.0
    ensures Covered(points, legs, x)
  {
    var i := PointBelow(points, x);
    if x == points[i] {
      FlatAt(legs, x, points[i]);
      FlatIsCovered(points, legs, i, x);
    } else if i + 1 < |points| {
      ZeroWithinIsCovered(points, legs, i, x);
    } else {
      ZeroBeyondIsCovered(points, legs, x);
    }
  }

  ghost predicate Covered(points: seq<real>, legs: seq<Leg>, x: real)
    requires Kinks(points, legs)
  {
    var values, slope := ValuesAt(legs, points), NetCalls(legs);
    Listed(x, points, values, slope)
    || exists k :: k in points[1..] && Listed(k, points, values, slope) && FlatBetween(legs, x, k)
  }

  lemma ZeroWithinIsCovered(points: seq<real>, legs: seq<Leg>, i: nat, x: real)
    requires Kinks(points, legs) && i + 1 < |points| && points[i] < x < points[i + 1] && PayoffAt(legs, x) == 0.0
    ensures Covered(points, legs, x)
  {
    var from, to := points[i], points[i + 1];
    var d, t, slope := to - from, x - from, Slope(legs, from);
    NoStrikeBetween(points, legs, i);
    assert from + d == to && from + t == x;
    PayoffLinear(legs, from, d);
    PayoffLinear(legs, from, t);
    var u, v, w := PayoffAt(legs, from), PayoffAt(legs, to), PayoffAt(legs, x);
    if Opposite(u, v) {
      CrossingIsListed(points, ValuesAt(legs, points), NetCalls(legs), i, x, slope, u, v, w, d, t);
    } else {
      ZeroInsideIsFlat(u, slope, d, v, t, w);
      FlatStretch(legs, from, to);
      FlatIsCovered(points, legs, i + 1, x);
    }
  }

  lemma CrossingIsListed(points: seq<real>, values: seq<real>, rightSlope: real, i: nat, x: real,
                         slope: real, u: real, v: real, w: real, d: real, t: real)
    requires |points| == |values| && i + 1 < |points| && points[i] < x < points[i + 1]
    requires u == values[i] && v == values[i + 1] && d == points[i + 1] - points[i] && t == x - points[i]
    requires Opposite(u, v) && OnLine(u, slope, d, v) && OnLine(u, slope, t, w) && w == 0.0
    ensures Listed(x, points, values, rightSlope)
  {
    CrossingOnLine(u, slope, d, v, t, w);
    assert x == Crossing(points[i], u, points[i + 1], v);
    assert CrossesWithin(x, points, values, |points| - 1);
  }

  lemma FlatAt(legs: seq<Leg>, x: real, k: real)
    requires x == k && PayoffAt(legs, x) == 0.0
    ensures FlatBetween(legs, x, k)
  {
  }

  lemma FlatIsCovered(points: seq<real>, legs: seq<Leg>, i: nat, x: real)
    requires Kinks(points, legs) && 0 < i < |points| && FlatBetween(legs, x, points[i])
    ensures Covered(points, legs, x)
  {
    var k, values := points[i], ValuesAt(legs, points);
    assert Min(x, k) <= k <= Max(x, k);
    assert ZeroAtStrike(k, points, values, |points|);
    assert points[1..][i - 1] == k;
  }

  /** A line that is zero inside a stretch and does not change sign over it is zero throughout. */
  lemma ZeroInsideIsFlat(u: real, slope: real, d: real, v: real, t: real, w: real)
    requires 0.0 < t < d && OnLine(u, slope, d, v) && OnLine(u, slope, t, w) && w == 0.0 && !Opposite(u, v)
    ensures u == 0.0 && v == 0.0 && slope == 0.0
  {
    assert v == slope * (d - t);
    assert slope > 0.0 ==> slope * t > 0.0 && slope * (d - t) > 0.0;
    assert slope < 0.0 ==> slope * t < 0.0 && slope * (d - t) < 0.0;
  }

  /** A stretch with no strike and no slope keeps its value. */
  lemma FlatStretch(legs: seq<Leg>, from: real, to: real)
    requires from <= to && StrikeFree(legs, from, to) && Slope(legs, from) == 0.0 && PayoffAt(legs, from) == 0.0
    ensures forall s :: from <= s <= to ==> PayoffAt(legs, s) == 0.0
  {
    forall s | from <= s <= to
      ensures PayoffAt(legs, s) == 0.0
    {
      assert from + (s - from) == s;
      PayoffLinear(legs, from, s - from);
      SlopeSign(PayoffAt(legs, from), 0.0, s - from, PayoffAt(legs, s));
    }
  }

  lemma NonZeroBeyond(u: real, slope: real, t: real, w: real)
    requires slope != 0.0 && t > 0.0 && OnLine(u, slope, t, w) && w == 0.0
    ensures u != 0.0
  {
    assert slope > 0.0 ==> slope * t > 0.0;
    assert slope < 0.0 ==> slope * t < 0.0;
  }

  lemma ZeroBeyondIsCovered(points: seq<real>, legs: seq<Leg>, x: real)
    requires Kinks(points, legs) && x > points[|points| - 1] && PayoffAt(legs, x) == 0.0
    ensures Covered(points, legs, x)
  {
    var from := points[|points| - 1];
    var u, w := PayoffAt(legs, from), PayoffAt(legs, x);
    NoStrikeBetween(points, legs, |points| - 1);
    SlopeAboveStrikes(legs, from);
    assert from + (x - from) == x;
    PayoffLinear(legs, from, x - from);
    if NetCalls(legs) != 0.0 {
      BeyondIsListed(points, ValuesAt(legs, points), NetCalls(legs), x, w);
    } else {
      SlopeSign(u, NetCalls(legs), x - from, w);
      FlatStretch(legs, from, x);
      FlatIsCovered(points, legs, |points| - 1, x);
    }
  }

  lemma BeyondIsListed(points: seq<real>, values: seq<real>, slope: real, x: real, w: real)
    requires |points| == |values| > 0 && slope != 0.0
    requires var n := |points|; x > points[n - 1] && w == 0.0 && OnLine(values[n - 1], slope, x - points[n - 1], w)
    ensures Listed(x, points, values, slope)
  {
    var from, u := points[|points| - 1], values[|points| - 1];
    BeyondOnLine(u, slope, x - from, w);
    NonZeroBeyond(u, slope, x - from, w);
    BeyondSign(u, slope);
  }

  // ---- What a break-even is ----

  /** There is no other zero closer than `e`. */
  ghost predicate AloneWithin(legs: seq<Leg>, x: real, e: real) {
    e > 0.0 && forall s :: x - e < s < x + e && s != x ==> PayoffAt(legs, s) != 0.0
  }

  ghost predicate Isolated(legs: seq<Leg>, x: real) {
    exists e :: AloneWithin(legs, x, e)
  }

  /** A break-even is a zero at a strike, or a positive one that stands alone. */
  ghost predicate Breakeven(legs: seq<Leg>, x: real) {
    IsZero(legs, x) && (IsStrike(legs, x) || (x > 0.0 && Isolated(legs, x)))
  }

  lemma OneZero(u: real, slope: real, t: real, w: real, t': real, w': real)
    requires OnLine(u, slope, t, w) && OnLine(u, slope, t', w') && slope != 0.0 && w == 0.0 && t' != t
    ensures w' != 0.0
  {
    assert w' == slope * (t' - t);
    assert t' > t && slope > 0.0 ==> slope * (t' - t) > 0.0;
    assert t' > t && slope < 0.0 ==> slope * (t' - t) < 0.0;
    assert t' < t && slope > 0.0 ==> slope * (t - t') > 0.0;
    assert t' < t && slope < 0.0 ==> slope * (t - t') < 0.0;
  }

  /** On a stretch without strikes that is not flat a zero stands alone. */
  lemma SlopeIsolates(legs: seq<Leg>, from: real, to: real, x: real)
    requires from < x < to && StrikeFree(legs, from, to) && Slope(legs, from) != 0.0 && PayoffAt(legs, x) == 0.0
    ensures Isolated(legs, x)
  {
    var e := Min(x - from, to - x);
    assert from + (x - from) == x;
    PayoffLinear(legs, from, x - from);
    forall s | x - e < s < x + e && s != x
      ensures PayoffAt(legs, s) != 0.0
    {
      assert from + (s - from) == s;
      PayoffLinear(legs, from, s - from);
      OneZero(PayoffAt(legs, from), Slope(legs, from), x - from, PayoffAt(legs, x), s - from, PayoffAt(legs, s));
    }
    assert AloneWithin(legs, x, e);
  }

  lemma FlatIsNotIsolated(legs: seq<Leg>, x: real, y: real)
    requires x < y && FlatBetween(legs, x, y)
    ensures !Isolated(legs, x)
  {
    forall e | e > 0.0
      ensures !AloneWithin(legs, x, e)
    {
      var s := x + Min(y - x, e) / 2.0;
      assert x - e < s < x + e && s != x;
      assert Min(x, y) <= s <= Max(x, y) && PayoffAt(legs, s) == 0.0;
    }
  }

  lemma OppositeSlopes(u: real, slope: real, d: real, v: real)
    requires OnLine(u, slope, d, v) && Opposite(u, v)
    ensures slope != 0.0
  {
  }

  /** Between two points a zero is listed exactly when it stands alone. */
  lemma ListedWithin(points: seq<real>, legs: seq<Leg>, i: nat, x: real)
    requires Kinks(points, legs) && i + 1 < |points| && points[i] < x < points[i + 1] && PayoffAt(legs, x) == 0.0
    ensures Isolated(legs, x) <==> Opposite(PayoffAt(legs, points[i]), PayoffAt(legs, points[i + 1]))
  {
    var from, to := points[i], points[i + 1];
    var d, t, slope := to - from, x - from, Slope(legs, from);
    NoStrikeBetween(points, legs, i);
    assert from + d == to && from + t == x;
    PayoffLinear(legs, from, d);
    PayoffLinear(legs, from, t);
    if Opposite(PayoffAt(legs, from), PayoffAt(legs, to)) {
      OppositeSlopes(PayoffAt(legs, from), slope, d, PayoffAt(legs, to));
      SlopeIsolates(legs, from, to, x);
    } else {
      ZeroInsideIsFlat(PayoffAt(legs, from), slope, d, PayoffAt(legs, to), t, PayoffAt(legs, x));
      FlatStretch(legs, from, to);
      FlatIsNotIsolated(legs, x, to);
    }
  }

  /** And so it is beyond the last one. */
  lemma ListedBeyond(points: seq<real>, legs: seq<Leg>, x: real)
    requires Kinks(points, legs) && points[|points| - 1] < x && PayoffAt(legs, x) == 0.0
    ensures Isolated(legs, x) <==> NetCalls(legs) != 0.0
  {
    var from := points[|points| - 1];
    var t, to := x - from, x + 1.0;
    NoStrikeBetween(points, legs, |points| - 1);
    SlopeAboveStrikes(legs, from);
    assert StrikeFree(legs, from, to) && from + t == x;
    PayoffLinear(legs, from, t);
    if NetCalls(legs) != 0.0 {
      SlopeIsolates(legs, from, to, x);
    } else {
      SlopeSign(PayoffAt(legs, from), NetCalls(legs), t, PayoffAt(legs, x));
      FlatStretch(legs, from, to);
      FlatIsNotIsolated(legs, x, to);
    }
  }

  /** The list holds exactly the break-evens. */
  lemma ListedExactlyWhen(points: seq<real>, legs: seq<Leg>, x: real)
    requires Kinks(points, legs)
    ensures Listed(x, points, ValuesAt(legs, points), NetCalls(legs)) <==> Breakeven(legs, x)
  {
    if Listed(x, points, ValuesAt(legs, points), NetCalls(legs)) {
      ListedIsBreakeven(points, legs, x);
    }
    if Breakeven(legs, x) {
      BreakevenIsListed(points, legs, x);
    }
  }

  lemma ListedIsBreakeven(points: seq<real>, legs: seq<Leg>, x: real)
    requires Kinks(points, legs) && Listed(x, points, ValuesAt(legs, points), NetCalls(legs))
    ensures Breakeven(legs, x)
  {
    var n, values, slope := |points|, ValuesAt(legs, points), NetCalls(legs);
    BreakevenIsZero(points, legs, x);
    if CrossesWithin(x, points, values, n - 1) {
      var i :| 0 <= i < n - 1 && Opposite(values[i], values[i + 1]) && x == Crossing(points[i], values[i], points[i + 1], values[i + 1]);
      CrossingStandsAlone(points, legs, i, x);
    } else if ZeroAtStrike(x, points, values, n) {
      var i :| 0 < i < n && values[i] == 0.0 && x == points[i];
      assert points[1..][i - 1] == x;
    } else {
      BeyondSign(values[n - 1], slope);
      KinksAscend(points, legs, 0, n - 1);
      ListedBeyond(points, legs, x);
    }
  }

  lemma CrossingStandsAlone(points: seq<real>, legs: seq<Leg>, i: nat, x: real)
    requires Kinks(points, legs) && i + 1 < |points| && PayoffAt(legs, x) == 0.0
    requires var u, v := PayoffAt(legs, points[i]), PayoffAt(legs, points[i + 1]);
      Opposite(u, v) && x == Crossing(points[i], u, points[i + 1], v)
    ensures x > 0.0 && Isolated(legs, x)
  {
    var d := points[i + 1] - points[i];
    KinksAscend(points, legs, i, i + 1);
    CrossingInside(PayoffAt(legs, points[i]), PayoffAt(legs, points[i + 1]), d);
    ListedWithin(points, legs, i, x);
  }

  lemma BreakevenIsListed(points: seq<real>, legs: seq<Leg>, x: real)
    requires Kinks(points, legs) && Breakeven(legs, x)
    ensures Listed(x, points, ValuesAt(legs, points), NetCalls(legs))
  {
    var values := ValuesAt(legs, points);
    if IsStrike(legs, x) {
      var leg :| leg in legs && leg.Live() && leg.contract.value.strike == x;
      var i :| 0 <= i < |points[1..]| && points[1..][i] == x;
      assert points[i + 1] == x && values[i + 1] == 0.0;
    } else {
      IsolatedIsListed(points, legs, PointBelow(points, x), x);
    }
  }

  lemma IsolatedIsListed(points: seq<real>, legs: seq<Leg>, i: nat, x: real)
    requires Kinks(points, legs) && x > 0.0 && PayoffAt(legs, x) == 0.0 && Isolated(legs, x) && !IsStrike(legs, x)
    requires i < |points| && points[i] <= x && (i + 1 < |points| ==> x < points[i + 1])
    ensures Listed(x, points, ValuesAt(legs, points), NetCalls(legs))
  {
    assert i > 0 ==> points[1..][i - 1] == points[i];
    if i + 1 < |points| {
      ListedWithin(points, legs, i, x);
      OppositeIsListed(points, legs, i, x);
    } else {
      ListedBeyond(points, legs, x);
      SlopedIsListed(points, legs, x);
    }
  }

  lemma OppositeIsListed(points: seq<real>, legs: seq<Leg>, i: nat, x: real)
    requires Kinks(points, legs) && i + 1 < |points| && points[i] < x < points[i + 1] && PayoffAt(legs, x) == 0.0
    requires Opposite(PayoffAt(legs, points[i]), PayoffAt(legs, points[i + 1]))
    ensures Listed(x, points, ValuesAt(legs, points), NetCalls(legs))
  {
    var from, to := points[i], points[i + 1];
    var d, t, slope := to - from, x - from, Slope(legs, from);
    NoStrikeBetween(points, legs, i);
    assert from + d == to && from + t == x;
    PayoffLinear(legs, from, d);
    PayoffLinear(legs, from, t);
    CrossingIsListed(points, ValuesAt(legs, points), NetCalls(legs), i, x, slope,
                     PayoffAt(legs, from), PayoffAt(legs, to), PayoffAt(legs, x), d, t);
  }

  lemma SlopedIsListed(points: seq<real>, legs: seq<Leg>, x: real)
    requires Kinks(points, legs) && points[|points| - 1] < x && PayoffAt(legs, x) == 0.0 && NetCalls(legs) != 0.0
    ensures Listed(x, points, ValuesAt(legs, points), NetCalls(legs))
  {
    var from := points[|points| - 1];
    NoStrikeBetween(points, legs, |points| - 1);
    SlopeAboveStrikes(legs, from);
    assert from + (x - from) == x;
    PayoffLinear(legs, from, x - from);
    BeyondIsListed(points, ValuesAt(legs, points), NetCalls(legs), x, PayoffAt(legs, x));
  }
}
