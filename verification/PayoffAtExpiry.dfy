/**
 The summary of held option legs at expiry (`payoffSummary` in lib/paper-trading.ts): best and worst
 result, break-evens to the paisa, and a curve whose straight lines are the payoff itself.
 */
module PayoffAtExpiry {
  import opened Wrappers
  import opened RealSets
  import opened Payoff
  import opened Breakevens

  datatype PayoffPoint = PayoffPoint(spot: real, payoff: real)

  datatype PayoffSummary = PayoffSummary(
    curve: seq<PayoffPoint>, maxProfit: Option<real>, maxLoss: Option<real>, breakevens: seq<real>, underlying: Option<string>)

  /** `Math.round(x * 100) / 100`. */
  function ToPaise(x: real): real {
    (x * 100.0 + 0.5).Floor as real / 100.0
  }

  /** It is a whole number of paise, the nearest one, and the higher of two that are as near. */
  lemma ToPaiseIsClose(x: real)
    ensures x - 0.005 < ToPaise(x) <= x + 0.005
    ensures (ToPaise(x) * 100.0).Floor as real == ToPaise(x) * 100.0
  {
    var cents := x * 100.0 + 0.5;
    assert cents - 1.0 < cents.Floor as real <= cents;
    assert ToPaise(x) * 100.0 == cents.Floor as real;
  }

  function Rounded(xs: seq<real>): (r: seq<real>)
    ensures forall b :: b in r <==> exists x :: x in xs && ToPaise(x) == b
  {
    if xs == [] then []
    else
      assert forall x :: x in xs <==> x == xs[0] || x in xs[1..];
      [ToPaise(xs[0])] + Rounded(xs[1..])
  }

  /** The list holds exactly the break-evens, each to the paisa, in ascending order. It leaves no positive zero
      out: if it does not list one, the payoff is zero from it to a strike that it lists. */
  ghost predicate BreakevensAre(legs: seq<Leg>, listed: seq<real>) {
    && StrictlyAscending(listed)
    && (forall b :: b in listed <==> exists x :: Breakeven(legs, x) && ToPaise(x) == b)
    && (forall x :: x > 0.0 && IsZero(legs, x) ==>
          ToPaise(x) in listed || exists k :: IsStrike(legs, k) && FlatBetween(legs, x, k) && ToPaise(k) in listed)
  }

  lemma RoundedBreakevens(points: seq<real>, legs: seq<Leg>, exact: seq<real>)
    requires Kinks(points, legs)
    requires forall x :: x in exact <==> Listed(x, points, ValuesAt(legs, points), NetCalls(legs))
    ensures BreakevensAre(legs, SortedDistinct(Rounded(exact)))
  {
    forall x
      ensures x in exact <==> Breakeven(legs, x)
    {
      ListedExactlyWhen(points, legs, x);
    }
    RoundedCovers(points, legs, exact, SortedDistinct(Rounded(exact)));
  }

  lemma RoundedCovers(points: seq<real>, legs: seq<Leg>, exact: seq<real>, listed: seq<real>)
    requires Kinks(points, legs) && forall x :: x in exact <==> Listed(x, points, ValuesAt(legs, points), NetCalls(legs))
    requires forall x :: x in exact ==> ToPaise(x) in listed
    ensures forall x :: x > 0.0 && IsZero(legs, x) ==>
      ToPaise(x) in listed || exists k :: IsStrike(legs, k) && FlatBetween(legs, x, k) && ToPaise(k) in listed
  {
    forall x | x > 0.0 && IsZero(legs, x)
      ensures ToPaise(x) in listed || exists k :: IsStrike(legs, k) && FlatBetween(legs, x, k) && ToPaise(k) in listed
    {
      ZeroIsCovered(points, legs, x);
      if x !in exact {
        var k :| k in points[1..] && k in exact && FlatBetween(legs, x, k);
        assert ToPaise(k) in listed;
      }
    }
  }

  function Within(xs: seq<real>, low: real, high: real): (r: seq<real>)
    ensures forall x :: x in r <==> x in xs && low <= x <= high
  {
    if xs == [] then []
    else
      assert forall x :: x in xs <==> x == xs[0] || x in xs[1..];
      (if low <= xs[0] <= high then [xs[0]] else []) + Within(xs[1..], low, high)
  }

  function PointsAt(legs: seq<Leg>, spots: seq<real>): (points: seq<PayoffPoint>)
    ensures |points| == |spots|
    ensures forall i :: 0 <= i < |spots| ==> points[i] == PayoffPoint(spots[i], PayoffAt(legs, spots[i]))
  {
    if spots == [] then [] else [PayoffPoint(spots[0], PayoffAt(legs, spots[0]))] + PointsAt(legs, spots[1..])
  }

  /** The points lie on the payoff from left to right, one of them at every strike. */
  ghost predicate ThroughStrikes(curve: seq<PayoffPoint>, legs: seq<Leg>) {
    && (forall i, j :: 0 <= i < j < |curve| ==> curve[i].spot < curve[j].spot)
    && (forall i :: 0 <= i < |curve| ==> curve[i].payoff == PayoffAt(legs, curve[i].spot))
    && (forall k :: IsStrike(legs, k) ==> Shows(curve, k))
  }

  /** Between neighbouring points the straight line is the payoff itself. */
  ghost predicate StraightBetween(curve: seq<PayoffPoint>, legs: seq<Leg>) {
    forall i, s :: 0 <= i < |curve| - 1 && curve[i].spot <= s <= curve[i + 1].spot ==>
      OnChord(curve[i], curve[i + 1], s, PayoffAt(legs, s))
  }

  /** At `s` the straight line from `p` to `q` has the value `w`. */
  predicate OnChord(p: PayoffPoint, q: PayoffPoint, s: real, w: real) {
    p.spot < q.spot && Interpolates(p.spot, p.payoff, q.spot, q.payoff, s, w)
  }

  /** The curve goes on past `x` by a margin on either side, but starts at no negative spot. */
  predicate Surrounds(low: real, high: real, x: real) {
    0.0 <= low <= Max(0.0, x - 1.0) && x + 1.0 <= high
  }

  /** A strike, or the current spot. */
  ghost predicate Marked(legs: seq<Leg>, spotHint: Option<real>, x: real) {
    IsStrike(legs, x) || spotHint == Some(x)
  }

  ghost predicate Lowest(legs: seq<Leg>, spotHint: Option<real>, x: real) {
    Marked(legs, spotHint, x) && forall y :: Marked(legs, spotHint, y) ==> x <= y
  }

  ghost predicate Highest(legs: seq<Leg>, spotHint: Option<real>, x: real) {
    Marked(legs, spotHint, x) && forall y :: Marked(legs, spotHint, y) ==> y <= x
  }

  /** The margin: a quarter of the way from the lowest to the highest, or a hundredth of the lowest strike, or 1,
      whichever is most. The curve does not start below zero. */
  predicate Framed(start: real, end: real, low: real, high: real, firstStrike: real) {
    var margin := end - high;
    && margin >= 1.0 && margin >= (high - low) / 4.0 && margin >= firstStrike / 100.0
    && (margin == 1.0 || margin == (high - low) / 4.0 || margin == firstStrike / 100.0)
    && start == if low > margin then low - margin else 0.0
  }

  ghost predicate Ends(start: real, end: real, legs: seq<Leg>, spotHint: Option<real>, low: real, high: real, firstStrike: real) {
    && Lowest(legs, spotHint, low) && Highest(legs, spotHint, high) && Lowest(legs, None, firstStrike)
    && Framed(start, end, low, high, firstStrike)
  }

  /** The curve goes past every strike and the current spot, and shows the break-evens on its way and nothing else. */
  ghost predicate Spans(curve: seq<PayoffPoint>, legs: seq<Leg>, breakevens: seq<real>, spotHint: Option<real>) {
    && |curve| > 1
    && var start, end := curve[0].spot, curve[|curve| - 1].spot;
      && (exists low, high, firstStrike :: Ends(start, end, legs, spotHint, low, high, firstStrike))
      && (forall k :: IsStrike(legs, k) ==> Surrounds(start, end, k))
      && (spotHint.Some? ==> Surrounds(start, end, spotHint.value))
      && (forall b :: b in breakevens && start <= b <= end ==> Shows(curve, b))
      && (forall i :: 0 < i < |curve| - 1 ==> IsStrike(legs, curve[i].spot) || curve[i].spot in breakevens)
  }

  ghost predicate Shows(curve: seq<PayoffPoint>, spot: real) {
    exists i :: 0 <= i < |curve| && curve[i].spot == spot
  }

  ghost predicate DrawnExactly(curve: seq<PayoffPoint>, legs: seq<Leg>, breakevens: seq<real>, spotHint: Option<real>) {
    ThroughStrikes(curve, legs) && StraightBetween(curve, legs) && Spans(curve, legs, breakevens, spotHint)
  }

  /** The curve is drawn through ascending spots, every strike among them. */
  ghost predicate DrawnThrough(curve: seq<PayoffPoint>, legs: seq<Leg>, spots: seq<real>) {
    && curve == PointsAt(legs, spots) && StrictlyAscending(spots)
    && forall k :: IsStrike(legs, k) ==> k in spots
  }

  lemma CurveIsExact(legs: seq<Leg>, spots: seq<real>, curve: seq<PayoffPoint>)
    requires DrawnThrough(curve, legs, spots)
    ensures ThroughStrikes(curve, legs) && StraightBetween(curve, legs)
  {
    CurveThrough(legs, spots);
    forall i, s | 0 <= i < |curve| - 1 && curve[i].spot <= s <= curve[i + 1].spot
      ensures OnChord(curve[i], curve[i + 1], s, PayoffAt(legs, s))
    {
      BetweenPoints(legs, spots, curve, i, s);
    }
  }

  lemma BetweenPoints(legs: seq<Leg>, spots: seq<real>, curve: seq<PayoffPoint>, i: int, s: real)
    requires DrawnThrough(curve, legs, spots) && 0 <= i < |curve| - 1 && curve[i].spot <= s <= curve[i + 1].spot
    ensures OnChord(curve[i], curve[i + 1], s, PayoffAt(legs, s))
  {
    BetweenSpots(legs, spots, i, s);
  }

  lemma CurveThrough(legs: seq<Leg>, spots: seq<real>)
    requires StrictlyAscending(spots)
    requires forall k :: IsStrike(legs, k) ==> k in spots
    ensures ThroughStrikes(PointsAt(legs, spots), legs)
  {
    var curve := PointsAt(legs, spots);
    forall k | IsStrike(legs, k)
      ensures Shows(curve, k)
    {
      var i :| 0 <= i < |spots| && spots[i] == k;
      assert curve[i].spot == k;
    }
  }

  lemma CurveSpans(spots: seq<real>, start: real, end: real)
    requires StrictlyAscending(spots) && start < end && start in spots && end in spots
    requires forall s :: s in spots ==> start <= s <= end
    ensures |spots| > 1 && spots[0] == start && spots[|spots| - 1] == end
  {
    var first :| 0 <= first < |spots| && spots[first] == start;
    var last :| 0 <= last < |spots| && spots[last] == end;
    assert spots[0] in spots && spots[|spots| - 1] in spots;
  }

  lemma BetweenSpots(legs: seq<Leg>, spots: seq<real>, i: nat, s: real)
    requires StrictlyAscending(spots) && i + 1 < |spots| && spots[i] <= s <= spots[i + 1]
    requires forall k :: IsStrike(legs, k) ==> k in spots
    ensures Interpolates(spots[i], PayoffAt(legs, spots[i]), spots[i + 1], PayoffAt(legs, spots[i + 1]), s, PayoffAt(legs, s))
  {
    NoStrikeBetweenSpots(legs, spots, i);
    PayoffInterpolates(legs, spots[i], spots[i + 1], s);
  }

  lemma NoStrikeBetweenSpots(legs: seq<Leg>, spots: seq<real>, i: nat)
    requires StrictlyAscending(spots) && i + 1 < |spots|
    requires forall k :: IsStrike(legs, k) ==> k in spots
    ensures StrikeFree(legs, spots[i], spots[i + 1])
  {
    forall leg | leg in legs && leg.Live()
      ensures leg.contract.value.strike <= spots[i] || spots[i + 1] <= leg.contract.value.strike
    {
      assert IsStrike(legs, leg.contract.value.strike);
      var at :| 0 <= at < |spots| && spots[at] == leg.contract.value.strike;
    }
  }

  /** The range goes on past every strike and the current spot. */
  ghost predicate Reaches(start: real, end: real, strikes: seq<real>, spotHint: Option<real>) {
    && (forall k :: k in strikes ==> start <= k <= end && Surrounds(start, end, k))
    && (spotHint.Some? ==> Surrounds(start, end, spotHint.value))
  }

  /** Where the drawn curve starts and ends: a margin beyond the strikes and the current spot. */
  method CurveRange(strikes: seq<real>, spotHint: Option<real>) returns (start: real, end: real, ghost low: real, ghost high: real)
    requires StrictlyAscending(strikes) && strikes != [] && strikes[0] >= 0.0
    ensures start < end && Reaches(start, end, strikes, spotHint)
    ensures Framed(start, end, low, high, strikes[0])
    ensures low in strikes || spotHint == Some(low)
    ensures high in strikes || spotHint == Some(high)
    ensures forall y :: y in strikes || spotHint == Some(y) ==> low <= y <= high
  {
    var first, last := strikes[0], strikes[|strikes| - 1];
    var least := Min(first, if spotHint.Some? then spotHint.value else first);
    var most := Max(last, if spotHint.Some? then spotHint.value else last);
    var margin := Max(Max((most - least) * 0.25, first * 0.01), 1.0);
    start, end := Max(0.0, least - margin), most + margin;
    low, high := least, most;
  }

  /** The spots the curve is drawn through. */
  function Spots(strikes: seq<real>, breakevens: seq<real>, start: real, end: real): (spots: seq<real>)
    requires start < end
    ensures StrictlyAscending(spots) && start in spots && end in spots
    ensures forall s :: s in spots ==> start <= s <= end && (s == start || s == end || s in strikes || s in breakevens)
    ensures forall s :: s in strikes || s in breakevens ==> (s in spots <==> start <= s <= end)
  {
    var all := [start] + strikes + breakevens + [end];
    assert forall s :: s in all <==> s == start || s in strikes || s in breakevens || s == end;
    SortedDistinct(Within(all, start, end))
  }

  function UnderlyingsOf(legs: seq<Leg>): set<string> {
    set leg | leg in legs && leg.Live() :: leg.contract.value.underlying
  }

  /** There is an open option among the legs, and all of them are of this underlying. */
  ghost predicate AllOf(legs: seq<Leg>, underlying: string) {
    && (exists leg :: leg in legs && leg.Live())
    && forall leg :: leg in legs && leg.Live() ==> leg.contract.value.underlying == underlying
  }

  lemma OneUnderlying(legs: seq<Leg>, live: seq<Leg>)
    requires live == LiveLegs(legs)
    ensures live != [] ==> live[0].Live()
    ensures live != [] && |UnderlyingsOf(live)| == 1 ==> AllOf(legs, live[0].contract.value.underlying)
    ensures (exists u :: AllOf(legs, u)) ==> live != [] && |UnderlyingsOf(live)| == 1
  {
    if live != [] {
      assert live[0] in live;
      var first := live[0].contract.value.underlying;
      assert first in UnderlyingsOf(live);
      if |UnderlyingsOf(live)| == 1 {
        SingletonSet(UnderlyingsOf(live), first);
        forall leg | leg in legs && leg.Live()
          ensures leg.contract.value.underlying == first
        {
          assert leg in live && leg.contract.value.underlying in UnderlyingsOf(live);
        }
      }
    }
    if u :| AllOf(legs, u) {
      var leg :| leg in legs && leg.Live();
      assert leg in live;
      assert UnderlyingsOf(live) == {u} by { assert leg.contract.value.underlying in UnderlyingsOf(live); }
    }
  }

  lemma SingletonSet(s: set<string>, x: string)
    requires |s| == 1 && x in s
    ensures s == {x}
  {
    assert |s - {x}| == 0;
  }

  lemma KinksOf(legs: seq<Leg>, live: seq<Leg>, strikes: seq<real>)
    requires live == LiveLegs(legs) && live != [] && strikes == SortedDistinct(StrikesOf(live))
    ensures strikes != [] && Kinks([0.0] + strikes, legs)
    ensures forall k :: k in strikes <==> IsStrike(legs, k)
  {
    assert live[0] in live;
    assert live[0].contract.value.strike in strikes;
    forall k
      ensures k in strikes <==> IsStrike(legs, k)
    {
      if IsStrike(live, k) {
        var leg :| leg in live && leg.Live() && leg.contract.value.strike == k;
        assert IsStrike(legs, k);
      }
      if IsStrike(legs, k) {
        var leg :| leg in legs && leg.Live() && leg.contract.value.strike == k;
        assert leg in live;
      }
    }
    assert ([0.0] + strikes)[1..] == strikes;
    assert IsStrike(legs, strikes[0]);
  }

  /** The at-expiry payoff of the open option legs: the curve, the best and worst result, and where it
      crosses zero. There is none unless the open options are all of one underlying. */
  method SummarizePayoff(allLegs: seq<Leg>, spotHint: Option<real>) returns (r: PayoffSummary)
    ensures r.underlying.Some? <==> exists u :: AllOf(allLegs, u)
    ensures r.underlying.None? ==> r == PayoffSummary([], None, None, [], None)
    ensures r.underlying.Some? ==>
      && AllOf(allLegs, r.underlying.value)
      && BestIs(allLegs, r.maxProfit)
      && WorstIs(allLegs, r.maxLoss)
      && BreakevensAre(allLegs, r.breakevens)
      && DrawnExactly(r.curve, allLegs, r.breakevens, spotHint)
  {
    var legs := LiveLegs(allLegs);
    OneUnderlying(allLegs, legs);
    if legs == [] || |UnderlyingsOf(legs)| != 1 {
      return PayoffSummary([], None, None, [], None);
    }
    var strikes := SortedDistinct(StrikesOf(legs));
    KinksOf(allLegs, legs, strikes);
    var points := [0.0] + strikes;
    var values := ValuesAt(legs, points);
    LiveValues(allLegs, points);
    var rightSlope := NetCalls(legs);
    var maxProfit := if rightSlope > 0.0 then None else Some(MaxOf(values));
    var maxLoss := if rightSlope < 0.0 then None else Some(MinOf(values));
    Extremes(points, allLegs);
    var exact := FindBreakevens(points, values, rightSlope);
    var unique := SortedDistinct(Rounded(exact));
    RoundedBreakevens(points, allLegs, exact);
    var curve := DrawCurve(allLegs, legs, strikes, unique, spotHint);
    return PayoffSummary(curve, maxProfit, maxLoss, unique, Some(legs[0].contract.value.underlying));
  }

  method DrawCurve(ghost allLegs: seq<Leg>, legs: seq<Leg>, strikes: seq<real>, breakevens: seq<real>, spotHint: Option<real>)
    returns (curve: seq<PayoffPoint>)
    requires legs == LiveLegs(allLegs) && StrictlyAscending(strikes) && strikes != []
    requires forall k :: k in strikes <==> IsStrike(allLegs, k)
    ensures DrawnExactly(curve, allLegs, breakevens, spotHint)
  {
    assert IsStrike(allLegs, strikes[0]);
    var start, end, low, high := CurveRange(strikes, spotHint);
    var spots := Spots(strikes, breakevens, start, end);
    curve := PointsAt(legs, spots);
    LivePoints(allLegs, spots);
    EndsFit(allLegs, strikes, start, end, spotHint, low, high);
    SpotsFit(allLegs, strikes, spots, breakevens, start, end, spotHint);
    CurveDrawn(allLegs, curve, spots, breakevens, start, end, spotHint);
  }

  lemma EndsFit(legs: seq<Leg>, strikes: seq<real>, start: real, end: real, spotHint: Option<real>, low: real, high: real)
    requires StrictlyAscending(strikes) && strikes != [] && forall k :: k in strikes <==> IsStrike(legs, k)
    requires Framed(start, end, low, high, strikes[0])
    requires (low in strikes || spotHint == Some(low)) && (high in strikes || spotHint == Some(high))
    requires forall y :: y in strikes || spotHint == Some(y) ==> low <= y <= high
    ensures Ends(start, end, legs, spotHint, low, high, strikes[0])
  {
    forall y | Marked(legs, None, y)
      ensures strikes[0] <= y
    {
      var i :| 0 <= i < |strikes| && strikes[i] == y;
    }
    assert strikes[0] in strikes;
  }

  /** Spots that ascend from `start` to `end` through the strikes and break-evens. */
  ghost predicate Fits(spots: seq<real>, legs: seq<Leg>, breakevens: seq<real>, start: real, end: real, spotHint: Option<real>) {
    && StrictlyAscending(spots) && start < end && start in spots && end in spots
    && (exists low, high, firstStrike :: Ends(start, end, legs, spotHint, low, high, firstStrike))
    && (forall s :: s in spots ==> start <= s <= end && (s == start || s == end || IsStrike(legs, s) || s in breakevens))
    && (forall k :: IsStrike(legs, k) ==> k in spots && Surrounds(start, end, k))
    && (spotHint.Some? ==> Surrounds(start, end, spotHint.value))
    && (forall b :: b in breakevens && start <= b <= end ==> b in spots)
  }

  lemma SpotsFit(legs: seq<Leg>, strikes: seq<real>, spots: seq<real>, breakevens: seq<real>, start: real, end: real, spotHint: Option<real>)
    requires start < end && spots == Spots(strikes, breakevens, start, end) && Reaches(start, end, strikes, spotHint)
    requires exists low, high, firstStrike :: Ends(start, end, legs, spotHint, low, high, firstStrike)
    requires forall k :: k in strikes <==> IsStrike(legs, k)
    ensures Fits(spots, legs, breakevens, start, end, spotHint)
  {
  }

  lemma CurveDrawn(legs: seq<Leg>, curve: seq<PayoffPoint>, spots: seq<real>, breakevens: seq<real>, start: real, end: real,
                   spotHint: Option<real>)
    requires curve == PointsAt(legs, spots) && Fits(spots, legs, breakevens, start, end, spotHint)
    ensures DrawnExactly(curve, legs, breakevens, spotHint)
  {
    CurveIsExact(legs, spots, curve);
    CurveSpans(spots, start, end);
    CurveShows(legs, spots, breakevens, start, end, spotHint);
  }

  lemma CurveShows(legs: seq<Leg>, spots: seq<real>, breakevens: seq<real>, start: real, end: real, spotHint: Option<real>)
    requires |spots| > 1 && spots[0] == start && spots[|spots| - 1] == end && Fits(spots, legs, breakevens, start, end, spotHint)
    ensures Spans(PointsAt(legs, spots), legs, breakevens, spotHint)
  {
    var curve := PointsAt(legs, spots);
    forall b | b in breakevens && start <= b <= end
      ensures Shows(curve, b)
    {
      PointShown(legs, spots, b);
    }
    forall i | 0 < i < |curve| - 1
      ensures IsStrike(legs, curve[i].spot) || curve[i].spot in breakevens
    {
      InnerSpot(spots, i);
    }
  }

  lemma PointShown(legs: seq<Leg>, spots: seq<real>, b: real)
    requires b in spots
    ensures Shows(PointsAt(legs, spots), b)
  {
    var i :| 0 <= i < |spots| && spots[i] == b;
    assert PointsAt(legs, spots)[i].spot == b;
  }

  lemma InnerSpot(spots: seq<real>, i: nat)
    requires StrictlyAscending(spots) && 0 < i < |spots| - 1
    ensures spots[0] < spots[i] < spots[|spots| - 1] && spots[i] in spots
  {
  }

  lemma LivePoints(legs: seq<Leg>, spots: seq<real>)
    ensures PointsAt(LiveLegs(legs), spots) == PointsAt(legs, spots)
  {
    forall i | 0 <= i < |spots|
      ensures PointsAt(LiveLegs(legs), spots)[i] == PointsAt(legs, spots)[i]
    {
      LiveLegsPayoff(legs, spots[i]);
    }
  }

  /** A leg that is no option, beside one that is: it does not prevent a summary. */
  lemma OtherLegsDoNotPrevent(contract: Contract)
    ensures var legs := [Leg(None, 1.0, 100.0), Leg(Some(contract), 1.0, 10.0)];
      AllOf(legs, contract.underlying) && exists leg :: leg in legs && leg.contract.None?
  {
    var legs := [Leg(None, 1.0, 100.0), Leg(Some(contract), 1.0, 10.0)];
    assert legs[0] in legs && legs[1] in legs && legs[1].Live();
  }

  predicate OptionOf(leg: Leg, underlying: string) {
    leg.contract.Some? && leg.contract.value.underlying == underlying
  }

  /** What the comment on `underlying` says: there are legs, and all of them are options of this underlying. */
  predicate AllOptionsOf(legs: seq<Leg>, underlying: string) {
    legs != [] && forall leg :: leg in legs ==> OptionOf(leg, underlying)
  }

  /** The comment and the code agree on whether there is a summary exactly when no leg makes a difference by being
      dropped: where the open options are of one underlying every other leg is an option of it too, and where no
      leg is open the legs are not all options of one underlying. */
  lemma CommentAgreesExactlyWhen(legs: seq<Leg>)
    ensures ((exists u :: AllOptionsOf(legs, u)) <==> (exists u :: AllOf(legs, u))) <==>
      && (forall u :: AllOf(legs, u) ==> forall leg :: leg in legs && !leg.Live() ==> OptionOf(leg, u))
      && ((exists leg :: leg in legs && leg.Live()) || !exists u :: AllOptionsOf(legs, u))
  {
    forall u, v | AllOf(legs, u) && AllOptionsOf(legs, v)
      ensures u == v
    {
    }
    forall u | AllOf(legs, u) && forall leg :: leg in legs && !leg.Live() ==> OptionOf(leg, u)
      ensures AllOptionsOf(legs, u)
    {
      var leg :| leg in legs && leg.Live();
    }
    forall u | AllOptionsOf(legs, u) && exists leg :: leg in legs && leg.Live()
      ensures AllOf(legs, u)
    {
    }
  }

  /** For legs that have a quantity: exactly when all of them are options, or the open ones are not of one underlying. */
  lemma CommentAgreesOnOpenLegs(legs: seq<Leg>)
    requires forall leg :: leg in legs ==> leg.quantity != 0.0
    ensures ((exists u :: AllOptionsOf(legs, u)) <==> (exists u :: AllOf(legs, u))) <==>
      (forall leg :: leg in legs ==> leg.contract.Some?) || !exists u :: AllOf(legs, u)
  {
    CommentAgreesExactlyWhen(legs);
    forall u | AllOptionsOf(legs, u)
      ensures legs[0] in legs && legs[0].Live() && AllOf(legs, u)
    {
      assert legs[0] in legs && legs[0].Live();
    }
    if forall leg :: leg in legs ==> leg.contract.Some? {
      assert forall leg :: leg in legs ==> leg.Live();
    }
    if u :| AllOf(legs, u) {
      assert forall leg :: leg in legs && !leg.Live() ==> leg.contract.None?;
    }
  }

  // ---- One bought option ----

  function Bought(contract: Contract, quantity: real, cost: real): seq<Leg> {
    [Leg(Some(contract), quantity, cost)]
  }

  lemma BoughtPayoff(contract: Contract, quantity: real, cost: real, spot: real)
    requires quantity > 0.0
    ensures PayoffAt(Bought(contract, quantity, cost), spot) == quantity * (Intrinsic(contract, spot) - cost)
  {
    var legs := Bought(contract, quantity, cost);
    assert legs[..|legs| - 1] == [];
  }

  /** A bought call: it costs its price at worst, gains without limit, and pays off from strike plus cost. */
  predicate CallSummary(r: PayoffSummary, contract: Contract, quantity: real, cost: real) {
    && r.underlying == Some(contract.underlying)
    && r.maxProfit == None && r.maxLoss == Some(-(quantity * cost)) && r.breakevens == [ToPaise(contract.strike + cost)]
  }

  /** A bought put that costs less than its strike: it gains most at zero and pays off below strike less cost. */
  predicate PutSummary(r: PayoffSummary, contract: Contract, quantity: real, cost: real) {
    && r.underlying == Some(contract.underlying)
    && r.maxProfit == Some(quantity * (contract.strike - cost)) && r.maxLoss == Some(-(quantity * cost))
    && r.breakevens == [ToPaise(contract.strike - cost)]
  }

  method SummarizeBoughtCall(contract: Contract, quantity: real, cost: real, spotHint: Option<real>) returns (r: PayoffSummary)
    requires contract.kind == Call && quantity > 0.0 && cost > 0.0
    ensures CallSummary(r, contract, quantity, cost)
  {
    BoughtSummarized(contract, quantity, cost);
    r := SummarizePayoff(Bought(contract, quantity, cost), spotHint);
    CallSummarized(r, Bought(contract, quantity, cost), contract, quantity, cost);
  }

  method SummarizeBoughtPut(contract: Contract, quantity: real, cost: real, spotHint: Option<real>) returns (r: PayoffSummary)
    requires contract.kind == Put && quantity > 0.0 && 0.0 < cost < contract.strike
    ensures PutSummary(r, contract, quantity, cost)
  {
    BoughtSummarized(contract, quantity, cost);
    r := SummarizePayoff(Bought(contract, quantity, cost), spotHint);
    PutSummarized(r, Bought(contract, quantity, cost), contract, quantity, cost);
  }

  /** What is said of the summary in general. */
  ghost predicate Summarizes(r: PayoffSummary, legs: seq<Leg>, underlying: string) {
    && r.underlying == Some(underlying)
    && BestIs(legs, r.maxProfit) && WorstIs(legs, r.maxLoss) && BreakevensAre(legs, r.breakevens)
  }

  lemma CallSummarized(r: PayoffSummary, legs: seq<Leg>, contract: Contract, quantity: real, cost: real)
    requires contract.kind == Call && quantity > 0.0 && cost > 0.0
    requires legs == Bought(contract, quantity, cost) && Summarizes(r, legs, contract.underlying)
    ensures CallSummary(r, contract, quantity, cost)
  {
    CallExtremes(contract, quantity, cost, r.maxProfit, r.maxLoss);
    CallZero(contract, quantity, cost);
    OneBreakeven(legs, r.breakevens, contract.strike + cost);
  }

  lemma PutSummarized(r: PayoffSummary, legs: seq<Leg>, contract: Contract, quantity: real, cost: real)
    requires contract.kind == Put && quantity > 0.0 && 0.0 < cost < contract.strike
    requires legs == Bought(contract, quantity, cost) && Summarizes(r, legs, contract.underlying)
    ensures PutSummary(r, contract, quantity, cost)
  {
    PutExtremes(contract, quantity, cost, r.maxProfit, r.maxLoss, quantity * (contract.strike - cost), -(quantity * cost));
    PutZero(contract, quantity, cost);
    OneBreakeven(legs, r.breakevens, contract.strike - cost);
  }

  lemma BoughtSummarized(contract: Contract, quantity: real, cost: real)
    requires quantity > 0.0
    ensures AllOf(Bought(contract, quantity, cost), contract.underlying)
    ensures forall u :: AllOf(Bought(contract, quantity, cost), u) ==> u == contract.underlying
  {
    var legs := Bought(contract, quantity, cost);
    assert legs[0] in legs && legs[0].Live();
  }

  lemma CallExtremes(contract: Contract, quantity: real, cost: real, best: Option<real>, worst: Option<real>)
    requires contract.kind == Call && quantity > 0.0 && cost > 0.0
    requires BestIs(Bought(contract, quantity, cost), best) && WorstIs(Bought(contract, quantity, cost), worst)
    ensures best == None && worst == Some(-(quantity * cost))
  {
    var legs, k := Bought(contract, quantity, cost), contract.strike;
    forall spot
      ensures PayoffAt(legs, spot) >= -(quantity * cost)
    {
      BoughtPayoff(contract, quantity, cost, spot);
      Scaled(quantity, 0.0, Intrinsic(contract, spot));
    }
    BoughtPayoff(contract, quantity, cost, k);
    WorstIsThis(legs, worst, -(quantity * cost), k);
    if best.Some? {
      GrowsPast(contract, quantity, cost, best.value);
    }
  }

  lemma GrowsPast(contract: Contract, quantity: real, cost: real, m: real)
    requires contract.kind == Call && quantity > 0.0 && cost > 0.0
    ensures Exceeds(Bought(contract, quantity, cost), m)
  {
    var q := Max(0.0, m / quantity) + 1.0;
    var spot := contract.strike + cost + q;
    BoughtPayoff(contract, quantity, cost, spot);
    var r := m / quantity;
    assert quantity * r == m;
    assert quantity * (q - r) > 0.0;
    assert quantity * q == quantity * r + quantity * (q - r);
    assert Intrinsic(contract, spot) - cost == q;
  }

  lemma ZeroFactor(quantity: real, y: real)
    requires quantity > 0.0
    ensures quantity * y == 0.0 <==> y == 0.0
  {
    assert y > 0.0 ==> quantity * y > 0.0;
    assert y < 0.0 ==> quantity * y < 0.0;
  }

  lemma CallZero(contract: Contract, quantity: real, cost: real)
    requires contract.kind == Call && quantity > 0.0 && cost > 0.0
    ensures forall x :: PayoffAt(Bought(contract, quantity, cost), x) == 0.0 <==> x == contract.strike + cost
  {
    forall x
      ensures PayoffAt(Bought(contract, quantity, cost), x) == 0.0 <==> x == contract.strike + cost
    {
      BoughtPayoff(contract, quantity, cost, x);
      ZeroFactor(quantity, Intrinsic(contract, x) - cost);
    }
  }

  lemma PutExtremes(contract: Contract, quantity: real, cost: real, best: Option<real>, worst: Option<real>, most: real, least: real)
    requires contract.kind == Put && quantity > 0.0 && 0.0 < cost < contract.strike
    requires BestIs(Bought(contract, quantity, cost), best) && WorstIs(Bought(contract, quantity, cost), worst)
    requires most == quantity * (contract.strike - cost) && least == -(quantity * cost)
    ensures best == Some(most) && worst == Some(least)
  {
    var legs := Bought(contract, quantity, cost);
    forall spot | spot >= 0.0
      ensures least <= PayoffAt(legs, spot) <= most
    {
      PutBetween(contract, quantity, cost, spot);
    }
    BoughtPayoff(contract, quantity, cost, contract.strike);
    BoughtPayoff(contract, quantity, cost, 0.0);
    WorstIsThis(legs, worst, least, contract.strike);
    BestIsThis(legs, best, most, 0.0);
  }

  lemma PutBetween(contract: Contract, quantity: real, cost: real, spot: real)
    requires contract.kind == Put && quantity > 0.0 && spot >= 0.0
    ensures -(quantity * cost) <= PayoffAt(Bought(contract, quantity, cost), spot) <= quantity * (contract.strike - cost)
  {
    var v := Intrinsic(contract, spot);
    BoughtPayoff(contract, quantity, cost, spot);
    Scaled(quantity, 0.0, v);
    Scaled(quantity, v, contract.strike);
    assert quantity * (v - cost) == quantity * v - quantity * cost;
  }

  lemma BestIsThis(legs: seq<Leg>, best: Option<real>, m: real, at: real)
    requires BestIs(legs, best) && at >= 0.0 && PayoffAt(legs, at) == m && forall spot :: spot >= 0.0 ==> PayoffAt(legs, spot) <= m
    ensures best == Some(m)
  {
    assert !Exceeds(legs, m);
  }

  lemma WorstIsThis(legs: seq<Leg>, worst: Option<real>, m: real, at: real)
    requires WorstIs(legs, worst) && at >= 0.0 && PayoffAt(legs, at) == m && forall spot :: spot >= 0.0 ==> PayoffAt(legs, spot) >= m
    ensures worst == Some(m)
  {
    assert !FallsBelow(legs, m);
  }

  lemma PutZero(contract: Contract, quantity: real, cost: real)
    requires contract.kind == Put && quantity > 0.0 && 0.0 < cost < contract.strike
    ensures forall x :: PayoffAt(Bought(contract, quantity, cost), x) == 0.0 <==> x == contract.strike - cost
  {
    forall x
      ensures PayoffAt(Bought(contract, quantity, cost), x) == 0.0 <==> x == contract.strike - cost
    {
      BoughtPayoff(contract, quantity, cost, x);
      ZeroFactor(quantity, Intrinsic(contract, x) - cost);
    }
  }

  /** Where there is one zero, that is the list. */
  lemma OneBreakeven(legs: seq<Leg>, listed: seq<real>, zero: real)
    requires BreakevensAre(legs, listed) && zero > 0.0
    requires forall x :: PayoffAt(legs, x) == 0.0 <==> x == zero
    ensures listed == [ToPaise(zero)]
  {
    assert AloneWithin(legs, zero, 1.0);
    assert Breakeven(legs, zero);
    OnlyOne(listed, ToPaise(zero));
  }

  lemma OnlyOne(listed: seq<real>, x: real)
    requires StrictlyAscending(listed) && forall b :: b in listed <==> b == x
    ensures listed == [x]
  {
    assert x in listed;
    var i :| 0 <= i < |listed| && listed[i] == x;
    assert listed[0] in listed && listed[|listed| - 1] in listed;
    assert listed[0] == listed[|listed| - 1] == x;
  }

  // ---- What costs do ----

  function CostsRaised(legs: seq<Leg>, d: real): seq<Leg> {
    if legs == [] then []
    else
      var leg := legs[|legs| - 1];
      CostsRaised(legs[..|legs| - 1], d) + [leg.(avgCost := leg.avgCost + d)]
  }

  function NetQuantity(legs: seq<Leg>): real {
    if legs == [] then 0.0
    else NetQuantity(legs[..|legs| - 1]) + if legs[|legs| - 1].Live() then legs[|legs| - 1].quantity else 0.0
  }

  /** Dearer legs are worth that much less for each open option held. */
  lemma {:induction false} CostsLower(legs: seq<Leg>, d: real, spot: real)
    ensures OnLine(PayoffAt(legs, spot), -NetQuantity(legs), d, PayoffAt(CostsRaised(legs, d), spot))
  {
    if legs != [] {
      var rest, leg := legs[..|legs| - 1], legs[|legs| - 1];
      var dearer := leg.(avgCost := leg.avgCost + d);
      CostsLower(rest, d, spot);
      LegCostLowers(leg, d, spot);
      PayoffOfLast(CostsRaised(rest, d), dearer, spot);
      LinesAdd(PayoffAt(rest, spot), PayoffAt(CostsRaised(rest, d), spot), -NetQuantity(rest),
               LegAt(leg, spot), LegAt(dearer, spot), if leg.Live() then -leg.quantity else 0.0,
               PayoffAt(legs, spot), PayoffAt(CostsRaised(legs, d), spot), -NetQuantity(legs), d);
    }
  }

  lemma PayoffOfLast(rest: seq<Leg>, leg: Leg, spot: real)
    ensures PayoffAt(rest + [leg], spot) == PayoffAt(rest, spot) + LegAt(leg, spot)
  {
    assert (rest + [leg])[..|rest|] == rest;
  }

  lemma LegCostLowers(leg: Leg, d: real, spot: real)
    ensures OnLine(LegAt(leg, spot), if leg.Live() then -leg.quantity else 0.0, d, LegAt(leg.(avgCost := leg.avgCost + d), spot))
  {
    if leg.Live() {
      var q, v, c := leg.quantity, Intrinsic(leg.contract.value, spot), leg.avgCost;
      assert q * (v - (c + d)) == q * (v - c) + -q * d;
    }
  }
}
