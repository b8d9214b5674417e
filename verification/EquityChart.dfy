/**
 The equity chart (lib/equity-chart.ts): runs of measured readings, the gaps between them, and the scale
 on which the line touches the trip level exactly when the equity does. Amounts are exact reals.
 */
module EquityChart {
  import opened Wrappers
  import opened RealSets

  datatype Snapshot = Snapshot(takenAt: int, equity: Option<real>, peak: Option<real>)

  // ---- Runs ----

  /** `runs` are the longest stretches of measured readings of `snapshots[from..]`, in order. */
  ghost predicate RunsAre(runs: seq<seq<Snapshot>>, snapshots: seq<Snapshot>, from: nat)
    requires from <= |snapshots|
    decreases |snapshots| - from
  {
    if from == |snapshots| then runs == []
    else if snapshots[from].equity.None? then RunsAre(runs, snapshots, from + 1)
    else
      && runs != []
      && var end := from + |runs[0]|;
         && from < end <= |snapshots| && runs[0] == snapshots[from..end]
         && (forall k :: from <= k < end ==> snapshots[k].equity.Some?)
         && (end < |snapshots| ==> snapshots[end].equity.None?)
         && RunsAre(runs[1..], snapshots, end)
  }

  function Measured(snapshots: seq<Snapshot>): seq<Snapshot> {
    if snapshots == [] then []
    else (if snapshots[0].equity.Some? then [snapshots[0]] else []) + Measured(snapshots[1..])
  }

  function Concat(runs: seq<seq<Snapshot>>): seq<Snapshot> {
    if runs == [] then [] else runs[0] + Concat(runs[1..])
  }

  lemma {:induction false} MeasuredStretch(snapshots: seq<Snapshot>, from: nat, end: nat)
    requires from <= end <= |snapshots| && forall k :: from <= k < end ==> snapshots[k].equity.Some?
    ensures Measured(snapshots[from..]) == snapshots[from..end] + Measured(snapshots[end..])
    decreases end - from
  {
    if from < end {
      MeasuredStretch(snapshots, from + 1, end);
      assert snapshots[from..][1..] == snapshots[from + 1..];
      assert snapshots[from..end] == [snapshots[from]] + snapshots[from + 1..end];
    }
  }

  /** Put together, the runs are the measured readings, each once and in order. */
  lemma {:induction false} RunsHoldTheMeasured(runs: seq<seq<Snapshot>>, snapshots: seq<Snapshot>, from: nat)
    requires from <= |snapshots| && RunsAre(runs, snapshots, from)
    ensures Concat(runs) == Measured(snapshots[from..])
    decreases |snapshots| - from
  {
    if from < |snapshots| {
      assert snapshots[from..][1..] == snapshots[from + 1..];
      if snapshots[from].equity.None? {
        RunsHoldTheMeasured(runs, snapshots, from + 1);
      } else {
        var end := from + |runs[0]|;
        RunsHoldTheMeasured(runs[1..], snapshots, end);
        MeasuredStretch(snapshots, from, end);
      }
    }
  }

  function RunOf(current: seq<Snapshot>): seq<seq<Snapshot>> {
    if current == [] then [] else [current]
  }

  /** The runs of `snapshots[i..]` when `current` is the run that is still open. */
  function RunsFrom(snapshots: seq<Snapshot>, i: nat, current: seq<Snapshot>): seq<seq<Snapshot>>
    requires i <= |snapshots|
    decreases |snapshots| - i
  {
    if i == |snapshots| then RunOf(current)
    else if snapshots[i].equity.None? then RunOf(current) + RunsFrom(snapshots, i + 1, [])
    else RunsFrom(snapshots, i + 1, current + [snapshots[i]])
  }

  /** A run that ends before an unmeasured reading or the end of the readings comes before the runs after it. */
  lemma RunCloses(snapshots: seq<Snapshot>, rest: seq<seq<Snapshot>>, from: nat, i: nat)
    requires from < i <= |snapshots| && forall k :: from <= k < i ==> snapshots[k].equity.Some?
    requires i < |snapshots| ==> snapshots[i].equity.None?
    requires RunsAre(rest, snapshots, i)
    ensures RunsAre([snapshots[from..i]] + rest, snapshots, from)
  {
    assert ([snapshots[from..i]] + rest)[1..] == rest;
  }

  lemma {:induction false} RunsFromAre(snapshots: seq<Snapshot>, from: nat, i: nat)
    requires from <= i <= |snapshots| && forall k :: from <= k < i ==> snapshots[k].equity.Some?
    ensures RunsAre(RunsFrom(snapshots, i, snapshots[from..i]), snapshots, from)
    decreases |snapshots| - i
  {
    var current := snapshots[from..i];
    if i == |snapshots| {
      if from < i {
        RunCloses(snapshots, [], from, i);
        assert [current] + [] == [current];
      }
    } else if snapshots[i].equity.None? {
      RunsFromAre(snapshots, i + 1, i + 1);
      assert snapshots[i + 1..i + 1] == [];
      var rest := RunsFrom(snapshots, i + 1, []);
      if from < i {
        RunCloses(snapshots, rest, from, i);
      } else {
        assert RunOf(current) + rest == rest;
      }
    } else {
      assert current + [snapshots[i]] == snapshots[from..i + 1];
      RunsFromAre(snapshots, from, i + 1);
    }
  }

  method MeasuredRuns(snapshots: seq<Snapshot>) returns (runs: seq<seq<Snapshot>>)
    ensures RunsAre(runs, snapshots, 0)
    ensures Concat(runs) == Measured(snapshots)
  {
    runs := [];
    var current := [];
    for i := 0 to |snapshots|
      invariant runs + RunsFrom(snapshots, i, current) == RunsFrom(snapshots, 0, [])
    {
      if snapshots[i].equity.None? {
        if current != [] {
          runs := runs + [current];
        }
        current := [];
      } else {
        current := current + [snapshots[i]];
      }
    }
    if current != [] {
      runs := runs + [current];
    }
    assert runs == RunsFrom(snapshots, 0, []);
    assert snapshots[0..0] == [] && snapshots[0..] == snapshots;
    RunsFromAre(snapshots, 0, 0);
    RunsHoldTheMeasured(runs, snapshots, 0);
  }

  // ---- Gaps ----

  /** A stretch of readings that could not be measured, and where it is shaded. */
  datatype Gap = Gap(first: nat, last: nat, x1: real, x2: real)

  predicate Unmeasured(snapshots: seq<Snapshot>, k: int) {
    0 <= k < |snapshots| && snapshots[k].equity.None?
  }

  predicate Shades(gap: Gap, k: int) { gap.first <= k <= gap.last }

  /** The gap is a longest stretch of unmeasured readings. */
  ghost predicate LongestGap(gap: Gap, snapshots: seq<Snapshot>) {
    && gap.first <= gap.last < |snapshots|
    && (forall k :: gap.first <= k <= gap.last ==> snapshots[k].equity.None?)
    && (gap.first > 0 ==> snapshots[gap.first - 1].equity.Some?)
    && (gap.last + 1 < |snapshots| ==> snapshots[gap.last + 1].equity.Some?)
  }

  /** `gaps` are the longest stretches of unmeasured readings of `snapshots[..to]`, in order. */
  ghost predicate GapsAre(gaps: seq<Gap>, snapshots: seq<Snapshot>, to: nat)
    requires to <= |snapshots|
  {
    && (forall g :: 0 <= g < |gaps| ==> LongestGap(gaps[g], snapshots) && gaps[g].last < to)
    && (forall g, h :: 0 <= g < h < |gaps| ==> gaps[g].last < gaps[h].first)
    && (forall k :: Unmeasured(snapshots, k) && k < to ==> exists g :: 0 <= g < |gaps| && Shades(gaps[g], k))
  }

  /** Every unmeasured reading is shaded exactly once, and no measured one is. */
  lemma ShadedExactlyOnce(gaps: seq<Gap>, snapshots: seq<Snapshot>, k: nat)
    requires GapsAre(gaps, snapshots, |snapshots|) && k < |snapshots|
    ensures Unmeasured(snapshots, k) <==> exists g :: 0 <= g < |gaps| && Shades(gaps[g], k)
    ensures forall g, h :: 0 <= g < |gaps| && 0 <= h < |gaps| && Shades(gaps[g], k) && Shades(gaps[h], k) ==> g == h
  {
    if g :| 0 <= g < |gaps| && Shades(gaps[g], k) {
      assert LongestGap(gaps[g], snapshots);
    }
  }

  /** Where a gap is shaded: from the reading before it to the one after, at least two points wide. */
  ghost predicate ShadedFrom(gap: Gap, snapshots: seq<Snapshot>, x: int -> real) {
    && gap.first <= gap.last < |snapshots|
    && gap.x1 == x(snapshots[if gap.first > 0 then gap.first - 1 else gap.first].takenAt)
    && var after := x(snapshots[if gap.last + 1 < |snapshots| then gap.last + 1 else gap.last].takenAt);
       gap.x2 >= after && gap.x2 >= gap.x1 + 2.0 && (gap.x2 == after || gap.x2 == gap.x1 + 2.0)
  }

  /** Later readings are drawn no further to the left. */
  ghost predicate LeftToRight(snapshots: seq<Snapshot>, x: int -> real) {
    forall j, k :: 0 <= j <= k < |snapshots| ==> x(snapshots[j].takenAt) <= x(snapshots[k].takenAt)
  }

  /** The horizontal scale: the times from `startMs` to `endMs` over the inner width, or its middle for a single time. */
  function X(t: int, startMs: int, endMs: int, left: real, innerW: real): real {
    left + if endMs == startMs then innerW / 2.0 else (t - startMs) as real / (endMs - startMs) as real * innerW
  }

  /** Under it readings in the order of their times are drawn from left to right. */
  lemma EarlierIsLeft(snapshots: seq<Snapshot>, startMs: int, endMs: int, left: real, innerW: real)
    requires startMs <= endMs && innerW >= 0.0
    requires forall j, k :: 0 <= j <= k < |snapshots| ==> snapshots[j].takenAt <= snapshots[k].takenAt
    ensures LeftToRight(snapshots, t => X(t, startMs, endMs, left, innerW))
  {
    forall j, k | 0 <= j <= k < |snapshots|
      ensures X(snapshots[j].takenAt, startMs, endMs, left, innerW) <= X(snapshots[k].takenAt, startMs, endMs, left, innerW)
    {
      if startMs < endMs {
        PartOfWidth((snapshots[j].takenAt - startMs) as real, (snapshots[k].takenAt - startMs) as real, (endMs - startMs) as real, innerW);
      }
    }
  }

  lemma PartOfWidth(a: real, b: real, d: real, w: real)
    requires a <= b && d > 0.0 && w >= 0.0
    ensures a / d * w <= b / d * w
  {
    var p, q := a / d, b / d;
    assert p * d == a && q * d == b;
    assert (q - p) * d == b - a;
    assert q - p >= 0.0;
    assert (q - p) * w >= 0.0;
  }

  /** The first time is drawn at the left edge, the last at the right, a single one in the middle. */
  lemma EdgesOfWidth(startMs: int, endMs: int, left: real, innerW: real)
    ensures startMs < endMs ==> X(startMs, startMs, endMs, left, innerW) == left && X(endMs, startMs, endMs, left, innerW) == left + innerW
    ensures X(startMs, startMs, startMs, left, innerW) == left + innerW / 2.0
  {
    if startMs < endMs {
      var d := (endMs - startMs) as real;
      assert 0.0 / d == 0.0 && d / d == 1.0;
    }
  }

  /** A gap's readings are drawn within the range it shades. */
  lemma ShadesItsReadings(gap: Gap, snapshots: seq<Snapshot>, x: int -> real, k: nat)
    requires ShadedFrom(gap, snapshots, x) && LeftToRight(snapshots, x) && Shades(gap, k)
    ensures gap.x1 <= x(snapshots[k].takenAt) <= gap.x2
  {
  }

  /** Two ranges overlap only where the first one was widened to two points. */
  lemma OverlapOnlyWhenWidened(gaps: seq<Gap>, snapshots: seq<Snapshot>, x: int -> real, g: nat, h: nat)
    requires GapsAre(gaps, snapshots, |snapshots|) && AllShaded(gaps, snapshots, x) && LeftToRight(snapshots, x)
    requires g < h < |gaps| && gaps[h].x1 < gaps[g].x2
    ensures gaps[g].last + 1 < |snapshots| && x(snapshots[gaps[g].last + 1].takenAt) < gaps[g].x2 == gaps[g].x1 + 2.0
  {
    assert LongestGap(gaps[g], snapshots) && LongestGap(gaps[h], snapshots);
    assert ShadedFrom(gaps[g], snapshots, x) && ShadedFrom(gaps[h], snapshots, x);
    assert gaps[g].last + 1 <= gaps[h].first - 1;
  }

  lemma GapAppended(gaps: seq<Gap>, gap: Gap, snapshots: seq<Snapshot>)
    requires LongestGap(gap, snapshots) && GapsAre(gaps, snapshots, gap.first)
    ensures GapsAre(gaps + [gap], snapshots, gap.last + 1)
  {
    var longer := gaps + [gap];
    forall k | Unmeasured(snapshots, k) && k < gap.last + 1
      ensures exists g :: 0 <= g < |longer| && Shades(longer[g], k)
    {
      if k < gap.first {
        var g :| 0 <= g < |gaps| && Shades(gaps[g], k);
        assert Shades(longer[g], k);
      } else {
        assert Shades(longer[|gaps|], k);
      }
    }
  }

  lemma MeasuredPassed(gaps: seq<Gap>, snapshots: seq<Snapshot>, i: nat)
    requires i < |snapshots| && GapsAre(gaps, snapshots, i) && snapshots[i].equity.Some?
    ensures GapsAre(gaps, snapshots, i + 1)
  {
  }

  function GapAt(snapshots: seq<Snapshot>, i: nat, j: nat, x: int -> real): (gap: Gap)
    requires i <= j < |snapshots|
    ensures gap.first == i && gap.last == j && ShadedFrom(gap, snapshots, x)
  {
    var before := x(if i > 0 then snapshots[i - 1].takenAt else snapshots[i].takenAt);
    var after := x(if j + 1 < |snapshots| then snapshots[j + 1].takenAt else snapshots[j].takenAt);
    Gap(i, j, before, if after > before + 2.0 then after else before + 2.0)
  }

  ghost predicate AllShaded(gaps: seq<Gap>, snapshots: seq<Snapshot>, x: int -> real) {
    forall g :: 0 <= g < |gaps| ==> ShadedFrom(gaps[g], snapshots, x)
  }

  /** Where the next reading to look at is: at the start, or behind a measured one, or not unmeasured itself. */
  ghost predicate AtStart(snapshots: seq<Snapshot>, i: nat) {
    0 < i < |snapshots| && snapshots[i].equity.None? ==> snapshots[i - 1].equity.Some?
  }

  method FindGaps(snapshots: seq<Snapshot>, x: int -> real) returns (gaps: seq<Gap>)
    ensures GapsAre(gaps, snapshots, |snapshots|) && AllShaded(gaps, snapshots, x)
  {
    gaps := [];
    var i := 0;
    while i < |snapshots|
      invariant i <= |snapshots| && GapsAre(gaps, snapshots, i)
      invariant AtStart(snapshots, i) && AllShaded(gaps, snapshots, x)
    {
      if snapshots[i].equity.Some? {
        MeasuredPassed(gaps, snapshots, i);
        i := i + 1;
      } else {
        var gap := NextGap(snapshots, i, x);
        GapAppended(gaps, gap, snapshots);
        gaps := gaps + [gap];
        i := gap.last + 1;
      }
    }
  }

  method NextGap(snapshots: seq<Snapshot>, i: nat, x: int -> real) returns (gap: Gap)
    requires i < |snapshots| && snapshots[i].equity.None? && AtStart(snapshots, i)
    ensures gap.first == i && LongestGap(gap, snapshots) && ShadedFrom(gap, snapshots, x)
    ensures AtStart(snapshots, gap.last + 1)
  {
    var j := GapEnd(snapshots, i);
    gap := GapAt(snapshots, i, j, x);
  }

  /** The inner loop: how far the stretch of unmeasured readings goes. */
  method GapEnd(snapshots: seq<Snapshot>, i: nat) returns (j: nat)
    requires i < |snapshots| && snapshots[i].equity.None?
    ensures i <= j < |snapshots| && forall k :: i <= k <= j ==> snapshots[k].equity.None?
    ensures j + 1 < |snapshots| ==> snapshots[j + 1].equity.Some?
  {
    j := i;
    while j + 1 < |snapshots| && snapshots[j + 1].equity.None?
      invariant i <= j < |snapshots|
      invariant forall k :: i <= k <= j ==> snapshots[k].equity.None?
    {
      j := j + 1;
    }
  }

  // ---- The scale ----

  function TripLevel(peak: real, thresholdPct: real): real {
    peak * (1.0 - thresholdPct / 100.0)
  }

  /** What the chart must have room for: the readings, the peaks and the trip levels. */
  function Levels(measured: seq<Snapshot>, thresholdPct: real): (levels: seq<real>)
    ensures forall s :: s in measured && s.equity.Some? ==> s.equity.value in levels
    ensures forall s :: s in measured && s.equity.Some? && s.peak.Some? ==>
      s.peak.value in levels && TripLevel(s.peak.value, thresholdPct) in levels
  {
    if measured == [] then []
    else
      assert forall s :: s in measured ==> s == measured[0] || s in measured[1..];
      (if measured[0].equity.Some? then [measured[0].equity.value] else [])
      + (if measured[0].peak.Some? then [measured[0].peak.value, TripLevel(measured[0].peak.value, thresholdPct)] else [])
      + Levels(measured[1..], thresholdPct)
  }

  function Margin(low: real, high: real): (m: real)
    requires low <= high
    ensures m > 0.0
  {
    (if high != low then high - low else if high > 0.0 then high else if high < 0.0 then -high else 1.0) * 0.06
  }

  datatype Scale = Scale(minValue: real, maxValue: real, top: real, innerH: real) {
    function Y(v: real): real
      requires minValue < maxValue
    {
      top + (1.0 - (v - minValue) / (maxValue - minValue)) * innerH
    }
  }

  function ScaleOf(levels: seq<real>, top: real, innerH: real): (scale: Scale)
    requires levels != []
    ensures scale.minValue < scale.maxValue && scale.innerH == innerH
    ensures forall v :: v in levels ==> scale.minValue < v < scale.maxValue
  {
    var low, high := MinOf(levels), MaxOf(levels);
    var margin := Margin(low, high);
    Scale(low - margin, high + margin, top, innerH)
  }

  /** How far apart two values are drawn. */
  lemma DrawnApart(scale: Scale, u: real, v: real)
    requires scale.minValue < scale.maxValue
    ensures scale.Y(u) - scale.Y(v) == (v - u) / (scale.maxValue - scale.minValue) * scale.innerH
  {
    var range := scale.maxValue - scale.minValue;
    var a, b := (u - scale.minValue) / range, (v - scale.minValue) / range;
    assert b - a == (v - u) / range;
    assert (1.0 - a) * scale.innerH - (1.0 - b) * scale.innerH == (b - a) * scale.innerH;
  }

  lemma SignOfProduct(d: real, range: real, h: real)
    requires range > 0.0 && h > 0.0
    ensures d / range * h >= 0.0 <==> d >= 0.0
  {
    var q := d / range;
    assert q * range == d;
    assert q >= 0.0 <==> d >= 0.0;
    assert q >= 0.0 ==> q * h >= 0.0;
    assert q < 0.0 ==> q * h < 0.0;
  }

  /** On a chart with any height, lower values are drawn lower. */
  lemma LowerIsLower(scale: Scale, u: real, v: real)
    requires scale.minValue < scale.maxValue && scale.innerH > 0.0
    ensures scale.Y(u) >= scale.Y(v) <==> u <= v
  {
    DrawnApart(scale, u, v);
    SignOfProduct(v - u, scale.maxValue - scale.minValue, scale.innerH);
  }

  /** The line is drawn at or below the trip line exactly when the equity is at or below the peak less the limit. */
  lemma LineMeetsTripExactly(snapshots: seq<Snapshot>, s: Snapshot, thresholdPct: real, top: real, innerH: real)
    requires s in Measured(snapshots) && s.equity.Some? && s.peak.Some? && innerH > 0.0
    ensures var scale := ScaleOf(Levels(Measured(snapshots), thresholdPct), top, innerH);
      scale.Y(s.equity.value) >= scale.Y(TripLevel(s.peak.value, thresholdPct)) <==>
        s.equity.value <= s.peak.value - s.peak.value * thresholdPct / 100.0
  {
    var scale := ScaleOf(Levels(Measured(snapshots), thresholdPct), top, innerH);
    LowerIsLower(scale, s.equity.value, TripLevel(s.peak.value, thresholdPct));
    LimitOff(s.peak.value, thresholdPct);
  }

  lemma LimitOff(peak: real, thresholdPct: real)
    ensures TripLevel(peak, thresholdPct) == peak - peak * thresholdPct / 100.0
  {
  }

  /** The levels are the measured equities, their peaks and the trip levels of those, and nothing else. */
  lemma {:induction false} LevelsExactly(measured: seq<Snapshot>, thresholdPct: real, v: real)
    ensures v in Levels(measured, thresholdPct) <==>
      exists s :: s in measured && (s.equity == Some(v) || (s.peak.Some? && (v == s.peak.value || v == TripLevel(s.peak.value, thresholdPct))))
  {
    if measured != [] {
      LevelsExactly(measured[1..], thresholdPct, v);
      assert forall s :: s in measured <==> s == measured[0] || s in measured[1..];
    }
  }

  /** Where the highest and the lowest level are drawn: six hundredths of the spread short of either edge, or, when there
      is one level only, half way up. */
  lemma EdgesOfHeight(levels: seq<real>, top: real, innerH: real)
    requires levels != []
    ensures var scale, low, high := ScaleOf(levels, top, innerH), MinOf(levels), MaxOf(levels);
      if low == high then scale.Y(low) == top + innerH / 2.0
      else scale.Y(high) == top + innerH * 6.0 / 112.0 && scale.Y(low) == top + innerH - innerH * 6.0 / 112.0
  {
    var scale, low, high := ScaleOf(levels, top, innerH), MinOf(levels), MaxOf(levels);
    var margin := Margin(low, high);
    var range := high - low + 2.0 * margin;
    assert scale.maxValue - scale.minValue == range;
    if low == high {
      HalfWay(margin, range);
    } else {
      Sixths(high - low, margin, range);
      assert high - scale.minValue == high - low + margin && low - scale.minValue == margin;
    }
  }

  /** The scale reaches past the levels by six hundredths of their spread; of the single level's amount when there is one
      only; and by 0.06 when that is zero. */
  lemma ScaleReaches(levels: seq<real>, top: real, innerH: real)
    requires levels != []
    ensures var scale, low, high := ScaleOf(levels, top, innerH), MinOf(levels), MaxOf(levels);
      var past := scale.maxValue - high;
      && low - scale.minValue == past && scale.top == top && scale.innerH == innerH
      && (low < high ==> past == (high - low) * 6.0 / 100.0)
      && (low == high > 0.0 ==> past == high * 6.0 / 100.0) && (low == high < 0.0 ==> past == -high * 6.0 / 100.0)
      && (low == high == 0.0 ==> past == 0.06)
  {
  }

  lemma HalfWay(margin: real, range: real)
    requires margin > 0.0 && range == 2.0 * margin
    ensures margin / range == 0.5
  {
    var q := margin / range;
    assert q * range == margin;
    assert (q - 0.5) * range == 0.0;
  }

  lemma Sixths(spread: real, margin: real, range: real)
    requires spread > 0.0 && margin == spread * 0.06 && range == spread + 2.0 * margin
    ensures margin / range == 6.0 / 112.0 && (spread + margin) / range == 1.0 - 6.0 / 112.0
  {
    var p, q := margin / range, (spread + margin) / range;
    assert range == spread * 1.12;
    assert p * range == margin && q * range == spread + margin;
    assert (p - 6.0 / 112.0) * range == 0.0;
    assert (q - (1.0 - 6.0 / 112.0)) * range == 0.0;
  }
}
