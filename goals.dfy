/**
 * The weight-goal analytics of the goals screen: the weight series, the
 * planned-versus-actual projection, the seven-day pace with its trend,
 * plateau and ETA, the advisory tips, the goal-save guard and the BMI.
 *
 * Dates are whole day numbers (see `Calendar`); `now` is the current instant
 * measured in days since 1970-01-01 00:00, so it may carry a time of day.
 */
module Goals {
  import opened Common
  import opened DayKeys
  import opened Calendar
  import opened Parsing
  import opened Store

  // ---------------------------------------------------------------------------
  // The weight series

  /** A logged weight and the day it was logged on. */
  datatype Sample = Sample(day: int, weight: real)

  predicate Weighed(d: DayRecord) { d.weight.Some? }

  /** Every record of the snapshot that holds a weight is dated by a real
      calendar day. */
  predicate WeighingsDated(days: seq<DayRecord>)
  {
    forall d :: d in days && Weighed(d) ==> IsDayKey(d.date)
  }

  function SampleOf(d: DayRecord): Sample
    requires IsDayKey(d.date) && Weighed(d)
  {
    Sample(KeyDayNumber(d.date), d.weight.value)
  }

  function Samples(rs: seq<DayRecord>): (ws: seq<Sample>)
    requires forall d :: d in rs ==> IsDayKey(d.date) && Weighed(d)
    ensures |ws| == |rs|
    ensures forall i :: 0 <= i < |rs| ==> ws[i] == SampleOf(rs[i])
  {
    if rs == [] then [] else [SampleOf(rs[0])] + Samples(rs[1..])
  }

  /** `weights`: the records holding a weight, sorted by date key. */
  function Weights(days: seq<DayRecord>): (ws: seq<Sample>)
    requires WeighingsDated(days)
  {
    var sorted := SortBy(Filter(days, Weighed), DateOf);
    WeighedMembers(days, sorted);
    Samples(sorted)
  }

  lemma WeighedMembers(days: seq<DayRecord>, sorted: seq<DayRecord>)
    requires WeighingsDated(days)
    requires multiset(sorted) == multiset(Filter(days, Weighed))
    ensures forall d :: d in sorted ==> d in days && IsDayKey(d.date) && Weighed(d)
  {
    var weighed := Filter(days, Weighed);
    forall d | d in sorted ensures d in days && Weighed(d) {
      assert d in multiset(weighed);
      var i :| 0 <= i < |weighed| && weighed[i] == d;
    }
  }

  /** The series is in chronological order. */
  lemma WeightsChronological(days: seq<DayRecord>)
    requires WeighingsDated(days)
    ensures var ws := Weights(days);
            forall i, j :: 0 <= i < j < |ws| ==> ws[i].day <= ws[j].day
  {
    var sorted := SortBy(Filter(days, Weighed), DateOf);
    WeighedMembers(days, sorted);
    var ws := Samples(sorted);
    forall i, j | 0 <= i < j < |ws| ensures ws[i].day <= ws[j].day {
      assert Le(DateOf(sorted[i]), DateOf(sorted[j]));
      assert sorted[i] in sorted && sorted[j] in sorted;
      KeyOrderIsChronological(sorted[i].date, sorted[j].date);
    }
  }

  /** Every sample comes from a weighed record, one sample per such record. */
  lemma WeightsSound(days: seq<DayRecord>)
    requires WeighingsDated(days)
    ensures var ws := Weights(days);
            |ws| == |Filter(days, Weighed)|
            && forall i :: 0 <= i < |ws| ==> exists d :: d in days && Weighed(d) && ws[i] == SampleOf(d)
  {
    var weighed := Filter(days, Weighed);
    var sorted := SortBy(weighed, DateOf);
    WeighedMembers(days, sorted);
    assert Weights(days) == Samples(sorted);
    assert |sorted| == |multiset(sorted)| == |multiset(weighed)| == |weighed|;
    SamplesFrom(days, sorted);
  }

  /** Each sample of records drawn from `days` is the sample of a record of `days`. */
  lemma SamplesFrom(days: seq<DayRecord>, sorted: seq<DayRecord>)
    requires WeighingsDated(days)
    requires forall d :: d in sorted ==> d in days && IsDayKey(d.date) && Weighed(d)
    ensures var ws := Samples(sorted);
            forall i :: 0 <= i < |ws| ==> exists d :: d in days && Weighed(d) && ws[i] == SampleOf(d)
  {
    var ws := Samples(sorted);
    forall i | 0 <= i < |ws| ensures exists d :: d in days && Weighed(d) && ws[i] == SampleOf(d) {
      var d := sorted[i];
      assert d in sorted;
      assert d in days && Weighed(d) && ws[i] == SampleOf(d);
    }
  }

  /** Every weighed record gives a sample. */
  lemma WeightsComplete(days: seq<DayRecord>)
    requires WeighingsDated(days)
    ensures forall d :: d in days && Weighed(d) ==> SampleOf(d) in Weights(days)
  {
    var weighed := Filter(days, Weighed);
    var sorted := SortBy(weighed, DateOf);
    WeighedMembers(days, sorted);
    var ws := Samples(sorted);
    assert ws == Weights(days);
    forall d | d in days && Weighed(d) ensures SampleOf(d) in ws {
      var k := InSeqAt(d, days);
      assert d in weighed;
      assert d in multiset(sorted);
      var i := InSeqAt(d, sorted);
      assert ws[i] == SampleOf(d);
    }
  }

  lemma InSeqAt<T>(x: T, s: seq<T>) returns (i: nat)
    requires x in s
    ensures i < |s| && s[i] == x
  {
    i :| 0 <= i < |s| && s[i] == x;
  }

  /** `lastW` is the weight of a weighed record whose date key no other weighed
      record exceeds; there is one exactly when some record holds a weight. */
  lemma LastWeightIsLatest(days: seq<DayRecord>)
    requires WeighingsDated(days)
    ensures var w := LastWeight(Weights(days));
            (w.Some? <==> exists d :: d in days && Weighed(d))
            && (w.Some? ==> exists d :: d in days && Weighed(d) && d.weight.value == w.value
                                        && forall e :: e in days && Weighed(e) ==> Le(e.date, d.date))
  {
    var sorted := WeighingsSorted(days);
    if sorted != [] {
      var last := sorted[|sorted| - 1];
      SortedEnds(sorted, DateOf);
      EndSamples(sorted);
      assert last in sorted;
      assert forall e :: e in days && Weighed(e) ==> Le(e.date, last.date);
    }
  }

  /** `firstW` is the weight of a weighed record whose date key no other
      weighed record precedes; there is one exactly when some record holds a
      weight. */
  lemma FirstWeightIsEarliest(days: seq<DayRecord>)
    requires WeighingsDated(days)
    ensures var w := FirstWeight(Weights(days));
            (w.Some? <==> exists d :: d in days && Weighed(d))
            && (w.Some? ==> exists d :: d in days && Weighed(d) && d.weight.value == w.value
                                        && forall e :: e in days && Weighed(e) ==> Le(d.date, e.date))
  {
    var sorted := WeighingsSorted(days);
    if sorted != [] {
      var first := sorted[0];
      SortedEnds(sorted, DateOf);
      EndSamples(sorted);
      assert first in sorted;
      assert forall e :: e in days && Weighed(e) ==> Le(first.date, e.date);
    }
  }

  /** The records behind `weights`: sorted by date key, exactly the weighed
      records of the snapshot. */
  lemma WeighingsSorted(days: seq<DayRecord>) returns (sorted: seq<DayRecord>)
    requires WeighingsDated(days)
    ensures SortedBy(sorted, DateOf)
    ensures forall d :: d in sorted <==> d in days && Weighed(d)
    ensures forall d :: d in sorted ==> IsDayKey(d.date)
    ensures Weights(days) == Samples(sorted)
  {
    sorted := SortBy(Filter(days, Weighed), DateOf);
    WeighedMembers(days, sorted);
    assert forall e :: e in days && Weighed(e) ==> e in multiset(sorted);
  }

  /** The first and last samples are those of the first and last records. */
  lemma EndSamples(rs: seq<DayRecord>)
    requires rs != [] && forall d :: d in rs ==> IsDayKey(d.date) && Weighed(d)
    ensures LastWeight(Samples(rs)) == Some(rs[|rs| - 1].weight.value)
    ensures FirstWeight(Samples(rs)) == Some(rs[0].weight.value)
  {
  }

  /** `lastW` and `firstW`: the latest and earliest logged weights, if any. */
  function LastWeight(ws: seq<Sample>): (w: Option<real>)
    ensures w.Some? <==> ws != []
  {
    if ws == [] then None else Some(ws[|ws| - 1].weight)
  }

  // ---------------------------------------------------------------------------
  // Day gaps

  /** `daysBetween(a, b)`: the days from `a` to `b`, rounded, and never below 1. */
  function DaysBetween(a: real, b: real): (n: int)
    ensures n >= 1
    ensures n == 1 || n == Round(b - a)
    ensures b <= a ==> n == 1
    ensures Round(b - a) >= 1 ==> n == Round(b - a)
  {
    if Round(b - a) > 1 then Round(b - a) else 1
  }

  /** Between two whole days at least one day apart the gap is exact. */
  lemma DaysBetweenWholeDays(a: int, b: int)
    requires a < b
    ensures DaysBetween(a as real, b as real) == b - a
  {
    RoundOfInteger(b - a);
  }

  /** A later end never gives a shorter gap. */
  lemma DaysBetweenMonotone(a: real, b1: real, b2: real)
    requires b1 <= b2
    ensures DaysBetween(a, b1) <= DaysBetween(a, b2)
  {
    RoundMonotone(b1 - a, b2 - a);
  }

  // ---------------------------------------------------------------------------
  // Plan versus actual

  /** The share of the way from the first sample to the target date that the
      plan has covered by `now`: `min(1, max(0, elapsed / totalDays))`. */
  function PlanRatio(startDay: int, targetDay: int, now: real): (ratio: real)
    ensures 0.0 < ratio <= 1.0
  {
    var total := DaysBetween(startDay as real, targetDay as real);
    var elapsed := DaysBetween(startDay as real, now);
    Clamp(elapsed as real / total as real, 0.0, 1.0)
  }

  /** A target date not after the first sample makes the total one day, and
      reaching the target date completes the plan. */
  lemma PlanRatioComplete(startDay: int, targetDay: int, now: real)
    requires targetDay <= startDay || targetDay as real <= now
    ensures PlanRatio(startDay, targetDay, now) == 1.0
  {
    var total := DaysBetween(startDay as real, targetDay as real);
    var elapsed := DaysBetween(startDay as real, now);
    if targetDay > startDay {
      DaysBetweenMonotone(startDay as real, targetDay as real, now);
    }
    RatioAtLeastOne(elapsed as real, total as real);
  }

  /** The plan never moves backward as time passes. */
  lemma PlanRatioMonotone(startDay: int, targetDay: int, now1: real, now2: real)
    requires now1 <= now2
    ensures PlanRatio(startDay, targetDay, now1) <= PlanRatio(startDay, targetDay, now2)
  {
    var total := DaysBetween(startDay as real, targetDay as real) as real;
    var e1 := DaysBetween(startDay as real, now1) as real;
    var e2 := DaysBetween(startDay as real, now2) as real;
    DaysBetweenMonotone(startDay as real, now1, now2);
    DivideMonotone(e1, e2, total);
  }

  /** On the day of the first sample the plan already counts one elapsed day,
      because the elapsed gap is floored at 1: it runs one day ahead. */
  lemma PlanRatioOnStartDay(startDay: int, targetDay: int)
    requires startDay < targetDay
    ensures PlanRatio(startDay, targetDay, startDay as real) == 1.0 / (targetDay - startDay) as real
  {
    DaysBetweenWholeDays(startDay, targetDay);
    assert DaysBetween(startDay as real, startDay as real) == 1;
  }

  /** The projection shown under "Plan vs. actual". A NaN target makes the
      planned weight and the difference NaN. */
  datatype Plan = Plan(plannedToday: Number, actual: real, delta: Number)

  /** `firstW + (target - firstW) * ratio`, NaN when the target is NaN. */
  function Interpolate(first: real, target: Number, ratio: real): (r: Number)
    requires 0.0 <= ratio <= 1.0
    ensures r.NaN? <==> target.NaN?
    ensures target.Num? ==> Min(first, target.value) <= r.value <= Max(first, target.value)
    ensures target.Num? && ratio == 1.0 ==> r.value == target.value
    ensures target.Num? && target.value == first ==> r.value == first
  {
    if target.NaN? then NaN
    else
      var step := (target.value - first) * ratio;
      assert Min(first, target.value) - first <= step <= Max(first, target.value) - first by {
        ScaledStep(target.value - first, ratio);
      }
      Num(first + step)
  }

  lemma ScaledStep(gap: real, ratio: real)
    requires 0.0 <= ratio <= 1.0
    ensures Min(0.0, gap) <= gap * ratio <= Max(0.0, gap)
  {
    if gap >= 0.0 {
      assert gap * ratio <= gap * 1.0;
    } else {
      assert gap * ratio >= gap * 1.0;
    }
  }

  function Min(a: real, b: real): real { if a <= b then a else b }
  function Max(a: real, b: real): real { if a <= b then b else a }

  /** `planVsActual`. No projection without a logged weight, with a zero first
      or latest weight, or without a target date that names a calendar day. */
  function PlanVsActual(ws: seq<Sample>, targetWInput: string, targetDateInput: string, now: real): (p: Option<Plan>)
    ensures p.None? <==> ws == [] || ws[0].weight == 0.0 || ws[|ws| - 1].weight == 0.0
                         || targetDateInput == [] || !IsDayKey(targetDateInput)
    ensures p.Some? ==> p.value.actual == ws[|ws| - 1].weight
  {
    if ws == [] then None
    else
      var firstW, lastW := ws[0].weight, ws[|ws| - 1].weight;
      if firstW == 0.0 || targetDateInput == [] || lastW == 0.0 then None
      else if !IsDayKey(targetDateInput) then None
      else
        var ratio := PlanRatio(ws[0].day, KeyDayNumber(targetDateInput), now);
        var target := if targetWInput == [] then Num(firstW) else NumberOf(targetWInput);
        var planned := Interpolate(firstW, target, ratio);
        Some(Plan(planned, lastW, if planned.NaN? then NaN else Num(lastW - planned.value)))
  }

  /** The target weight the projection aims at: `Number(targetWInput || firstW)`. */
  function PlanTarget(ws: seq<Sample>, targetWInput: string): Number
    requires ws != []
  {
    if targetWInput == [] then Num(ws[0].weight) else NumberOf(targetWInput)
  }

  /** The planned weight lies between the first weight and the target, and the
      difference is the latest weight minus the planned one. */
  lemma PlanBetweenStartAndTarget(ws: seq<Sample>, targetWInput: string, targetDateInput: string, now: real)
    requires PlanVsActual(ws, targetWInput, targetDateInput, now).Some?
    ensures var p, t := PlanVsActual(ws, targetWInput, targetDateInput, now).value, PlanTarget(ws, targetWInput);
            (p.plannedToday.NaN? <==> t.NaN?)
            && (t.Num? ==> Min(ws[0].weight, t.value) <= p.plannedToday.value <= Max(ws[0].weight, t.value)
                           && p.delta == Num(ws[|ws| - 1].weight - p.plannedToday.value))
            && (t.NaN? ==> p.delta.NaN?)
  {
  }

  /** Once the target date is reached, or when it is not after the first
      sample, the plan stands at the target itself. */
  lemma PlanAtTarget(ws: seq<Sample>, targetWInput: string, targetDateInput: string, now: real)
    requires PlanVsActual(ws, targetWInput, targetDateInput, now).Some?
    requires var targetDay := KeyDayNumber(targetDateInput);
             targetDay <= ws[0].day || targetDay as real <= now
    requires PlanTarget(ws, targetWInput).Num?
    ensures PlanVsActual(ws, targetWInput, targetDateInput, now).value.plannedToday
              == PlanTarget(ws, targetWInput)
  {
    PlanRatioComplete(ws[0].day, KeyDayNumber(targetDateInput), now);
  }

  /** With no target weight typed, the plan stays at the first weight. */
  lemma PlanWithoutTargetWeight(ws: seq<Sample>, targetDateInput: string, now: real)
    requires PlanVsActual(ws, [], targetDateInput, now).Some?
    ensures var p := PlanVsActual(ws, [], targetDateInput, now).value;
            p.plannedToday == Num(ws[0].weight) && p.delta == Num(ws[|ws| - 1].weight - ws[0].weight)
  {
  }

  /** The planned weight moves monotonically toward the target as time passes. */
  lemma PlanApproachesTarget(ws: seq<Sample>, targetWInput: string, targetDateInput: string, now1: real, now2: real)
    requires now1 <= now2
    requires PlanVsActual(ws, targetWInput, targetDateInput, now1).Some?
    requires PlanTarget(ws, targetWInput).Num?
    ensures var t := PlanTarget(ws, targetWInput).value;
            var p1 := PlanVsActual(ws, targetWInput, targetDateInput, now1).value.plannedToday.value;
            var p2 := PlanVsActual(ws, targetWInput, targetDateInput, now2).value.plannedToday.value;
            Abs(t - p2) <= Abs(t - p1)
  {
    var targetDay := KeyDayNumber(targetDateInput);
    var first, target := ws[0].weight, PlanTarget(ws, targetWInput);
    var r1 := PlanRatio(ws[0].day, targetDay, now1);
    var r2 := PlanRatio(ws[0].day, targetDay, now2);
    assert PlanVsActual(ws, targetWInput, targetDateInput, now1).value.plannedToday == Interpolate(first, target, r1);
    assert PlanVsActual(ws, targetWInput, targetDateInput, now2).value.plannedToday == Interpolate(first, target, r2);
    PlanRatioMonotone(ws[0].day, targetDay, now1, now2);
    InterpolateApproaches(first, target.value, r1, r2);
  }

  /** A larger ratio leaves a smaller remaining distance to the target. */
  lemma InterpolateApproaches(first: real, t: real, r1: real, r2: real)
    requires 0.0 <= r1 <= r2 <= 1.0
    ensures Abs(t - Interpolate(first, Num(t), r2).value) <= Abs(t - Interpolate(first, Num(t), r1).value)
  {
    var gap := t - first;
    RemainingGap(first, t, r1);
    RemainingGap(first, t, r2);
    ShrinkingGap(gap, r1, r2);
  }

  lemma RemainingGap(first: real, t: real, ratio: real)
    requires 0.0 <= ratio <= 1.0
    ensures t - Interpolate(first, Num(t), ratio).value == (t - first) * (1.0 - ratio)
  {
  }

  lemma ShrinkingGap(gap: real, r1: real, r2: real)
    requires 0.0 <= r1 <= r2 <= 1.0
    ensures Abs(gap * (1.0 - r2)) <= Abs(gap * (1.0 - r1))
  {
    var a, b := 1.0 - r1, 1.0 - r2;
    assert 0.0 <= b <= a;
    if gap >= 0.0 {
      ScaleNonNegative(gap, a - b);
      ScaleNonNegative(gap, b);
      assert gap * a - gap * b == gap * (a - b);
    } else {
      ScaleNonNegative(-gap, a - b);
      ScaleNonNegative(-gap, b);
      assert gap * b - gap * a == (-gap) * (a - b);
      assert gap * b == -((-gap) * b);
    }
  }

  lemma ScaleNonNegative(x: real, y: real)
    requires x >= 0.0 && y >= 0.0
    ensures x * y >= 0.0
  {
  }

  // ---------------------------------------------------------------------------
  // Pace, trend, plateau and ETA

  /** The text shown as the trend: 'fallend', 'steigend', 'stabil', or '—'
      when there are fewer than two weights. */
  datatype Trend = Falling | Rising | Stable | NoTrend

  datatype Metrics = Metrics(pace: real, trend: Trend, plateau: bool, eta: Option<real>)

  /** The `map` from day to weight that `metrics` builds with `forEach`: a
      later sample of the same day overwrites an earlier one. (A lookup by the
      key of day `n` is a lookup of day `n`, since `KeyDayNumberInjective`
      makes the key of a day unique.) */
  function DayIndex(ws: seq<Sample>): map<int, real>
  {
    if ws == [] then map[]
    else DayIndex(ws[..|ws| - 1])[ws[|ws| - 1].day := ws[|ws| - 1].weight]
  }

  /** A day is in the index exactly when some sample has it, and it maps to
      the weight of the last such sample. */
  lemma {:induction false} DayIndexLookup(ws: seq<Sample>, d: int)
    ensures d in DayIndex(ws) <==> exists i :: 0 <= i < |ws| && ws[i].day == d
    ensures d in DayIndex(ws) ==>
              exists i :: 0 <= i < |ws| && ws[i].day == d && DayIndex(ws)[d] == ws[i].weight
                          && forall j :: i < j < |ws| ==> ws[j].day != d
  {
    if ws != [] {
      var init := ws[..|ws| - 1];
      var n := |ws| - 1;
      DayIndexLookup(init, d);
      if ws[n].day != d {
        if d in DayIndex(init) {
          var i :| 0 <= i < |init| && init[i].day == d && DayIndex(init)[d] == init[i].weight
                   && forall j :: i < j < |init| ==> init[j].day != d;
          assert ws[i] == init[i];
          assert forall j :: i < j < |ws| ==> ws[j].day != d by {
            forall j | i < j < |ws| ensures ws[j].day != d {
              if j < n { assert ws[j] == init[j]; }
            }
          }
        }
        assert (exists i :: 0 <= i < |ws| && ws[i].day == d) ==> (exists i :: 0 <= i < |init| && init[i].day == d) by {
          if i :| 0 <= i < |ws| && ws[i].day == d {
            assert init[i] == ws[i];
          }
        }
        assert (exists i :: 0 <= i < |init| && init[i].day == d) ==> (exists i :: 0 <= i < |ws| && ws[i].day == d) by {
          if i :| 0 <= i < |init| && init[i].day == d {
            assert ws[i] == init[i];
          }
        }
      }
    }
  }

  /** The first of the days `d7 - k`, `d7 - k - 1`, …, `d7 - 3` that has a sample. */
  function Lookback(index: map<int, real>, d7: int, k: nat): Option<real>
    requires k <= 4
    decreases 4 - k
  {
    if k == 4 then None
    else if d7 - k in index then Some(index[d7 - k])
    else Lookback(index, d7, k + 1)
  }

  /** `ref`: the weight seven days before the latest sample, else the nearest
      one up to three days earlier. */
  function Reference(index: map<int, real>, d7: int): Option<real>
  {
    Lookback(index, d7, 0)
  }

  /** Day `d7 - j` has a sample. */
  predicate HasDayBack(index: map<int, real>, d7: int, j: int)
  {
    d7 - j in index
  }

  /** The reference is the sample of the latest of days `d7 - k`, …, `d7 - 3`
      that has one, and there is none exactly when none of them has a sample. */
  lemma {:induction false} LookbackNearest(index: map<int, real>, d7: int, k: nat)
    requires k <= 4
    ensures Lookback(index, d7, k).None? <==> forall j :: k <= j <= 3 ==> !HasDayBack(index, d7, j)
    ensures Lookback(index, d7, k).Some? ==>
              exists j :: k <= j <= 3 && HasDayBack(index, d7, j) && Lookback(index, d7, k).value == index[d7 - j]
                          && forall i :: k <= i < j ==> !HasDayBack(index, d7, i)
    decreases 4 - k
  {
    if k < 4 && d7 - k !in index {
      LookbackNearest(index, d7, k + 1);
      if Lookback(index, d7, k).Some? {
        var j :| k + 1 <= j <= 3 && HasDayBack(index, d7, j) && Lookback(index, d7, k).value == index[d7 - j]
                 && forall i :: k + 1 <= i < j ==> !HasDayBack(index, d7, i);
        assert forall i :: k <= i < j ==> !HasDayBack(index, d7, i);
      }
      assert (forall j :: k + 1 <= j <= 3 ==> !HasDayBack(index, d7, j))
               ==> (forall j :: k <= j <= 3 ==> !HasDayBack(index, d7, j));
    } else if k < 4 {
      assert HasDayBack(index, d7, k);
      assert Lookback(index, d7, k).value == index[d7 - k];
    }
  }

  /** `pace` in kg per day. With a reference weight the divisor is the gap from
      the unshifted `d7` key to the latest day, whichever day the reference
      came from; otherwise the first and last of the latest seven samples are
      compared. */
  function PaceOf(ws: seq<Sample>): real
    requires |ws| >= 2
  {
    var today := ws[|ws| - 1];
    var refKey := today.day - 7;
    match Reference(DayIndex(ws), refKey)
    case Some(ref) =>
      Slope(today.weight - ref, DaysBetween(refKey as real, today.day as real))
    case None =>
      var slice := LastN(ws, 7);
      if |slice| >= 2 then
        var first, last := slice[0], slice[|slice| - 1];
        Slope(last.weight - first.weight, DaysBetween(first.day as real, last.day as real))
      else 0.0
  }

  /** A weight change spread over a number of days; no change without days. */
  function Slope(change: real, days: int): real
  {
    if days > 0 then change / days as real else 0.0
  }

  /** With a reference weight, pace is its difference to the latest weight
      over exactly seven days, even when the reference is eight to ten days old;
      its sign is the sign of that difference. */
  lemma PaceFromReference(ws: seq<Sample>)
    requires |ws| >= 2
    requires Reference(DayIndex(ws), ws[|ws| - 1].day - 7).Some?
    ensures var ref := Reference(DayIndex(ws), ws[|ws| - 1].day - 7).value;
            var last := ws[|ws| - 1].weight;
            PaceOf(ws) == (last - ref) / 7.0
            && (PaceOf(ws) > 0.0 <==> last > ref)
            && (PaceOf(ws) < 0.0 <==> last < ref)
  {
    var today := ws[|ws| - 1];
    DaysBetweenWholeDays(today.day - 7, today.day);
  }

  /** Without a reference weight, pace compares the first and last of the
      latest seven samples over the gap between their days; its sign is the
      sign of their difference. */
  lemma PaceFromLastSeven(ws: seq<Sample>)
    requires |ws| >= 2
    requires Reference(DayIndex(ws), ws[|ws| - 1].day - 7).None?
    ensures var slice := LastN(ws, 7);
            var first, last := slice[0], slice[|slice| - 1];
            var gap := DaysBetween(first.day as real, last.day as real);
            PaceOf(ws) == (last.weight - first.weight) / gap as real
            && (PaceOf(ws) > 0.0 <==> last.weight > first.weight)
            && (PaceOf(ws) < 0.0 <==> last.weight < first.weight)
  {
  }

  /** The trend label: strict thresholds of ±0.02 kg per day. */
  function TrendOf(pace: real): (t: Trend)
    ensures t == Falling <==> pace < -0.02
    ensures t == Rising <==> pace > 0.02
    ensures t == Stable <==> -0.02 <= pace <= 0.02
    ensures t != NoTrend
  {
    if pace < -0.02 then Falling else if pace > 0.02 then Rising else Stable
  }

  /** `plateau`: over the latest ten samples the weight changed by less than
      0.5 kg from first to last. */
  function PlateauOf(ws: seq<Sample>): bool
    requires ws != []
  {
    var window := LastN(ws, 10);
    Abs(window[|window| - 1].weight - window[0].weight) < 0.5
  }

  /** Ten samples that all lie within less than 0.5 kg of one another form a
      plateau, whatever the pace. */
  lemma PlateauOfSteadyWindow(ws: seq<Sample>, lo: real)
    requires ws != []
    requires forall i :: |ws| - |LastN(ws, 10)| <= i < |ws| ==> lo <= ws[i].weight < lo + 0.5
    ensures PlateauOf(ws)
  {
    var window := LastN(ws, 10);
    assert window[0] == ws[|ws| - |window|];
    assert window[|window| - 1] == ws[|ws| - 1];
  }

  /** The plateau test compares only the ends of the window: a swing inside it
      does not count. */
  lemma PlateauIgnoresInnerSwing()
    ensures PlateauOf([Sample(0, 80.0), Sample(1, 85.0), Sample(2, 80.0)])
  {
    var ws := [Sample(0, 80.0), Sample(1, 85.0), Sample(2, 80.0)];
    assert LastN(ws, 10) == ws;
  }

  /** The target weight the ETA aims at: `Number(targetWInput || 0)`. */
  function EtaTarget(targetWInput: string): Number
  {
    if targetWInput == [] then Num(0.0) else NumberOf(targetWInput)
  }

  /** The longest ETA shown, `365 * 5` days. */
  const EtaCapDays: real := 1825.0

  /** `eta`: `now` plus the rounded days left at the current pace, when the
      weight moves toward a set target and arrives within five years. */
  function EtaOf(target: Number, last: real, pace: real, now: real): Option<real>
  {
    if target.Truthy() && pace != 0.0 then
      var t := target.value;
      var towardLoss := t < last && pace < 0.0;
      var towardGain := t > last && pace > 0.0;
      if towardLoss || towardGain then
        var daysRemain := Abs((t - last) / pace);
        if daysRemain < EtaCapDays then Some(now + Round(daysRemain) as real) else None
      else None
    else None
  }

  /** The days left at a constant pace: `|target - last| / |pace|`. */
  function DaysRemaining(t: real, last: real, pace: real): real
    requires pace != 0.0
  {
    Abs((t - last) / pace)
  }

  /** An ETA exists exactly when a nonzero target is set, the pace is nonzero
      and points toward it, and the days left are fewer than 1825; it is then
      the rounded arrival time at that pace. */
  lemma EtaEligibility(target: Number, last: real, pace: real, now: real)
    ensures EtaOf(target, last, pace, now).Some? <==>
              target.Truthy() && pace != 0.0
              && ((target.value < last && pace < 0.0) || (target.value > last && pace > 0.0))
              && DaysRemaining(target.value, last, pace) < EtaCapDays
    ensures EtaOf(target, last, pace, now).Some? ==>
              var remain := DaysRemaining(target.value, last, pace);
              EtaOf(target, last, pace, now).value == now + Round(remain) as real
              && remain - 0.5 < EtaOf(target, last, pace, now).value - now <= remain + 0.5
  {
  }

  /** Moving at the current pace for the remaining days reaches the target
      exactly, so the ETA is when the target would be reached. */
  lemma EtaReachesTarget(t: real, last: real, pace: real)
    requires pace != 0.0
    requires (t < last && pace < 0.0) || (t > last && pace > 0.0)
    ensures last + pace * DaysRemaining(t, last, pace) == t
  {
    var q := (t - last) / pace;
    assert q * pace == t - last;
    assert q > 0.0 by {
      if pace < 0.0 { NegativeQuotient(t - last, pace); } else { PositiveQuotient(t - last, pace); }
    }
  }

  lemma NegativeQuotient(a: real, b: real)
    requires a < 0.0 && b < 0.0
    ensures a / b > 0.0
  {
    assert a / b == (-a) / (-b);
  }

  lemma PositiveQuotient(a: real, b: real)
    requires a > 0.0 && b > 0.0
    ensures a / b > 0.0
  {
  }

  /** No ETA when the pace is zero or points away from the target. */
  lemma EtaNeedsMotionTowardTarget(target: Number, last: real, pace: real, now: real)
    requires pace == 0.0 || (target.Num? && ((target.value >= last && pace <= 0.0) || (target.value <= last && pace >= 0.0)))
    ensures EtaOf(target, last, pace, now).None?
  {
  }

  /** `metrics`. */
  function MetricsOf(ws: seq<Sample>, targetWInput: string, now: real): Metrics
  {
    if |ws| < 2 then Metrics(0.0, NoTrend, false, None)
    else
      var pace := PaceOf(ws);
      Metrics(pace, TrendOf(pace), PlateauOf(ws), EtaOf(EtaTarget(targetWInput), ws[|ws| - 1].weight, pace, now))
  }

  /** Fewer than two weights: pace 0, no trend, no plateau, no ETA. */
  lemma MetricsTooFewWeights(ws: seq<Sample>, targetWInput: string, now: real)
    requires |ws| < 2
    ensures var m := MetricsOf(ws, targetWInput, now);
            m.pace == 0.0 && m.trend == NoTrend && !m.plateau && m.eta.None?
  {
  }

  /** `metrics` as the screen computes it. */
  method ComputeMetrics(ws: seq<Sample>, targetWInput: string, now: real) returns (m: Metrics)
    ensures m == MetricsOf(ws, targetWInput, now)
  {
    if |ws| < 2 {
      return Metrics(0.0, NoTrend, false, None);
    }
    var pace := ComputePace(ws);
    var today := ws[|ws| - 1];
    var trend := TrendOf(pace);
    var plateau := PlateauOf(ws);
    var eta := EtaOf(EtaTarget(targetWInput), today.weight, pace, now);
    m := Metrics(pace, trend, plateau, eta);
  }

  /** The day map, built sample by sample (`weights.forEach`). */
  method BuildDayIndex(ws: seq<Sample>) returns (index: map<int, real>)
    ensures index == DayIndex(ws)
  {
    index := map[];
    var i := 0;
    while i < |ws|
      invariant 0 <= i <= |ws|
      invariant index == DayIndex(ws[..i])
    {
      assert ws[..i + 1][..i] == ws[..i];
      index := index[ws[i].day := ws[i].weight];
      i := i + 1;
    }
    assert ws[..|ws|] == ws;
  }

  /** The reference lookup: day `d7`, and then one to three days earlier until
      a sample is found. */
  method FindReference(index: map<int, real>, d7: int) returns (ref: Option<real>)
    ensures ref == Reference(index, d7)
  {
    ref := if d7 in index then Some(index[d7]) else None;
    if ref.None? {
      var k := 1;
      while k <= 3
        invariant 1 <= k <= 4
        invariant ref.None? ==> Lookback(index, d7, k) == Reference(index, d7)
        invariant ref.Some? ==> ref == Reference(index, d7)
        decreases 4 - k
      {
        if d7 - k in index {
          ref := Some(index[d7 - k]);
          break;
        }
        k := k + 1;
      }
    }
  }

  /** The pace part of `metrics`. */
  method ComputePace(ws: seq<Sample>) returns (pace: real)
    requires |ws| >= 2
    ensures pace == PaceOf(ws)
  {
    var index := BuildDayIndex(ws);
    var today := ws[|ws| - 1];
    var refKey := today.day - 7;
    var ref := FindReference(index, refKey);
    assert ref == Reference(DayIndex(ws), refKey);
    pace := 0.0;
    if ref.Some? {
      var days := DaysBetween(refKey as real, today.day as real);
      pace := Slope(today.weight - ref.value, days);
    } else {
      var slice := LastN(ws, 7);
      if |slice| >= 2 {
        var first := slice[0].weight;
        var last := slice[|slice| - 1].weight;
        var days := DaysBetween(slice[0].day as real, slice[|slice| - 1].day as real);
        pace := Slope(last - first, days);
      }
    }
  }

  /** Two weights a week apart, 80 kg then 79 kg, with a 70 kg target: the
      pace is -1/7 kg per day, the trend falling, no plateau, and the target
      is 63 days away. */
  lemma WeekApartExample(day1: int, now: real)
    ensures var m := MetricsOf([Sample(day1, 80.0), Sample(day1 + 7, 79.0)], "70", now);
            m.pace == -1.0 / 7.0 && m.trend == Falling && !m.plateau
            && m.eta.Some? && m.eta.value == now + 63.0
  {
    var ws := [Sample(day1, 80.0), Sample(day1 + 7, 79.0)];
    assert ws[..1] == [Sample(day1, 80.0)];
    assert ws[..1][..0] == [];
    assert DayIndex(ws[..1]) == map[day1 := 80.0];
    assert DayIndex(ws) == map[day1 := 80.0, day1 + 7 := 79.0];
    assert Reference(DayIndex(ws), day1) == Some(80.0);
    PaceFromReference(ws);
    assert LastN(ws, 10) == ws;
    assert DigitsValue("70") == 70 by {
      assert "70"[1..] == "0";
      assert "0"[1..] == "";
    }
    DecimalRoundTrip(false, "70", "", "");
    assert Decimal(false, "70", "") + "" == "70";
    assert EtaTarget("70") == Num(70.0);
    assert DaysRemaining(70.0, 79.0, -1.0 / 7.0) == 63.0;
    RoundOfInteger(63);
  }

  // ---------------------------------------------------------------------------
  // Advisory tips

  /** The tips in their fixed priority order, then the fallback. */
  datatype Tip = PlateauTip | RapidLossTip | HydrationTip | ActivityTip | KeepGoingTip

  function Rank(t: Tip): nat
  {
    match t
    case PlateauTip => 0
    case RapidLossTip => 1
    case HydrationTip => 2
    case ActivityTip => 3
    case KeepGoingTip => 4
  }

  /** The latest seven day records by date key (`sort(…).slice(-7)`). */
  function LastSevenDays(days: seq<DayRecord>): (r: seq<DayRecord>)
    ensures |r| == if |days| < 7 then |days| else 7
  {
    LastN(SortBy(days, DateOf), 7)
  }

  /** The records taken are sorted and drawn from the snapshot, and no record
      left out has a later key than a record taken. */
  lemma LastSevenDaysAreLatest(days: seq<DayRecord>)
    ensures var r := LastSevenDays(days);
            SortedBy(r, DateOf) && multiset(r) <= multiset(days)
            && forall x, y :: x in multiset(days) - multiset(r) && y in r ==> Le(x.date, y.date)
  {
    SuffixIsLatest(SortBy(days, DateOf), LastSevenDays(days));
  }

  /** A suffix of a sorted sequence is sorted, drawn from it, and no later
      than nothing it leaves out. */
  lemma SuffixIsLatest(s: seq<DayRecord>, r: seq<DayRecord>)
    requires SortedBy(s, DateOf) && |r| <= |s| && r == s[|s| - |r|..]
    ensures SortedBy(r, DateOf) && multiset(r) <= multiset(s)
    ensures forall x, y :: x in multiset(s) - multiset(r) && y in r ==> Le(x.date, y.date)
  {
    var front := s[..|s| - |r|];
    SuffixSplit(s, r);
    assert multiset(s) - multiset(r) == multiset(front);
    forall x: DayRecord, y: DayRecord | x in multiset(front) && y in r
      ensures Le(x.date, y.date)
    {
      FrontBeforeSuffix(s, |s| - |r|, x, y);
    }
  }

  lemma SuffixSplit(s: seq<DayRecord>, r: seq<DayRecord>)
    requires |r| <= |s| && r == s[|s| - |r|..]
    ensures multiset(s) == multiset(s[..|s| - |r|]) + multiset(r)
  {
    assert s == s[..|s| - |r|] + r;
  }

  /** In a sorted sequence an element before position `k` sorts no later than
      one from `k` on. */
  lemma FrontBeforeSuffix(s: seq<DayRecord>, k: nat, x: DayRecord, y: DayRecord)
    requires SortedBy(s, DateOf) && k <= |s|
    requires x in multiset(s[..k]) && y in s[k..]
    ensures Le(x.date, y.date)
  {
    var i :| 0 <= i < k && s[..k][i] == x;
    var j :| 0 <= j < |s| - k && s[k..][j] == y;
    assert s[i] == x && s[k + j] == y;
  }

  /** The water count of a record as a real number, the summand of `waterAvg`. */
  function WaterAmount(d: DayRecord): real
  {
    WaterOf(d) as real
  }

  /** The mean water count of some records, 0 when there are none. */
  function MeanWater(s: seq<DayRecord>): (avg: real)
    ensures avg >= 0.0
  {
    if |s| == 0 then 0.0
    else
      var total := SumOf(s, WaterAmount);
      SumOfNonNegative(s, WaterAmount);
      QuotientNonNegative(total, |s| as real);
      total / |s| as real
  }

  /** Of any records, the mean (under any name) times their number is their
      total water count. */
  lemma MeanTimesCount(s: seq<DayRecord>, avg: real)
    requires s != [] && avg == MeanWater(s)
    ensures avg * |s| as real == SumOf(s, WaterAmount)
  {
    QuotientTimesDivisor(SumOf(s, WaterAmount), |s| as real);
  }

  /** `waterAvg`: the mean water count over the latest seven day records, 0
      when there are none. */
  function WaterAverage(days: seq<DayRecord>): (avg: real)
    ensures avg >= 0.0
    ensures days == [] ==> avg == 0.0
  {
    MeanWater(LastSevenDays(days))
  }

  /** With any records, the average times the number of records averaged is
      their total water count. */
  lemma WaterAverageIsMean(days: seq<DayRecord>)
    requires days != []
    ensures var last7 := LastSevenDays(days);
            WaterAverage(days) * |last7| as real == SumOf(last7, WaterAmount)
  {
    MeanTimesCount(LastSevenDays(days), WaterAverage(days));
  }

  /** `sportDays7`: how many of the latest seven day records have sport. */
  function SportDays(days: seq<DayRecord>): (n: nat)
    ensures n <= 7 && n <= |days|
  {
    |Filter(LastSevenDays(days), DidSport)|
  }

  /** Of any records, the sport count is the number of positions with sport. */
  lemma SportPositions(s: seq<DayRecord>)
    ensures |Filter(s, DidSport)| == |set i | 0 <= i < |s| && DidSport(s[i])|
  {
    FilterCount(s, DidSport);
    assert Positions(s, DidSport) == set i | 0 <= i < |s| && DidSport(s[i]);
  }

  /** The count is the number of positions among the latest seven records
      that have sport. */
  lemma SportDaysCounted(days: seq<DayRecord>)
    ensures var last7 := LastSevenDays(days);
            SportDays(days) == |set i | 0 <= i < |last7| && DidSport(last7[i])|
  {
    SportPositions(LastSevenDays(days));
  }

  /** One rule's contribution to the list: its tip when it fires. */
  function Rule(fires: bool, t: Tip): (r: seq<Tip>)
    ensures t in r <==> fires
    ensures forall x :: x in r ==> x == t
  {
    if fires then [t] else []
  }

  /** The rules that fire, in priority order. */
  function FiredTips(plateau: bool, pace: real, waterAvg: real, sportDays: nat): seq<Tip>
  {
    Rule(plateau, PlateauTip)
    + Rule(pace < -0.25, RapidLossTip)
    + Rule(waterAvg < 3.0, HydrationTip)
    + Rule(sportDays < 2, ActivityTip)
  }

  /** `tips`: the fired rules, or the fallback when none fired, cut to three. */
  function Tips(plateau: bool, pace: real, waterAvg: real, sportDays: nat): seq<Tip>
  {
    var fired := FiredTips(plateau, pace, waterAvg, sportDays);
    var list := if fired == [] then [KeepGoingTip] else fired;
    if |list| <= 3 then list else list[..3]
  }

  /** Tips listed with strictly increasing rank. */
  predicate RankOrdered(s: seq<Tip>)
  {
    forall i, j :: 0 <= i < j < |s| ==> Rank(s[i]) < Rank(s[j])
  }

  /** Appending a rule of higher rank than everything listed keeps the order. */
  lemma AppendRule(s: seq<Tip>, fires: bool, t: Tip)
    requires RankOrdered(s)
    requires forall x :: x in s ==> Rank(x) < Rank(t)
    ensures RankOrdered(s + Rule(fires, t))
    ensures forall x :: x in s + Rule(fires, t) ==> Rank(x) <= Rank(t)
  {
    if fires {
      var r := s + [t];
      forall i, j | 0 <= i < j < |r|
        ensures Rank(r[i]) < Rank(r[j])
      {
        if j == |s| {
          assert r[i] == s[i] && s[i] in s;
        }
      }
    }
  }

  /** The fired rules come in priority order, never include the fallback, and
      each rule's tip is listed exactly when the rule fires. */
  lemma FiredTipsRules(plateau: bool, pace: real, waterAvg: real, sportDays: nat)
    ensures var fired := FiredTips(plateau, pace, waterAvg, sportDays);
            RankOrdered(fired)
            && (PlateauTip in fired <==> plateau)
            && (RapidLossTip in fired <==> pace < -0.25)
            && (HydrationTip in fired <==> waterAvg < 3.0)
            && (ActivityTip in fired <==> sportDays < 2)
            && KeepGoingTip !in fired
  {
    var s1 := Rule(plateau, PlateauTip);
    var s2 := s1 + Rule(pace < -0.25, RapidLossTip);
    var s3 := s2 + Rule(waterAvg < 3.0, HydrationTip);
    var s4 := s3 + Rule(sportDays < 2, ActivityTip);
    AppendRule([], plateau, PlateauTip);
    assert [] + s1 == s1;
    AppendRule(s1, pace < -0.25, RapidLossTip);
    AppendRule(s2, waterAvg < 3.0, HydrationTip);
    AppendRule(s3, sportDays < 2, ActivityTip);
  }

  /** There are one to three tips, in strict priority order; the fallback
      appears exactly when no rule fired; each rule's tip appears exactly when
      the rule fires, except that the activity tip is cut when all four fire. */
  lemma TipsRules(plateau: bool, pace: real, waterAvg: real, sportDays: nat)
    ensures var tips := Tips(plateau, pace, waterAvg, sportDays);
            1 <= |tips| <= 3
            && RankOrdered(tips)
            && (KeepGoingTip in tips <==> !plateau && pace >= -0.25 && waterAvg >= 3.0 && sportDays >= 2)
            && (PlateauTip in tips <==> plateau)
            && (RapidLossTip in tips <==> pace < -0.25)
            && (HydrationTip in tips <==> waterAvg < 3.0)
            && (ActivityTip in tips <==> sportDays < 2 && !(plateau && pace < -0.25 && waterAvg < 3.0))
  {
    var fired := FiredTips(plateau, pace, waterAvg, sportDays);
    if plateau && pace < -0.25 && waterAvg < 3.0 && sportDays < 2 {
      assert fired == [PlateauTip, RapidLossTip, HydrationTip, ActivityTip];
    } else {
      FiredTipsRules(plateau, pace, waterAvg, sportDays);
      assert |fired| <= 3;
    }
  }

  /** `tips` as the screen builds it: push each fired rule, push the fallback
      into an empty list, keep the first three. */
  method SelectTips(plateau: bool, pace: real, waterAvg: real, sportDays: nat) returns (tips: seq<Tip>)
    ensures tips == Tips(plateau, pace, waterAvg, sportDays)
  {
    var list: seq<Tip> := [];
    if plateau {
      list := list + [PlateauTip];
    }
    assert list == Rule(plateau, PlateauTip);
    if pace < -0.25 {
      list := list + [RapidLossTip];
    }
    assert list == Rule(plateau, PlateauTip) + Rule(pace < -0.25, RapidLossTip);
    if waterAvg < 3.0 {
      list := list + [HydrationTip];
    }
    assert list == Rule(plateau, PlateauTip) + Rule(pace < -0.25, RapidLossTip) + Rule(waterAvg < 3.0, HydrationTip);
    if sportDays < 2 {
      list := list + [ActivityTip];
    }
    assert list == FiredTips(plateau, pace, waterAvg, sportDays);
    if |list| == 0 {
      list := list + [KeepGoingTip];
    }
    tips := if |list| <= 3 then list else list[..3];
  }

  /** With a single weight there is no plateau and no pace, so with enough
      water and sport only the fallback tip is shown. */
  lemma SingleWeightTips(ws: seq<Sample>, targetWInput: string, now: real, waterAvg: real, sportDays: nat)
    requires |ws| == 1 && waterAvg >= 3.0 && sportDays >= 2
    ensures var m := MetricsOf(ws, targetWInput, now);
            Tips(m.plateau, m.pace, waterAvg, sportDays) == [KeepGoingTip]
  {
  }

  // ---------------------------------------------------------------------------
  // Saving the goal, BMI

  datatype Goal = Goal(targetWeight: real, targetDate: string, startWeight: real, active: bool)

  function FirstWeight(ws: seq<Sample>): (w: Option<real>)
    ensures w.Some? <==> ws != []
  {
    if ws == [] then None else Some(ws[0].weight)
  }

  /** `saveGoal`: the target typed with a decimal comma or point; nothing is
      saved for a zero or unreadable target or an empty date. The start weight
      is `firstW || lastW || tw`. */
  function SaveGoal(ws: seq<Sample>, targetWInput: string, targetDateInput: string): (g: Option<Goal>)
    ensures var tw := ParseFloat(ReplaceFirstComma(targetWInput));
            g.None? <==> !tw.Truthy() || targetDateInput == []
    ensures g.Some? ==> var tw := ParseFloat(ReplaceFirstComma(targetWInput));
                        g.value.targetWeight == tw.value && g.value.targetDate == targetDateInput
                        && g.value.active && g.value.startWeight != 0.0
  {
    var tw := ParseFloat(ReplaceFirstComma(targetWInput));
    if !tw.Truthy() || targetDateInput == [] then None
    else
      var firstW, lastW := FirstWeight(ws), LastWeight(ws);
      var startW := if Present(firstW) then firstW.value else if Present(lastW) then lastW.value else tw.value;
      Some(Goal(tw.value, targetDateInput, startW, true))
  }

  /** The start weight is the first logged weight when there is a nonzero one,
      and the target itself when nothing is logged. */
  lemma SaveGoalStartWeight(ws: seq<Sample>, targetWInput: string, targetDateInput: string)
    requires SaveGoal(ws, targetWInput, targetDateInput).Some?
    ensures ws != [] && ws[0].weight != 0.0 ==> SaveGoal(ws, targetWInput, targetDateInput).value.startWeight == ws[0].weight
    ensures ws == [] ==> SaveGoal(ws, targetWInput, targetDateInput).value.startWeight
                           == SaveGoal(ws, targetWInput, targetDateInput).value.targetWeight
  {
  }

  /** A target typed as digits, a decimal comma and digits is saved with its
      decimal value, unless that value is zero. */
  lemma SaveGoalDecimalComma(ws: seq<Sample>, ds: string, fs: string, date: string)
    requires AllDigits(ds) && AllDigits(fs) && ds != [] && fs != [] && date != []
    ensures var v := DigitsValue(ds) as real + Fraction(fs);
            var g := SaveGoal(ws, ds + [','] + fs, date);
            (v != 0.0 ==> g.Some? && g.value.targetWeight == v) && (v == 0.0 ==> g.None?)
  {
    CommaReplaced(ds, fs);
  }

  /** A target that is not a number saves nothing. */
  lemma SaveGoalRejectsText(ws: seq<Sample>, date: string)
    ensures SaveGoal(ws, "abc", date).None?
  {
    NotANumberExample();
    assert ReplaceFirstComma("abc") == "abc";
  }

  /** `bmi`: the latest weight over the squared height in metres, when both
      are present and nonzero. */
  function Bmi(heightCm: Option<real>, lastW: Option<real>): (b: Option<real>)
    ensures b.Some? <==> Present(heightCm) && Present(lastW)
    ensures b.Some? ==> var h := heightCm.value / 100.0; b.value * (h * h) == lastW.value
    ensures b.Some? && heightCm.value > 0.0 && lastW.value > 0.0 ==> b.value > 0.0
  {
    if !Present(heightCm) then None
    else
      var h := heightCm.value / 100.0;
      if h == 0.0 || !Present(lastW) then None
      else
        assert h * h > 0.0 by { SquarePositive(h); }
        Some(lastW.value / (h * h))
  }

  lemma SquarePositive(h: real)
    requires h != 0.0
    ensures h * h > 0.0
  {
    if h < 0.0 {
      assert h * h == (-h) * (-h);
    }
  }
}
