/**
 * The derivations of the home screen: the latest logged weight, the daily
 * water target, the intake and its percentage of the target, the weekly
 * chain chosen for the event card, the language helper, the next-day guard
 * and the weight-save validation.
 *
 * `days` is the store's day records; the record for a date is looked up by
 * its date field. Today's key and the week key come from the clock through
 * helpers that are not part of this model, so they are parameters here.
 */
module Home {
  import opened Common
  import opened DayKeys
  import opened Calendar
  import opened Parsing
  import opened Store

  // ---------------------------------------------------------------------------
  // Latest weight

  /** A record the latest-weight search considers: it holds a numeric weight
      and a non-empty date. */
  predicate Loggable(d: DayRecord) { d.weight.Some? && d.date != [] }

  /** `getLatestWeightKg`: the weight of the record with the greatest date key
      among those with a weight and a date. */
  function LatestWeightKg(days: seq<DayRecord>): (w: Option<real>)
    ensures w.None? <==> forall d :: d in days ==> !Loggable(d)
    ensures w.Some? ==> exists d :: d in days && Loggable(d) && d.weight.value == w.value
                                    && forall e :: e in days && Loggable(e) ==> Le(e.date, d.date)
  {
    var arr := SortBy(Filter(days, Loggable), DateOf);
    if arr == [] then
      None
    else
      LatestIsGreatest(days, arr);
      Some(arr[|arr| - 1].weight.value)
  }

  /** The last record after sorting is a loggable record of the snapshot whose
      date key no other loggable record exceeds. */
  lemma LatestIsGreatest(days: seq<DayRecord>, arr: seq<DayRecord>)
    requires arr == SortBy(Filter(days, Loggable), DateOf) && arr != []
    ensures var last := arr[|arr| - 1];
            last in days && Loggable(last)
            && forall e :: e in days && Loggable(e) ==> Le(e.date, last.date)
  {
    var kept := Filter(days, Loggable);
    var last := arr[|arr| - 1];
    SortedEnds(arr, DateOf);
    assert last in multiset(kept);
    var i :| 0 <= i < |kept| && kept[i] == last;
    forall e | e in days && Loggable(e) ensures Le(e.date, last.date) {
      var k :| 0 <= k < |days| && days[k] == e;
      assert e in kept;
      assert e in multiset(arr);
      assert e in arr;
    }
  }

  // ---------------------------------------------------------------------------
  // The day on screen

  /** `days[currentDate] || default`: the record for `key`, or an empty day
      with nothing counted. */
  function DayOf(days: seq<DayRecord>, key: string): (d: DayRecord)
    ensures (exists e :: e in days && e.date == key) ==> d in days && d.date == key
    ensures (forall e :: e in days ==> e.date != key) ==>
              (d.weight.None? && WaterOf(d) == 0 && !DidSport(d) && d.drinks.Some? && !d.drinks.value.waterCure)
  {
    if days == [] then DayRecord(key, None, Some(Drinks(0, false, false)))
    else if days[0].date == key then days[0]
    else DayOf(days[1..], key)
  }

  // ---------------------------------------------------------------------------
  // Hydration

  /** `computeDailyWaterTargetMl`: 35 ml per kilogram of the latest weight,
      rounded, or 2000 ml without a (truthy) weight; sport adds 500 ml. */
  function DailyWaterTargetMl(weightKg: Option<real>, didSport: bool): (ml: int)
    ensures var base := ml - (if didSport then 500 else 0);
            (!Present(weightKg) ==> base == 2000)
            && (Present(weightKg) ==> 35.0 * weightKg.value - 0.5 < base as real <= 35.0 * weightKg.value + 0.5)
  {
    var base := if Present(weightKg) then Round(weightKg.value * 35.0) else 2000;
    var sportExtra := if didSport then 500 else 0;
    base + sportExtra
  }

  /** Sport adds exactly 500 ml, whatever the weight. */
  lemma SportAddsHalfLitre(weightKg: Option<real>)
    ensures DailyWaterTargetMl(weightKg, true) == DailyWaterTargetMl(weightKg, false) + 500
  {
  }

  /** A heavier logged weight never lowers the target. */
  lemma WaterTargetMonotone(w1: real, w2: real, didSport: bool)
    requires 0.0 < w1 <= w2
    ensures DailyWaterTargetMl(Some(w1), didSport) <= DailyWaterTargetMl(Some(w2), didSport)
  {
    RoundMonotone(w1 * 35.0, w2 * 35.0);
  }

  /** The cup size in ml: the configured one when it is truthy, else 250. */
  function CupMl(waterCupMl: Option<real>): real
  {
    if Present(waterCupMl) then waterCupMl.value else 250.0
  }

  /** `intakeMl`: one cup per counted glass, plus a litre on a water-cure day. */
  function IntakeMl(waterCupMl: Option<real>, d: DayRecord): (ml: real)
    ensures waterCupMl.None? && !(d.drinks.Some? && d.drinks.value.waterCure) ==> ml == 250.0 * WaterOf(d) as real
    ensures waterCupMl.Some? && waterCupMl.value > 0.0 ==> ml >= 0.0
  {
    CupMl(waterCupMl) * WaterOf(d) as real + (if d.drinks.Some? && d.drinks.value.waterCure then 1000.0 else 0.0)
  }

  /** Turning the water cure on adds exactly one litre. */
  lemma WaterCureAddsLitre(waterCupMl: Option<real>, date: string, weight: Option<real>, dr: Drinks)
    ensures IntakeMl(waterCupMl, DayRecord(date, weight, Some(dr.(waterCure := true))))
              == IntakeMl(waterCupMl, DayRecord(date, weight, Some(dr.(waterCure := false)))) + 1000.0
  {
  }

  /** A configured (truthy) cup size counts each glass at that size. */
  lemma ConfiguredCupCounts(waterCupMl: Option<real>, d: DayRecord)
    requires Present(waterCupMl)
    ensures IntakeMl(waterCupMl, d)
              == waterCupMl.value * WaterOf(d) as real
                 + (if d.drinks.Some? && d.drinks.value.waterCure then 1000.0 else 0.0)
  {
  }

  /** An unset or zero cup size counts each glass as 250 ml. */
  lemma UnsetCupCountsQuarterLitre(waterCupMl: Option<real>, d: DayRecord)
    requires !Present(waterCupMl)
    ensures IntakeMl(waterCupMl, d)
              == 250.0 * WaterOf(d) as real
                 + (if d.drinks.Some? && d.drinks.value.waterCure then 1000.0 else 0.0)
  {
  }

  /** One more glass adds exactly one cup. */
  lemma OneMoreGlass(waterCupMl: Option<real>, date: string, weight: Option<real>, dr: Drinks)
    ensures IntakeMl(waterCupMl, DayRecord(date, weight, Some(dr.(water := dr.water + 1))))
              == IntakeMl(waterCupMl, DayRecord(date, weight, Some(dr))) + CupMl(waterCupMl)
  {
  }

  /** `percent`: the intake as a rounded percentage of the target, clamped to
      [0, 100]; the target is divided by no less than 1. */
  function HydrationPercent(intakeMl: real, goalMl: int): (p: int)
    ensures 0 <= p <= 100
    ensures goalMl >= 1 && intakeMl >= goalMl as real ==> p == 100
    ensures intakeMl <= 0.0 ==> p == 0
  {
    var divisor := if goalMl < 1 then 1 else goalMl;
    PercentEnds(intakeMl, divisor as real);
    var r := Round(intakeMl / divisor as real * 100.0);
    if r < 0 then 0 else if r > 100 then 100 else r
  }

  /** Reaching the divisor rounds to at least 100 %; no intake rounds to at
      most 0 %. */
  lemma PercentEnds(intakeMl: real, d: real)
    requires d > 0.0
    ensures intakeMl >= d ==> Round(intakeMl / d * 100.0) >= 100
    ensures intakeMl <= 0.0 ==> Round(intakeMl / d * 100.0) <= 0
  {
    var q := intakeMl / d;
    if intakeMl >= d {
      RatioAtLeastOne(intakeMl, d);
      RoundMonotone(100.0, q * 100.0);
      RoundOfInteger(100);
    }
    if intakeMl <= 0.0 {
      DivideMonotone(intakeMl, 0.0, d);
      RoundMonotone(q * 100.0, 0.0);
      RoundOfInteger(0);
    }
  }

  /** More intake never shows a smaller percentage. */
  lemma HydrationPercentMonotone(i1: real, i2: real, goalMl: int)
    requires i1 <= i2
    ensures HydrationPercent(i1, goalMl) <= HydrationPercent(i2, goalMl)
  {
    var d := (if goalMl < 1 then 1 else goalMl) as real;
    DivideMonotone(i1, i2, d);
    RoundMonotone(i1 / d * 100.0, i2 / d * 100.0);
  }

  /** The hydration card of the day on screen. */
  function Hydration(days: seq<DayRecord>, currentDate: string, waterCupMl: Option<real>): (p: int)
    ensures 0 <= p <= 100
    ensures var d := DayOf(days, currentDate);
            var goal := DailyWaterTargetMl(LatestWeightKg(days), DidSport(d));
            (IntakeMl(waterCupMl, d) >= goal as real && goal >= 1) ==> p == 100
  {
    var d := DayOf(days, currentDate);
    var goal := DailyWaterTargetMl(LatestWeightKg(days), DidSport(d));
    HydrationPercent(IntakeMl(waterCupMl, d), goal)
  }

  // ---------------------------------------------------------------------------
  // The weekly event chain

  /** The sum of the character codes of `s`. */
  function CodeSum(s: string): nat
  {
    if s == [] then 0 else s[0] as nat + CodeSum(s[1..])
  }

  lemma {:induction false} CodeSumAppend(a: string, b: string)
    ensures CodeSum(a + b) == CodeSum(a) + CodeSum(b)
  {
    if a == [] {
      assert a + b == b;
    } else {
      assert (a + b)[1..] == a[1..] + b;
      CodeSumAppend(a[1..], b);
    }
  }

  /** The sum depends only on which characters occur, not on their order. */
  lemma {:induction false} CodeSumOrderFree(a: string, b: string)
    requires multiset(a) == multiset(b)
    ensures CodeSum(a) == CodeSum(b)
    decreases |a|
  {
    if a != [] {
      assert a[0] in multiset(b);
      var j :| 0 <= j < |b| && b[j] == a[0];
      var rest := b[..j] + b[j + 1..];
      RemoveOne(a, b, j);
      CodeSumOrderFree(a[1..], rest);
      CodeSumRemove(b, j);
    } else {
      assert |b| == |multiset(b)| == 0;
    }
  }

  /** Taking the first character of `a` out of both sides keeps them equal as
      multisets. */
  lemma RemoveOne(a: string, b: string, j: nat)
    requires multiset(a) == multiset(b) && a != [] && j < |b| && b[j] == a[0]
    ensures multiset(a[1..]) == multiset(b[..j] + b[j + 1..])
  {
    assert a == [a[0]] + a[1..];
    assert b == b[..j] + [b[j]] + b[j + 1..];
    assert multiset(a[1..]) == multiset(a) - multiset{a[0]};
    assert multiset(b[..j] + b[j + 1..]) == multiset(b) - multiset{b[j]};
  }

  /** One character's code plus the sum of the others. */
  lemma CodeSumRemove(b: string, j: nat)
    requires j < |b|
    ensures CodeSum(b) == b[j] as nat + CodeSum(b[..j] + b[j + 1..])
  {
    var p, x, q := b[..j], [b[j]], b[j + 1..];
    assert b == p + x + q;
    CodeSumAppend(p + x, q);
    CodeSumAppend(p, x);
    CodeSumAppend(p, q);
    CodeSumSingle(b[j]);
  }

  lemma CodeSumSingle(c: char)
    ensures CodeSum([c]) == c as nat
  {
    assert [c][1..] == [];
  }

  /** `chainIdx`: the week key's character-code sum modulo the number of chains
      (at least 1). The sum is never negative, so `Math.abs` keeps it. */
  function ChainIndex(weekKey: string, chainCount: nat): (i: nat)
    ensures chainCount >= 1 ==> i < chainCount
    ensures chainCount <= 1 ==> i == 0
  {
    CodeSum(weekKey) % (if chainCount < 1 then 1 else chainCount)
  }

  /** Week keys made of the same characters pick the same chain. */
  lemma ChainIndexOrderFree(k1: string, k2: string, chainCount: nat)
    requires multiset(k1) == multiset(k2)
    ensures ChainIndex(k1, chainCount) == ChainIndex(k2, chainCount)
  {
    CodeSumOrderFree(k1, k2);
  }

  /** `evCompleted`: the chosen chain's next step is at 100 %; false when there
      is no chain. `nextPercents` lists each chain's `nextPercent`. */
  function EventCompleted(nextPercents: seq<real>, weekKey: string): (done: bool)
    ensures nextPercents == [] ==> !done
    ensures nextPercents != [] ==> (done <==> nextPercents[ChainIndex(weekKey, |nextPercents|)] >= 100.0)
  {
    var i := ChainIndex(weekKey, |nextPercents|);
    if i < |nextPercents| then nextPercents[i] >= 100.0 else false
  }

  // ---------------------------------------------------------------------------
  // Language, navigation, weight entry

  /** `t(de, en, pl)`: English for 'en', Polish for 'pl' when a non-empty Polish
      text is given, German otherwise. */
  function Translate(language: string, de: string, en: string, pl: Option<string>): (r: string)
    ensures language == "en" ==> r == en
    ensures language == "pl" && pl.Some? && pl.value != [] ==> r == pl.value
    ensures language != "en" && !(language == "pl" && pl.Some? && pl.value != []) ==> r == de
  {
    if language == "en" then en
    else if language == "pl" && pl.Some? && pl.value != [] then pl.value
    else de
  }

  /** A Polish screen never shows English: a missing Polish text falls back to
      German. */
  lemma PolishFallsBackToGerman(de: string, en: string)
    ensures Translate("pl", de, en, None) == de
    ensures Translate("pl", de, en, Some("")) == de
  {
  }

  /** The next-day guard: the date on screen is not after today's key. */
  predicate CanGoNext(currentDate: string, todayKey: string)
  {
    Le(currentDate, todayKey)
  }

  /** For day keys the guard is a date comparison, and it still lets the user
      step from today to tomorrow (but no further). */
  lemma CanGoNextChronological(currentDate: string, todayKey: string)
    requires IsDayKey(currentDate) && IsDayKey(todayKey)
    ensures CanGoNext(currentDate, todayKey) <==> KeyDayNumber(currentDate) <= KeyDayNumber(todayKey)
    ensures CanGoNext(todayKey, todayKey)
  {
    KeyOrderIsChronological(currentDate, todayKey);
    LeReflexive(todayKey);
  }

  /** The save button of the weight dialog: the first comma becomes a point,
      the text is read with `parseFloat`, and only a positive number is
      stored. */
  function SaveWeight(weightInput: string): (w: Option<real>)
    ensures w.Some? ==> w.value > 0.0 && ParseFloat(ReplaceFirstComma(weightInput)) == Num(w.value)
    ensures w.None? <==> ParseFloat(ReplaceFirstComma(weightInput)).NaN?
                         || ParseFloat(ReplaceFirstComma(weightInput)).value <= 0.0
  {
    var val := ParseFloat(ReplaceFirstComma(weightInput));
    if val.Num? && val.value > 0.0 then Some(val.value) else None
  }

  /** A weight typed as digits, a decimal comma or point, and digits is stored
      with its decimal value when that value is positive, and not at all
      otherwise. */
  lemma SaveWeightReadsDecimal(ds: string, sep: char, fs: string)
    requires AllDigits(ds) && AllDigits(fs) && ds != [] && fs != []
    requires sep == ',' || sep == '.'
    ensures var v := DigitsValue(ds) as real + Fraction(fs);
            var w := SaveWeight(ds + [sep] + fs);
            (v > 0.0 ==> w.Some? && w.value == v) && (v == 0.0 ==> w.None?)
  {
    NormalisedSeparator(ds, sep, fs);
    DecimalRoundTrip(false, ds, fs, "");
  }

  /** Text that is not a number, and a negative weight, store nothing. */
  lemma SaveWeightRejects()
    ensures SaveWeight("abc").None?
    ensures SaveWeight("-5").None?
  {
    NotANumberExample();
    assert ReplaceFirstComma("abc") == "abc";
    assert ReplaceFirstComma("-5") == Decimal(true, "5", "") + "";
    DecimalRoundTrip(true, "5", "", "");
    assert DigitsValue("5") == 5 by {
      assert "5"[1..] == "";
    }
  }
}
