# Health tracker screens — a Dafny model

This project models the logic of three screens of a React Native health
tracker:

- **Goals.** It derives a weight series from the day records. From that series
  it computes:
  - a linear "plan versus actual" projection toward a target weight and date;
  - the seven-day pace (kg per day) and its trend label;
  - a plateau flag;
  - an estimated arrival date (ETA) at the target;
  - up to three advisory tips;
  - the BMI.

  It also saves a goal typed with a decimal comma or point.
- **Home.** It finds the latest logged weight and derives the daily water
  target from it (35 ml per kg, plus 500 ml on a sport day). It shows the
  day's intake as a percentage of that target. It also chooses the week's
  event chain, translates labels, guards the next-day button and validates a
  typed weight.
- **Gallery.** It estimates the size of each stored photo (a base64 data URL)
  and the total storage. It lays out a Monday-first month calendar and counts
  photo days per month. It finds the first and last photo day, awards photo
  badges, caps a day at five photos and clamps the viewer's zoom.

Day records and gallery days are keyed by ISO 8601 calendar dates
`YYYY-MM-DD` (section 4.1.2.2 of ISO 8601:2004). The screens sort and compare
these keys as strings. `Calendar.KeyOrderIsChronological` proves that for
such keys this is the same as comparing the dates. Dates are whole day
numbers counted from 1970-01-01. A photo is an RFC 2397 data URL whose body is
base64 (section 4 of RFC 4648).

Modules:

| module | contents |
|---|---|
| `Common` | `Option`, a JavaScript number that may be NaN, `Math.round`, clamping, `filter`, `slice(-n)` |
| `DayKeys` | string order, a stable sort by key, the `YYYY-MM-DD` shape |
| `Calendar` | the proleptic Gregorian calendar, day numbers, weekdays |
| `Parsing` | `replace(',', '.')`, `parseFloat` and `Number` on a decimal grammar |
| `Store` | the day record the screens read |
| `Goals` | the goals screen |
| `Home` | the home screen |
| `Gallery` | the gallery screen |

Where the code is imperative, the model is too:
- `Goals.ComputeMetrics` builds the date-to-weight map and searches up to
  three days back with a loop.
- `Goals.SelectTips` pushes tips and then slices the list.
- `Gallery.StorageBytes` runs the nested loops over days and photos.

Each method is proved equal to a specification function. The lemmas then
state what that function promises.

Edge behaviour of the code that the model keeps:
- **Target date not after the first weighing.** The code divides by a total
  of one day and shows the target weight (`Goals.PlanRatioComplete`).
- **Unreadable target weight.** The code gives a NaN plan
  (`Goals.PlanBetweenStartAndTarget`).
- **A single weighing.** It still gives a projection.
- **Start of the plan.** The elapsed time is floored at one day, so on the day
  of the first weighing the plan is already one day ahead
  (`Goals.PlanRatioOnStartDay`).
- **Pace divisor.** When the reference weight comes from eight to ten days
  back, the pace still divides by 7 (`Goals.PaceFromReference`).
- **Fewer than two weights.** The pace is 0 and the trend is "—"
  (`Goals.MetricsTooFewWeights`).

## Model

| member | source | states |
|---|---|---|
| Common.Round | frontend/app/goals.tsx:15 | `Math.round` lands within half a unit of its argument |
| Common.Clamp | frontend/app/goals.tsx:37 | the clamped value lies in [lo, hi], and equals the input when the input is already inside |
| DayKeys.SortBy | frontend/app/goals.tsx:23 | sorting by a key yields an ascending permutation of the input |
| DayKeys.KeyOrder | frontend/app/goals.tsx:23 | comparing two `YYYY-MM-DD` strings compares year, then month, then day |
| Calendar.KeyOrderIsChronological | frontend/app/index.tsx:24 | string order of day keys is the order of their dates |
| Calendar.KeyDayNumberInjective | frontend/app/gallery.tsx:83 | distinct day keys denote distinct days |
| Calendar.MonthEnd | frontend/app/gallery.tsx:29 | day 0 of the next month is the last day of this month, December rolling into January |
| Calendar.MondayColumn | frontend/app/gallery.tsx:30 | `(getDay()+6)%7` is in 0..6, 0 exactly on Mondays and 6 exactly on Sundays |
| Calendar.MondayColumnAdvances | frontend/app/gallery.tsx:137-152 | k days later the column is k further on, modulo 7 |
| Parsing.ReplacesOnlyFirstComma | frontend/app/index.tsx:285 | only the first comma becomes a point; the rest of the text is unchanged |
| Parsing.ScanReadsLiteral | frontend/app/goals.tsx:119 | what the scanner reads is a literal of the grammar `[+\|-](digits[.digits] \| .digits \| digits.)`, and it reads that literal's value |
| Parsing.ScanReachesLiteral | frontend/app/goals.tsx:119 | whenever the text starts with such a literal, the scanner reads at least that far |
| Parsing.ParseFloatReadsLongestLiteral | frontend/app/goals.tsx:119 | `parseFloat` yields a number exactly when some prefix of the text is a literal; the number is the value of the longest such prefix |
| Parsing.NumberOf | frontend/app/goals.tsx:76 | `Number` reads "" as 0 |
| Parsing.NumberOfReadsWholeLiteral | frontend/app/goals.tsx:76 | `Number` yields a number exactly for "" or a text that is one whole literal, and then it is that literal's value |
| Parsing.NumberAgreesWithParseFloat | frontend/app/goals.tsx:38 | wherever `Number` succeeds on non-empty text, `parseFloat` gives the same value |
| Parsing.DecimalRoundTrip | frontend/app/goals.tsx:119 | a written decimal reads back as its value with `parseFloat` whatever follows it, and with `Number` only when nothing follows |
| Parsing.CommaStopsTheNumber | frontend/app/index.tsx:285 | text written with a decimal comma reads as its integer part alone with `parseFloat`, and as NaN with `Number` |
| Parsing.CommaReplaced | frontend/app/index.tsx:285 | after the first comma is replaced by a point, digits, comma, digits read as their decimal value |
| Parsing.NormalisedSeparator | frontend/app/index.tsx:285 | after the replacement, a comma or a point between two digit strings is the point of the decimal literal |
| Parsing.NotANumberExample | frontend/app/goals.tsx:119 | text not starting with a number reads as NaN |
| Common.FilterAppend | frontend/app/goals.tsx:23 | filtering a concatenation filters each part: the kept elements stay in order |
| Common.FilterMultiset | frontend/app/goals.tsx:23 | the filtered sequence holds every passing element as often as the input, and nothing else |
| Common.FilterCount | frontend/app/goals.tsx:108 | the filtered length is the number of positions that pass |
| Goals.Samples | frontend/app/goals.tsx:23 | one sample per record, with the record's day and weight |
| Goals.WeightsChronological | frontend/app/goals.tsx:23 | the weight series is in date order |
| Goals.WeightsSound | frontend/app/goals.tsx:23 | each sample comes from a record holding a weight, one per such record |
| Goals.WeightsComplete | frontend/app/goals.tsx:23 | every record holding a weight appears in the series |
| Goals.LastWeightIsLatest | frontend/app/goals.tsx:23-24 | there is a latest weight exactly when some record holds a weight; it is the weight of a weighed record whose date key no weighed record exceeds |
| Goals.FirstWeightIsEarliest | frontend/app/goals.tsx:25 | there is a first weight exactly when some record holds a weight; it is the weight of a weighed record whose date key no weighed record precedes |
| Goals.DaysBetween | frontend/app/goals.tsx:15 | the rounded day gap, never below 1 |
| Goals.DaysBetweenWholeDays | frontend/app/goals.tsx:15 | between two different whole days the gap is their distance |
| Goals.DaysBetweenMonotone | frontend/app/goals.tsx:15 | a later end never gives a smaller gap |
| Goals.PlanRatio | frontend/app/goals.tsx:35-37 | the share of the plan covered lies in (0, 1] |
| Goals.PlanRatioComplete | frontend/app/goals.tsx:35-37 | the plan is complete once the target date is reached, or when the target date is not after the start |
| Goals.PlanRatioMonotone | frontend/app/goals.tsx:36-37 | the plan never moves backward in time |
| Goals.PlanRatioOnStartDay | frontend/app/goals.tsx:36 | on the start day the plan already counts one day |
| Goals.Interpolate | frontend/app/goals.tsx:38 | the planned weight lies between the start and target weights, reaches the target at ratio 1, and is NaN exactly for a NaN target |
| Goals.PlanVsActual | frontend/app/goals.tsx:31-41 | no projection exactly when there is no weight, the first or latest weight is 0, or the date is empty or not a date; otherwise the actual weight is the latest |
| Goals.PlanBetweenStartAndTarget | frontend/app/goals.tsx:38-40 | the planned weight is between the start and the target, and the delta is actual minus planned |
| Goals.PlanAtTarget | frontend/app/goals.tsx:37-38 | past the target date the plan equals the target weight |
| Goals.PlanWithoutTargetWeight | frontend/app/goals.tsx:38 | with no target typed, the plan stays at the first weight |
| Goals.PlanApproachesTarget | frontend/app/goals.tsx:37-38 | as time passes, the planned weight only gets closer to the target |
| Goals.InterpolateApproaches | frontend/app/goals.tsx:38 | a larger ratio leaves a smaller remaining gap to the target |
| Goals.RemainingGap | frontend/app/goals.tsx:38 | the remaining gap is the full gap times the uncovered share |
| Goals.DayIndexLookup | frontend/app/goals.tsx:46 | the map holds a day exactly when a sample has it, with the weight of that day's last sample |
| Goals.LookbackNearest | frontend/app/goals.tsx:52-54 | the search finds the nearest day within three days back, or nothing when all three are missing |
| Goals.PaceFromReference | frontend/app/goals.tsx:56-58 | with a reference weight the pace is (latest − reference) / 7, with the matching sign |
| Goals.PaceFromLastSeven | frontend/app/goals.tsx:59-66 | without one, the pace is the change over the last seven samples divided by their day gap |
| Goals.TrendOf | frontend/app/goals.tsx:72 | falling below −0.02, rising above 0.02, stable in between |
| Goals.PlateauOfSteadyWindow | frontend/app/goals.tsx:69-71 | ten final weights within a half-kilogram band are a plateau |
| Goals.PlateauIgnoresInnerSwing | frontend/app/goals.tsx:69-71 | only the ends of the window matter: a swing inside it still counts as a plateau |
| Goals.EtaEligibility | frontend/app/goals.tsx:75-87 | an ETA exists exactly for a truthy target, nonzero pace moving toward it, and fewer than 1825 days to go; it is now plus the rounded days remaining |
| Goals.EtaReachesTarget | frontend/app/goals.tsx:82 | at the current pace, the days remaining bring the latest weight exactly to the target |
| Goals.EtaNeedsMotionTowardTarget | frontend/app/goals.tsx:78-81 | zero pace, or a pace away from the target, gives no ETA |
| Goals.MetricsTooFewWeights | frontend/app/goals.tsx:45 | with fewer than two weights: pace 0, no trend, no plateau, no ETA |
| Goals.ComputeMetrics | frontend/app/goals.tsx:44-89 | the imperative computation equals the metrics specification |
| Goals.BuildDayIndex | frontend/app/goals.tsx:46 | the `forEach` map build equals the specification map |
| Goals.FindReference | frontend/app/goals.tsx:49-54 | the exact-then-k-loop search equals the nearest-day specification |
| Goals.ComputePace | frontend/app/goals.tsx:55-67 | the pace computation equals the pace specification |
| Goals.WeekApartExample | frontend/app/goals.tsx:44-89 | 80 kg then 79 kg a week later with target 70: pace −1/7, falling, no plateau, ETA in 63 days |
| Goals.LastSevenDays | frontend/app/goals.tsx:103 | seven records, or all of them when there are fewer |
| Goals.LastSevenDaysAreLatest | frontend/app/goals.tsx:103 | the records taken are in date order and drawn from the snapshot, and every record left out has a date key no later than each record taken |
| Goals.MeanTimesCount | frontend/app/goals.tsx:104 | the mean glass count of some records times their number is their total glass count |
| Goals.WaterAverage | frontend/app/goals.tsx:101-105 | the average glass count is never negative, and 0 without records |
| Goals.WaterAverageIsMean | frontend/app/goals.tsx:101-105 | with any records, the average times the number of records averaged is their total glass count |
| Goals.SportDays | frontend/app/goals.tsx:106-109 | at most seven sport days |
| Goals.SportDaysCounted | frontend/app/goals.tsx:106-109 | the count is the number of positions among the latest seven records that have sport |
| Goals.FiredTipsRules | frontend/app/goals.tsx:110-113 | the fired tips are in priority order, and each rule's tip is listed exactly when its condition holds |
| Goals.TipsRules | frontend/app/goals.tsx:110-115 | one to three tips in rule order; each rule's tip appears exactly when it fires and is not cut by the limit of three; the encouragement appears exactly when nothing fires |
| Goals.SelectTips | frontend/app/goals.tsx:97-116 | the push-then-slice computation equals the tips specification |
| Goals.SingleWeightTips | frontend/app/goals.tsx:97-116 | a lone weighing with enough water and sport yields only the encouragement |
| Goals.SaveGoal | frontend/app/goals.tsx:118-123 | a goal is saved exactly when the target reads as a nonzero number and a date is given; its start weight is nonzero |
| Goals.SaveGoalStartWeight | frontend/app/goals.tsx:121 | the start weight is the first weight when that is nonzero, and the target when nothing is logged |
| Goals.SaveGoalDecimalComma | frontend/app/goals.tsx:119-120 | a target typed as digits, a decimal comma and digits is saved with its decimal value, and not at all when that value is zero |
| Goals.SaveGoalRejectsText | frontend/app/goals.tsx:119-120 | a target typed as "abc" saves nothing |
| Goals.Bmi | frontend/app/goals.tsx:91-95 | a BMI exists exactly when height and weight are truthy; BMI times height in metres squared is the weight |
| Home.LatestWeightKg | frontend/app/index.tsx:23-27 | no weight exactly when no record has both a weight and a date; otherwise the weight of such a record whose date no other such record exceeds |
| Home.LatestIsGreatest | frontend/app/index.tsx:24-25 | the last record after sorting has the greatest date |
| Home.DayOf | frontend/app/index.tsx:53 | the record for the date, or an empty day with nothing counted |
| Home.DailyWaterTargetMl | frontend/app/index.tsx:29-33 | 2000 ml without a truthy weight, else 35 ml per kg rounded; plus 500 on a sport day |
| Home.SportAddsHalfLitre | frontend/app/index.tsx:31-32 | sport adds exactly 500 ml |
| Home.WaterTargetMonotone | frontend/app/index.tsx:30 | a heavier weight never lowers the target |
| Home.IntakeMl | frontend/app/index.tsx:77 | 250 ml per glass by default, never negative for a positive cup size |
| Home.ConfiguredCupCounts | frontend/app/index.tsx:77 | with a truthy cup size, the intake is that size per glass plus 1000 ml on a water-cure day |
| Home.UnsetCupCountsQuarterLitre | frontend/app/index.tsx:77 | with an unset or zero cup size, the intake is 250 ml per glass plus 1000 ml on a water-cure day |
| Home.WaterCureAddsLitre | frontend/app/index.tsx:77 | turning the water cure on adds exactly 1000 ml |
| Home.OneMoreGlass | frontend/app/index.tsx:77 | one more glass adds exactly one cup |
| Home.HydrationPercent | frontend/app/index.tsx:78 | the percentage lies in [0, 100], is 100 once the intake reaches the target, and is 0 without intake |
| Home.HydrationPercentMonotone | frontend/app/index.tsx:78 | more intake never shows a smaller percentage |
| Home.Hydration | frontend/app/index.tsx:75-78 | the hydration card of the day shown is in [0, 100] and full once the target is met |
| Home.CodeSumOrderFree | frontend/app/index.tsx:61 | the character-code sum ignores the order of the characters |
| Home.ChainIndex | frontend/app/index.tsx:61 | the chain index is below the number of chains, and 0 with at most one chain |
| Home.ChainIndexOrderFree | frontend/app/index.tsx:61 | week keys made of the same characters choose the same chain |
| Home.EventCompleted | frontend/app/index.tsx:62-63 | not completed without chains; otherwise completed exactly when the chosen chain is at 100 % |
| Home.Translate | frontend/app/index.tsx:72 | English for 'en', Polish for 'pl' when a Polish text is given, German otherwise |
| Home.PolishFallsBackToGerman | frontend/app/index.tsx:72 | a Polish screen without a Polish text shows German |
| Home.CanGoNextChronological | frontend/app/index.tsx:115 | the next-day guard is a date comparison with today, and it lets the user step from today to tomorrow |
| Home.SaveWeight | frontend/app/index.tsx:285 | a weight is stored only when the normalised text reads as a number, and only a positive one |
| Home.SaveWeightReadsDecimal | frontend/app/index.tsx:285 | digits with a decimal comma or point store their decimal value when it is positive |
| Home.SaveWeightRejects | frontend/app/index.tsx:285 | "abc" and "-5" store nothing |
| Gallery.Keys | frontend/app/gallery.tsx:37 | one key per gallery day, in order |
| Gallery.PayloadLength | frontend/app/gallery.tsx:18 | the length of the text between the first and any second comma, or of the whole string without a comma |
| Gallery.BytesFromBase64 | frontend/app/gallery.tsx:18 | three quarters of the measured length, rounded down |
| Gallery.DataUrlEstimate | frontend/app/gallery.tsx:64 | for a stored data URL the estimate measures exactly the base64 body |
| Gallery.EstimateOfPaddedBody | frontend/app/gallery.tsx:18 | for a padded base64 body of n bytes the estimate is between n and n + 2, and exactly n without padding |
| Gallery.StorageBytes | frontend/app/gallery.tsx:40-43 | the nested loops sum every photo's estimate |
| Gallery.TotalBytesUpdate | frontend/app/gallery.tsx:41 | replacing one day changes the total by the difference of that day's sums |
| Gallery.TryAddPhoto | frontend/app/gallery.tsx:56-57 | refused exactly when the selected day already has five photos |
| Gallery.AddPhotoEffect | frontend/app/gallery.tsx:65 | the selected day gains the photo at its end, keys stay unique, and other days keep their photos |
| Gallery.CapPreserved | frontend/app/gallery.tsx:56-57 | a guarded add keeps every day at five photos or fewer |
| Gallery.StorageAfterAdd | frontend/app/gallery.tsx:40-43 | an added photo adds exactly its estimate, so the total never decreases |
| Gallery.FirstWeekday | frontend/app/gallery.tsx:28-30 | the grid offset is in 0..6, 0 when the month starts on a Monday and 6 on a Sunday |
| Gallery.DaysInMonthShown | frontend/app/gallery.tsx:29-31 | `getDate()` of day 0 of the next month is the month's length |
| Gallery.MonthGrid | frontend/app/gallery.tsx:137-152 | the grid has one cell per offset blank and per day |
| Gallery.GridColumnsAreWeekdays | frontend/app/gallery.tsx:137-152 | blanks come first, day d sits at position offset + d − 1, and that position's column is the day's weekday |
| Gallery.DaysWithPhotosCount | frontend/app/gallery.tsx:49-53 | the count never exceeds the number of keys |
| Gallery.DaysWithPhotosCounted | frontend/app/gallery.tsx:49-53 | the count is the number of gallery days whose key falls in the month, and 0 exactly when none does |
| Gallery.InMonthIsDayRange | frontend/app/gallery.tsx:51 | a key matches the year and month exactly when its date falls between that month's first and last day |
| Gallery.SortedKeys | frontend/app/gallery.tsx:37 | the sorted keys are an ascending permutation of the keys |
| Gallery.FirstPhotoDate | frontend/app/gallery.tsx:38 | the least key, absent for an empty gallery or when the empty string is a key |
| Gallery.LastPhotoDate | frontend/app/gallery.tsx:39 | the greatest key, absent exactly for an empty gallery |
| Gallery.SortedKeyEnds | frontend/app/gallery.tsx:37-39 | the sorted keys run from a least to a greatest key |
| Gallery.Badges | frontend/app/gallery.tsx:263-264 | badge i is achieved exactly when the day count reaches its threshold |
| Gallery.BadgesFormPrefix | frontend/app/gallery.tsx:263-264 | achieved badges form a prefix of 1, 5, 20, 50, 100 |
| Gallery.GalleryBadges | frontend/app/gallery.tsx:263-264 | badge i is achieved exactly when the number of gallery days reaches its threshold; an empty gallery has no badge |
| Gallery.ZoomScale | frontend/app/gallery.tsx:281 | the scale stays in [1, 4]; a missing or zero gesture scale gives 1 |
| Gallery.ZoomScaleIdempotent | frontend/app/gallery.tsx:281 | clamping an already clamped scale changes nothing |

## Left out

- Time zones and daylight saving are not modelled. `new Date('YYYY-MM-DD')` is UTC midnight, while `setDate`, `getFullYear` and `getMonth` use local time. Here every date is a whole UTC day number and `now` is a real number of days.
- The three-month overview (`last3Months`, frontend/app/gallery.tsx:46-48) is left out, together with its month-overflow behaviour on the 29th to 31st.
- Only strict `YYYY-MM-DD` text counts as a date. The lenient date formats that JavaScript engines also accept are treated as unparseable.
- `parseFloat` and `Number` are modelled on a decimal grammar: optional sign, digits, optional point and digits. Leading whitespace, exponents, `Infinity` and hexadecimal forms are left out.
- IEEE floating point, `toFixed` and locale date formatting are not modelled. Numbers are exact reals, so `isFinite` in the ETA guard always holds.
- A stored weight is never NaN here. `Number(weight) || 0` in the map build and the `isNaN` check in `getLatestWeightKg` are therefore identities.
- Character codes are Unicode scalar values. `charCodeAt` counts UTF-16 code units, which differ only outside the Basic Multilingual Plane.
- `localeCompare` and `sort()` are modelled as character-by-character order. This is exact for day keys; locale collation of other text is not modelled.
- The store is not modelled: `ensureDay`, `setWeight`, `setGoal`, `goNextDay`, persistence and the store's `addPhoto`.
  - `Gallery.AddPhotoToDay` states the effect the gallery screen relies on: the photo is appended to the day, and the day is created when missing.
  - A day record without `drinks` reads as zero glasses and no sport here. The screen itself would fail on such a record.
- Goals.Weights: the model requires every weighed record's date to be a valid `YYYY-MM-DD` key. With an invalid one, `new Date(…)` is an invalid date and `toISOString()` throws a RangeError (frontend/app/goals.tsx:48-49); that failure is not modelled.
- `computeChains`, `getWeekRange`, `predictNextStart` and `toKey` are not part of this model. Their results (the chains' next percentages, the week key, today's key) are parameters.
- Image-picker permissions, capture and the data-URL construction's I/O (frontend/app/gallery.tsx:58-76) are left out. Only the count guard and the stored URL's shape are modelled.
- The JSX, styles, theme colours, haptics, navigation and modals are left out.
- The progress-bar width (frontend/app/goals.tsx:192) is presentation only and is left out.
- The celebration effects (frontend/app/index.tsx:47-48) are React effect bookkeeping and are left out.
- `bytesFromBase64`'s `catch` branch cannot be reached for a string argument, so it has no counterpart.
