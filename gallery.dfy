/**
 * The bookkeeping of the photo gallery: the size estimate of a photo, the
 * storage total, the Monday-first month grid, the photo days of a month, the
 * first and last photo day, the badges, the five-photos-per-day cap and the
 * zoom clamp of the viewer.
 *
 * The gallery maps a day key to that day's photos; here it is a sequence of
 * days with distinct keys, in the order `Object.keys` lists them. A photo is
 * an RFC 2397 data URL whose body is base64 (section 4 of RFC 4648).
 */
module Gallery {
  import opened Common
  import opened DayKeys
  import opened Calendar
  import opened Parsing

  datatype Photo = Photo(base64: string)

  datatype GalleryDay = GalleryDay(key: string, photos: seq<Photo>)

  /** Object keys are unique. */
  predicate KeysDistinct(g: seq<GalleryDay>)
  {
    forall i, j :: 0 <= i < j < |g| ==> g[i].key != g[j].key
  }

  /** `Object.keys(state.gallery)`. */
  function Keys(g: seq<GalleryDay>): (ks: seq<string>)
    ensures |ks| == |g|
    ensures forall i :: 0 <= i < |g| ==> ks[i] == g[i].key
  {
    seq(|g|, i requires 0 <= i < |g| => g[i].key)
  }

  // ---------------------------------------------------------------------------
  // Size estimate of one photo

  /** The length `bytesFromBase64` measures: the text between the first and
      any second comma, or the whole string when it has no comma. */
  function PayloadLength(b64: string): (l: nat)
    ensures ',' !in b64 ==> l == |b64|
    ensures ',' in b64 ==> var rest := b64[CommaIndex(b64) + 1..];
                           l <= |rest| && ',' !in rest[..l] && (l == |rest| || rest[l] == ',')
  {
    if ',' in b64 then CommaIndex(b64[CommaIndex(b64) + 1..]) else |b64|
  }

  /** `bytesFromBase64`: three bytes per four base64 characters, rounded down. */
  function BytesFromBase64(b64: string): (n: nat)
    ensures 4 * n <= 3 * PayloadLength(b64) < 4 * n + 4
  {
    3 * PayloadLength(b64) / 4
  }

  /** The data URL the picker result is stored as: the reported media type,
      `image/jpeg` when none is reported, then the base64 body. */
  function DataUrl(mimeType: Option<string>, body: string): string
  {
    "data:" + (if mimeType.Some? && mimeType.value != [] then mimeType.value else "image/jpeg") + ";base64," + body
  }

  /** For a data URL whose header and body hold no comma, the estimate measures
      exactly the body. */
  lemma DataUrlEstimate(mimeType: Option<string>, body: string)
    requires mimeType.Some? ==> ',' !in mimeType.value
    requires ',' !in body
    ensures BytesFromBase64(DataUrl(mimeType, body)) == 3 * |body| / 4
  {
    var header := "data:" + (if mimeType.Some? && mimeType.value != [] then mimeType.value else "image/jpeg") + ";base64";
    assert ',' !in header by {
      assert header == "data:" + (if mimeType.Some? && mimeType.value != [] then mimeType.value else "image/jpeg") + ";base64";
    }
    assert DataUrl(mimeType, body) == header + [','] + body;
    FirstCommaAt(header, body);
    assert (header + [','] + body)[|header| + 1..] == body;
  }

  /** A complete base64 body for `n` bytes has four characters per started
      group of three bytes, padding included. The estimate then exceeds the
      true size by at most the two padding characters' worth, and is exact when
      no padding is needed. */
  lemma EstimateOfPaddedBody(mimeType: Option<string>, body: string, n: nat)
    requires mimeType.Some? ==> ',' !in mimeType.value
    requires ',' !in body
    requires |body| == 4 * ((n + 2) / 3)
    ensures n <= BytesFromBase64(DataUrl(mimeType, body)) <= n + 2
    ensures n % 3 == 0 ==> BytesFromBase64(DataUrl(mimeType, body)) == n
  {
    DataUrlEstimate(mimeType, body);
    var q := (n + 2) / 3;
    ThreeQuartersOfGroups(q);
    WholeGroups(n);
  }

  lemma ThreeQuartersOfGroups(q: nat)
    ensures 3 * (4 * q) / 4 == 3 * q
  {
    assert 3 * (4 * q) == 4 * (3 * q);
  }

  /** Rounding a byte count up to whole groups of three adds at most two. */
  lemma WholeGroups(n: nat)
    ensures n <= 3 * ((n + 2) / 3) <= n + 2
    ensures n % 3 == 0 ==> 3 * ((n + 2) / 3) == n
  {
    var q, r := (n + 2) / 3, (n + 2) % 3;
    assert n + 2 == 3 * q + r;
    if n % 3 == 0 {
      assert n == 3 * (n / 3);
      assert n + 2 == 3 * (n / 3) + 2;
    }
  }

  // ---------------------------------------------------------------------------
  // Storage total

  /** The estimates of a day's photos, summed. */
  function PhotosBytes(ps: seq<Photo>): nat
  {
    if ps == [] then 0 else PhotosBytes(ps[..|ps| - 1]) + BytesFromBase64(ps[|ps| - 1].base64)
  }

  /** The estimates of every photo of every day, summed. */
  function TotalBytes(g: seq<GalleryDay>): nat
  {
    if g == [] then 0 else TotalBytes(g[..|g| - 1]) + PhotosBytes(g[|g| - 1].photos)
  }

  /** `storageBytes`: the nested loops over days and their photos. */
  method StorageBytes(g: seq<GalleryDay>) returns (sum: nat)
    ensures sum == TotalBytes(g)
  {
    sum := 0;
    var i := 0;
    while i < |g|
      invariant 0 <= i <= |g|
      invariant sum == TotalBytes(g[..i])
    {
      var photos := g[i].photos;
      var j := 0;
      while j < |photos|
        invariant 0 <= j <= |photos|
        invariant sum == TotalBytes(g[..i]) + PhotosBytes(photos[..j])
      {
        assert photos[..j + 1][..j] == photos[..j];
        sum := sum + BytesFromBase64(photos[j].base64);
        j := j + 1;
      }
      assert photos[..j] == photos;
      assert g[..i + 1][..i] == g[..i];
      i := i + 1;
    }
    assert g[..i] == g;
  }

  /** Replacing one day changes the total by the difference of that day's sums. */
  lemma {:induction false} TotalBytesUpdate(g: seq<GalleryDay>, k: nat, d: GalleryDay)
    requires k < |g|
    ensures TotalBytes(g[k := d]) + PhotosBytes(g[k].photos) == TotalBytes(g) + PhotosBytes(d.photos)
  {
    var n := |g|;
    var h := g[k := d];
    if k == n - 1 {
      assert h[..n - 1] == g[..n - 1];
    } else {
      assert h[..n - 1] == g[..n - 1][k := d];
      TotalBytesUpdate(g[..n - 1], k, d);
    }
  }

  // ---------------------------------------------------------------------------
  // Adding a photo

  /** Where `key` first occurs, or `|g|`. */
  function IndexOfKey(g: seq<GalleryDay>, key: string): (i: nat)
    ensures i <= |g|
    ensures i < |g| ==> g[i].key == key
    ensures forall j :: 0 <= j < i ==> g[j].key != key
  {
    if g == [] then 0
    else if g[0].key == key then 0
    else 1 + IndexOfKey(g[1..], key)
  }

  /** `state.gallery[key] || []`. */
  function PhotosOf(g: seq<GalleryDay>, key: string): seq<Photo>
  {
    var i := IndexOfKey(g, key);
    if i < |g| then g[i].photos else []
  }

  /** The store's `addPhoto` as this screen relies on it: the photo is
      appended to the day's list, which is created when missing. */
  function AddPhotoToDay(g: seq<GalleryDay>, key: string, p: Photo): seq<GalleryDay>
  {
    var i := IndexOfKey(g, key);
    if i < |g| then g[i := GalleryDay(key, g[i].photos + [p])] else g + [GalleryDay(key, [p])]
  }

  /** `addPhoto` on the screen: refused (with an alert) once the selected day
      holds five photos. */
  function TryAddPhoto(g: seq<GalleryDay>, key: string, p: Photo): (r: Option<seq<GalleryDay>>)
    ensures r.None? <==> |PhotosOf(g, key)| >= 5
    ensures r.Some? ==> r.value == AddPhotoToDay(g, key, p)
  {
    if |PhotosOf(g, key)| >= 5 then None else Some(AddPhotoToDay(g, key, p))
  }

  predicate AtMostFivePerDay(g: seq<GalleryDay>)
  {
    forall i :: 0 <= i < |g| ==> |g[i].photos| <= 5
  }

  /** Only the selected day changes: it gains the photo at its end, keys stay
      unique, and every other day keeps its photos. */
  lemma AddPhotoEffect(g: seq<GalleryDay>, key: string, p: Photo)
    requires KeysDistinct(g)
    ensures var h := AddPhotoToDay(g, key, p);
            KeysDistinct(h)
            && PhotosOf(h, key) == PhotosOf(g, key) + [p]
            && forall other :: other != key ==> PhotosOf(h, other) == PhotosOf(g, other)
  {
    var i := IndexOfKey(g, key);
    var h := AddPhotoToDay(g, key, p);
    if i < |g| {
      assert Keys(h) == Keys(g);
      forall other ensures IndexOfKey(h, other) == IndexOfKey(g, other) {
        SameKeysSameIndex(g, h, other);
      }
    } else {
      forall other | other != key ensures PhotosOf(h, other) == PhotosOf(g, other) {
        IndexOfKeyAppend(g, GalleryDay(key, [p]), other);
      }
      IndexOfKeyAppend(g, GalleryDay(key, [p]), key);
    }
  }

  lemma {:induction false} SameKeysSameIndex(g: seq<GalleryDay>, h: seq<GalleryDay>, key: string)
    requires Keys(g) == Keys(h)
    ensures IndexOfKey(g, key) == IndexOfKey(h, key)
  {
    if g != [] && g[0].key != key {
      assert Keys(g[1..]) == Keys(g)[1..] && Keys(h[1..]) == Keys(h)[1..];
      SameKeysSameIndex(g[1..], h[1..], key);
    }
  }

  lemma {:induction false} IndexOfKeyAppend(g: seq<GalleryDay>, d: GalleryDay, key: string)
    ensures IndexOfKey(g + [d], key) == if IndexOfKey(g, key) < |g| || d.key == key then IndexOfKey(g, key) else |g| + 1
  {
    if g == [] {
      assert [d][1..] == [];
    } else {
      assert (g + [d])[1..] == g[1..] + [d];
      IndexOfKeyAppend(g[1..], d, key);
    }
  }

  /** The cap holds for every day once it holds before a guarded add. */
  lemma CapPreserved(g: seq<GalleryDay>, key: string, p: Photo)
    requires AtMostFivePerDay(g)
    ensures TryAddPhoto(g, key, p).Some? ==> AtMostFivePerDay(TryAddPhoto(g, key, p).value)
  {
  }

  /** An added photo adds exactly its own estimate to the storage total, so the
      total never decreases. */
  lemma StorageAfterAdd(g: seq<GalleryDay>, key: string, p: Photo)
    ensures TotalBytes(AddPhotoToDay(g, key, p)) == TotalBytes(g) + BytesFromBase64(p.base64)
  {
    var i := IndexOfKey(g, key);
    if i < |g| {
      var ps := g[i].photos;
      TotalBytesUpdate(g, i, GalleryDay(key, ps + [p]));
      assert (ps + [p])[..|ps|] == ps;
    } else {
      var h := g + [GalleryDay(key, [p])];
      assert h[..|g|] == g;
      assert [p][..0] == [];
      assert PhotosBytes([p]) == BytesFromBase64(p.base64);
      assert TotalBytes(h) == TotalBytes(h[..|g|]) + PhotosBytes(h[|g|].photos);
    }
  }

  // ---------------------------------------------------------------------------
  // The month grid

  /** `firstWeekday`: the Monday-first column of the first of the month. */
  function FirstWeekday(y: int, m: int): (c: int)
    requires 1 <= m <= 12
    ensures 0 <= c <= 6
    ensures c == 0 <==> Weekday(DayNumber(y, m, 1)) == 1
    ensures c == 6 <==> Weekday(DayNumber(y, m, 1)) == 0
  {
    MondayColumn(DayNumber(y, m, 1))
  }

  /** `monthEnd.getDate()`: `new Date(y, m + 1, 0)` is the day before the first
      of the next month (of the next year after December); its day of the
      month is its distance from the first of this month, plus one. */
  function DaysInMonthShown(y: int, m: int): (n: int)
    requires 1 <= m <= 12
    ensures n == DaysInMonth(y, m)
  {
    MonthEnd(y, m);
    var nextFirst := if m == 12 then DayNumber(y + 1, 1, 1) else DayNumber(y, m + 1, 1);
    (nextFirst - 1) - DayNumber(y, m, 1) + 1
  }

  datatype Cell = Blank | DayCell(day: int)

  /** The calendar card: `firstWeekday` blanks, then one cell per day. */
  function MonthGrid(y: int, m: int): (cells: seq<Cell>)
    requires 1 <= m <= 12
    ensures |cells| == FirstWeekday(y, m) + DaysInMonth(y, m)
  {
    seq(FirstWeekday(y, m), _ => Blank) + seq(DaysInMonthShown(y, m), i => DayCell(i + 1))
  }

  /** Every date of the month has one cell, and each cell sits in the column
      of its weekday (Monday first) in a seven-column layout. */
  lemma GridColumnsAreWeekdays(y: int, m: int)
    requires 1 <= m <= 12
    ensures var cells, off := MonthGrid(y, m), FirstWeekday(y, m);
            (forall i :: 0 <= i < off ==> cells[i] == Blank)
            && forall d :: 1 <= d <= DaysInMonth(y, m) ==>
                 cells[off + d - 1] == DayCell(d) && IsValidDate(y, m, d)
                 && (off + d - 1) % 7 == MondayColumn(DayNumber(y, m, d))
  {
    GridCells(y, m);
    forall d | 1 <= d <= DaysInMonth(y, m)
      ensures IsValidDate(y, m, d)
              && (FirstWeekday(y, m) + d - 1) % 7 == MondayColumn(DayNumber(y, m, d))
    {
      DayColumn(y, m, d);
    }
  }

  /** The grid is the leading blanks, then the days of the month in order. */
  lemma GridCells(y: int, m: int)
    requires 1 <= m <= 12
    ensures var cells, off := MonthGrid(y, m), FirstWeekday(y, m);
            (forall i :: 0 <= i < off ==> cells[i] == Blank)
            && forall d :: 1 <= d <= DaysInMonth(y, m) ==> cells[off + d - 1] == DayCell(d)
  {
    var cells, off, n := MonthGrid(y, m), FirstWeekday(y, m), DaysInMonth(y, m);
    var blanks, dates := seq(off, _ => Blank), seq(n, i => DayCell(i + 1));
    assert cells == blanks + dates;
    forall d | 1 <= d <= n
      ensures cells[off + d - 1] == DayCell(d)
    {
      assert cells[off + d - 1] == dates[d - 1];
    }
  }

  /** The day `d` of the month sits `d - 1` columns after the first, wrapping. */
  lemma DayColumn(y: int, m: int, d: int)
    requires 1 <= m <= 12 && 1 <= d <= DaysInMonth(y, m)
    ensures IsValidDate(y, m, d)
    ensures (FirstWeekday(y, m) + d - 1) % 7 == MondayColumn(DayNumber(y, m, d))
  {
    var first := DayNumber(y, m, 1);
    assert DayNumber(y, m, d) == first + (d - 1);
    MondayColumnAdvances(first, d - 1);
  }

  // ---------------------------------------------------------------------------
  // Photo days per month, first and last photo day, badges

  /** The key names a date in year `y`, month `m` (1 to 12). A key that is not
      a date parses to an invalid `Date` and belongs to no month. */
  predicate InMonth(k: string, y: int, m: int)
  {
    IsDayKey(k) && YearOf(k) == y && MonthOf(k) == m
  }

  /** `daysWithPhotosCount`: how many gallery keys fall in the month. */
  function DaysWithPhotosCount(g: seq<GalleryDay>, y: int, m: int): (n: nat)
    ensures n <= |g|
  {
    |Filter(Keys(g), (k: string) => InMonth(k, y, m))|
  }

  /** The count is the number of gallery days whose key falls in the month,
      and it is 0 exactly when none does. */
  lemma DaysWithPhotosCounted(g: seq<GalleryDay>, y: int, m: int)
    ensures DaysWithPhotosCount(g, y, m) == |set i | 0 <= i < |g| && InMonth(g[i].key, y, m)|
    ensures DaysWithPhotosCount(g, y, m) == 0 <==> forall i :: 0 <= i < |g| ==> !InMonth(g[i].key, y, m)
  {
    var inMonth := (k: string) => InMonth(k, y, m);
    var ks := Keys(g);
    FilterCount(ks, inMonth);
    var days := set i | 0 <= i < |g| && InMonth(g[i].key, y, m);
    assert Positions(ks, inMonth) == days;
    if DaysWithPhotosCount(g, y, m) == 0 {
      assert days == {};
    } else {
      var i :| i in days;
    }
  }

  /** Matching the year and month fields of a key is the same as its date
      falling between the first and the last day of that month. */
  lemma InMonthIsDayRange(k: string, y: int, m: int)
    requires IsDayKey(k) && 1 <= m <= 12
    ensures InMonth(k, y, m) <==>
              DayNumber(y, m, 1) <= KeyDayNumber(k) < DayNumber(y, m, 1) + DaysInMonth(y, m)
  {
    var ky, km, kd := YearOf(k), MonthOf(k), DayOfMonthOf(k);
    var last := DaysInMonth(y, m);
    MonthEnd(y, m);
    if !(ky == y && km == m) {
      if TripleLe(ky, km, kd, y, m, 1) {
        DayNumberStrictlyIncreasing(ky, km, kd, y, m, 1);
      } else {
        DayNumberStrictlyIncreasing(y, m, last, ky, km, kd);
      }
    }
  }

  /** The keys in string order: `Object.keys(...).sort()`. */
  function SortedKeys(g: seq<GalleryDay>): (ks: seq<string>)
    ensures SortedBy(ks, (k: string) => k)
    ensures multiset(ks) == multiset(Keys(g)) && |ks| == |g|
  {
    SortBy(Keys(g), (k: string) => k)
  }

  /** `firstPhotoDate`: the least key, unless it is the empty string (which is
      falsy). */
  function FirstPhotoDate(g: seq<GalleryDay>): (first: Option<string>)
    ensures first.None? <==> g == [] || "" in Keys(g)
    ensures first.Some? ==> first.value in Keys(g) && forall k :: k in Keys(g) ==> Le(first.value, k)
  {
    var ks := SortedKeys(g);
    if ks == [] then None
    else
      SortedKeyEnds(g);
      if ks[0] != "" then Some(ks[0]) else None
  }

  /** `lastPhotoDate`: the greatest key, when there is one. */
  function LastPhotoDate(g: seq<GalleryDay>): (last: Option<string>)
    ensures last.None? <==> g == []
    ensures last.Some? ==> last.value in Keys(g) && forall k :: k in Keys(g) ==> Le(k, last.value)
  {
    var ks := SortedKeys(g);
    if ks == [] then None
    else
      SortedKeyEnds(g);
      Some(ks[|ks| - 1])
  }

  /** The sorted keys start with a least key and end with a greatest one; the
      least is the empty string exactly when the empty string is a key. */
  lemma SortedKeyEnds(g: seq<GalleryDay>)
    requires g != []
    ensures var ks := SortedKeys(g);
            ks[0] in Keys(g) && ks[|ks| - 1] in Keys(g)
            && (forall k :: k in Keys(g) ==> Le(ks[0], k) && Le(k, ks[|ks| - 1]))
            && (ks[0] == "" <==> "" in Keys(g))
  {
    var ks := SortedKeys(g);
    SameMembers(ks, Keys(g));
    SortedEnds(ks, (k: string) => k);
    EmptyKeyFirst(ks);
  }

  /** Sequences that are permutations of each other hold the same elements. */
  lemma SameMembers(a: seq<string>, b: seq<string>)
    requires multiset(a) == multiset(b)
    ensures forall x :: x in a <==> x in b
  {
    forall x ensures x in a <==> x in b {
      assert x in a <==> x in multiset(a);
      assert x in b <==> x in multiset(b);
    }
  }

  /** Only the empty string precedes the empty string. */
  lemma EmptyKeyFirst(ks: seq<string>)
    requires ks != [] && forall k :: k in ks ==> Le(ks[0], k)
    ensures ks[0] == "" <==> "" in ks
  {
    if "" in ks {
      assert Le(ks[0], "");
    }
  }

  /** The photo-badge thresholds, in days with photos. */
  const BadgeThresholds: seq<nat> := [1, 5, 20, 50, 100]

  /** Which badges are achieved with `photoDays` days holding photos. */
  function Badges(photoDays: nat): (achieved: seq<bool>)
    ensures |achieved| == |BadgeThresholds|
    ensures forall i :: 0 <= i < |achieved| ==> (achieved[i] <==> photoDays >= BadgeThresholds[i])
  {
    seq(|BadgeThresholds|, i requires 0 <= i < |BadgeThresholds| => photoDays >= BadgeThresholds[i])
  }

  /** The achieved badges are a prefix of the list: the thresholds increase. */
  lemma BadgesFormPrefix(photoDays: nat, i: nat, j: nat)
    requires i < j < |BadgeThresholds|
    ensures Badges(photoDays)[j] ==> Badges(photoDays)[i]
  {
    assert BadgeThresholds[i] < BadgeThresholds[j];
  }

  /** The badges of a gallery count its keys. */
  function GalleryBadges(g: seq<GalleryDay>): (achieved: seq<bool>)
    ensures |achieved| == |BadgeThresholds|
    ensures g == [] ==> forall i :: 0 <= i < |achieved| ==> !achieved[i]
    ensures forall i :: 0 <= i < |achieved| ==> (achieved[i] <==> |g| >= BadgeThresholds[i])
  {
    Badges(|Keys(g)|)
  }

  // ---------------------------------------------------------------------------
  // Viewer zoom

  /** The pinch handler: the gesture's scale, 1 when it is missing or zero,
      kept within [1, 4]. */
  function ZoomScale(gestureScale: Option<real>): (s: real)
    ensures 1.0 <= s <= 4.0
    ensures !Present(gestureScale) ==> s == 1.0
    ensures Present(gestureScale) && 1.0 <= gestureScale.value <= 4.0 ==> s == gestureScale.value
  {
    Clamp(if Present(gestureScale) then gestureScale.value else 1.0, 1.0, 4.0)
  }

  /** A scale already in range passes through unchanged. */
  lemma ZoomScaleIdempotent(gestureScale: Option<real>)
    ensures ZoomScale(Some(ZoomScale(gestureScale))) == ZoomScale(gestureScale)
  {
  }
}
