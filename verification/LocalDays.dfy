/**
 Days in the viewer's time zone: the zone, its midnights, a period and the buckets it is cut into.
 Instants are microseconds of UTC and wall clocks microseconds of local time, both counted from the
 midnight before date 1, so a wall clock's date is its whole days.
 */
module LocalDays {
  import opened Rows
  import opened Calendar

  const HOUR: int := 3_600_000_000
  const DAY: int := 24 * HOUR
  const DEFAULT_PERIOD_DAYS: int := 30
  const MAX_PERIOD_DAYS: int := 731

  /** What the zone database answers: the wall clock at an instant, and the instant a date's midnight is. */
  datatype Zone = Zone(wall: int -> int, midnight: int -> int) {
    /** The local date of an instant. */
    function Date(): int -> int { at => wall(at) / DAY }

    function HourAt(at: int): (hour: int)
      ensures 0 <= hour < 24
    {
      (wall(at) % DAY) / HOUR
    }

    /** The wall clock reads an hour of its date: from that hour to the next. */
    predicate InHour(at: int, hour: int) {
      Date()(at) * DAY + hour * HOUR <= wall(at) < Date()(at) * DAY + (hour + 1) * HOUR
    }

    /** The hypothesis every count of days rests on. */
    ghost predicate Regular() {
      DatesAscend(Date()) && MidnightsAreFirst(Date(), midnight)
    }
  }

  /** A date is its midnight's wall clock and the day after it; an hour likewise. */
  lemma ClockReads(zone: Zone, at: int, hour: int)
    ensures zone.Date()(at) * DAY <= zone.wall(at) < (zone.Date()(at) + 1) * DAY
    ensures 0 <= hour < 24 ==> (zone.HourAt(at) == hour <==> zone.InHour(at, hour))
  {
    var clock, date := zone.wall(at), zone.Date()(at);
    assert clock == date * DAY + clock % DAY;
    var past := clock % DAY;
    assert past == (past / HOUR) * HOUR + past % HOUR;
    Hours(past / HOUR, hour);
  }

  lemma Hours(a: int, b: int)
    ensures a < b ==> (a + 1) * HOUR <= b * HOUR
    ensures a > b ==> (b + 1) * HOUR <= a * HOUR
  {
  }

  /** The local date never goes back. */
  ghost predicate DatesAscend(date: int -> int) {
    forall t, u :: t <= u ==> date(t) <= date(u)
  }

  /** A date's midnight is the first instant at which the local date is that one or a later one. */
  ghost predicate MidnightsAreFirst(date: int -> int, midnight: int -> int) {
    && (forall d :: d <= date(midnight(d)))
    && (forall d, t :: t < midnight(d) ==> date(t) < d)
  }

  /** Midnights and dates agree: the two together, as the two ways of counting use them. */
  ghost predicate Aligned(date: int -> int, midnight: int -> int) {
    forall t, d :: midnight(d) <= t <==> d <= date(t)
  }

  lemma RegularIffAligned(date: int -> int, midnight: int -> int)
    ensures DatesAscend(date) && MidnightsAreFirst(date, midnight) <==> Aligned(date, midnight)
  {
    if DatesAscend(date) && MidnightsAreFirst(date, midnight) {
      forall t, d ensures midnight(d) <= t <==> d <= date(t) {
        assert midnight(d) <= t ==> date(midnight(d)) <= date(t);
      }
    }
    if Aligned(date, midnight) {
      forall d, t | t < midnight(d) ensures date(t) < d {
        assert midnight(d) <= t <==> d <= date(t);
      }
      forall d ensures d <= date(midnight(d)) {
        var t := midnight(d);
        assert midnight(d) <= t <==> d <= date(t);
      }
      forall t, u | t <= u ensures date(t) <= date(u) {
        var d := date(t);
        assert midnight(d) <= t <==> d <= date(t);
        assert midnight(d) <= u <==> d <= date(u);
      }
    }
  }

  // ---------------------------------------------------------------- Periods

  datatype Period = Period(first: int, last: int)

  datatype PeriodError = OnlyOneEnd | PeriodAndRange | FromAfterTo | StartsAfterToday | TooLong

  datatype Resolved = Ok(period: Period) | Err(error: PeriodError)

  /** The period a request names. Python's `period or DEFAULT` also replaces 0. */
  function Resolve(today: int, period: Option<int>, first: Option<int>, last: Option<int>): (r: Resolved)
    ensures r.Ok? <==>
      || (first.None? && last.None?)
      || (first.Some? && last.Some? && period.None? && first.value <= last.value && first.value <= today
          && (last.value - first.value < MAX_PERIOD_DAYS || today - first.value < MAX_PERIOD_DAYS))
    ensures r == Err(OnlyOneEnd) <==> first.None? != last.None?
    ensures r == Err(PeriodAndRange) <==> first.Some? && last.Some? && period.Some?
    ensures r == Err(FromAfterTo) <==> first.Some? && last.Some? && period.None? && first.value > last.value
    ensures r == Err(StartsAfterToday) <==>
      first.Some? && last.Some? && period.None? && today < first.value <= last.value
    ensures r.Ok? && first.Some? ==>
      first.value == r.period.first <= r.period.last <= today && r.period.last <= last.value
      && r.period.last - r.period.first < MAX_PERIOD_DAYS
    ensures r.Ok? && first.None? ==>
      var days := r.period.last - r.period.first + 1;
      r.period.last == today && days == match period case None => DEFAULT_PERIOD_DAYS case Some(n) => if n == 0 then 30 else n
  {
    if first.None? != last.None? then Err(OnlyOneEnd)
    else if first.Some? && period.Some? then Err(PeriodAndRange)
    else if first.None? then
      var length := if period.None? || period.value == 0 then DEFAULT_PERIOD_DAYS else period.value;
      Ok(Period(today - (length - 1), today))
    else if first.value > last.value then Err(FromAfterTo)
    else
      var end := if last.value <= today then last.value else today;
      if first.value > end then Err(StartsAfterToday)
      else if end - first.value + 1 > MAX_PERIOD_DAYS then Err(TooLong)
      else Ok(Period(first.value, end))
  }

  // ---------------------------------------------------------------- Buckets

  datatype GroupBy = ByDay | ByWeek | ByMonth

  /** Which day, ISO week or month a date is in: equal for two dates exactly when they share it. */
  function BucketKey(groupBy: GroupBy): int -> int {
    match groupBy
    case ByDay => day => day
    case ByWeek => day => (day - 1) / 7
    case ByMonth => day => if day < 1 then 0 else var c := CivilOf(day); 12 * c.year + c.month - 1
  }

  /** The last date of `day`'s bucket, before it is clipped to the period. */
  function BucketEnd(groupBy: GroupBy): int -> int {
    match groupBy
    case ByDay => day => day
    case ByWeek => day => day + (6 - Weekday(day))
    case ByMonth => day => if day < 1 then day else Ordinal(FirstOfNextMonth(CivilOf(day))) - 1
  }

  /** `end` is where each key's run of dates ends. */
  ghost predicate EndsRuns(key: int -> int, end: int -> int) {
    && (forall start :: 1 <= start ==> start <= end(start))
    && (forall start, day :: 1 <= start <= day ==> (key(day) == key(start) <==> day <= end(start)))
  }

  /** A bucket's end is the last date of its week or month. */
  lemma BucketEndIsLast(groupBy: GroupBy)
    ensures EndsRuns(BucketKey(groupBy), BucketEnd(groupBy))
  {
    hide CivilOf, Ordinal, FirstOfNextMonth;
    var key, end := BucketKey(groupBy), BucketEnd(groupBy);
    if groupBy == ByMonth {
      forall start, day | 1 <= start <= day ensures key(day) == key(start) <==> day <= end(start) {
        MonthIsAnInterval(start, day);
      }
      forall start | 1 <= start ensures start <= end(start) {
        MonthIsAnInterval(start, start);
      }
    }
  }

  type Bucket = (int, int)

  /** Buckets follow each other without a gap, within [first, next). */
  ghost predicate Chained(buckets: seq<Bucket>, first: int, next: int) {
    && (forall i :: 0 <= i < |buckets| ==> first <= buckets[i].0 <= buckets[i].1 < next)
    && (forall i :: 0 < i < |buckets| ==> buckets[i].0 == buckets[i - 1].1 + 1)
    && (buckets != [] ==> buckets[0].0 == first && buckets[|buckets| - 1].1 == next - 1)
    && (buckets == [] ==> next <= first)
  }

  /** They tile first..last, and each holds exactly the period's dates of one key. */
  ghost predicate Tiles(buckets: seq<Bucket>, first: int, last: int, key: int -> int) {
    && (first > last ==> buckets == [])
    && (first <= last ==> Chained(buckets, first, last + 1))
    && forall i, d :: 0 <= i < |buckets| && first <= d <= last
         ==> (buckets[i].0 <= d <= buckets[i].1 <==> key(d) == key(buckets[i].0))
  }

  /** A week ends on its Sunday, a month on its last day. */
  predicate EndsNaturally(groupBy: GroupBy, end: int) {
    match groupBy
    case ByDay => true
    case ByWeek => Weekday(end) == 6
    case ByMonth => end >= 1 && var c := CivilOf(end); c.day == DaysInMonth(c.year, c.month)
  }

  method Buckets(period: Period, groupBy: GroupBy) returns (buckets: seq<Bucket>)
    requires period.first >= 1
    ensures Tiles(buckets, period.first, period.last, BucketKey(groupBy))
    ensures forall i :: 0 <= i < |buckets| - 1 ==> EndsNaturally(groupBy, buckets[i].1)
  {
    hide BucketEnd, BucketKey, EndsNaturally, CivilOf;
    ghost var ends := BucketEnd(groupBy);
    BucketEndIsLast(groupBy);
    buckets := [];
    var day := period.first;
    while day <= period.last
      invariant period.first <= day
      invariant buckets != [] ==> day <= period.last + 1
      invariant Chained(buckets, period.first, day)
      invariant ClippedRuns(buckets, ends, period.last)
    {
      var end := BucketEnd(groupBy)(day);
      end := if end <= period.last then end else period.last;
      OneMoreRun(buckets, period.first, period.last, day, end, ends);
      buckets := buckets + [(day, end)];
      day := end + 1;
    }
    RunsTile(buckets, period.first, period.last, day, BucketKey(groupBy), ends);
    RunsEndNaturally(buckets, period.first, period.last, day, groupBy);
  }

  /** Each bucket ends where its run does, or at `last` when that comes first. */
  ghost predicate ClippedRuns(buckets: seq<Bucket>, end: int -> int, last: int) {
    forall i :: 0 <= i < |buckets|
      ==> buckets[i].1 == if end(buckets[i].0) <= last then end(buckets[i].0) else last
  }

  lemma OneMoreRun(buckets: seq<Bucket>, first: int, last: int, day: int, to: int, end: int -> int)
    requires first <= day <= to && Chained(buckets, first, day) && ClippedRuns(buckets, end, last)
    requires to == if end(day) <= last then end(day) else last
    ensures Chained(buckets + [(day, to)], first, to + 1) && ClippedRuns(buckets + [(day, to)], end, last)
  {
  }

  lemma {:induction false} ChainedAscend(buckets: seq<Bucket>, first: int, next: int, i: int, j: int)
    requires Chained(buckets, first, next) && 0 <= i < j < |buckets|
    ensures buckets[i].1 < buckets[j].0
    decreases j
  {
    if i + 1 < j {
      ChainedAscend(buckets, first, next, i, j - 1);
    }
  }

  lemma RunsTile(buckets: seq<Bucket>, first: int, last: int, next: int, key: int -> int, end: int -> int)
    requires 1 <= first <= next && last < next && EndsRuns(key, end)
    requires Chained(buckets, first, next) && ClippedRuns(buckets, end, last)
    requires buckets != [] ==> next <= last + 1
    ensures Tiles(buckets, first, last, key)
  {
    forall i, d | 0 <= i < |buckets| && first <= d <= last
      ensures buckets[i].0 <= d <= buckets[i].1 <==> key(d) == key(buckets[i].0)
    {
      if d < buckets[i].0 {
        var j := BucketHolding(buckets, first, next, i, d);
        ChainedAscend(buckets, first, next, j, i);
        assert key(d) == key(buckets[j].0) && key(buckets[i].0) != key(buckets[j].0);
      }
    }
  }

  /** A date before bucket `i` and not before the first is in an earlier one. */
  lemma {:induction false} BucketHolding(buckets: seq<Bucket>, first: int, next: int, i: nat, d: int) returns (j: nat)
    requires Chained(buckets, first, next) && i < |buckets| && first <= d < buckets[i].0
    ensures j < i && buckets[j].0 <= d <= buckets[j].1
  {
    if buckets[i - 1].0 <= d {
      j := i - 1;
    } else {
      j := BucketHolding(buckets, first, next, i - 1, d);
    }
  }

  lemma RunsEndNaturally(buckets: seq<Bucket>, first: int, last: int, next: int, groupBy: GroupBy)
    requires 1 <= first && Chained(buckets, first, next) && ClippedRuns(buckets, BucketEnd(groupBy), last)
    requires buckets != [] ==> next <= last + 1
    ensures forall i :: 0 <= i < |buckets| - 1 ==> EndsNaturally(groupBy, buckets[i].1)
  {
    forall i | 0 <= i < |buckets| - 1
      ensures EndsNaturally(groupBy, buckets[i].1)
    {
      ChainedAscend(buckets, first, next, i, |buckets| - 1);
      BucketEndIsNatural(groupBy, buckets[i].0);
    }
  }

  lemma BucketEndIsNatural(groupBy: GroupBy, day: int)
    requires day >= 1
    ensures EndsNaturally(groupBy, BucketEnd(groupBy)(day))
  {
    hide CivilOf, Ordinal;
    match groupBy
    case ByDay =>
    case ByWeek => WeekEnds(day);
    case ByMonth => MonthEnds(day);
  }

  /** The contract leaves `Buckets` no choice: a period has one tiling by day, week or month. */
  lemma {:induction false} OneTiling(a: seq<Bucket>, b: seq<Bucket>, first: int, last: int, key: int -> int)
    requires Tiles(a, first, last, key) && Tiles(b, first, last, key)
    ensures a == b
    decreases |a|
  {
    if a != [] {
      FirstEndsNoLater(a, b, first, last, key);
      FirstEndsNoLater(b, a, first, last, key);
      TailTiles(a, first, last, key);
      TailTiles(b, first, last, key);
      OneTiling(a[1..], b[1..], a[0].1 + 1, last, key);
      assert a == [a[0]] + a[1..] && b == [b[0]] + b[1..];
    }
  }

  lemma FirstEndsNoLater(a: seq<Bucket>, b: seq<Bucket>, first: int, last: int, key: int -> int)
    requires Tiles(a, first, last, key) && Tiles(b, first, last, key) && a != []
    ensures b != [] && a[0].0 == b[0].0 && a[0].1 <= b[0].1
  {
    var d := a[0].1;
    assert a[0].0 <= d <= a[0].1;
    assert key(d) == key(a[0].0);
    assert b[0].0 <= d <= b[0].1;
  }

  lemma TailTiles(buckets: seq<Bucket>, first: int, last: int, key: int -> int)
    requires Tiles(buckets, first, last, key) && buckets != []
    ensures Tiles(buckets[1..], buckets[0].1 + 1, last, key)
  {
    var tail, next := buckets[1..], buckets[0].1 + 1;
    forall i | 0 <= i < |tail| ensures next <= tail[i].0 {
      ChainedAscend(buckets, first, last + 1, 0, i + 1);
    }
    forall i, d | 0 <= i < |tail| && next <= d <= last
      ensures tail[i].0 <= d <= tail[i].1 <==> key(d) == key(tail[i].0)
    {
      assert tail[i] == buckets[i + 1];
    }
  }

  // ---------------------------------------------------------------- Finding a date's bucket

  ghost predicate Ascending(values: seq<int>) {
    forall i, j :: 0 <= i < j < |values| ==> values[i] <= values[j]
  }

  /** `bisect_right`: where `x` goes in an ascending list, after what equals it. */
  function BisectRight(values: seq<int>, x: int): (at: nat)
    requires Ascending(values)
    ensures at <= |values|
    ensures forall i :: 0 <= i < at ==> values[i] <= x
    ensures forall i :: at <= i < |values| ==> values[i] > x
  {
    if values == [] then 0
    else if values[|values| - 1] <= x then |values|
    else BisectRight(values[..|values| - 1], x)
  }

  function Starts(buckets: seq<Bucket>): (starts: seq<int>)
    ensures |starts| == |buckets| && forall i :: 0 <= i < |buckets| ==> starts[i] == buckets[i].0
  {
    seq(|buckets|, i requires 0 <= i < |buckets| => buckets[i].0)
  }

  /** `bisect_right(starts, day) - 1` is the one bucket holding `day`. */
  lemma TheBucket(buckets: seq<Bucket>, first: int, last: int, key: int -> int, day: int)
    requires first <= day <= last && Tiles(buckets, first, last, key)
    ensures Ascending(Starts(buckets))
    ensures var at := BisectRight(Starts(buckets), day) - 1;
            0 <= at < |buckets| && forall i :: 0 <= i < |buckets| ==> (buckets[i].0 <= day <= buckets[i].1 <==> i == at)
  {
    forall i, j | 0 <= i < j < |buckets| ensures buckets[i].1 < buckets[j].0 {
      ChainedAscend(buckets, first, last + 1, i, j);
    }
    var starts := Starts(buckets);
    assert starts[0] == first;
    var at := BisectRight(starts, day) - 1;
    assert at >= 0;
    assert starts[at] <= day;
    assert at + 1 < |buckets| ==> starts[at + 1] > day && buckets[at + 1].0 == buckets[at].1 + 1;
  }

  // ---------------------------------------------------------------- Counting between midnights

  /** The midnight each of `days` dates starts at, then the one after the last. */
  function Bounds(midnight: int -> int, first: int, days: nat): (bounds: seq<int>)
    ensures |bounds| == days + 1 && forall i :: 0 <= i <= days ==> bounds[i] == midnight(first + i)
  {
    seq(days + 1, i requires 0 <= i <= days => midnight(first + i))
  }

  /** Every seventh value: the weekly route's `[::7]`. */
  function EverySeventh(values: seq<int>): (kept: seq<int>)
    ensures |kept| == (|values| + 6) / 7
    ensures forall i :: 0 <= i < |kept| ==> kept[i] == values[7 * i]
  {
    seq((|values| + 6) / 7, i requires 0 <= i < (|values| + 6) / 7 => values[7 * i])
  }

  function Between(start: int, end: int): int -> bool {
    at => start <= at < end
  }

  /** How many of the visits fall between each two bounds, of those between the first and the last. */
  function CountPerPeriod(visits: seq<int>, bounds: seq<int>): (counts: seq<nat>)
    requires |bounds| >= 1
    ensures |counts| == |bounds| - 1
  {
    var inRange := Filter(visits, Between(bounds[0], bounds[|bounds| - 1]));
    seq(|bounds| - 1, i requires 0 <= i < |bounds| - 1 => Count(inRange, Between(bounds[i], bounds[i + 1])))
  }

  /** The last `count` dates, with the visits in each. */
  function LastDays(visits: seq<int>, midnight: int -> int, today: int, count: nat): (days: seq<(int, nat)>)
    ensures |days| == count
    ensures forall i :: 0 <= i < count ==> days[i].0 == today - (count - 1) + i
  {
    var first := today - (count - 1);
    var counts := CountPerPeriod(visits, Bounds(midnight, first, count));
    seq(count, i requires 0 <= i < count => (first + i, counts[i]))
  }

  /** The visits whose local date is from `first` to `last`. */
  function OnDates(date: int -> int, first: int, last: int): int -> bool {
    at => first <= date(at) <= last
  }

  /** Between two midnights is on the dates between them. */
  lemma BetweenMidnights(date: int -> int, midnight: int -> int, from: int, to: int, at: int)
    requires Aligned(date, midnight)
    ensures Between(midnight(from), midnight(to))(at) <==> OnDates(date, from, to - 1)(at)
  {
    assert midnight(from) <= at <==> from <= date(at);
    assert midnight(to) <= at <==> to <= date(at);
  }

  /** So a count between midnights is a count by date, when the range first cut to contains it. */
  lemma MidnightsCountDates(date: int -> int, midnight: int -> int, visits: seq<int>, bounds: seq<int>, i: nat,
                            first: int, from: int, to: int, last: int)
    requires Aligned(date, midnight) && i + 1 < |bounds| && first <= from && to <= last
    requires bounds[0] == midnight(first) && bounds[|bounds| - 1] == midnight(last)
    requires bounds[i] == midnight(from) && bounds[i + 1] == midnight(to)
    ensures CountPerPeriod(visits, bounds)[i] == Count(visits, OnDates(date, from, to - 1))
  {
    var whole, part, onDates := Between(bounds[0], bounds[|bounds| - 1]), Between(bounds[i], bounds[i + 1]), OnDates(date, from, to - 1);
    forall at | at in visits ensures onDates(at) == (whole(at) && part(at)) {
      BetweenMidnights(date, midnight, first, last, at);
      BetweenMidnights(date, midnight, from, to, at);
    }
    CountFilter(visits, whole, part, onDates);
  }

  /** Each day's count is the visits on its date. */
  lemma DailyCounts(date: int -> int, midnight: int -> int, visits: seq<int>, first: int, days: nat, i: nat)
    requires Aligned(date, midnight) && i < days
    ensures CountPerPeriod(visits, Bounds(midnight, first, days))[i] == Count(visits, OnDates(date, first + i, first + i))
  {
    hide CountPerPeriod, Count;
    MidnightsCountDates(date, midnight, visits, Bounds(midnight, first, days), i, first, first + i, first + i + 1, first + days);
  }

  /** The last days' counts are the visits grouped by their local date. */
  lemma LastDaysCountDates(date: int -> int, midnight: int -> int, visits: seq<int>, today: int, count: nat, i: nat)
    requires Aligned(date, midnight) && i < count
    ensures var (day, n) := LastDays(visits, midnight, today, count)[i]; n == Count(visits, OnDates(date, day, day))
  {
    hide CountPerPeriod, Count;
    var first := today - (count - 1);
    assert LastDays(visits, midnight, today, count)[i] == (first + i, CountPerPeriod(visits, Bounds(midnight, first, count))[i]);
    DailyCounts(date, midnight, visits, first, count, i);
  }

  function CountsByDate(date: int -> int, visits: seq<int>, first: int, days: nat): (counts: seq<nat>)
    ensures |counts| == days
    ensures forall i :: 0 <= i < days ==> counts[i] == Count(visits, OnDates(date, first + i, first + i))
  {
    seq<nat>(days, i requires 0 <= i < days => Count(visits, OnDates(date, first + i, first + i)))
  }

  /** The counts from `lo` up to, not including, `hi`. */
  function SumRange(counts: seq<nat>, lo: nat, hi: nat): nat
    requires lo <= hi <= |counts|
    decreases hi - lo
  {
    if lo == hi then 0 else counts[lo] + SumRange(counts, lo + 1, hi)
  }

  /** The visits over some dates are the sum of each date's. */
  lemma {:induction false} DatesAddUp(date: int -> int, visits: seq<int>, first: int, daily: seq<nat>, lo: nat, hi: nat)
    requires lo <= hi <= |daily|
    requires forall i :: lo <= i < hi ==> daily[i] == Count(visits, OnDates(date, first + i, first + i))
    ensures SumRange(daily, lo, hi) == Count(visits, OnDates(date, first + lo, first + hi - 1))
    decreases hi - lo
  {
    var all := OnDates(date, first + lo, first + hi - 1);
    if lo == hi {
      CountNone(visits, all);
    } else {
      DatesAddUp(date, visits, first, daily, lo + 1, hi);
      CountUnion(visits, OnDates(date, first + lo, first + lo), OnDates(date, first + (lo + 1), first + hi - 1), all);
    }
  }

  lemma DaysAddUp(date: int -> int, midnight: int -> int, visits: seq<int>, first: int, days: nat, lo: nat, hi: nat)
    requires Aligned(date, midnight) && lo <= hi <= days
    ensures SumRange(CountPerPeriod(visits, Bounds(midnight, first, days)), lo, hi)
         == Count(visits, OnDates(date, first + lo, first + hi - 1))
  {
    var daily := CountPerPeriod(visits, Bounds(midnight, first, days));
    forall i | lo <= i < hi
      ensures daily[i] == Count(visits, OnDates(date, first + i, first + i))
    {
      DailyCounts(date, midnight, visits, first, days, i);
    }
    DatesAddUp(date, visits, first, daily, lo, hi);
  }

  /** The weekly route: each of its weeks, `bounds(first, 7 * weeks)[::7]`, sums seven days of the daily one. */
  lemma WeeksAreSevenDays(date: int -> int, midnight: int -> int, visits: seq<int>, first: int, weeks: nat, week: nat)
    requires Aligned(date, midnight) && week < weeks
    ensures var bounds := Bounds(midnight, first, 7 * weeks);
            var weekly := CountPerPeriod(visits, EverySeventh(bounds));
            |weekly| == weeks && weekly[week] == SumRange(CountPerPeriod(visits, bounds), 7 * week, 7 * week + 7)
  {
    hide CountPerPeriod, SumRange;
    var bounds := EverySeventh(Bounds(midnight, first, 7 * weeks));
    var lo, hi := 7 * week, 7 * week + 7;
    assert bounds[week + 1] == midnight(first + hi);
    MidnightsCountDates(date, midnight, visits, bounds, week, first, first + lo, first + hi, first + 7 * weeks);
    DaysAddUp(date, midnight, visits, first, 7 * weeks, lo, hi);
  }
}
