/** A link's or campaign's visits over a period: its series per bucket, hour and weekday. */
module Analytics {
  import opened Rows
  import opened Calendar
  import opened LocalDays

  datatype Visit = Visit(url: int, at: int, isBot: bool, isPixel: bool)

  datatype Kind = Click | Open | Bot

  /** A bot's visit, else an email open, else a click: where the SQL filters of `_of_type` draw the lines. */
  function KindOf(visit: Visit): (kind: Kind)
    ensures kind == Click <==> !visit.isPixel && !visit.isBot
    ensures kind == Open <==> visit.isPixel && !visit.isBot
  {
    if visit.isBot then Bot else if visit.isPixel then Open else Click
  }

  datatype VisitType = Clicks | Opens | Bots | All

  /** The rows `_of_type` keeps, by the columns it tests. */
  function OfType(visitType: VisitType): Visit -> bool {
    match visitType
    case Clicks => (visit: Visit) => visit.isPixel == false && visit.isBot == false
    case Opens => (visit: Visit) => visit.isPixel == true && visit.isBot == false
    case Bots => (visit: Visit) => visit.isBot == true
    case All => (visit: Visit) => true
  }

  /** The three filters draw the lines of the three kinds, and split all the visits between them. */
  lemma FiltersSplitVisits(visits: seq<Visit>)
    ensures forall visit: Visit :: OfType(Clicks)(visit) == (KindOf(visit) == Click)
    ensures forall visit: Visit :: OfType(Opens)(visit) == (KindOf(visit) == Open)
    ensures forall visit: Visit :: OfType(Bots)(visit) == (KindOf(visit) == Bot)
    ensures |visits| == Count(visits, OfType(Clicks)) + Count(visits, OfType(Opens)) + Count(visits, OfType(Bots))
  {
    var people := (visit: Visit) => !visit.isBot;
    CountUnion(visits, OfType(Clicks), OfType(Opens), people);
    CountUnion(visits, people, OfType(Bots), OfType(All));
    CountKept(visits, OfType(All));
    FilterAll(visits, OfType(All));
  }

  /** Clicks and opens counted together, as each cell of a series counts them. */
  datatype Tally = Tally(clicks: nat, opens: nat) {
    function Plus(other: Tally): Tally { Tally(clicks + other.clicks, opens + other.opens) }

    function Bumped(kind: Kind): Tally {
      match kind
      case Click => Tally(clicks + 1, opens)
      case Open => Tally(clicks, opens + 1)
      case Bot => this
    }
  }

  function Total(table: seq<Tally>): Tally {
    if table == [] then Tally(0, 0) else table[0].Plus(Total(table[1..]))
  }

  function Of(kind: Kind, where: int -> bool): Visit -> bool {
    (visit: Visit) => KindOf(visit) == kind && where(visit.at)
  }

  /** The clicks and opens at the instants `where` holds of. */
  function TallyWhere(visits: seq<Visit>, where: int -> bool): Tally {
    Tally(Count(visits, Of(Click, where)), Count(visits, Of(Open, where)))
  }

  function Cell(cell: int -> int, k: int): int -> bool { at => cell(at) == k }

  function Anytime(): int -> bool { at => true }

  function HourOf(zone: Zone): int -> int { at => zone.HourAt(at) }

  function WeekdayOf(zone: Zone): int -> int { at => Weekday(zone.Date()(at)) }

  function AtHour(zone: Zone, period: Period, hour: int): int -> bool {
    at => period.first <= zone.Date()(at) <= period.last && zone.InHour(at, hour)
  }

  function OnWeekday(zone: Zone, period: Period, day: int): int -> bool {
    at => period.first <= zone.Date()(at) <= period.last && WeekdayOf(zone)(at) == day
  }

  datatype SeriesFields = SeriesFields(clicks: nat, opens: nat, stats: seq<Tally>, hours: seq<Tally>, weekdays: seq<Tally>)

  /** Every cell counts its own visits by local time, and each table adds up to the period's visits. */
  ghost predicate IsSeries(series: SeriesFields, buckets: seq<Bucket>, visits: seq<Visit>, zone: Zone, period: Period) {
    && |series.stats| == |buckets| && |series.hours| == 24 && |series.weekdays| == 7
    && (forall i :: 0 <= i < |buckets| ==>
          series.stats[i] == TallyWhere(visits, OnDates(zone.Date(), buckets[i].0, buckets[i].1)))
    && (forall h :: 0 <= h < 24 ==> series.hours[h] == TallyWhere(visits, AtHour(zone, period, h)))
    && (forall d :: 0 <= d < 7 ==> series.weekdays[d] == TallyWhere(visits, OnWeekday(zone, period, d)))
    && Tally(series.clicks, series.opens) == TallyWhere(visits, OnDates(zone.Date(), period.first, period.last))
    && Tally(series.clicks, series.opens) == Total(series.stats) == Total(series.hours) == Total(series.weekdays)
  }

  /** The rows `_series` reads: the period's visits that aren't a bot's. */
  function InBounds(zone: Zone, period: Period): Visit -> bool {
    (visit: Visit) => zone.midnight(period.first) <= visit.at < zone.midnight(period.last + 1) && !visit.isBot
  }

  method Series(visits: seq<Visit>, zone: Zone, period: Period, groupBy: GroupBy)
    returns (buckets: seq<Bucket>, series: SeriesFields)
    requires zone.Regular() && 1 <= period.first <= period.last
    ensures Tiles(buckets, period.first, period.last, BucketKey(groupBy))
    ensures IsSeries(series, buckets, visits, zone, period)
  {
    hide BucketKey, Tiles, BisectRight, Weekday, Count, Total, Filter, CellsFit, Tables, IsSeries, InBounds;
    hide Zone.Regular, Zone.Date, Zone.HourAt, Empty, KindOf, BucketIndex, HourOf, WeekdayOf;
    var rows := Filter(visits, InBounds(zone, period));
    buckets := Buckets(period, groupBy);
    var starts := Starts(buckets);
    CellsInRange(visits, zone, period, groupBy, buckets);
    var perBucket, perHour, perWeekday := Empty(|buckets|), Empty(24), Empty(7);
    EmptyTables(rows, zone, starts, 24, 7);
    for j := 0 to |rows|
      invariant |perBucket| == |starts| && |perHour| == 24 && |perWeekday| == 7
      invariant Tables(perBucket, perHour, perWeekday, rows[..j], zone, starts)
    {
      RowCells(rows, j, zone, starts);
      var at, kind := rows[j].at, KindOf(rows[j]);
      var local := zone.Date()(at);
      var bucket, hour, weekday := BisectRight(starts, local) - 1, zone.HourAt(at), Weekday(local);
      OneMoreRow(perBucket, perHour, perWeekday, rows, j, zone, starts, bucket, hour, weekday);
      perBucket := perBucket[bucket := perBucket[bucket].Bumped(kind)];
      perHour := perHour[hour := perHour[hour].Bumped(kind)];
      perWeekday := perWeekday[weekday := perWeekday[weekday].Bumped(kind)];
    }
    assert rows[..|rows|] == rows;
    var total := Total(perBucket);
    series := SeriesFields(total.clicks, total.opens, perBucket, perHour, perWeekday);
    TablesAreSeries(series, buckets, visits, zone, period, groupBy);
  }

  /** The loop's invariant: each table counts the rows read so far by its own cell. */
  ghost predicate Tables(perBucket: seq<Tally>, perHour: seq<Tally>, perWeekday: seq<Tally>,
                         rows: seq<Visit>, zone: Zone, starts: seq<int>) {
    && Tabulates(perBucket, rows, BucketIndex(starts, zone.Date()))
    && Tabulates(perHour, rows, HourOf(zone))
    && Tabulates(perWeekday, rows, WeekdayOf(zone))
  }

  lemma EmptyTables(rows: seq<Visit>, zone: Zone, starts: seq<int>, hours: nat, weekdays: nat)
    ensures rows[..0] == [] && Tables(Empty(|starts|), Empty(hours), Empty(weekdays), rows[..0], zone, starts)
  {
    hide Tabulates, Empty;
    EmptyTabulates(|starts|, BucketIndex(starts, zone.Date()));
    EmptyTabulates(hours, HourOf(zone));
    EmptyTabulates(weekdays, WeekdayOf(zone));
  }

  /** Bumping the row's cell of each table keeps the invariant. */
  lemma OneMoreRow(perBucket: seq<Tally>, perHour: seq<Tally>, perWeekday: seq<Tally>, rows: seq<Visit>, j: nat,
                   zone: Zone, starts: seq<int>, bucket: int, hour: int, weekday: int)
    requires j < |rows| && 0 <= bucket < |perBucket| && 0 <= hour < |perHour| && 0 <= weekday < |perWeekday|
    requires BucketIndex(starts, zone.Date())(rows[j].at) == bucket
    requires HourOf(zone)(rows[j].at) == hour && WeekdayOf(zone)(rows[j].at) == weekday
    requires Tables(perBucket, perHour, perWeekday, rows[..j], zone, starts)
    ensures var kind := KindOf(rows[j]);
            Tables(perBucket[bucket := perBucket[bucket].Bumped(kind)], perHour[hour := perHour[hour].Bumped(kind)],
                   perWeekday[weekday := perWeekday[weekday].Bumped(kind)], rows[..j + 1], zone, starts)
  {
    hide Zone.Date, Tabulates, KindOf, BucketIndex, HourOf, WeekdayOf;
    assert rows[..j + 1] == rows[..j] + [rows[j]];
    TabulatesOneMore(perBucket, rows[..j], rows[j], BucketIndex(starts, zone.Date()));
    TabulatesOneMore(perHour, rows[..j], rows[j], HourOf(zone));
    TabulatesOneMore(perWeekday, rows[..j], rows[j], WeekdayOf(zone));
  }

  lemma RowCells(rows: seq<Visit>, j: nat, zone: Zone, starts: seq<int>)
    requires j < |rows| && CellsFit(rows, starts, zone.Date()) && Ascending(starts)
    ensures 0 <= BisectRight(starts, zone.Date()(rows[j].at)) - 1 < |starts|
    ensures BucketIndex(starts, zone.Date())(rows[j].at) == BisectRight(starts, zone.Date()(rows[j].at)) - 1
    ensures HourOf(zone)(rows[j].at) == zone.HourAt(rows[j].at)
    ensures WeekdayOf(zone)(rows[j].at) == Weekday(zone.Date()(rows[j].at))
  {
    hide Zone.Date, Zone.HourAt, Weekday, BisectRight;
  }

  /** Where `bisect_right` puts an instant's local date among the buckets. */
  ghost function BucketIndex(starts: seq<int>, date: int -> int): int -> int {
    at => if Ascending(starts) then BisectRight(starts, date(at)) - 1 else -1
  }

  /** The table's cells count the rows by cell, and add up to all of them. */
  ghost predicate Tabulates(table: seq<Tally>, rows: seq<Visit>, cell: int -> int) {
    && (forall k :: 0 <= k < |table| ==> table[k] == TallyWhere(rows, Cell(cell, k)))
    && Total(table) == TallyWhere(rows, Anytime())
  }

  /** A table of `n` empty cells. */
  function Empty(n: nat): (table: seq<Tally>)
    ensures |table| == n && Total(table) == Tally(0, 0)
    ensures forall k :: 0 <= k < n ==> table[k] == Tally(0, 0)
  {
    if n == 0 then []
    else
      var rest := Empty(n - 1);
      assert ([Tally(0, 0)] + rest)[1..] == rest;
      [Tally(0, 0)] + rest
  }

  lemma EmptyTabulates(n: nat, cell: int -> int)
    ensures Tabulates(Empty(n), [], cell)
  {
  }

  lemma {:induction false} TotalBumped(table: seq<Tally>, i: nat, kind: Kind)
    requires i < |table|
    ensures Total(table[i := table[i].Bumped(kind)]) == Total(table).Bumped(kind)
  {
    var bumped := table[i := table[i].Bumped(kind)];
    if i == 0 {
      assert bumped[1..] == table[1..];
    } else {
      TotalBumped(table[1..], i - 1, kind);
      assert bumped[1..] == table[1..][i - 1 := table[1..][i - 1].Bumped(kind)];
    }
  }

  lemma TallyOneMore(rows: seq<Visit>, row: Visit, where: int -> bool)
    ensures TallyWhere(rows + [row], where)
         == if where(row.at) then TallyWhere(rows, where).Bumped(KindOf(row)) else TallyWhere(rows, where)
  {
    CountSnoc(rows, row, Of(Click, where));
    CountSnoc(rows, row, Of(Open, where));
  }

  /** Bumping the row's own cell keeps a table right. */
  lemma TabulatesOneMore(table: seq<Tally>, rows: seq<Visit>, row: Visit, cell: int -> int)
    requires Tabulates(table, rows, cell) && 0 <= cell(row.at) < |table|
    ensures var k := cell(row.at); Tabulates(table[k := table[k].Bumped(KindOf(row))], rows + [row], cell)
  {
    hide Total, TallyWhere;
    var bumped := table[cell(row.at) := table[cell(row.at)].Bumped(KindOf(row))];
    TotalBumped(table, cell(row.at), KindOf(row));
    TallyOneMore(rows, row, Anytime());
    forall k | 0 <= k < |table| ensures bumped[k] == TallyWhere(rows + [row], Cell(cell, k)) {
      TallyOneMore(rows, row, Cell(cell, k));
    }
  }

  /** A row read is on a date of the period. */
  lemma RowsAreInPeriod(visit: Visit, zone: Zone, period: Period)
    requires zone.Regular()
    ensures InBounds(zone, period)(visit) <==> period.first <= zone.Date()(visit.at) <= period.last && !visit.isBot
  {
    hide Zone.Date;
    RegularIffAligned(zone.Date(), zone.midnight);
    BetweenMidnights(zone.Date(), zone.midnight, period.first, period.last + 1, visit.at);
  }

  /** Every row read falls in one of the buckets. */
  ghost predicate CellsFit(rows: seq<Visit>, starts: seq<int>, date: int -> int) {
    forall j :: 0 <= j < |rows| ==> 0 <= BucketIndex(starts, date)(rows[j].at) < |starts|
  }

  lemma CellsInRange(visits: seq<Visit>, zone: Zone, period: Period, groupBy: GroupBy, buckets: seq<Bucket>)
    requires zone.Regular() && period.first <= period.last
    requires Tiles(buckets, period.first, period.last, BucketKey(groupBy))
    ensures Ascending(Starts(buckets))
    ensures CellsFit(Filter(visits, InBounds(zone, period)), Starts(buckets), zone.Date())
  {
    hide BucketKey, Zone.Date, Filter, InBounds, Tiles, BisectRight;
    TheBucket(buckets, period.first, period.last, BucketKey(groupBy), period.first);
    var rows := Filter(visits, InBounds(zone, period));
    forall j | 0 <= j < |rows| ensures 0 <= BucketIndex(Starts(buckets), zone.Date())(rows[j].at) < |buckets| {
      KeptRows(visits, InBounds(zone, period), rows[j]);
      RowsAreInPeriod(rows[j], zone, period);
      TheBucket(buckets, period.first, period.last, BucketKey(groupBy), zone.Date()(rows[j].at));
    }
  }

  /** Counting kept rows in a cell is counting visits, when the two conditions together say `where`. */
  lemma TallyFilter(visits: seq<Visit>, keep: Visit -> bool, inner: int -> bool, where: int -> bool)
    requires forall visit | visit in visits && KindOf(visit) != Bot :: (keep(visit) && inner(visit.at)) == where(visit.at)
    ensures TallyWhere(Filter(visits, keep), inner) == TallyWhere(visits, where)
  {
    hide Count, Filter;
    CountFilter(visits, keep, Of(Click, inner), Of(Click, where));
    CountFilter(visits, keep, Of(Open, inner), Of(Open, where));
  }

  /** An hour's cell counts the visits at which the wall clock reads that hour. */
  lemma HourCells(visits: seq<Visit>, zone: Zone, period: Period, h: int)
    requires zone.Regular() && period.first <= period.last && 0 <= h < 24
    ensures TallyWhere(Filter(visits, InBounds(zone, period)), Cell(HourOf(zone), h)) == TallyWhere(visits, AtHour(zone, period, h))
  {
    hide Count, Filter, TallyWhere, Zone.Date, Zone.HourAt, Zone.InHour, InBounds, Zone.Regular;
    var keep, cell, where := InBounds(zone, period), Cell(HourOf(zone), h), AtHour(zone, period, h);
    forall visit | visit in visits && KindOf(visit) != Bot ensures (keep(visit) && cell(visit.at)) == where(visit.at) {
      RowsAreInPeriod(visit, zone, period);
      ClockReads(zone, visit.at, h);
    }
    TallyFilter(visits, keep, cell, where);
  }

  lemma TablesAreSeries(series: SeriesFields, buckets: seq<Bucket>, visits: seq<Visit>, zone: Zone, period: Period, groupBy: GroupBy)
    requires zone.Regular() && period.first <= period.last
    requires Tiles(buckets, period.first, period.last, BucketKey(groupBy))
    requires |series.stats| == |buckets| && |series.hours| == 24 && |series.weekdays| == 7
    requires Tally(series.clicks, series.opens) == Total(series.stats)
    requires Tables(series.stats, series.hours, series.weekdays, Filter(visits, InBounds(zone, period)), zone, Starts(buckets))
    ensures IsSeries(series, buckets, visits, zone, period)
  {
    hide BucketKey, Tiles, BisectRight, Weekday, Count, Total, Filter, TallyWhere, HourOf, WeekdayOf, BucketIndex, Zone.Date, InBounds;
    var keep, date := InBounds(zone, period), zone.Date();
    forall visit ensures keep(visit) <==> period.first <= date(visit.at) <= period.last && !visit.isBot {
      RowsAreInPeriod(visit, zone, period);
    }
    TallyFilter(visits, keep, Anytime(), OnDates(date, period.first, period.last));
    forall h | 0 <= h < 24 ensures series.hours[h] == TallyWhere(visits, AtHour(zone, period, h)) {
      HourCells(visits, zone, period, h);
    }
    forall d | 0 <= d < 7 ensures series.weekdays[d] == TallyWhere(visits, OnWeekday(zone, period, d)) {
      TallyFilter(visits, keep, Cell(WeekdayOf(zone), d), OnWeekday(zone, period, d));
    }
    forall i | 0 <= i < |buckets|
      ensures series.stats[i] == TallyWhere(visits, OnDates(date, buckets[i].0, buckets[i].1))
    {
      BucketCells(visits, zone, period, groupBy, buckets, i);
    }
  }

  lemma VisitInBucket(visit: Visit, zone: Zone, period: Period, groupBy: GroupBy, buckets: seq<Bucket>, i: nat)
    requires zone.Regular() && period.first <= period.last && i < |buckets|
    requires Tiles(buckets, period.first, period.last, BucketKey(groupBy))
    ensures InBounds(zone, period)(visit) && BucketIndex(Starts(buckets), zone.Date())(visit.at) == i
       <==> !visit.isBot && buckets[i].0 <= zone.Date()(visit.at) <= buckets[i].1
  {
    hide BucketKey, Zone.Date, BisectRight, InBounds, Zone.Regular;
    var day := zone.Date()(visit.at);
    RowsAreInPeriod(visit, zone, period);
    assert period.first <= buckets[i].0 && buckets[i].1 <= period.last;
    if period.first <= day <= period.last {
      TheBucket(buckets, period.first, period.last, BucketKey(groupBy), day);
    }
  }

  /** A bucket's cell counts the visits on its dates. */
  lemma BucketCells(visits: seq<Visit>, zone: Zone, period: Period, groupBy: GroupBy, buckets: seq<Bucket>, i: nat)
    requires zone.Regular() && period.first <= period.last && i < |buckets|
    requires Tiles(buckets, period.first, period.last, BucketKey(groupBy))
    ensures TallyWhere(Filter(visits, InBounds(zone, period)), Cell(BucketIndex(Starts(buckets), zone.Date()), i))
         == TallyWhere(visits, OnDates(zone.Date(), buckets[i].0, buckets[i].1))
  {
    hide BucketKey, Count, Filter, TallyWhere, Zone.Date, BucketIndex, InBounds, Tiles, Zone.Regular;
    var keep, date := InBounds(zone, period), zone.Date();
    var cell, onDates := Cell(BucketIndex(Starts(buckets), date), i), OnDates(date, buckets[i].0, buckets[i].1);
    forall visit | visit in visits && KindOf(visit) != Bot
      ensures (keep(visit) && cell(visit.at)) == onDates(visit.at)
    {
      VisitInBucket(visit, zone, period, groupBy, buckets, i);
    }
    TallyFilter(visits, keep, cell, onDates);
  }

  // ---------------------------------------------------------------- Two ways of counting the same visits

  /** The instants of the visits of a kind: what the counts between midnights sum over. */
  function Instants(visits: seq<Visit>, kind: Kind): seq<int> {
    if visits == [] then []
    else (if KindOf(visits[0]) == kind then [visits[0].at] else []) + Instants(visits[1..], kind)
  }

  lemma {:induction false} InstantsCount(visits: seq<Visit>, kind: Kind, where: int -> bool)
    ensures Count(Instants(visits, kind), where) == Count(visits, Of(kind, where))
  {
    if visits != [] {
      InstantsCount(visits[1..], kind, where);
      var at, rest := visits[0].at, Instants(visits[1..], kind);
      if KindOf(visits[0]) == kind {
        assert ([at] + rest)[1..] == rest;
      } else {
        assert [] + rest == rest;
      }
    }
  }

  /** The first day bucket is the first date alone. */
  lemma FirstDayBucket(buckets: seq<Bucket>, first: int, last: int)
    requires first <= last && Tiles(buckets, first, last, BucketKey(ByDay))
    ensures buckets != [] && buckets[0] == (first, first)
  {
    var day := buckets[0].1;
    assert buckets[0].0 <= day <= buckets[0].1;
    assert BucketKey(ByDay)(day) == BucketKey(ByDay)(buckets[0].0);
  }

  /** A period has as many day buckets as days, one a date. */
  lemma {:induction false} DayBuckets(buckets: seq<Bucket>, first: int, last: int)
    requires first <= last + 1 && Tiles(buckets, first, last, BucketKey(ByDay))
    ensures |buckets| == last - first + 1
    ensures forall i :: 0 <= i < |buckets| ==> buckets[i] == (first + i, first + i)
    decreases last - first
  {
    if first <= last {
      FirstDayBucket(buckets, first, last);
      TailTiles(buckets, first, last, BucketKey(ByDay));
      hide Tiles, BucketKey;
      DayBuckets(buckets[1..], first + 1, last);
      forall i | 0 < i < |buckets| ensures buckets[i] == (first + i, first + i) {
        assert buckets[i] == buckets[1..][i - 1];
      }
    } else {
      hide BucketKey;
    }
  }

  /** The daily series, which groups visits by their local date, gives the counts SQL makes between midnights. */
  lemma DailySeriesIsLastDays(series: SeriesFields, buckets: seq<Bucket>, visits: seq<Visit>, zone: Zone, period: Period, i: nat)
    requires zone.Regular() && 1 <= period.first <= period.last && i <= period.last - period.first
    requires Tiles(buckets, period.first, period.last, BucketKey(ByDay))
    requires IsSeries(series, buckets, visits, zone, period)
    ensures |series.stats| == |buckets| == period.last - period.first + 1
    ensures LastDays(Instants(visits, Click), zone.midnight, period.last, |series.stats|)[i]
         == (buckets[i].0, series.stats[i].clicks)
    ensures LastDays(Instants(visits, Open), zone.midnight, period.last, |series.stats|)[i]
         == (buckets[i].0, series.stats[i].opens)
  {
    hide Tiles, IsSeries, Zone.Date, BucketKey, Count, OnDates, Of, LastDays, Instants;
    DayTally(series, buckets, visits, zone, period, i);
    RegularIffAligned(zone.Date(), zone.midnight);
    var day, n := period.first + i, |series.stats|;
    LastDaysCountDates(zone.Date(), zone.midnight, Instants(visits, Click), period.last, n, i);
    InstantsCount(visits, Click, OnDates(zone.Date(), day, day));
    LastDaysCountDates(zone.Date(), zone.midnight, Instants(visits, Open), period.last, n, i);
    InstantsCount(visits, Open, OnDates(zone.Date(), day, day));
  }

  // ---------------------------------------------------------------- Coarser buckets, and campaigns

  /** The visits over some dates are the sum of each date's. */
  lemma {:induction false} DaysTally(visits: seq<Visit>, date: int -> int, first: int, last: int, days: seq<Tally>)
    requires first <= last + 1 && |days| == last - first + 1
    requires forall i :: 0 <= i < |days| ==> days[i] == TallyWhere(visits, OnDates(date, first + i, first + i))
    ensures Total(days) == TallyWhere(visits, OnDates(date, first, last))
    decreases last - first
  {
    if days == [] {
      CountNone(visits, Of(Click, OnDates(date, first, last)));
      CountNone(visits, Of(Open, OnDates(date, first, last)));
    } else {
      hide Count;
      forall i | 0 <= i < |days[1..]| ensures days[1..][i] == TallyWhere(visits, OnDates(date, first + 1 + i, first + 1 + i)) {
        assert first + 1 + i == first + (i + 1);
      }
      DaysTally(visits, date, first + 1, last, days[1..]);
      CountUnion(visits, Of(Click, OnDates(date, first, first)), Of(Click, OnDates(date, first + 1, last)), Of(Click, OnDates(date, first, last)));
      CountUnion(visits, Of(Open, OnDates(date, first, first)), Of(Open, OnDates(date, first + 1, last)), Of(Open, OnDates(date, first, last)));
    }
  }

  lemma BucketTally(series: SeriesFields, buckets: seq<Bucket>, visits: seq<Visit>, zone: Zone, period: Period, i: nat)
    requires IsSeries(series, buckets, visits, zone, period) && i < |buckets|
    ensures |series.stats| == |buckets|
    ensures series.stats[i] == TallyWhere(visits, OnDates(zone.Date(), buckets[i].0, buckets[i].1))
  {
    hide TallyWhere, OnDates, Total, Zone.Date;
  }

  lemma DayTally(series: SeriesFields, buckets: seq<Bucket>, visits: seq<Visit>, zone: Zone, period: Period, i: nat)
    requires 1 <= period.first <= period.last && i <= period.last - period.first
    requires Tiles(buckets, period.first, period.last, BucketKey(ByDay))
    requires IsSeries(series, buckets, visits, zone, period)
    ensures |series.stats| == |buckets| == period.last - period.first + 1
    ensures buckets[i] == (period.first + i, period.first + i)
    ensures series.stats[i] == TallyWhere(visits, OnDates(zone.Date(), period.first + i, period.first + i))
  {
    hide Tiles, BucketKey, TallyWhere, OnDates, Total, IsSeries, Zone.Date;
    DayBuckets(buckets, period.first, period.last);
    BucketTally(series, buckets, visits, zone, period, i);
  }

  /** A week's or a month's bucket is the sum of the daily series over the days it covers. */
  lemma CoarseBucketsSumDays(coarse: SeriesFields, buckets: seq<Bucket>, daily: SeriesFields, days: seq<Bucket>,
                             groupBy: GroupBy, visits: seq<Visit>, zone: Zone, period: Period, i: nat)
    requires 1 <= period.first <= period.last && i < |buckets|
    requires Tiles(buckets, period.first, period.last, BucketKey(groupBy)) && Tiles(days, period.first, period.last, BucketKey(ByDay))
    requires IsSeries(coarse, buckets, visits, zone, period) && IsSeries(daily, days, visits, zone, period)
    ensures var from, to := buckets[i].0 - period.first, buckets[i].1 - period.first;
            0 <= from <= to < |daily.stats| && coarse.stats[i] == Total(daily.stats[from..to + 1])
  {
    hide BucketKey, TallyWhere, Total, Count, OnDates, Of, IsSeries, Zone.Date;
    DayTally(daily, days, visits, zone, period, 0);
    var from, to := buckets[i].0 - period.first, buckets[i].1 - period.first;
    var slice := daily.stats[from..to + 1];
    forall j | 0 <= j < |slice|
      ensures slice[j] == TallyWhere(visits, OnDates(zone.Date(), buckets[i].0 + j, buckets[i].0 + j))
    {
      DayTally(daily, days, visits, zone, period, from + j);
      assert slice[j] == daily.stats[from + j];
      assert period.first + (from + j) == buckets[i].0 + j;
    }
    DaysTally(visits, zone.Date(), buckets[i].0, buckets[i].1, slice);
    BucketTally(coarse, buckets, visits, zone, period, i);
  }

  function OfLink(url: int): Visit -> bool { (visit: Visit) => visit.url == url }

  function OfLinks(urls: seq<int>): Visit -> bool { (visit: Visit) => visit.url in urls }

  /** Each link's clicks and opens at the instants `where` holds of. */
  function LinkTallies(visits: seq<Visit>, urls: seq<int>, where: int -> bool): (tallies: seq<Tally>)
    ensures |tallies| == |urls|
    ensures forall k :: 0 <= k < |urls| ==> tallies[k] == TallyWhere(Filter(visits, OfLink(urls[k])), where)
  {
    seq(|urls|, k requires 0 <= k < |urls| => TallyWhere(Filter(visits, OfLink(urls[k])), where))
  }

  function LinkAnd(keep: Visit -> bool, kind: Kind, where: int -> bool): Visit -> bool {
    (visit: Visit) => keep(visit) && Of(kind, where)(visit)
  }

  /** Whatever instants are counted, a campaign's visits at them are the sum of its links'. */
  lemma {:induction false} CampaignTally(visits: seq<Visit>, urls: seq<int>, where: int -> bool)
    requires forall i, j :: 0 <= i < j < |urls| ==> urls[i] != urls[j]
    ensures TallyWhere(Filter(visits, OfLinks(urls)), where) == Total(LinkTallies(visits, urls, where))
  {
    hide Filter, Count, Of, OfLinks, OfLink;
    CampaignCounts(visits, urls, Click, where);
    CampaignCounts(visits, urls, Open, where);
    if urls != [] {
      CampaignTally(visits, urls[1..], where);
      assert LinkTallies(visits, urls, where)[1..] == LinkTallies(visits, urls[1..], where);
    }
  }

  lemma CampaignCounts(visits: seq<Visit>, urls: seq<int>, kind: Kind, where: int -> bool)
    requires forall i, j :: 0 <= i < j < |urls| ==> urls[i] != urls[j]
    ensures Count(Filter(visits, OfLinks(urls)), Of(kind, where))
         == if urls == [] then 0
            else Count(Filter(visits, OfLink(urls[0])), Of(kind, where)) + Count(Filter(visits, OfLinks(urls[1..])), Of(kind, where))
  {
    hide Count, Filter;
    CountFilter(visits, OfLinks(urls), Of(kind, where), LinkAnd(OfLinks(urls), kind, where));
    if urls == [] {
      CountNone(visits, LinkAnd(OfLinks(urls), kind, where));
    } else {
      var rest := urls[1..];
      assert urls == [urls[0]] + rest;
      CountFilter(visits, OfLink(urls[0]), Of(kind, where), LinkAnd(OfLink(urls[0]), kind, where));
      CountFilter(visits, OfLinks(rest), Of(kind, where), LinkAnd(OfLinks(rest), kind, where));
      CountUnion(visits, LinkAnd(OfLink(urls[0]), kind, where), LinkAnd(OfLinks(rest), kind, where), LinkAnd(OfLinks(urls), kind, where));
    }
  }

  /** The cells of several series at one bucket, hour or weekday, and their totals. */
  function StatsAt(links: seq<SeriesFields>, i: nat): seq<Tally>
    requires forall k :: 0 <= k < |links| ==> i < |links[k].stats|
  {
    seq(|links|, k requires 0 <= k < |links| => links[k].stats[i])
  }

  function HoursAt(links: seq<SeriesFields>, h: nat): seq<Tally>
    requires forall k :: 0 <= k < |links| ==> h < |links[k].hours|
  {
    seq(|links|, k requires 0 <= k < |links| => links[k].hours[h])
  }

  function WeekdaysAt(links: seq<SeriesFields>, d: nat): seq<Tally>
    requires forall k :: 0 <= k < |links| ==> d < |links[k].weekdays|
  {
    seq(|links|, k requires 0 <= k < |links| => links[k].weekdays[d])
  }

  function Totals(links: seq<SeriesFields>): seq<Tally> {
    seq(|links|, k requires 0 <= k < |links| => Tally(links[k].clicks, links[k].opens))
  }

  /** Every link's series is over the buckets. */
  ghost predicate LinksSeries(links: seq<SeriesFields>, urls: seq<int>, buckets: seq<Bucket>, visits: seq<Visit>,
                              zone: Zone, period: Period)
  {
    && |links| == |urls|
    && forall k :: 0 <= k < |urls| ==> IsSeries(links[k], buckets, Filter(visits, OfLink(urls[k])), zone, period)
  }

  /** What one link's series says of a bucket, an hour, a weekday and in all. */
  lemma SeriesCells(series: SeriesFields, buckets: seq<Bucket>, visits: seq<Visit>, zone: Zone, period: Period)
    requires IsSeries(series, buckets, visits, zone, period)
    ensures |series.stats| == |buckets| && |series.hours| == 24 && |series.weekdays| == 7
    ensures forall i :: 0 <= i < |buckets| ==>
      series.stats[i] == TallyWhere(visits, OnDates(zone.Date(), buckets[i].0, buckets[i].1))
    ensures forall h :: 0 <= h < 24 ==> series.hours[h] == TallyWhere(visits, AtHour(zone, period, h))
    ensures forall d :: 0 <= d < 7 ==> series.weekdays[d] == TallyWhere(visits, OnWeekday(zone, period, d))
    ensures Tally(series.clicks, series.opens) == TallyWhere(visits, OnDates(zone.Date(), period.first, period.last))
  {
    hide TallyWhere, OnDates, AtHour, OnWeekday, Total, Zone.Date;
  }

  /** A campaign's series is its links', cell by cell: every bucket, hour and weekday, and both totals. */
  lemma CampaignIsItsLinks(campaign: SeriesFields, links: seq<SeriesFields>, urls: seq<int>, buckets: seq<Bucket>,
                           visits: seq<Visit>, zone: Zone, period: Period)
    requires forall i, j :: 0 <= i < j < |urls| ==> urls[i] != urls[j]
    requires IsSeries(campaign, buckets, Filter(visits, OfLinks(urls)), zone, period)
    requires LinksSeries(links, urls, buckets, visits, zone, period)
    ensures |campaign.stats| == |buckets| && |campaign.hours| == 24 && |campaign.weekdays| == 7
    ensures forall k :: 0 <= k < |links| ==> |links[k].stats| == |buckets| && |links[k].hours| == 24 && |links[k].weekdays| == 7
    ensures forall i :: 0 <= i < |buckets| ==> campaign.stats[i] == Total(StatsAt(links, i))
    ensures forall h :: 0 <= h < 24 ==> campaign.hours[h] == Total(HoursAt(links, h))
    ensures forall d :: 0 <= d < 7 ==> campaign.weekdays[d] == Total(WeekdaysAt(links, d))
    ensures Tally(campaign.clicks, campaign.opens) == Total(Totals(links))
  {
    hide IsSeries, TallyWhere, OnDates, AtHour, OnWeekday, Total, Zone.Date, Filter, OfLink, OfLinks;
    SeriesCells(campaign, buckets, Filter(visits, OfLinks(urls)), zone, period);
    forall k | 0 <= k < |links| {
      SeriesCells(links[k], buckets, Filter(visits, OfLink(urls[k])), zone, period);
    }
    forall i | 0 <= i < |buckets| ensures campaign.stats[i] == Total(StatsAt(links, i)) {
      var where := OnDates(zone.Date(), buckets[i].0, buckets[i].1);
      CampaignTally(visits, urls, where);
      assert StatsAt(links, i) == LinkTallies(visits, urls, where);
    }
    forall h | 0 <= h < 24 ensures campaign.hours[h] == Total(HoursAt(links, h)) {
      CampaignTally(visits, urls, AtHour(zone, period, h));
      assert HoursAt(links, h) == LinkTallies(visits, urls, AtHour(zone, period, h));
    }
    forall d | 0 <= d < 7 ensures campaign.weekdays[d] == Total(WeekdaysAt(links, d)) {
      CampaignTally(visits, urls, OnWeekday(zone, period, d));
      assert WeekdaysAt(links, d) == LinkTallies(visits, urls, OnWeekday(zone, period, d));
    }
    CampaignTally(visits, urls, OnDates(zone.Date(), period.first, period.last));
    assert Totals(links) == LinkTallies(visits, urls, OnDates(zone.Date(), period.first, period.last));
  }
}
