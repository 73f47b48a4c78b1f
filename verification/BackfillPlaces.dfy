/**
 Filling in the empty countries and cities of visits: in batches by id, each address looked up once and one
 update a value, against filling each row by itself.
 */
module BackfillPlaces {
  import opened Rows

  const UNKNOWN_IP: string := "unknown"
  const CITY_LENGTH: nat := 128

  /** Where the database puts an address. */
  datatype Place = Place(country: Option<string>, city: Option<string>)

  datatype Visit = Visit(id: int, ip: string, country: Option<string>, city: Option<string>)

  datatype Column = Country | City

  datatype Counts = Counts(scanned: nat, unplaced: nat, countries: nat, cities: nat, fromShlink: nat)

  function Cell(visit: Visit, column: Column): Option<string> {
    if column == Country then visit.country else visit.city
  }

  function WithCell(visit: Visit, column: Column, value: string): Visit {
    if column == Country then visit.(country := Some(value)) else visit.(city := Some(value))
  }

  /** A name cut to what the column holds. */
  function Fit(value: string): (fit: string)
    ensures fit <= value && |fit| <= CITY_LENGTH && (|value| <= CITY_LENGTH ==> fit == value)
  {
    if |value| <= CITY_LENGTH then value else value[..CITY_LENGTH]
  }

  predicate HasText(value: Option<string>) {
    value.Some? && value.value != ""
  }

  /** A visit without a country or a city. */
  predicate IsIncomplete(visit: Visit) {
    visit.country == None || visit.city == None
  }

  /** A visit with something to look up. */
  function ToScan(): Visit -> bool {
    (visit: Visit) => IsIncomplete(visit) && visit.ip != UNKNOWN_IP
  }

  function ImportedFromShlink(): Visit -> bool {
    (visit: Visit) => IsIncomplete(visit) && visit.ip == UNKNOWN_IP
  }

  // ---------------------------------------------------------------- One row by itself

  /** What a scanned visit's column is filled with, at a place. */
  function Wanted(visit: Visit, column: Column, place: Place): Option<string> {
    match column
    case Country =>
      if visit.country == None && HasText(place.country) then place.country else None
    case City =>
      if visit.city == None && HasText(place.city) && (visit.country == None || visit.country == place.country)
      then Some(Fit(place.city.value)) else None
  }

  function ToFill(visit: Visit, column: Column, placeOf: string -> Place): Option<string> {
    Wanted(visit, column, placeOf(visit.ip))
  }

  function FillCell(visit: Visit, column: Column, placeOf: string -> Place, from: Visit): Visit {
    if ToFill(from, column, placeOf).Some? then WithCell(visit, column, ToFill(from, column, placeOf).value) else visit
  }

  /** A visit with its empty cells filled. */
  function FillRow(visit: Visit, placeOf: string -> Place): Visit {
    if ToScan()(visit) then FillCell(FillCell(visit, Country, placeOf, visit), City, placeOf, visit) else visit
  }

  function FillRows(visits: seq<Visit>, placeOf: string -> Place): (filled: seq<Visit>)
    ensures |filled| == |visits|
    ensures forall k :: 0 <= k < |visits| ==> filled[k] == FillRow(visits[k], placeOf)
  {
    seq(|visits|, k requires 0 <= k < |visits| => FillRow(visits[k], placeOf))
  }

  /** The first `done` visits filled. */
  function PartFilled(visits: seq<Visit>, done: nat, placeOf: string -> Place): (filled: seq<Visit>)
    requires done <= |visits|
    ensures |filled| == |visits|
    ensures forall k :: 0 <= k < |visits| ==> filled[k] == if k < done then FillRow(visits[k], placeOf) else visits[k]
  {
    FillRows(visits[..done], placeOf) + visits[done..]
  }

  /** The visits whose column a fill changes. */
  function Changes(column: Column, placeOf: string -> Place): Visit -> bool {
    (visit: Visit) => Cell(FillRow(visit, placeOf), column) != Cell(visit, column)
  }

  function Nowhere(placeOf: string -> Place): Visit -> bool {
    (visit: Visit) => placeOf(visit.ip) == Place(None, None)
  }

  function Unplaced(placeOf: string -> Place): Visit -> bool {
    (visit: Visit) => ToScan()(visit) && Nowhere(placeOf)(visit)
  }

  /** It fills only what's empty: a country the place has, and a city only beside a country that was empty or agrees. */
  lemma FillingOverwritesNothing(visit: Visit, placeOf: string -> Place)
    ensures var filled, place := FillRow(visit, placeOf), placeOf(visit.ip);
      && filled.id == visit.id && filled.ip == visit.ip
      && (visit.ip == UNKNOWN_IP ==> filled == visit)
      && (filled.country != visit.country <==>
            visit.country == None && visit.ip != UNKNOWN_IP && place.country != None && place.country != Some(""))
      && (filled.country != visit.country ==> filled.country == place.country)
      && (filled.city != visit.city <==>
            && visit.city == None && visit.ip != UNKNOWN_IP && place.city != None && place.city != Some("")
            && (visit.country == None || visit.country == place.country))
      && (filled.city != visit.city ==> filled.city == Some(Fit(place.city.value)))
      && (filled.city != visit.city ==>
            filled.country == place.country || (filled.country == None && place.country in {None, Some("")}))
  {
  }

  /** What a run counts of a visit: scanned without a country or a city and with an address, unplaced when it has neither. */
  lemma WhatIsCounted(visit: Visit, placeOf: string -> Place)
    ensures ToScan()(visit) <==> (visit.country == None || visit.city == None) && visit.ip != "unknown"
    ensures ImportedFromShlink()(visit) <==> (visit.country == None || visit.city == None) && visit.ip == "unknown"
    ensures Unplaced(placeOf)(visit) <==> ToScan()(visit) && placeOf(visit.ip).country == None && placeOf(visit.ip).city == None
    ensures Changes(Country, placeOf)(visit) <==> FillRow(visit, placeOf).country != visit.country
    ensures Changes(City, placeOf)(visit) <==> FillRow(visit, placeOf).city != visit.city
  {
  }

  /** A second run finds nothing to fill. */
  lemma FilledStaysFilled(visits: seq<Visit>, placeOf: string -> Place)
    ensures var filled := FillRows(visits, placeOf);
      && FillRows(filled, placeOf) == filled
      && Count(filled, Changes(Country, placeOf)) == 0
      && Count(filled, Changes(City, placeOf)) == 0
  {
    var filled := FillRows(visits, placeOf);
    forall k | 0 <= k < |filled| ensures FillRow(filled[k], placeOf) == filled[k] {
    }
    CountNone(filled, Changes(Country, placeOf));
    CountNone(filled, Changes(City, placeOf));
  }

  // ---------------------------------------------------------------- Batches by id

  ghost predicate Ascending(visits: seq<Visit>) {
    forall j, k :: 0 <= j < k < |visits| ==> visits[j].id < visits[k].id
  }

  function ToScanAfter(last: Option<int>): Visit -> bool {
    (visit: Visit) => ToScan()(visit) && (last == None || visit.id > last.value)
  }

  /** The next visits to scan: `ORDER BY id LIMIT size` after the last id seen. */
  function Batch(visits: seq<Visit>, last: Option<int>, size: nat): seq<Visit> {
    var left := Filter(visits, ToScanAfter(last));
    if |left| <= size then left else left[..size]
  }

  /** Some first stretch of the rows ends with a kept one and has `n` of those, or all when they are fewer. */
  lemma {:induction false} FirstKept(visits: seq<Visit>, keep: Visit -> bool, n: nat) returns (m: nat)
    requires n > 0 && Filter(visits, keep) != []
    ensures 0 < m <= |visits| && keep(visits[m - 1])
    ensures |Filter(visits[..m], keep)| == if |Filter(visits, keep)| <= n then |Filter(visits, keep)| else n
  {
    assert visits != [];
    hide Filter;
    m := |visits|;
    assert visits[..m] == visits;
    FilterLast(visits, m, keep);
    if !keep(visits[m - 1]) || |Filter(visits, keep)| > n {
      var before := visits[..m - 1];
      m := FirstKept(before, keep, n);
      assert before[..m] == visits[..m];
    }
  }

  lemma FilterLast(visits: seq<Visit>, m: nat, keep: Visit -> bool)
    requires 0 < m <= |visits|
    ensures Filter(visits[..m], keep) == Filter(visits[..m - 1], keep) + if keep(visits[m - 1]) then [visits[m - 1]] else []
  {
    assert visits[..m] == visits[..m - 1] + [visits[m - 1]];
    FilterSnoc(visits[..m - 1], visits[m - 1], keep);
  }

  /** The first rows a filter keeps are those of a first stretch of the rows, which ends with the last of them. */
  lemma FirstKeptAreAStretch(visits: seq<Visit>, keep: Visit -> bool, n: nat) returns (m: nat)
    requires n > 0 && Filter(visits, keep) != []
    ensures 0 < m <= |visits|
    ensures var kept := Filter(visits, keep); Filter(visits[..m], keep) == if |kept| <= n then kept else kept[..n]
    ensures var first := Filter(visits[..m], keep); first != [] && first[|first| - 1] == visits[m - 1]
  {
    hide Filter;
    m := FirstKept(visits, keep, n);
    FilterLast(visits, m, keep);
    FilterConcat(visits[..m], visits[m..], keep);
    assert visits == visits[..m] + visits[m..];
  }

  /** Rows up to `done` have been seen: those with an id up to the last one. */
  ghost predicate SeenUpTo(visits: seq<Visit>, done: nat, last: Option<int>) {
    && done <= |visits| && (last == None ==> done == 0)
    && (last.Some? ==> forall k :: 0 <= k < |visits| ==> (visits[k].id <= last.value <==> k < done))
  }

  lemma SeenToTheLast(visits: seq<Visit>, next: nat)
    requires Ascending(visits) && 0 < next <= |visits|
    ensures SeenUpTo(visits, next, Some(visits[next - 1].id))
  {
  }

  lemma LeftToScan(visits: seq<Visit>, done: nat, last: Option<int>)
    requires SeenUpTo(visits, done, last)
    ensures Filter(visits, ToScanAfter(last)) == Filter(visits[done..], ToScan())
  {
    hide Filter;
    assert visits == visits[..done] + visits[done..];
    FilterConcat(visits[..done], visits[done..], ToScanAfter(last));
    FilterNone(visits[..done], ToScanAfter(last));
    FilterSame(visits[done..], ToScanAfter(last), ToScan());
  }

  lemma {:induction false} FilterNoneLeft(visits: seq<Visit>, keep: Visit -> bool)
    requires Filter(visits, keep) == []
    ensures forall visit | visit in visits :: !keep(visit)
  {
    if visits != [] {
      FilterNoneLeft(visits[1..], keep);
    }
  }

  /** A batch is the next stretch of the table: what there is to scan in it, ending where it does. */
  lemma BatchIsAStretch(visits: seq<Visit>, done: nat, last: Option<int>, size: nat) returns (next: nat)
    requires Ascending(visits) && done <= |visits| && SeenUpTo(visits, done, last) && size > 0 && Batch(visits, last, size) != []
    ensures done < next <= |visits|
    ensures Batch(visits, last, size) == Filter(visits[done..next], ToScan())
    ensures var batch := Batch(visits, last, size); SeenUpTo(visits, next, Some(batch[|batch| - 1].id))
  {
    hide Filter, SeenUpTo, Ascending, ToScan, ToScanAfter;
    LeftToScan(visits, done, last);
    var m := FirstKeptAreAStretch(visits[done..], ToScan(), size);
    next := done + m;
    assert visits[done..][..m] == visits[done..next];
    SeenToTheLast(visits, next);
  }

  // ---------------------------------------------------------------- One update a value

  /** The groups of ids hold exactly the values wanted, id by id. */
  ghost predicate Groups(groups: map<string, seq<int>>, wanted: map<int, string>) {
    && (forall value, id | value in groups && id in groups[value] :: id in wanted && wanted[id] == value)
    && (forall id | id in wanted :: wanted[id] in groups && id in groups[wanted[id]])
  }

  /** The rows that updates to some of the wanted values write. */
  ghost function Writes(column: Column, wanted: map<int, string>, values: set<string>): Visit -> bool {
    (visit: Visit) => visit.id in wanted && wanted[visit.id] in values && Cell(visit, column) == None
  }

  ghost function Write(visit: Visit, column: Column, wanted: map<int, string>, values: set<string>): Visit {
    if Writes(column, wanted, values)(visit) then WithCell(visit, column, wanted[visit.id]) else visit
  }

  /** The rows that `_fill` updates. */
  function ToUpdate(column: Column, ids: seq<int>): Visit -> bool {
    (visit: Visit) => visit.id in ids && Cell(visit, column) == None
  }

  /** An id added to the group of its value. */
  function AddTo(groups: map<string, seq<int>>, value: string, id: int): map<string, seq<int>> {
    groups[value := (if value in groups then groups[value] else []) + [id]]
  }

  lemma AddToKeepsGroups(groups: map<string, seq<int>>, wanted: map<int, string>, value: string, id: int)
    requires Groups(groups, wanted) && id !in wanted
    ensures Groups(AddTo(groups, value, id), wanted[id := value])
  {
  }

  function Ids(visits: seq<Visit>): set<int> {
    set visit | visit in visits :: visit.id
  }

  /** What a batch wants in a column: for each of its visits, what it would be filled with by itself. */
  ghost predicate Wants(batch: seq<Visit>, column: Column, placeOf: string -> Place, wanted: map<int, string>) {
    && wanted.Keys <= Ids(batch)
    && (forall visit | visit in batch ::
          if ToFill(visit, column, placeOf) == None then visit.id !in wanted
          else visit.id in wanted && ToFill(visit, column, placeOf).value == wanted[visit.id])
  }

  /** What is wanted of one more visit. */
  ghost function AlsoWanted(wanted: map<int, string>, visit: Visit, column: Column, placeOf: string -> Place): map<int, string> {
    if ToFill(visit, column, placeOf) == None then wanted
    else wanted[visit.id := ToFill(visit, column, placeOf).value]
  }

  lemma WantsExtend(batch: seq<Visit>, i: nat, column: Column, placeOf: string -> Place, wanted: map<int, string>)
    requires Ascending(batch) && i < |batch| && Wants(batch[..i], column, placeOf, wanted)
    ensures batch[i].id !in wanted
    ensures Wants(batch[..i + 1], column, placeOf, AlsoWanted(wanted, batch[i], column, placeOf))
  {
    hide ToFill;
    var more, visit := batch[..i + 1], batch[i];
    assert visit.id !in Ids(batch[..i]);
    hide Ascending;
    assert more == batch[..i] + [visit];
    assert Ids(more) == Ids(batch[..i]) + {visit.id};
    forall other | other in batch[..i] ensures other.id != visit.id {
      assert other.id in Ids(batch[..i]);
    }
  }

  lemma FillKeepsId(visit: Visit, placeOf: string -> Place)
    ensures FillRow(visit, placeOf).id == visit.id
  {
  }

  /** A visit without an address is never scanned. */
  lemma ImportedStay(visits: seq<Visit>, filled: nat, placeOf: string -> Place)
    requires filled <= |visits|
    ensures Count(PartFilled(visits, filled, placeOf), ImportedFromShlink()) == Count(visits, ImportedFromShlink())
  {
    CountPaired(visits, PartFilled(visits, filled, placeOf), ImportedFromShlink(), ImportedFromShlink());
  }

  lemma NothingYet(visits: seq<Visit>, placeOf: string -> Place)
    ensures SeenUpTo(visits, 0, None) && PartFilled(visits, 0, placeOf) == visits
    ensures Tally(visits[..0], placeOf) == Counts(0, 0, 0, 0, 0)
  {
  }

  lemma Unfilled(visits: seq<Visit>, filled: nat, done: nat, next: nat, placeOf: string -> Place)
    requires filled <= done <= next <= |visits|
    ensures PartFilled(visits, filled, placeOf)[done..next] == visits[done..next]
  {
  }

  /** Where a run stands: the rows filled, scanned and counted so far. */
  ghost predicate Stands(start: seq<Visit>, now: seq<Visit>, filled: nat, done: nat, last: Option<int>,
                         counts: Counts, placeOf: string -> Place)
  {
    && filled <= done <= |start| && now == PartFilled(start, filled, placeOf)
    && Ascending(now) && SeenUpTo(now, done, last) && counts == Tally(start[..done], placeOf)
  }

  /** A batch moves it on, whether what it wrote is kept or not. */
  lemma StandsFurther(start: seq<Visit>, before: seq<Visit>, after: seq<Visit>, filled: nat, done: nat, next: nat,
                      last: Option<int>, newLast: Option<int>, counts: Counts, counted: Counts, placeOf: string -> Place)
    requires Stands(start, before, filled, done, last, counts, placeOf)
    requires done <= next <= |before| && SeenUpTo(before, next, newLast) && SameIds(before, after)
    requires forall k :: 0 <= k < |after| ==> after[k] == if done <= k < next then FillRow(before[k], placeOf) else before[k]
    requires counted == Tally(before[done..next], placeOf)
    ensures Stands(start, before, filled, next, newLast, Plus(counts, counted), placeOf)
    ensures filled == done ==> Stands(start, after, next, next, newLast, Plus(counts, counted), placeOf)
  {
    hide Tally, FillRow, Ascending, SeenUpTo, SameIds;
    Unfilled(start, filled, done, next, placeOf);
    TallyFurther(start, done, next, placeOf);
    SeenAsMuch(before, after, next, newLast);
    assert |after| == |before| by {
      SameLength(before, after);
    }
    assert filled == done ==> after == PartFilled(start, next, placeOf);
  }

  /** When no batch is left, everything that needed it has been scanned. */
  lemma AllScanned(visits: seq<Visit>, filled: nat, done: nat, last: Option<int>, size: nat, placeOf: string -> Place)
    requires filled <= done <= |visits| && size > 0
    requires var now := PartFilled(visits, filled, placeOf); SeenUpTo(now, done, last) && Batch(now, last, size) == []
    ensures Filter(visits[done..], ToScan()) == []
  {
    hide Filter, ToScan, ToScanAfter, SeenUpTo, PartFilled;
    var now := PartFilled(visits, filled, placeOf);
    LeftToScan(now, done, last);
    Unfilled(visits, filled, done, |visits|, placeOf);
    assert now[done..] == now[done..|visits|] && visits[done..] == visits[done..|visits|];
  }

  lemma NothingLeft(visits: seq<Visit>, done: nat, placeOf: string -> Place)
    requires done <= |visits| && Filter(visits[done..], ToScan()) == []
    ensures Tally(visits[..done], placeOf) == Tally(visits, placeOf)
    ensures PartFilled(visits, done, placeOf) == FillRows(visits, placeOf)
  {
    hide Count, FillRow, Filter, ToScan, Tally;
    var left := visits[done..];
    NothingToScan(left, placeOf);
    TallyFurther(visits, done, |visits|, placeOf);
    assert visits[done..|visits|] == left && visits[..|visits|] == visits;
    forall k | done <= k < |visits| ensures FillRow(visits[k], placeOf) == visits[k] {
      assert left[k - done] == FillRows(left, placeOf)[k - done];
    }
  }

  ghost predicate SameIds(before: seq<Visit>, after: seq<Visit>) {
    |after| == |before| && forall k :: 0 <= k < |after| ==> after[k].id == before[k].id
  }

  lemma SameLength(before: seq<Visit>, after: seq<Visit>)
    requires SameIds(before, after)
    ensures |after| == |before|
  {
  }

  /** Changing no id leaves as much seen, in the same order. */
  lemma SeenAsMuch(before: seq<Visit>, after: seq<Visit>, done: nat, last: Option<int>)
    requires SameIds(before, after) && Ascending(before) && SeenUpTo(before, done, last)
    ensures Ascending(after) && SeenUpTo(after, done, last)
  {
    forall j, k | 0 <= j < k < |after| ensures after[j].id < after[k].id {
      assert before[j].id < before[k].id;
    }
  }

  lemma WritesNothing(visits: seq<Visit>, column: Column, wanted: map<int, string>)
    ensures forall k :: 0 <= k < |visits| ==> Write(visits[k], column, wanted, {}) == visits[k]
    ensures Count(visits, Writes(column, wanted, {})) == 0
  {
    CountNone(visits, Writes(column, wanted, {}));
  }

  lemma UpdateWrites(before: Visit, column: Column, groups: map<string, seq<int>>,
                     wanted: map<int, string>, written: set<string>, value: string)
    requires Groups(groups, wanted) && value in groups && value !in written
    ensures var now := Write(before, column, wanted, written);
      Write(before, column, wanted, written + {value})
      == if ToUpdate(column, groups[value])(now) then WithCell(now, column, value) else now
  {
  }

  /** The rows one update writes are those wanting its value, whatever the updates before it wrote. */
  lemma UpdateCounts(before: seq<Visit>, now: seq<Visit>, column: Column, groups: map<string, seq<int>>,
                     wanted: map<int, string>, written: set<string>, value: string)
    requires Groups(groups, wanted) && value in groups && value !in written
    requires |now| == |before| && forall k :: 0 <= k < |now| ==> now[k] == Write(before[k], column, wanted, written)
    ensures Count(before, Writes(column, wanted, written + {value}))
         == Count(before, Writes(column, wanted, written)) + Count(now, ToUpdate(column, groups[value]))
  {
    var one := Writes(column, wanted, {value});
    CountUnion(before, Writes(column, wanted, written), one, Writes(column, wanted, written + {value}));
    forall k | 0 <= k < |now| ensures ToUpdate(column, groups[value])(now[k]) == one(before[k]) {
      assert now[k].id == before[k].id;
    }
    CountPaired(before, now, one, ToUpdate(column, groups[value]));
  }

  /** A batch's two updates of a row: what the row is filled with by itself when it is in the batch, nothing otherwise. */
  lemma BatchFills(visits: seq<Visit>, done: nat, next: nat, k: nat, placeOf: string -> Place,
                   countries: map<int, string>, cities: map<int, string>, some: set<string>, others: set<string>)
    requires Ascending(visits) && done <= next <= |visits| && k < |visits|
    requires var batch := Filter(visits[done..next], ToScan());
      Wants(batch, Country, placeOf, countries) && Wants(batch, City, placeOf, cities)
    requires forall id | id in countries :: countries[id] in some
    requires forall id | id in cities :: cities[id] in others
    ensures Write(Write(visits[k], Country, countries, some), City, cities, others)
         == if done <= k < next then FillRow(visits[k], placeOf) else visits[k]
    ensures Writes(Country, countries, some)(visits[k]) == (done <= k < next && Changes(Country, placeOf)(visits[k]))
    ensures Writes(City, cities, others)(visits[k]) == (done <= k < next && Changes(City, placeOf)(visits[k]))
  {
    hide Filter, Ascending;
    var batch := Filter(visits[done..next], ToScan());
    InBatch(visits, done, next, k);
  }

  /** A row's id is in the batch's exactly when the row is. */
  lemma InBatch(visits: seq<Visit>, done: nat, next: nat, k: nat)
    requires Ascending(visits) && done <= next <= |visits| && k < |visits|
    ensures var batch := Filter(visits[done..next], ToScan());
      if done <= k < next && ToScan()(visits[k]) then visits[k] in batch else visits[k].id !in Ids(batch)
  {
    hide Filter;
    var stretch := visits[done..next];
    var batch := Filter(stretch, ToScan());
    if done <= k < next && ToScan()(visits[k]) {
      assert visits[k] == stretch[k - done];
      FilterKeeps(stretch, ToScan(), visits[k]);
    } else if visits[k].id in Ids(batch) {
      var visit :| visit in batch && visit.id == visits[k].id;
      KeptRows(stretch, ToScan(), visit);
      assert false;
    }
  }

  lemma {:induction false} CountNoneIn(visits: seq<Visit>, from: nat, to: nat, p: Visit -> bool)
    requires from <= to <= |visits| && forall k :: from <= k < to ==> !p(visits[k])
    ensures Count(visits[from..to], p) == 0
  {
    CountNone(visits[from..to], p);
  }

  lemma {:induction false} CountSameIn(visits: seq<Visit>, from: nat, to: nat, p: Visit -> bool, q: Visit -> bool)
    requires from <= to <= |visits| && forall k :: from <= k < to ==> p(visits[k]) == q(visits[k])
    ensures Count(visits[from..to], p) == Count(visits[from..to], q)
  {
    CountSame(visits[from..to], p, q);
  }

  /** Counting over the whole table what happens in one stretch of it. */
  lemma CountStretch(visits: seq<Visit>, done: nat, next: nat, p: Visit -> bool, q: Visit -> bool)
    requires done <= next <= |visits|
    requires forall k :: 0 <= k < |visits| ==> p(visits[k]) == (done <= k < next && q(visits[k]))
    ensures Count(visits, p) == Count(visits[done..next], q)
  {
    hide Count;
    CountNoneIn(visits, 0, done, p);
    CountSameIn(visits, done, next, p, q);
    CountNoneIn(visits, next, |visits|, p);
    CountFurther(visits, 0, done, p);
    CountFurther(visits, done, next, p);
    CountFurther(visits, next, |visits|, p);
    CountNoneIn(visits, 0, 0, p);
    assert visits[..|visits|] == visits;
  }

  lemma CountFurther(visits: seq<Visit>, done: nat, next: nat, p: Visit -> bool)
    requires done <= next <= |visits|
    ensures Count(visits[..next], p) == Count(visits[..done], p) + Count(visits[done..next], p)
  {
    assert visits[..next] == visits[..done] + visits[done..next];
    CountConcat(visits[..done], visits[done..next], p);
  }

  /** What a run counts on some visits, before those imported from Shlink. */
  function Tally(visits: seq<Visit>, placeOf: string -> Place): Counts {
    Counts(Count(visits, ToScan()), Count(visits, Unplaced(placeOf)),
           Count(visits, Changes(Country, placeOf)), Count(visits, Changes(City, placeOf)), 0)
  }

  lemma TallyTells(visits: seq<Visit>, placeOf: string -> Place)
    ensures var counts := Tally(visits, placeOf);
      && counts.scanned == Count(visits, ToScan()) && counts.unplaced == Count(visits, Unplaced(placeOf))
      && counts.countries == Count(visits, Changes(Country, placeOf)) && counts.cities == Count(visits, Changes(City, placeOf))
  {
  }

  function Plus(a: Counts, b: Counts): Counts {
    Counts(a.scanned + b.scanned, a.unplaced + b.unplaced, a.countries + b.countries, a.cities + b.cities,
           a.fromShlink + b.fromShlink)
  }

  lemma TallyFurther(visits: seq<Visit>, done: nat, next: nat, placeOf: string -> Place)
    requires done <= next <= |visits|
    ensures Tally(visits[..next], placeOf) == Plus(Tally(visits[..done], placeOf), Tally(visits[done..next], placeOf))
  {
    hide Count;
    CountFurther(visits, done, next, ToScan());
    CountFurther(visits, done, next, Unplaced(placeOf));
    CountFurther(visits, done, next, Changes(Country, placeOf));
    CountFurther(visits, done, next, Changes(City, placeOf));
  }

  /** What a batch scans and cannot place, from its stretch of the table. */
  lemma BatchCounts(stretch: seq<Visit>, placeOf: string -> Place)
    ensures var batch := Filter(stretch, ToScan());
      Count(stretch, ToScan()) == |batch| && Count(stretch, Unplaced(placeOf)) == Count(batch, Nowhere(placeOf))
  {
    CountFilter(stretch, ToScan(), Nowhere(placeOf), Unplaced(placeOf));
    CountKept(stretch, ToScan());
  }

  /** Nothing to scan, nothing to count or fill. */
  lemma NothingToScan(visits: seq<Visit>, placeOf: string -> Place)
    requires Filter(visits, ToScan()) == []
    ensures Tally(visits, placeOf) == Counts(0, 0, 0, 0, 0) && FillRows(visits, placeOf) == visits
  {
    FilterNoneLeft(visits, ToScan());
    CountNone(visits, ToScan());
    CountNone(visits, Unplaced(placeOf));
    CountNone(visits, Changes(Country, placeOf));
    CountNone(visits, Changes(City, placeOf));
  }

  /** Filling countries leaves the cities to fill. */
  lemma CitiesToo(before: seq<Visit>, between: seq<Visit>, countries: map<int, string>, some: set<string>,
                  cities: map<int, string>, others: set<string>)
    requires |between| == |before|
    requires forall k :: 0 <= k < |before| ==> between[k] == Write(before[k], Country, countries, some)
    ensures Count(between, Writes(City, cities, others)) == Count(before, Writes(City, cities, others))
  {
    CountPaired(before, between, Writes(City, cities, others), Writes(City, cities, others));
  }

  /** A batch is in the order of its ids. */
  lemma FilterAscends(visits: seq<Visit>, done: nat, next: nat)
    requires Ascending(visits) && done <= next <= |visits|
    ensures Ascending(Filter(visits[done..next], ToScan()))
    decreases next
  {
    hide ToScan;
    if done < next {
      FilterAscends(visits, done, next - 1);
      var stretch, before := visits[done..next], visits[done..next - 1];
      FilterLast(stretch, next - done, ToScan());
      assert stretch[..next - done] == stretch && stretch[..next - done - 1] == before;
      forall visit | visit in Filter(before, ToScan()) ensures visit.id < visits[next - 1].id {
        KeptRows(before, ToScan(), visit);
      }
    }
  }

  class Visits {
    var rows: seq<Visit>

    /** `_fill`: one update, still only where the column is empty. */
    method Fill(column: Column, value: string, ids: seq<int>) returns (updated: nat)
      modifies this
      ensures |rows| == |old(rows)|
      ensures forall k :: 0 <= k < |rows| ==>
        rows[k] == if ToUpdate(column, ids)(old(rows)[k]) then WithCell(old(rows)[k], column, value) else old(rows)[k]
      ensures updated == Count(old(rows), ToUpdate(column, ids))
    {
      updated := Count(rows, ToUpdate(column, ids));
      rows := seq(|rows|, k requires 0 <= k < |rows| reads this =>
        if ToUpdate(column, ids)(rows[k]) then WithCell(rows[k], column, value) else rows[k]);
    }

    /** One update for each value of the groups, in whatever order, writes each wanted value that has no other. */
    method FillGroups(column: Column, groups: map<string, seq<int>>, ghost wanted: map<int, string>) returns (updated: nat)
      requires Groups(groups, wanted)
      modifies this
      ensures |rows| == |old(rows)|
      ensures forall k :: 0 <= k < |rows| ==> rows[k] == Write(old(rows)[k], column, wanted, groups.Keys)
      ensures updated == Count(old(rows), Writes(column, wanted, groups.Keys))
    {
      hide Groups, Write, Writes;
      updated := 0;
      var left := groups.Keys;
      ghost var written: set<string> := {};
      WritesNothing(rows, column, wanted);
      while left != {}
        invariant left + written == groups.Keys && left !! written
        invariant |rows| == |old(rows)|
        invariant forall k :: 0 <= k < |rows| ==> rows[k] == Write(old(rows)[k], column, wanted, written)
        invariant updated == Count(old(rows), Writes(column, wanted, written))
        decreases left
      {
        var value :| value in left;
        UpdateCounts(old(rows), rows, column, groups, wanted, written, value);
        ghost var before := rows;
        var n := Fill(column, value, groups[value]);
        forall k | 0 <= k < |rows| ensures rows[k] == Write(old(rows)[k], column, wanted, written + {value}) {
          UpdateWrites(old(rows)[k], column, groups, wanted, written, value);
          assert before[k] == Write(old(rows)[k], column, wanted, written);
        }
        updated := updated + n;
        left := left - {value};
        written := written + {value};
      }
    }

    /** A visit's id added to the group of what it wants in a column, if it wants anything. */
    method Group(visit: Visit, column: Column, ghost placeOf: string -> Place, place: Place,
                 groups: map<string, seq<int>>, ghost wanted: map<int, string>)
      returns (more: map<string, seq<int>>, ghost moreWanted: map<int, string>)
      requires place == placeOf(visit.ip) && Groups(groups, wanted) && visit.id !in wanted
      ensures moreWanted == AlsoWanted(wanted, visit, column, placeOf) && Groups(more, moreWanted)
    {
      hide Groups;
      more, moreWanted := groups, wanted;
      var value := Wanted(visit, column, place);
      if value.Some? {
        AddToKeepsGroups(groups, wanted, value.value, visit.id);
        more := AddTo(groups, value.value, visit.id);
        moreWanted := wanted[visit.id := value.value];
      }
    }

    /** One pass over a batch: what each visit wants, by value, each address looked up the first time it is met. */
    method Scan(batch: seq<Visit>, placeOf: string -> Place, known: map<string, Place>)
      returns (unplaced: nat, countries: map<string, seq<int>>, cities: map<string, seq<int>>, places: map<string, Place>,
               ghost wantedCountries: map<int, string>, ghost wantedCities: map<int, string>, ghost lookedUp: multiset<string>)
      requires Ascending(batch) && forall ip | ip in known :: known[ip] == placeOf(ip)
      ensures unplaced == Count(batch, Nowhere(placeOf))
      ensures Groups(countries, wantedCountries) && Wants(batch, Country, placeOf, wantedCountries)
      ensures Groups(cities, wantedCities) && Wants(batch, City, placeOf, wantedCities)
      ensures known.Keys <= places.Keys && forall ip | ip in places :: places[ip] == placeOf(ip)
      ensures forall ip :: lookedUp[ip] == if ip in places && ip !in known then 1 else 0
    {
      unplaced, countries, cities, places := 0, map[], map[], known;
      wantedCountries, wantedCities, lookedUp := map[], map[], multiset{};
      assert batch[..|batch|] == batch;
      for i := 0 to |batch|
        invariant unplaced == Count(batch[..i], Nowhere(placeOf))
        invariant Groups(countries, wantedCountries) && Wants(batch[..i], Country, placeOf, wantedCountries)
        invariant Groups(cities, wantedCities) && Wants(batch[..i], City, placeOf, wantedCities)
        invariant known.Keys <= places.Keys && forall ip | ip in places :: places[ip] == placeOf(ip)
        invariant forall ip :: lookedUp[ip] == if ip in places && ip !in known then 1 else 0
      {
        hide Groups, Wants, Count, Ascending, ToFill, AlsoWanted, Nowhere;
        var visit := batch[i];
        if visit.ip !in places {
          places := places[visit.ip := placeOf(visit.ip)];
          lookedUp := lookedUp + multiset{visit.ip};
        }
        var place := places[visit.ip];
        assert batch[..i + 1] == batch[..i] + [visit];
        CountSnoc(batch[..i], visit, Nowhere(placeOf));
        if place == Place(None, None) {
          assert Nowhere(placeOf)(visit);
          unplaced := unplaced + 1;
        }
        WantsExtend(batch, i, Country, placeOf, wantedCountries);
        WantsExtend(batch, i, City, placeOf, wantedCities);
        countries, wantedCountries := Group(visit, Country, placeOf, place, countries, wantedCountries);
        cities, wantedCities := Group(visit, City, placeOf, place, cities, wantedCities);
      }
    }

    /** A batch looked up and filled, with how many cells that changed. */
    method FillBatch(batch: seq<Visit>, placeOf: string -> Place, known: map<string, Place>, ghost done: nat, ghost next: nat)
      returns (counts: Counts, places: map<string, Place>, ghost lookedUp: multiset<string>)
      requires Ascending(rows) && done <= next <= |rows| && batch == Filter(rows[done..next], ToScan())
      requires forall ip | ip in known :: known[ip] == placeOf(ip)
      modifies this
      ensures |rows| == |old(rows)|
      ensures forall k :: 0 <= k < |rows| ==>
        rows[k] == if done <= k < next then FillRow(old(rows)[k], placeOf) else old(rows)[k]
      ensures SameIds(old(rows), rows) && counts == Tally(old(rows)[done..next], placeOf)
      ensures known.Keys <= places.Keys && forall ip | ip in places :: places[ip] == placeOf(ip)
      ensures forall ip :: lookedUp[ip] == if ip in places && ip !in known then 1 else 0
    {
      hide Count, Filter, Wants, FillRow, Changes, Write, Writes, ToScan, Ascending;
      FilterAscends(rows, done, next);
      BatchCounts(rows[done..next], placeOf);
      var unplaced, byCountry, byCity;
      ghost var wantedCountries, wantedCities;
      unplaced, byCountry, byCity, places, wantedCountries, wantedCities, lookedUp := Scan(batch, placeOf, known);
      forall k | 0 <= k < |rows| {
        BatchFills(rows, done, next, k, placeOf, wantedCountries, wantedCities, byCountry.Keys, byCity.Keys);
      }
      ghost var before := rows;
      CountStretch(rows, done, next, Writes(Country, wantedCountries, byCountry.Keys), Changes(Country, placeOf));
      CountStretch(rows, done, next, Writes(City, wantedCities, byCity.Keys), Changes(City, placeOf));
      var countries := FillGroups(Country, byCountry, wantedCountries);
      ghost var between := rows;
      var cities := FillGroups(City, byCity, wantedCities);
      CitiesToo(before, between, wantedCountries, byCountry.Keys, wantedCities, byCity.Keys);
      counts := Counts(|batch|, unplaced, countries, cities, 0);
      forall k | 0 <= k < |rows| ensures rows[k].id == before[k].id {
        FillKeepsId(before[k], placeOf);
      }
    }

    /**
     Fill the empty countries and cities, batch by batch: what filling each row by itself gives, whatever the size
     of a batch, counting the cells that change. A dry run counts the same and leaves the rows as they are.
     */
    method Backfill(placeOf: string -> Place, batchSize: nat, dryRun: bool)
      returns (counts: Counts, ghost lookedUp: multiset<string>)
      requires Ascending(rows) && batchSize >= 1
      modifies this
      ensures rows == if dryRun then old(rows) else FillRows(old(rows), placeOf)
      ensures counts.scanned == Count(old(rows), ToScan()) && counts.unplaced == Count(old(rows), Unplaced(placeOf))
      ensures counts.countries == Count(old(rows), Changes(Country, placeOf))
      ensures counts.cities == Count(old(rows), Changes(City, placeOf))
      ensures counts.fromShlink == Count(old(rows), ImportedFromShlink())
      ensures forall ip :: lookedUp[ip] <= 1
    {
      hide Count, Filter, Batch, FillRow, FillRows, PartFilled, Tally, Plus, ToScan, Ascending, SeenUpTo, SameIds, Changes, ImportedFromShlink;
      counts, lookedUp := Counts(0, 0, 0, 0, 0), multiset{};
      NothingYet(rows, placeOf);
      var places: map<string, Place> := map[];
      var last: Option<int> := None;
      ghost var done, filled := 0, 0;
      var batch := Batch(rows, last, batchSize);
      while batch != []
        invariant Stands(old(rows), rows, filled, done, last, counts, placeOf)
        invariant filled == if dryRun then 0 else done
        invariant batch == Batch(rows, last, batchSize)
        invariant forall ip | ip in places :: places[ip] == placeOf(ip)
        invariant forall ip :: lookedUp[ip] == if ip in places then 1 else 0
        decreases |old(rows)| - done
      {
        var committed := rows;
        ghost var next := BatchIsAStretch(rows, done, last, batchSize);
        ghost var looked;
        var counted;
        counted, places, looked := FillBatch(batch, placeOf, places, done, next);
        lookedUp := lookedUp + looked;
        var newLast := Some(batch[|batch| - 1].id);
        StandsFurther(old(rows), committed, rows, filled, done, next, last, newLast, counts, counted, placeOf);
        counts := Plus(counts, counted);
        if dryRun {
          rows := committed;
        } else {
          filled := next;
        }
        last := newLast;
        done := next;
        batch := Batch(rows, last, batchSize);
      }
      AllScanned(old(rows), filled, done, last, batchSize, placeOf);
      NothingLeft(old(rows), done, placeOf);
      ImportedStay(old(rows), filled, placeOf);
      TallyTells(old(rows), placeOf);
      counts := counts.(fromShlink := Count(rows, ImportedFromShlink()));
    }
  }
}
