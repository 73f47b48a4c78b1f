/**
 Time zones whose clocks change: when counting between midnights, as SQL does, groups visits by local date.
 */
module Zones {
  import opened Rows
  import opened LocalDays

  // ---------------------------------------------------------------- Zones by their changes

  /** From `at` on, the clocks are `offset` microseconds ahead of UTC. */
  datatype Change = Change(at: int, offset: int)

  /** The offset after all the changes; `base` before any. */
  function LastOffset(base: int, changes: seq<Change>): int {
    if changes == [] then base else changes[|changes| - 1].offset
  }

  function OffsetAt(base: int, changes: seq<Change>, t: int): int {
    if changes == [] then base
    else if t >= changes[|changes| - 1].at then LastOffset(base, changes)
    else OffsetAt(base, changes[..|changes| - 1], t)
  }

  function Max(a: int, b: int): int { if a >= b then a else b }

  /** What the clocks read at the last change, whichever reading is the later. */
  function LaterReading(base: int, changes: seq<Change>): int
    requires changes != []
  {
    changes[|changes| - 1].at + Max(LastOffset(base, changes[..|changes| - 1]), LastOffset(base, changes))
  }

  /** The offset of a wall clock, as Python has it with fold 0: the one before a change until both its readings have passed. */
  function OffsetOf(base: int, changes: seq<Change>, clock: int): int {
    if changes == [] then base
    else if clock >= LaterReading(base, changes) then LastOffset(base, changes)
    else OffsetOf(base, changes[..|changes| - 1], clock)
  }

  function Clocks(base: int, changes: seq<Change>): Zone {
    Zone(t => t + OffsetAt(base, changes, t), d => d * DAY - OffsetOf(base, changes, d * DAY))
  }

  /** Changes in order, and their readings too: as they are when further apart than their sizes. */
  ghost predicate InOrder(base: int, changes: seq<Change>) {
    && (forall i :: 0 < i < |changes| ==> changes[i - 1].at < changes[i].at)
    && (forall n :: 1 < n <= |changes| ==> LaterReading(base, changes[..n - 1]) <= LaterReading(base, changes[..n]))
  }

  /** No local midnight falls strictly between the two readings of the clock at a change. */
  ghost predicate NoMidnightInside(at: int, before: int, after: int) {
    forall d: int :: !(at + before < d * DAY < at + after) && !(at + after < d * DAY < at + before)
  }

  ghost predicate NoMidnightInsideAny(base: int, changes: seq<Change>) {
    forall i :: 0 <= i < |changes| ==> NoMidnightInside(changes[i].at, LastOffset(base, changes[..i]), changes[i].offset)
  }

  lemma WholeDays(d: int, clock: int)
    ensures d <= clock / DAY <==> d * DAY <= clock
  {
  }

  /** The zone up to its last change, and what that change makes of it. */
  lemma LastChange(base: int, changes: seq<Change>, t: int, d: int)
    requires changes != []
    ensures var n := |changes| - 1;
      var zone, earlier, last := Clocks(base, changes), Clocks(base, changes[..n]), changes[n];
      && zone.wall(t) == (if t >= last.at then t + last.offset else earlier.wall(t))
      && zone.midnight(d) == (if d * DAY >= LaterReading(base, changes) then d * DAY - last.offset else earlier.midnight(d))
  {
  }

  /** Past every change the clocks read by the last offset. */
  lemma PastChanges(base: int, changes: seq<Change>, t: int)
    requires changes == [] || t >= changes[|changes| - 1].at
    ensures Clocks(base, changes).wall(t) == t + LastOffset(base, changes)
  {
  }

  // ---------------------------------------------------------------- Without a midnight inside

  /** One more change with no midnight inside leaves midnights and dates agreeing. */
  lemma OneMoreAligned(base: int, changes: seq<Change>, t: int, d: int)
    requires changes != [] && InOrder(base, changes)
    requires var n := |changes| - 1;
      var earlier, last := Clocks(base, changes[..n]), changes[n];
      NoMidnightInside(last.at, LastOffset(base, changes[..n]), last.offset) && Aligned(earlier.Date(), earlier.midnight)
    ensures var zone := Clocks(base, changes); zone.midnight(d) <= t <==> d <= zone.Date()(t)
  {
    var n := |changes| - 1;
    var zone, earlier, last := Clocks(base, changes), Clocks(base, changes[..n]), changes[n];
    var before := LastOffset(base, changes[..n]);
    LastChange(base, changes, t, d);
    WholeDays(d, zone.wall(t));
    WholeDays(d, earlier.wall(t));
    assert !(last.at + before < d * DAY < last.at + last.offset) && !(last.at + last.offset < d * DAY < last.at + before);
    assert earlier.midnight(d) <= t <==> d <= earlier.Date()(t);
    if t >= last.at {
      PastChanges(base, changes[..n], t);
    } else if d * DAY >= LaterReading(base, changes) {
      PastChanges(base, changes[..n], last.at);
      WholeDays(d, earlier.wall(last.at));
      WholeDays(d, last.at - 1 + before);
      assert n > 0 ==> last.at - 1 >= changes[..n][n - 1].at;
      PastChanges(base, changes[..n], last.at - 1);
      WholeDays(d, earlier.wall(last.at - 1));
      assert earlier.midnight(d) <= last.at - 1 <==> d <= earlier.Date()(last.at - 1);
    }
  }

  lemma Earlier(base: int, changes: seq<Change>)
    requires changes != [] && InOrder(base, changes)
    ensures InOrder(base, changes[..|changes| - 1])
    ensures NoMidnightInsideAny(base, changes) <==>
      NoMidnightInsideAny(base, changes[..|changes| - 1])
      && NoMidnightInside(changes[|changes| - 1].at, LastOffset(base, changes[..|changes| - 1]), changes[|changes| - 1].offset)
  {
    var n := |changes| - 1;
    assert forall i :: 0 <= i <= n ==> changes[..n][..i] == changes[..i];
    assert forall i :: 0 <= i < n ==> changes[..n][i] == changes[i];
  }

  lemma {:induction false} ChangesAligned(base: int, changes: seq<Change>)
    requires InOrder(base, changes) && NoMidnightInsideAny(base, changes)
    ensures Aligned(Clocks(base, changes).Date(), Clocks(base, changes).midnight)
  {
    hide InOrder, NoMidnightInsideAny, NoMidnightInside;
    var zone := Clocks(base, changes);
    if changes == [] {
      forall t, d ensures zone.midnight(d) <= t <==> d <= zone.Date()(t) {
        WholeDays(d, zone.wall(t));
      }
    } else {
      Earlier(base, changes);
      ChangesAligned(base, changes[..|changes| - 1]);
      forall t, d ensures zone.midnight(d) <= t <==> d <= zone.Date()(t) {
        OneMoreAligned(base, changes, t, d);
      }
    }
  }

  // ---------------------------------------------------------------- When midnights count dates

  /** Counting between midnights groups every list of visits by their local date. */
  ghost predicate CountsAgree(date: int -> int, midnight: int -> int) {
    forall visits: seq<int>, first: int, days: nat, i: nat :: i < days ==>
      CountPerPeriod(visits, Bounds(midnight, first, days))[i] == CountsByDate(date, visits, first, days)[i]
  }

  lemma AlignedZonesAgree(date: int -> int, midnight: int -> int)
    requires Aligned(date, midnight)
    ensures CountsAgree(date, midnight)
  {
    forall visits: seq<int>, first: int, days: nat, i: nat | i < days
      ensures CountPerPeriod(visits, Bounds(midnight, first, days))[i] == CountsByDate(date, visits, first, days)[i]
    {
      DailyCounts(date, midnight, visits, first, days, i);
    }
  }

  /** One visit, one day: it is counted when it falls between the day's midnights. */
  lemma OneVisit(date: int -> int, midnight: int -> int, at: int, first: int)
    ensures CountPerPeriod([at], Bounds(midnight, first, 1))[0]
         == if midnight(first) <= at < midnight(first + 1) then 1 else 0
    ensures CountsByDate(date, [at], first, 1)[0] == if date(at) == first then 1 else 0
  {
    var bounds := Bounds(midnight, first, 1);
    var kept := Filter([at], Between(bounds[0], bounds[1]));
    assert Filter<int>([at][1..], Between(bounds[0], bounds[1])) == [];
    assert kept == if midnight(first) <= at < midnight(first + 1) then [at] else [];
    assert Count([at][1..], OnDates(date, first, first)) == 0;
    assert kept != [] ==> Count(kept[1..], Between(bounds[0], bounds[1])) == 0;
  }

  // ---------------------------------------------------------------- With one

  /** A visit at `at` is counted on the date `first`, and is not on it. */
  ghost predicate Miscounted(zone: Zone, at: int, first: int) {
    zone.midnight(first) <= at < zone.midnight(first + 1) && zone.Date()(at) != first
  }

  lemma MiscountedDisagrees(zone: Zone, at: int, first: int)
    requires Miscounted(zone, at, first)
    ensures !CountsAgree(zone.Date(), zone.midnight)
  {
    OneVisit(zone.Date(), zone.midnight, at, first);
    var visits := [at];
    assert CountPerPeriod(visits, Bounds(zone.midnight, first, 1))[0] != CountsByDate(zone.Date(), visits, first, 1)[0];
  }

  /** The first change with a midnight inside miscounts the visit at it. */
  lemma FirstMiscounts(base: int, changes: seq<Change>) returns (at: int, first: int)
    requires changes != [] && InOrder(base, changes)
    requires var n := |changes| - 1;
      var earlier, last := Clocks(base, changes[..n]), changes[n];
      !NoMidnightInside(last.at, LastOffset(base, changes[..n]), last.offset) && Aligned(earlier.Date(), earlier.midnight)
    ensures Miscounted(Clocks(base, changes), at, first)
    ensures at == changes[|changes| - 1].at && first * DAY < LaterReading(base, changes)
  {
    hide Clocks;
    var n := |changes| - 1;
    var earlier, last := Clocks(base, changes[..n]), changes[n];
    var before, after := LastOffset(base, changes[..n]), last.offset;
    at := last.at;
    var inside :| at + before < inside * DAY < at + after || at + after < inside * DAY < at + before;
    var a, b := at + before, at + after;
    first := if a < b then a / DAY else (a - 1) / DAY;
    LastChange(base, changes, at, first);
    LastChange(base, changes, at, first + 1);
    PastChanges(base, changes[..n], at);
    assert earlier.midnight(first) <= at <==> first <= earlier.Date()(at);
    assert earlier.midnight(first + 1) <= at <==> first + 1 <= earlier.Date()(at);
    InsideADay(a, b, inside, first);
  }

  /** Where the day before a midnight inside begins and ends. */
  lemma InsideADay(a: int, b: int, inside: int, first: int)
    requires a < inside * DAY < b || b < inside * DAY < a
    requires first == if a < b then a / DAY else (a - 1) / DAY
    ensures first <= a / DAY && b / DAY != first && first * DAY < Max(a, b)
    ensures a < b ==> first + 1 > a / DAY && (first + 1) * DAY < b
    ensures a > b ==> (first + 1) * DAY >= a
  {
    WholeDays(inside, a);
    WholeDays(inside, b);
    WholeDays(inside, a - 1);
    WholeDays(first, a - 1);
    WholeDays(first + 1, a - 1);
    WholeDays(first, a);
    WholeDays(first + 1, a);
  }

  /** A later change leaves it miscounted. */
  lemma StillMiscounted(base: int, changes: seq<Change>, at: int, first: int)
    requires changes != [] && Miscounted(Clocks(base, changes[..|changes| - 1]), at, first)
    requires at < changes[|changes| - 1].at && first * DAY < LaterReading(base, changes)
    ensures Miscounted(Clocks(base, changes), at, first)
  {
    LastChange(base, changes, at, first);
    LastChange(base, changes, at, first + 1);
  }

  lemma {:induction false} SomeMiscounted(base: int, changes: seq<Change>) returns (at: int, first: int)
    requires InOrder(base, changes) && !NoMidnightInsideAny(base, changes)
    ensures changes != [] && Miscounted(Clocks(base, changes), at, first)
    ensures at <= changes[|changes| - 1].at && first * DAY < LaterReading(base, changes)
  {
    var n := |changes| - 1;
    assert n >= 0;
    Earlier(base, changes);
    if NoMidnightInsideAny(base, changes[..n]) {
      ChangesAligned(base, changes[..n]);
      at, first := FirstMiscounts(base, changes);
    } else {
      at, first := SomeMiscounted(base, changes[..n]);
      assert changes[..n][n - 1] == changes[n - 1] && changes[..n + 1] == changes;
      StillMiscounted(base, changes, at, first);
    }
  }

  // ---------------------------------------------------------------- Exactly when

  /**
   However often a zone's clocks change, counting between midnights groups every list of visits by local date
   exactly when no midnight falls strictly inside a change. A change at midnight, or over a whole skipped day, is fine.
   */
  lemma ChangesAgreeIff(base: int, changes: seq<Change>)
    requires InOrder(base, changes)
    ensures CountsAgree(Clocks(base, changes).Date(), Clocks(base, changes).midnight) <==> NoMidnightInsideAny(base, changes)
  {
    hide InOrder, NoMidnightInsideAny, CountsAgree;
    var zone := Clocks(base, changes);
    if NoMidnightInsideAny(base, changes) {
      ChangesAligned(base, changes);
      AlignedZonesAgree(zone.Date(), zone.midnight);
    } else {
      var at, first := SomeMiscounted(base, changes);
      MiscountedDisagrees(zone, at, first);
    }
  }

  /** Changes further apart than their sizes are in order, and so are their readings. */
  lemma FarApartIsInOrder(base: int, changes: seq<Change>)
    requires forall i :: 0 < i < |changes| ==>
      changes[i].at - changes[i - 1].at > Size(base, changes, i - 1) + Size(base, changes, i)
    ensures InOrder(base, changes)
  {
    forall n | 1 < n <= |changes| ensures LaterReading(base, changes[..n - 1]) <= LaterReading(base, changes[..n]) {
      assert changes[..n][..n - 1] == changes[..n - 1] && changes[..n - 1][..n - 2] == changes[..n - 2];
      assert changes[..n][n - 1] == changes[n - 1] && changes[..n - 1][n - 2] == changes[n - 2];
      assert changes[n - 1].at - changes[n - 2].at > Size(base, changes, n - 2) + Size(base, changes, n - 1);
    }
    forall i | 0 < i < |changes| ensures changes[i - 1].at < changes[i].at {
      assert changes[i].at - changes[i - 1].at > Size(base, changes, i - 1) + Size(base, changes, i);
    }
  }

  /** How far a change moves the clocks. */
  function Size(base: int, changes: seq<Change>, i: nat): (size: nat)
    requires i < |changes|
    ensures var moved := changes[i].offset - LastOffset(base, changes[..i]); size == if moved >= 0 then moved else -moved
  {
    var before, after := LastOffset(base, changes[..i]), changes[i].offset;
    Max(before - after, after - before)
  }

  /** Clocks going from 00:01 back to 23:01, or from 23:30 on to 00:30, at any date break it. */
  lemma AnHourAcrossMidnightDisagrees(d: int, before: int)
    ensures var back := Clocks(before, [Change(d * DAY + 60_000_000 - before, before - HOUR)]);
      !CountsAgree(back.Date(), back.midnight)
    ensures var on := Clocks(before, [Change(d * DAY - HOUR / 2 - before, before + HOUR)]);
      !CountsAgree(on.Date(), on.midnight)
  {
    hide CountsAgree, Clocks;
    var back, on := [Change(d * DAY + 60_000_000 - before, before - HOUR)], [Change(d * DAY - HOUR / 2 - before, before + HOUR)];
    assert back[..0] == [] && on[..0] == [];
    var a, b := back[0], on[0];
    assert a.at + a.offset < d * DAY < a.at + before && b.at + before < d * DAY < b.at + b.offset;
    assert !NoMidnightInside(a.at, LastOffset(before, back[..0]), a.offset);
    assert !NoMidnightInside(b.at, LastOffset(before, on[..0]), b.offset);
    ChangesAgreeIff(before, back);
    ChangesAgreeIff(before, on);
  }
}
