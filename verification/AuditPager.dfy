/**
 The organization's audit, newest first, a page at a time: the cursor is an instant, and a page never
 ends between two rows of the same one.
 */
module AuditPager {
  import opened Rows
  import opened Sorting

  datatype Event = Event(id: nat, at: int, org: nat, account: nat)

  // ---------------------------------------------------------------- The query

  /** `ORDER BY at DESC, id DESC`. */
  predicate Precedes(a: Event, b: Event) {
    a.at > b.at || (a.at == b.at && a.id >= b.id)
  }

  ghost predicate NewestFirst(events: seq<Event>) {
    forall i, j :: 0 <= i < j < |events| ==> Precedes(events[i], events[j])
  }

  /** The table in order. */
  function Ordered(table: seq<Event>): (events: seq<Event>)
    ensures NewestFirst(events) && multiset(events) == multiset(table)
  {
    SortedKeepsRows(table, Precedes);
    SortedIsInOrder(table, Precedes);
    Sorted(table, Precedes)
  }

  function Matching(org: nat, account: Option<nat>, before: Option<int>): Event -> bool {
    (event: Event) => event.org == org
      && (account.Some? ==> event.account == account.value)
      && (before.Some? ==> event.at < before.value)
  }

  /** The matching rows, newest first. */
  function Query(table: seq<Event>, org: nat, account: Option<nat>, before: Option<int>): seq<Event> {
    Filter(Ordered(table), Matching(org, account, before))
  }

  // ---------------------------------------------------------------- The pager

  function NotAt(instant: int): Event -> bool { (event: Event) => event.at != instant }

  function At(instant: int): Event -> bool { (event: Event) => event.at == instant }

  function Older(instant: int): Event -> bool { (event: Event) => event.at < instant }

  /** A page of at most `limit` rows, and the cursor for the next one: None when there are no more. */
  function AuditPage(table: seq<Event>, org: nat, account: Option<nat>, before: Option<int>, limit: nat): (seq<Event>, Option<int>)
    requires limit >= 1
  {
    PageOf(Query(table, org, account, before), limit)
  }

  /** It reads one row more than the page, and the whole instant when one alone fills it. */
  function PageOf(query: seq<Event>, limit: nat): (seq<Event>, Option<int>)
    requires limit >= 1
  {
    var rows := if |query| <= limit + 1 then query else query[..limit + 1];
    if |rows| <= limit then (rows, None)
    else
      var page, boundary := rows[..limit], rows[limit].at;
      if page[|page| - 1].at == boundary then
        var earlier := Filter(page, NotAt(boundary));
        if earlier != [] then (earlier, Some(earlier[|earlier| - 1].at))
        else
          BoundaryKept(query, limit);
          var all := Filter(query, At(boundary));
          (all, Some(all[|all| - 1].at))
      else (page, Some(page[|page| - 1].at))
  }

  lemma {:induction false} BoundaryKept(query: seq<Event>, i: nat)
    requires i < |query|
    ensures Filter(query, At(query[i].at)) != []
  {
    if i > 0 {
      BoundaryKept(query[1..], i - 1);
    }
  }

  // ---------------------------------------------------------------- Filters of an ordered list

  lemma {:induction false} FilterSorted(events: seq<Event>, keep: Event -> bool)
    requires NewestFirst(events)
    ensures NewestFirst(Filter(events, keep)) && forall event | event in Filter(events, keep) :: event in events && keep(event)
  {
    forall event | event in Filter(events, keep) ensures event in events && keep(event) {
      KeptRows(events, keep, event);
    }
    if events != [] {
      FilterSorted(events[1..], keep);
      var rest := Filter(events[1..], keep);
      forall i | 0 <= i < |rest| ensures Precedes(events[0], rest[i]) {
        KeptRows(events[1..], keep, rest[i]);
        var j :| 0 <= j < |events[1..]| && rest[i] == events[1..][j];
        assert events[1..][j] == events[j + 1];
      }
    }
  }

  /** Cut between two instants, the rows older than the first are those after the cut. */
  lemma OlderThanCut(events: seq<Event>, k: nat, instant: int)
    requires NewestFirst(events) && k <= |events|
    requires (k > 0 ==> events[k - 1].at >= instant) && (k < |events| ==> events[k].at < instant)
    ensures Filter(events, Older(instant)) == events[k..]
  {
    hide Filter;
    var head, tail := events[..k], events[k..];
    forall i | 0 <= i < k ensures events[i].at >= instant {
      assert i < k - 1 ==> Precedes(events[i], events[k - 1]);
    }
    forall i | k <= i < |events| ensures events[i].at < instant {
      assert k < i ==> Precedes(events[k], events[i]);
    }
    hide NewestFirst, Precedes;
    FilterNone(head, Older(instant));
    FilterAll(tail, Older(instant));
    FilterConcat(head, tail, Older(instant));
    assert events == head + tail && [] + tail == tail;
  }

  // ---------------------------------------------------------------- One page

  lemma {:induction false} EarlierIsPrefix(query: seq<Event>, n: nat, boundary: int) returns (k: nat)
    requires NewestFirst(query) && n <= |query| && forall i :: 0 <= i < n ==> query[i].at >= boundary
    ensures k <= n && Filter(query[..n], NotAt(boundary)) == query[..k]
    ensures (k > 0 ==> query[k - 1].at > boundary) && (k < n ==> query[k].at == boundary)
  {
    if n == 0 {
      k := 0;
    } else {
      k := EarlierIsPrefix(query, n - 1, boundary);
      var last := query[n - 1];
      assert query[..n] == query[..n - 1] + [last];
      FilterConcat(query[..n - 1], [last], NotAt(boundary));
      assert Filter([last][1..], NotAt(boundary)) == [];
      assert k < n - 1 ==> Precedes(query[k], query[n - 1]);
      if last.at != boundary {
        k := n;
      }
    }
  }

  lemma {:induction false} SameInstantIsPrefix(query: seq<Event>, n: nat) returns (k: nat)
    requires NewestFirst(query) && 0 < n <= |query| && forall i :: 0 <= i < n ==> query[i].at == query[0].at
    ensures n <= k <= |query| && Filter(query, At(query[0].at)) == query[..k]
    ensures (forall i :: 0 <= i < k ==> query[i].at == query[0].at) && (k < |query| ==> query[k].at < query[0].at)
    decreases |query| - n
  {
    if n == |query| {
      k := n;
      assert query[..k] == query;
      FilterAll(query, At(query[0].at));
    } else if query[n].at == query[0].at {
      k := SameInstantIsPrefix(query, n + 1);
    } else {
      k := n;
      assert Precedes(query[0], query[n]);
      assert query == query[..n] + query[n..];
      FilterConcat(query[..n], query[n..], At(query[0].at));
      FilterAll(query[..n], At(query[0].at));
      forall event | event in query[n..] ensures event.at != query[0].at {
        var i :| 0 <= i < |query[n..]| && event == query[n..][i] == query[n + i];
        assert i > 0 ==> Precedes(query[n], query[n + i]);
      }
      FilterNone(query[n..], At(query[0].at));
    }
  }

  /** A page with a cursor is the query cut after the last row of an instant. */
  lemma PageIsCut(query: seq<Event>, limit: nat) returns (k: nat)
    requires limit >= 1 && NewestFirst(query) && |query| > limit
    ensures 0 < k <= |query| && PageOf(query, limit) == (query[..k], Some(query[k - 1].at))
    ensures k < |query| ==> query[k].at < query[k - 1].at
    ensures k > limit ==> forall i :: 0 <= i < k ==> query[i].at == query[0].at
  {
    hide Filter;
    var boundary := query[limit].at;
    assert query[..limit + 1][..limit] == query[..limit];
    assert Precedes(query[limit - 1], query[limit]);
    if query[limit - 1].at != boundary {
      k := limit;
    } else {
      forall i | 0 <= i < limit ensures query[i].at >= boundary {
        assert Precedes(query[i], query[limit]);
      }
      k := EarlierIsPrefix(query, limit, boundary);
      if k == 0 {
        forall i | 0 <= i <= limit ensures query[i].at == query[0].at {
          assert i > 0 ==> Precedes(query[0], query[i]);
        }
        k := SameInstantIsPrefix(query, limit + 1);
      }
    }
  }

  /**
   A page is a first part of the rows left, up to the last of an instant: without a cursor all of them;
   with one, some, ending where the rows strictly older than the cursor begin.
   */
  lemma PageEndsAnInstant(table: seq<Event>, org: nat, account: Option<nat>, before: Option<int>, limit: nat)
    requires limit >= 1
    ensures var query, (page, cursor) := Query(table, org, account, before), AuditPage(table, org, account, before, limit);
            && (cursor.None? ==> page == query && |page| <= limit)
            && (cursor.Some? ==> page != [] && query == page + Filter(query, Older(cursor.value))
                                 && (before.Some? ==> cursor.value < before.value))
            && (|page| > limit ==> forall event | event in page :: event.at == page[0].at)
  {
    hide Filter;
    var query := Query(table, org, account, before);
    FilterSorted(Ordered(table), Matching(org, account, before));
    if |query| > limit {
      hide Query, PageOf;
      var k := PageIsCut(query, limit);
      CutsAt(query, k, before);
    }
  }

  lemma CutsAt(query: seq<Event>, k: nat, before: Option<int>)
    requires NewestFirst(query) && 0 < k <= |query| && (k < |query| ==> query[k].at < query[k - 1].at)
    requires before.Some? ==> forall event | event in query :: event.at < before.value
    ensures query == query[..k] + Filter(query, Older(query[k - 1].at))
    ensures before.Some? ==> query[k - 1].at < before.value
  {
    hide Filter, NewestFirst;
    assert query[k - 1] in query;
    OlderThanCut(query, k, query[k - 1].at);
  }

  /** The rows left after a page are those the next one asks for. */
  lemma NextQuery(table: seq<Event>, org: nat, account: Option<nat>, before: Option<int>, cursor: int)
    requires before.Some? ==> cursor < before.value
    ensures Filter(Query(table, org, account, before), Older(cursor)) == Query(table, org, account, Some(cursor))
  {
    FilterTwice(Ordered(table), Matching(org, account, before), Older(cursor), Matching(org, account, Some(cursor)));
  }

  // ---------------------------------------------------------------- The walk

  /** Every page, from `before` on, following the cursor until there is none. */
  function Walk(table: seq<Event>, org: nat, account: Option<nat>, before: Option<int>, limit: nat): (pages: seq<seq<Event>>)
    requires limit >= 1
    ensures Concatenated(pages) == Query(table, org, account, before)
    decreases |Query(table, org, account, before)|
  {
    PageEndsAnInstant(table, org, account, before, limit);
    var (page, cursor) := AuditPage(table, org, account, before, limit);
    if cursor.None? then
      assert Concatenated([page]) == page + Concatenated([page][1..]);
      [page]
    else
      NextQuery(table, org, account, before, cursor.value);
      var rest := Walk(table, org, account, cursor, limit);
      assert ([page] + rest)[1..] == rest;
      [page] + rest
  }

  /** Every page but the last holds rows; one holds more than `limit` only when they share an instant. */
  ghost predicate PagesFit(pages: seq<seq<Event>>, limit: nat) {
    && (forall i :: 0 <= i < |pages| - 1 ==> pages[i] != [])
    && (forall i :: 0 <= i < |pages| && |pages[i]| > limit ==> forall event | event in pages[i] :: event.at == pages[i][0].at)
  }

  lemma {:induction false} WalkPagesFit(table: seq<Event>, org: nat, account: Option<nat>, before: Option<int>, limit: nat)
    requires limit >= 1
    ensures PagesFit(Walk(table, org, account, before, limit), limit)
    decreases |Query(table, org, account, before)|
  {
    hide Query, AuditPage, Filter;
    PageEndsAnInstant(table, org, account, before, limit);
    var (page, cursor) := AuditPage(table, org, account, before, limit);
    if cursor.Some? {
      NextQuery(table, org, account, before, cursor.value);
      WalkPagesFit(table, org, account, cursor, limit);
      var rest := Walk(table, org, account, cursor, limit);
      assert Walk(table, org, account, before, limit) == [page] + rest;
    } else {
      assert Walk(table, org, account, before, limit) == [page];
    }
  }

  function Concatenated(pages: seq<seq<Event>>): seq<Event> {
    if pages == [] then [] else pages[0] + Concatenated(pages[1..])
  }

  /** Whose events are asked for: the organization's, and the account's when one is named. */
  predicate IsAsked(event: Event, org: nat, account: Option<nat>) {
    event.org == org && match account case None => true case Some(a) => event.account == a
  }

  /** From no cursor, the pages are the events asked for, newest first, each as often as the table holds it, and no other. */
  lemma WalkReadsEverything(table: seq<Event>, org: nat, account: Option<nat>, limit: nat, event: Event)
    requires limit >= 1
    ensures var read := Concatenated(Walk(table, org, account, None, limit));
            && (forall i, j :: 0 <= i < j < |read| ==>
                  read[i].at > read[j].at || (read[i].at == read[j].at && read[i].id >= read[j].id))
            && multiset(read)[event] == if IsAsked(event, org, account) then multiset(table)[event] else 0
  {
    FilterSorted(Ordered(table), Matching(org, account, None));
    FilterMultiset(Ordered(table), Matching(org, account, None), event);
  }

  /** Every page by itself holds only events asked for, newest first and strictly older than the cursor it was asked with. */
  lemma PageHoldsOnlyAsked(table: seq<Event>, org: nat, account: Option<nat>, before: Option<int>, limit: nat)
    requires limit >= 1
    ensures var (page, cursor) := AuditPage(table, org, account, before, limit);
            && NewestFirst(page)
            && (forall event | event in page ::
                  event in table && IsAsked(event, org, account) && (before.Some? ==> event.at < before.value))
            && (cursor.Some? ==> page != [] && cursor.value == page[|page| - 1].at)
  {
    hide Query, PageOf, IsAsked, Precedes;
    var query := Query(table, org, account, before);
    QueryHoldsOnlyAsked(table, org, account, before);
    PageIsPrefix(query, limit);
  }

  lemma QueryHoldsOnlyAsked(table: seq<Event>, org: nat, account: Option<nat>, before: Option<int>)
    ensures var query := Query(table, org, account, before);
            NewestFirst(query)
            && forall event | event in query ::
                 event in table && IsAsked(event, org, account) && (before.Some? ==> event.at < before.value)
  {
    var ordered := Ordered(table);
    FilterSorted(ordered, Matching(org, account, before));
    hide NewestFirst, Ordered;
    forall event | event in ordered ensures event in table {
      assert event in multiset(ordered);
    }
  }

  lemma PageIsPrefix(query: seq<Event>, limit: nat)
    requires limit >= 1 && NewestFirst(query)
    ensures var (page, cursor) := PageOf(query, limit);
            page <= query && (cursor.Some? ==> page != [] && cursor.value == page[|page| - 1].at)
  {
    hide Filter;
    if |query| > limit {
      hide PageOf;
      var k := PageIsCut(query, limit);
    }
  }
}
