/**
 Fixed-window rate limits: one row a key, the window it was last counted in and how often. The full
 log of hits is what the row stands for. Clock reads are in the order of the increments, and the keyed
 hash is injective, so a key is its message.
 */
module RateLimit {
  import opened Rows

  /** Seconds a row may sit idle before any limit's increment deletes it. */
  const KEEP: int := 3600

  datatype Limit = Limit(name: string, window: int, perWindow: int)

  datatype Hit = Recorded(limit: Limit, subject: string, now: int)

  datatype Row = Row(windowStart: int, count: nat)

  datatype Verdict = Verdict(allowed: bool, retryAfter: int, count: Option<nat>)

  type Table = map<string, Row>

  function KeyOf(limit: Limit, subject: string): string {
    limit.name + ":" + subject
  }

  /** Limits the program declares: a window no longer than rows are kept, a name without the separator. */
  predicate Declared(limit: Limit) {
    1 <= limit.window <= KEEP && ':' !in limit.name
  }

  function WindowStart(window: int, now: int): (start: int)
    requires window >= 1
    ensures start <= now < start + window
  {
    now - now % window
  }

  function SecondsLeft(window: int, now: int): (left: int)
    requires window >= 1
    ensures 1 <= left <= window
  {
    WindowStart(window, now) + window - now
  }

  // ---------------------------------------------------------------- The row

  /** What a key's row counts for the window starting at `start`. */
  function Counted(table: Table, key: string, start: int): nat {
    if key in table && table[key].windowStart == start then table[key].count else 0
  }

  /** Old rows go, then the key's row gets one more in this window, or one in a new one. */
  function Increment(table: Table, key: string, start: int): Table {
    var kept := map k | k in table && table[k].windowStart >= start - KEEP :: table[k];
    kept[key := Row(start, if key in kept && kept[key].windowStart == start then kept[key].count + 1 else 1)]
  }

  /** An increment counts its key once more in this window, and keeps every other row but those idle for an hour before it. */
  lemma IncrementWrites(table: Table, key: string, start: int, other: string)
    ensures var next := Increment(table, key, start);
      && key in next && next[key].windowStart == start && next[key].count == Counted(table, key, start) + 1
      && (other != key ==> (other in next <==> other in table && table[other].windowStart >= start - 60 * 60))
      && (other != key && other in next ==> next[other] == table[other])
  {
  }

  /** The limits declared have windows from a second to an hour: a minute, a quarter of an hour or an hour. */
  lemma DeclaredWindows(limit: Limit)
    ensures Declared(limit) <==> 0 < limit.window <= 3600 && ':' !in limit.name
    ensures limit.window in {60, 15 * 60, 60 * 60} && ':' !in limit.name ==> Declared(limit)
  {
  }

  function TableAfter(log: seq<Hit>): Table
    requires forall hit | hit in log :: hit.limit.window >= 1
  {
    if log == [] then map[]
    else
      var hit := log[|log| - 1];
      Increment(TableAfter(log[..|log| - 1]), KeyOf(hit.limit, hit.subject), WindowStart(hit.limit.window, hit.now))
  }

  // ---------------------------------------------------------------- The log

  /** A log the limiter can have: declared limits, one a name, each counted, in the order of the clock. */
  ghost predicate IsLog(log: seq<Hit>) {
    && (forall i :: 0 <= i < |log| ==> Declared(log[i].limit) && log[i].limit.perWindow > 0)
    && (forall i, j :: 0 <= i < j < |log| ==> log[i].now <= log[j].now)
    && (forall i, j :: 0 <= i < |log| && 0 <= j < |log| && log[i].limit.name == log[j].limit.name ==> log[i].limit == log[j].limit)
  }

  /** A hit that may come next. */
  ghost predicate MayFollow(log: seq<Hit>, limit: Limit, now: int) {
    && Declared(limit)
    && (forall i :: 0 <= i < |log| ==> log[i].now <= now)
    && (forall i :: 0 <= i < |log| && log[i].limit.name == limit.name ==> log[i].limit == limit)
  }

  /** The key's hits in the seconds from `start`, as many as a window has. */
  function InWindow(limit: Limit, subject: string, start: int): Hit -> bool {
    (hit: Hit) => hit.limit == limit && hit.subject == subject && start <= hit.now < start + limit.window
  }

  lemma KeysAreInjective(a: Limit, s: string, b: Limit, t: string)
    requires ':' !in a.name && ':' !in b.name && KeyOf(a, s) == KeyOf(b, t)
    ensures a.name == b.name && s == t
  {
    var key, n, m := KeyOf(a, s), |a.name|, |b.name|;
    assert key[..n] == a.name && key[..m] == b.name && key[n] == key[m] == ':';
    assert forall i :: 0 <= i < n ==> key[i] in a.name;
    assert forall i :: 0 <= i < m ==> key[i] in b.name;
    assert n == m;
    assert s == key[n + 1..] == t;
  }

  lemma Multiples(window: int, p: int, q: int)
    requires window >= 0 && p <= q
    ensures window * p <= window * q
  {
  }

  lemma WindowIsMultiple(window: int, now: int)
    requires window >= 1
    ensures WindowStart(window, now) == window * (now / window)
  {
  }

  /** Windows start at the same points, and later instants are in the same window or a later one. */
  lemma WindowsAscend(window: int, a: int, b: int)
    requires window >= 1 && a <= b
    ensures a / window <= b / window && WindowStart(window, a) <= WindowStart(window, b)
    ensures WindowStart(window, b) <= a ==> WindowStart(window, a) == WindowStart(window, b)
  {
    WindowIsMultiple(window, a);
    WindowIsMultiple(window, b);
    var p, q := a / window, b / window;
    if q < p {
      Multiples(window, q + 1, p);
      assert false;
    }
    Multiples(window, p, q);
    if p < q {
      Multiples(window, p + 1, q);
    }
  }

  lemma WindowIsItsInstants(window: int, now: int, t: int)
    requires window >= 1
    ensures WindowStart(window, now) <= t < WindowStart(window, now) + window <==> WindowStart(window, t) == WindowStart(window, now)
  {
    WindowIsMultiple(window, now);
    WindowIsMultiple(window, t);
    var p, q := now / window, t / window;
    if q < p {
      Multiples(window, q + 1, p);
    } else if p < q {
      Multiples(window, p + 1, q);
    }
  }

  /**
   The row refines the log: whatever mix of limits was hit and whatever their increments purged, what a
   key's row counts for the current window is the number of its hits in it.
   */
  lemma {:induction false} RowCountsWindow(log: seq<Hit>, limit: Limit, subject: string, now: int)
    requires IsLog(log) && MayFollow(log, limit, now)
    ensures Counted(TableAfter(log), KeyOf(limit, subject), WindowStart(limit.window, now))
         == Count(log, InWindow(limit, subject, WindowStart(limit.window, now)))
    decreases |log|
  {
    if log != [] {
      hide WindowStart, Increment, Counted, Count, KeyOf;
      var past, hit := log[..|log| - 1], log[|log| - 1];
      assert log == past + [hit];
      var start := WindowStart(limit.window, now);
      RowCountsWindow(past, limit, subject, now);
      CountSnoc(past, hit, InWindow(limit, subject, start));
      if KeyOf(limit, subject) == KeyOf(hit.limit, hit.subject) {
        KeysAreInjective(limit, subject, hit.limit, hit.subject);
        OwnHit(past, hit, TableAfter(past), now);
      } else {
        OthersHit(hit, TableAfter(past), limit, subject, now);
      }
    }
  }

  /** A hit of the key itself: one more in its window, or the first of a new one. */
  lemma OwnHit(past: seq<Hit>, hit: Hit, table: Table, now: int)
    requires Declared(hit.limit) && hit.now <= now && forall i :: 0 <= i < |past| ==> past[i].now <= hit.now
    requires var start := WindowStart(hit.limit.window, now);
             Counted(table, KeyOf(hit.limit, hit.subject), start) == Count(past, InWindow(hit.limit, hit.subject, start))
    ensures var key, start := KeyOf(hit.limit, hit.subject), WindowStart(hit.limit.window, now);
            Counted(Increment(table, key, WindowStart(hit.limit.window, hit.now)), key, start)
            == Count(past, InWindow(hit.limit, hit.subject, start)) + if InWindow(hit.limit, hit.subject, start)(hit) then 1 else 0
  {
    hide Count, KeyOf;
    var start := WindowStart(hit.limit.window, now);
    WindowsAscend(hit.limit.window, hit.now, now);
    WindowIsItsInstants(hit.limit.window, now, hit.now);
    if start != WindowStart(hit.limit.window, hit.now) {
      CountNone(past, InWindow(hit.limit, hit.subject, start));
    }
  }

  /** Another key's hit, whatever it purges, leaves what the key counts for the current window. */
  lemma OthersHit(hit: Hit, table: Table, limit: Limit, subject: string, now: int)
    requires Declared(limit) && Declared(hit.limit) && hit.now <= now
    requires KeyOf(limit, subject) != KeyOf(hit.limit, hit.subject)
    ensures var key, start := KeyOf(limit, subject), WindowStart(limit.window, now);
            Counted(Increment(table, KeyOf(hit.limit, hit.subject), WindowStart(hit.limit.window, hit.now)), key, start)
            == Counted(table, key, start)
            && !InWindow(limit, subject, start)(hit)
  {
    hide KeyOf;
  }

  lemma LogGoesOn(log: seq<Hit>, limit: Limit, subject: string, now: int)
    requires IsLog(log) && MayFollow(log, limit, now) && limit.perWindow > 0
    ensures var next := log + [Recorded(limit, subject, now)];
            IsLog(next) && TableAfter(next) == Increment(TableAfter(log), KeyOf(limit, subject), WindowStart(limit.window, now))
  {
    assert (log + [Recorded(limit, subject, now)])[..|log|] == log;
  }

  // ---------------------------------------------------------------- Counting and checking

  class Limiter {
    var table: Table
    ghost var log: seq<Hit>

    ghost predicate Valid()
      reads this
    {
      IsLog(log) && table == TableAfter(log)
    }

    constructor ()
      ensures Valid() && log == []
    {
      table, log := map[], [];
    }

    /** Count one for the subject, and say whether it is still within the limit. */
    method Hit(limit: Limit, subject: string, now: int) returns (verdict: Verdict)
      requires Valid() && MayFollow(log, limit, now)
      modifies this
      ensures Valid()
      ensures limit.perWindow <= 0 ==> log == old(log) && table == old(table) && verdict == Verdict(true, 0, None)
      ensures limit.perWindow > 0 ==>
        var before := Count(old(log), InWindow(limit, subject, WindowStart(limit.window, now)));
        && log == old(log) + [Recorded(limit, subject, now)]
        && verdict == Verdict(before < limit.perWindow, SecondsLeft(limit.window, now), Some(before + 1))
    {
      if limit.perWindow <= 0 {
        return Verdict(true, 0, None);
      }
      hide IsLog, TableAfter, WindowStart, Count, KeyOf;
      RowCountsWindow(log, limit, subject, now);
      var start, left := WindowStart(limit.window, now), SecondsLeft(limit.window, now);
      var key := KeyOf(limit, subject);
      LogGoesOn(log, limit, subject, now);
      table := Increment(table, key, start);
      log := log + [Recorded(limit, subject, now)];
      var count := table[key].count;
      verdict := Verdict(count <= limit.perWindow, left, Some(count));
    }

    /** Whether the subject is still within the limit, without counting. */
    method Check(limit: Limit, subject: string, now: int) returns (verdict: Verdict)
      requires Valid() && MayFollow(log, limit, now)
      ensures limit.perWindow <= 0 ==> verdict == Verdict(true, 0, None)
      ensures limit.perWindow > 0 ==>
        verdict == Verdict(Count(log, InWindow(limit, subject, WindowStart(limit.window, now))) < limit.perWindow,
                           SecondsLeft(limit.window, now), None)
    {
      if limit.perWindow <= 0 {
        return Verdict(true, 0, None);
      }
      RowCountsWindow(log, limit, subject, now);
      var start, left := WindowStart(limit.window, now), SecondsLeft(limit.window, now);
      var key := KeyOf(limit, subject);
      var count := if key in table && table[key].windowStart == start then table[key].count else 0;
      verdict := Verdict(count < limit.perWindow, left, None);
    }
  }

  /** `check` says yes exactly when an immediate `hit` would. */
  method CheckThenHit(limiter: Limiter, limit: Limit, subject: string, now: int) returns (checked: Verdict, hit: Verdict)
    requires limiter.Valid() && MayFollow(limiter.log, limit, now)
    modifies limiter
    ensures checked.allowed == hit.allowed && checked.retryAfter == hit.retryAfter
  {
    checked := limiter.Check(limit, subject, now);
    hit := limiter.Hit(limit, subject, now);
  }

  // ---------------------------------------------------------------- How many pass

  /** Whether the log's `i`th hit was allowed: fewer than the limit came before it in its window. */
  ghost predicate Passed(log: seq<Hit>, i: nat)
    requires i < |log| && log[i].limit.window >= 1
  {
    var hit := log[i];
    Count(log[..i], InWindow(hit.limit, hit.subject, WindowStart(hit.limit.window, hit.now))) < hit.limit.perWindow
  }

  /** How many of the hits `where` picks were allowed. */
  ghost function Allowed(log: seq<Hit>, where: Hit -> bool): nat
    requires forall hit | hit in log :: hit.limit.window >= 1
  {
    if log == [] then 0
    else
      var n := |log| - 1;
      Allowed(log[..n], where) + if where(log[n]) && Passed(log, n) then 1 else 0
  }

  /** In a window, the first N hits of a key pass and no more. */
  lemma {:induction false} WindowAllowsN(log: seq<Hit>, limit: Limit, subject: string, start: int)
    requires (forall hit | hit in log :: hit.limit.window >= 1) && limit.window >= 1 && limit.perWindow > 0
    requires start == WindowStart(limit.window, start)
    ensures var hits := Count(log, InWindow(limit, subject, start));
            Allowed(log, InWindow(limit, subject, start)) == if hits <= limit.perWindow then hits else limit.perWindow
    decreases |log|
  {
    if log != [] {
      var past, hit := log[..|log| - 1], log[|log| - 1];
      assert log == past + [hit];
      WindowAllowsN(past, limit, subject, start);
      CountSnoc(past, hit, InWindow(limit, subject, start));
      if InWindow(limit, subject, start)(hit) {
        WindowIsItsInstants(limit.window, start, hit.now);
      }
    }
  }

  lemma {:induction false} AllowedSplits(log: seq<Hit>, where: Hit -> bool, a: Hit -> bool, b: Hit -> bool)
    requires forall hit | hit in log :: hit.limit.window >= 1 && (where(hit) ==> a(hit) || b(hit))
    ensures Allowed(log, where) <= Allowed(log, a) + Allowed(log, b)
    decreases |log|
  {
    if log != [] {
      AllowedSplits(log[..|log| - 1], where, a, b);
    }
  }

  /** At most 2N pass in any stretch as long as a window, wherever it starts. */
  lemma StretchAllowsTwiceN(log: seq<Hit>, limit: Limit, subject: string, from: int)
    requires (forall hit | hit in log :: hit.limit.window >= 1) && limit.window >= 1 && limit.perWindow > 0
    ensures Allowed(log, InWindow(limit, subject, from)) <= 2 * limit.perWindow
  {
    var start := WindowStart(limit.window, from);
    WindowIsItsInstants(limit.window, from, start);
    NextWindow(limit.window, from);
    WindowAllowsN(log, limit, subject, start);
    WindowAllowsN(log, limit, subject, start + limit.window);
    AllowedSplits(log, InWindow(limit, subject, from), InWindow(limit, subject, start), InWindow(limit, subject, start + limit.window));
  }

  lemma NextWindow(window: int, now: int)
    requires window >= 1
    ensures var next := WindowStart(window, now) + window; WindowStart(window, next) == next
  {
    WindowIsMultiple(window, now);
    var p, next := now / window, WindowStart(window, now) + window;
    WindowIsMultiple(window, next);
    var q := next / window;
    assert next == window * (p + 1);
    if q < p + 1 {
      Multiples(window, q + 1, p + 1);
    } else if p + 1 < q {
      Multiples(window, p + 2, q);
    }
  }

  /** Waiting `retry_after` reaches the next window, where nothing has been counted yet. */
  lemma WaitingReachesAFreshWindow(log: seq<Hit>, limit: Limit, subject: string, now: int)
    requires IsLog(log) && MayFollow(log, limit, now)
    ensures var later := now + SecondsLeft(limit.window, now);
            WindowStart(limit.window, later) == WindowStart(limit.window, now) + limit.window
            && Counted(TableAfter(log), KeyOf(limit, subject), WindowStart(limit.window, later)) == 0
  {
    hide IsLog, Count, WindowStart, TableAfter;
    NextWindow(limit.window, now);
    var later := now + SecondsLeft(limit.window, now);
    RowCountsWindow(log, limit, subject, later);
    CountNone(log, InWindow(limit, subject, later));
  }

  function Repeated(hit: Hit, n: nat): (hits: seq<Hit>)
    ensures |hits| == n && forall i :: 0 <= i < n ==> hits[i] == hit
  {
    seq(n, i => hit)
  }

  lemma {:induction false} CountRepeated(hit: Hit, n: nat, where: Hit -> bool)
    ensures Count(Repeated(hit, n), where) == if where(hit) then n else 0
  {
    if n > 0 {
      CountRepeated(hit, n - 1, where);
      assert Repeated(hit, n)[1..] == Repeated(hit, n - 1);
    }
  }

  lemma {:induction false} AllowedJoins(log: seq<Hit>, where: Hit -> bool, a: Hit -> bool, b: Hit -> bool)
    requires forall hit | hit in log :: hit.limit.window >= 1
    requires forall hit | hit in log :: !(a(hit) && b(hit)) && (a(hit) || b(hit) ==> where(hit))
    ensures Allowed(log, where) >= Allowed(log, a) + Allowed(log, b)
    decreases |log|
  {
    if log != [] {
      AllowedJoins(log[..|log| - 1], where, a, b);
    }
  }

  lemma FirstWindows(window: int)
    requires window >= 1
    ensures WindowStart(window, 0) == 0 && WindowStart(window, window) == window
  {
    NextWindow(window, 0);
  }

  /** The bound is met: N in a window's last second and N in the next one's first all pass. */
  lemma TwiceNIsReached(limit: Limit, subject: string) returns (log: seq<Hit>, from: int)
    requires Declared(limit) && limit.window >= 2 && limit.perWindow > 0
    ensures IsLog(log) && Allowed(log, InWindow(limit, subject, from)) == 2 * limit.perWindow
  {
    hide Count, Allowed, WindowStart;
    var n, w := limit.perWindow, limit.window;
    from := w - 1;
    var last, first := Recorded(limit, subject, w - 1), Recorded(limit, subject, w);
    log := Repeated(last, n) + Repeated(first, n);
    FirstWindows(w);
    var a, b := InWindow(limit, subject, 0), InWindow(limit, subject, w);
    CountConcat(Repeated(last, n), Repeated(first, n), a);
    CountConcat(Repeated(last, n), Repeated(first, n), b);
    CountRepeated(last, n, a);
    CountRepeated(first, n, a);
    CountRepeated(last, n, b);
    CountRepeated(first, n, b);
    WindowAllowsN(log, limit, subject, 0);
    WindowAllowsN(log, limit, subject, w);
    AllowedJoins(log, InWindow(limit, subject, from), a, b);
    StretchAllowsTwiceN(log, limit, subject, from);
  }
}
