/**
 Runs of redirects and tracking pixels: the cap on a link's clicks, and its last click, as the visits tell them.
 */
module Redirect {
  import opened Rows
  import opened Analytics

  type Id = int

  datatype Link = Link(validSince: Option<int>, validUntil: Option<int>, maxVisits: Option<int>, lastClickAt: Option<int>)

  /** The links, and every visit in the order it was logged. */
  datatype Db = Db(links: map<Id, Link>, visits: seq<Visit>)

  /** Who asks for a link's address: a social network's crawler, a bot, or with tracking turned off. */
  datatype Asker = Asker(isSocialCrawler: bool, isBot: bool, untracked: bool)

  datatype Hit =
    | Ask(link: Id, now: int, asker: Asker)
    | Track(link: Id, now: int, isBot: bool)

  /** What a redirect answers: a 404, a 410, or the way on. */
  datatype Answer = NotFound | Expired | UsedUp | Led | Pixel

  function ClickOn(link: Id): Visit -> bool {
    (visit: Visit) => visit.url == link && KindOf(visit) == Click
  }

  function ClickCount(db: Db, link: Id): nat {
    Count(db.visits, ClickOn(link))
  }

  function AnswerTo(db: Db, hit: Hit): Answer {
    if hit.link !in db.links then NotFound
    else if hit.Track? then Pixel
    else
      var link := db.links[hit.link];
      if link.validSince.Some? && hit.now < link.validSince.value then NotFound
      else if link.validUntil.Some? && hit.now >= link.validUntil.value then Expired
      else if link.maxVisits.Some? && ClickCount(db, hit.link) >= link.maxVisits.value then UsedUp
      else Led
  }

  /** A person led on, and logged. */
  predicate IsClick(db: Db, hit: Hit) {
    AnswerTo(db, hit) == Led && !hit.asker.isSocialCrawler && !hit.asker.untracked && !hit.asker.isBot
  }

  function Logged(db: Db, hit: Hit): Option<Visit> {
    match AnswerTo(db, hit)
    case Led =>
      if hit.asker.isSocialCrawler || hit.asker.untracked then None
      else Some(Visit(hit.link, hit.now, hit.asker.isBot, false))
    case Pixel => Some(Visit(hit.link, hit.now, hit.isBot, true))
    case _ => None
  }

  function After(db: Db, hit: Hit): Db {
    Db(if IsClick(db, hit) then db.links[hit.link := db.links[hit.link].(lastClickAt := Some(hit.now))] else db.links,
       match Logged(db, hit) case Some(visit) => db.visits + [visit] case None => db.visits)
  }

  function AfterAll(db: Db, hits: seq<Hit>): Db
    decreases |hits|
  {
    if hits == [] then db else AfterAll(After(db, hits[0]), hits[1..])
  }

  // ---------------------------------------------------------------- The handlers

  class Server {
    var links: map<Id, Link>
    var visits: seq<Visit>

    function Value(): Db reads this { Db(links, visits) }

    constructor (links: map<Id, Link>)
      ensures Value() == Db(links, [])
    {
      this.links, visits := links, [];
    }

    method RedirectShortUrl(id: Id, now: int, asker: Asker) returns (answer: Answer)
      modifies this
      ensures answer == AnswerTo(old(Value()), Ask(id, now, asker))
      ensures Value() == After(old(Value()), Ask(id, now, asker))
    {
      if id !in links {
        return NotFound;
      }
      var link := links[id];
      if link.validSince.Some? && now < link.validSince.value {
        return NotFound;
      }
      if link.validUntil.Some? && now >= link.validUntil.value {
        return Expired;
      }
      if link.maxVisits.Some? && Count(visits, ClickOn(id)) >= link.maxVisits.value {
        return UsedUp;
      }
      answer := Led;
      if asker.isSocialCrawler || asker.untracked {
        return;
      }
      visits := visits + [Visit(id, now, asker.isBot, false)];
      if !asker.isBot {
        links := links[id := link.(lastClickAt := Some(now))];
      }
    }

    method TrackingPixel(id: Id, now: int, isBot: bool) returns (answer: Answer)
      modifies this
      ensures answer == AnswerTo(old(Value()), Track(id, now, isBot))
      ensures Value() == After(old(Value()), Track(id, now, isBot))
    {
      if id !in links {
        return NotFound;
      }
      visits := visits + [Visit(id, now, isBot, true)];
      answer := Pixel;
    }
  }

  // ---------------------------------------------------------------- One hit

  /** A hit adds a click exactly when it leads a person on, to that link alone; nothing else moves its last click. */
  lemma HitCounts(db: Db, hit: Hit, link: Id)
    requires link in db.links
    ensures var after := After(db, hit);
      && after.links.Keys == db.links.Keys
      && after.links[link] == db.links[link].(lastClickAt := after.links[link].lastClickAt)
      && if IsClick(db, hit) && hit.link == link
         then ClickCount(after, link) == ClickCount(db, link) + 1 && after.links[link].lastClickAt == Some(hit.now)
         else ClickCount(after, link) == ClickCount(db, link) && after.links[link] == db.links[link]
  {
    if Logged(db, hit).Some? {
      CountSnoc(db.visits, Logged(db, hit).value, ClickOn(link));
    }
  }

  /** Who is led on: whoever asks for a link that exists, in its days and below its cap; the rest are told why not. */
  lemma AnswerRules(db: Db, hit: Hit, link: Link)
    requires hit.Ask? && (hit.link in db.links ==> link == db.links[hit.link])
    ensures var known, begun := hit.link in db.links, link.validSince.Some? ==> link.validSince.value <= hit.now;
      var ended := link.validUntil.Some? && link.validUntil.value <= hit.now;
      var full := link.maxVisits.Some? && Count(db.visits, ClickOn(hit.link)) >= link.maxVisits.value;
      && (AnswerTo(db, hit) == NotFound <==> !known || !begun)
      && (AnswerTo(db, hit) == Expired <==> known && begun && ended)
      && (AnswerTo(db, hit) == UsedUp <==> known && begun && !ended && full)
      && (AnswerTo(db, hit) == Led <==> known && begun && !ended && !full)
  {
  }

  /**
   What a hit logs: an open of a link that exists, always, as a pixel visit; whoever is led on, bots too; and nothing
   for a social crawler, an untracked hit, or one that isn't led on.
   */
  lemma HitLogs(db: Db, hit: Hit)
    ensures var visits := After(db, hit).visits;
      if hit.Track? then
        visits == db.visits + if hit.link in db.links then [Visit(hit.link, hit.now, hit.isBot, true)] else []
      else
        visits == db.visits
          + if AnswerTo(db, hit) == Led && !hit.asker.isSocialCrawler && !hit.asker.untracked
            then [Visit(hit.link, hit.now, hit.asker.isBot, false)] else []
  {
    assert db.visits + [] == db.visits;
  }

  /** A link's visits by its pixel: opens, and bots' hits on it. */
  function PixelsOn(link: Id, byBots: bool): Visit -> bool {
    (visit: Visit) => visit.url == link && visit.isPixel && visit.isBot == byBots
  }

  function TracksOn(link: Id, byBots: bool): Hit -> bool {
    (hit: Hit) => hit.Track? && hit.link == link && hit.isBot == byBots
  }

  /** Over every run a link's opens grow by the pixel hits on it, and bots' pixel visits by the bots' ones. */
  lemma {:induction false} EveryOpenIsLogged(db: Db, hits: seq<Hit>, link: Id, byBots: bool)
    requires link in db.links
    ensures Count(AfterAll(db, hits).visits, PixelsOn(link, byBots))
         == Count(db.visits, PixelsOn(link, byBots)) + Count(hits, TracksOn(link, byBots))
    decreases |hits|
  {
    if hits != [] {
      var after := After(db, hits[0]);
      HitLogs(db, hits[0]);
      HitCounts(db, hits[0], link);
      if after.visits != db.visits {
        CountSnoc(db.visits, after.visits[|db.visits|], PixelsOn(link, byBots));
      }
      hide After, PixelsOn;
      EveryOpenIsLogged(after, hits[1..], link, byBots);
    }
  }

  // ---------------------------------------------------------------- The cap

  function Max(a: int, b: int): int { if a >= b then a else b }

  /** No run takes a link's clicks past its cap. */
  lemma {:induction false} RunsKeepToTheCap(db: Db, hits: seq<Hit>, link: Id)
    requires link in db.links && db.links[link].maxVisits.Some?
    ensures ClickCount(AfterAll(db, hits), link) <= Max(ClickCount(db, link), db.links[link].maxVisits.value)
    decreases |hits|
  {
    if hits != [] {
      HitCounts(db, hits[0], link);
      RunsKeepToTheCap(After(db, hits[0]), hits[1..], link);
    }
  }

  /** A link that is used up leads nobody again, and neither its clicks nor its last click change. */
  lemma {:induction false} UsedUpStaysUsedUp(db: Db, hits: seq<Hit>, link: Id, last: Hit)
    requires link in db.links && db.links[link].maxVisits.Some? && ClickCount(db, link) >= db.links[link].maxVisits.value
    requires last.Ask? && last.link == link
    ensures var after := AfterAll(db, hits);
      && link in after.links && after.links[link] == db.links[link] && ClickCount(after, link) == ClickCount(db, link)
      && AnswerTo(after, last) != Led
    decreases |hits|
  {
    if hits != [] {
      HitCounts(db, hits[0], link);
      UsedUpStaysUsedUp(After(db, hits[0]), hits[1..], link, last);
    }
  }

  /** People asking for a link in its days. */
  ghost predicate PeopleInTime(hits: seq<Hit>, id: Id, link: Link) {
    forall k :: 0 <= k < |hits| ==>
      && hits[k].Ask? && hits[k].link == id && hits[k].asker == Asker(false, false, false)
      && (link.validSince.Some? ==> link.validSince.value <= hits[k].now)
      && (link.validUntil.Some? ==> hits[k].now < link.validUntil.value)
  }

  /** The cap is reached exactly: of the people asking, the first ones are led on until their clicks make it. */
  lemma {:induction false} TheCapIsReached(db: Db, hits: seq<Hit>, link: Id)
    requires link in db.links && PeopleInTime(hits, link, db.links[link])
    ensures var asked := ClickCount(db, link) + |hits|;
      ClickCount(AfterAll(db, hits), link)
      == match db.links[link].maxVisits
         case None => asked
         case Some(cap) => if asked <= cap then asked else Max(ClickCount(db, link), cap)
    decreases |hits|
  {
    if hits != [] {
      HitCounts(db, hits[0], link);
      TheCapIsReached(After(db, hits[0]), hits[1..], link);
    }
  }

  predicate OutsideItsDays(link: Link, now: int) {
    || (link.validSince.Some? && now < link.validSince.value)
    || (link.validUntil.Some? && now >= link.validUntil.value)
  }

  /** Whatever the rest of a run does, nobody is led on outside a link's days. */
  lemma {:induction false} NobodyIsLedOutsideItsDays(db: Db, hits: seq<Hit>, link: Id)
    requires link in db.links
    requires forall k :: 0 <= k < |hits| && hits[k].Ask? && hits[k].link == link ==> OutsideItsDays(db.links[link], hits[k].now)
    ensures var after := AfterAll(db, hits);
      link in after.links && after.links[link] == db.links[link] && ClickCount(after, link) == ClickCount(db, link)
    decreases |hits|
  {
    if hits != [] {
      HitCounts(db, hits[0], link);
      NobodyIsLedOutsideItsDays(After(db, hits[0]), hits[1..], link);
    }
  }

  // ---------------------------------------------------------------- The last click

  /** The latest of a link's clicks. */
  function LatestClick(visits: seq<Visit>, link: Id): Option<int> {
    if visits == [] then None
    else
      var before, visit := LatestClick(visits[..|visits| - 1], link), visits[|visits| - 1];
      if !ClickOn(link)(visit) || (before.Some? && before.value >= visit.at) then before else Some(visit.at)
  }

  /** It is one of them, and no other is later. */
  lemma {:induction false} LatestClickIsLatest(visits: seq<Visit>, link: Id)
    ensures LatestClick(visits, link) == None <==> forall visit :: visit in visits ==> !ClickOn(link)(visit)
    ensures LatestClick(visits, link).Some? ==>
      && (exists visit :: visit in visits && ClickOn(link)(visit) && visit.at == LatestClick(visits, link).value)
      && (forall visit :: visit in visits && ClickOn(link)(visit) ==> visit.at <= LatestClick(visits, link).value)
  {
    if visits != [] {
      var before, visit := visits[..|visits| - 1], visits[|visits| - 1];
      assert visits == before + [visit];
      LatestClickIsLatest(before, link);
    }
  }

  /** Every link's last click is the latest of its clicks, none of them later than now. */
  ghost predicate LastClicksTell(db: Db, now: int) {
    forall link :: link in db.links ==>
      && db.links[link].lastClickAt == LatestClick(db.visits, link)
      && (db.links[link].lastClickAt.Some? ==> db.links[link].lastClickAt.value <= now)
  }

  /** Hits in the order of the clock, from `now` on. */
  ghost predicate InOrder(hits: seq<Hit>, now: int) {
    && (forall k :: 0 <= k < |hits| ==> now <= hits[k].now)
    && (forall j, k :: 0 <= j < k < |hits| ==> hits[j].now <= hits[k].now)
  }

  lemma HitKeepsLastClicks(db: Db, hit: Hit, now: int)
    requires LastClicksTell(db, now) && now <= hit.now
    ensures LastClicksTell(After(db, hit), hit.now)
  {
    var after := After(db, hit);
    forall link | link in after.links
      ensures after.links[link].lastClickAt == LatestClick(after.visits, link)
      ensures after.links[link].lastClickAt.Some? ==> after.links[link].lastClickAt.value <= hit.now
    {
      HitCounts(db, hit, link);
      if Logged(db, hit).Some? {
        assert after.visits[..|after.visits| - 1] == db.visits;
      }
    }
  }

  /** Over every run the cached last click is what the visits tell. */
  lemma {:induction false} RunsKeepLastClicks(db: Db, hits: seq<Hit>, now: int)
    requires LastClicksTell(db, now) && InOrder(hits, now)
    ensures LastClicksTell(AfterAll(db, hits), if hits == [] then now else hits[|hits| - 1].now)
    decreases |hits|
  {
    if hits != [] {
      HitKeepsLastClicks(db, hits[0], now);
      RunsKeepLastClicks(After(db, hits[0]), hits[1..], hits[0].now);
    }
  }

  // ---------------------------------------------------------------- Hits that aren't clicks

  /** A hit no person is led on by: an open, a bot, a social crawler, an untracked one. */
  predicate NobodyLed(hit: Hit) {
    hit.Track? || hit.asker.isSocialCrawler || hit.asker.isBot || hit.asker.untracked
  }

  function WithoutThem(hits: seq<Hit>): seq<Hit> {
    if hits == [] then []
    else (if NobodyLed(hits[0]) then [] else [hits[0]]) + WithoutThem(hits[1..])
  }

  /** A click is a person's tracked ask that leads on, and whatever is no such ask leads nobody. */
  lemma WhoCounts(db: Db, hit: Hit)
    ensures NobodyLed(hit) <==> hit.Track? || hit.asker != Asker(false, false, false)
    ensures IsClick(db, hit) <==> hit.Ask? && hit.asker == Asker(false, false, false) && AnswerTo(db, hit) == Led
  {
  }

  /** Alike to a redirect: the same links, with as many clicks each. */
  ghost predicate Alike(a: Db, b: Db) {
    a.links == b.links && forall link :: link in a.links ==> ClickCount(a, link) == ClickCount(b, link)
  }

  lemma AlikeAnswerAlike(a: Db, b: Db, hit: Hit)
    requires Alike(a, b)
    ensures AnswerTo(a, hit) == AnswerTo(b, hit) && Alike(After(a, hit), After(b, hit))
  {
    forall link | link in a.links ensures ClickCount(After(a, hit), link) == ClickCount(After(b, hit), link) {
      HitCounts(a, hit, link);
      HitCounts(b, hit, link);
    }
  }

  lemma NobodyLedChangesNothing(db: Db, hit: Hit)
    requires NobodyLed(hit)
    ensures Alike(After(db, hit), db)
  {
    forall link | link in db.links ensures ClickCount(After(db, hit), link) == ClickCount(db, link) {
      HitCounts(db, hit, link);
    }
  }

  /** Leaving them out of a run changes no cap, no click count and no last click at its end. */
  lemma {:induction false} OnlyPeopleCount(a: Db, b: Db, hits: seq<Hit>)
    requires Alike(a, b)
    ensures Alike(AfterAll(a, hits), AfterAll(b, WithoutThem(hits)))
    decreases |hits|
  {
    if hits != [] {
      if NobodyLed(hits[0]) {
        NobodyLedChangesNothing(a, hits[0]);
        OnlyPeopleCount(After(a, hits[0]), b, hits[1..]);
        assert [] + WithoutThem(hits[1..]) == WithoutThem(hits[1..]);
      } else {
        AlikeAnswerAlike(a, b, hits[0]);
        OnlyPeopleCount(After(a, hits[0]), After(b, hits[0]), hits[1..]);
        var kept := [hits[0]] + WithoutThem(hits[1..]);
        assert kept[1..] == WithoutThem(hits[1..]);
      }
    }
  }
}
