/**
 Links managed by a service account, and the list of links a viewer searches: SQL conditions under three-valued
 logic against the rules they stand for, and what a viewer may not read against what the list shows.
 */
module LinkList {
  import opened Rows
  import opened Sorting

  type Id = string

  datatype Kind = Standard | Custom | Campaign

  datatype Role = Member | Admin | Owner

  datatype Viewer = Viewer(user: Id, organization: Option<Id>, role: Option<Role>)

  datatype Url = Url(id: Id, code: string, title: Option<string>, destination: string, kind: Kind, tags: set<Id>,
                     createdAt: int, createdBy: Id, organization: Option<Id>, viaServiceAccount: Option<Id>)

  // ---------------------------------------------------------------- Three-valued logic

  /** What a SQL condition comes to: comparing with NULL is neither true nor false. */
  datatype Truth = True | False | Unknown

  function Of(b: bool): Truth { if b then True else False }

  function And(a: Truth, b: Truth): Truth {
    if a == False || b == False then False else if a == True && b == True then True else Unknown
  }

  function Or(a: Truth, b: Truth): Truth {
    if a == True || b == True then True else if a == False && b == False then False else Unknown
  }

  function Not(a: Truth): Truth {
    match a case True => False case False => True case Unknown => Unknown
  }

  function IsNull<T(==)>(column: Option<T>): Truth { Of(column == None) }

  function Equals<T(==)>(column: Option<T>, value: T): Truth {
    if column == None then Unknown else Of(column.value == value)
  }

  /** False below unknown below true: AND is the lower, OR the higher, NOT turns them over. */
  function Level(t: Truth): int {
    match t case False => 0 case Unknown => 1 case True => 2
  }

  lemma TruthTables(a: Truth, b: Truth)
    ensures Level(And(a, b)) == if Level(a) <= Level(b) then Level(a) else Level(b)
    ensures Level(Or(a, b)) == if Level(a) >= Level(b) then Level(a) else Level(b)
    ensures Level(Not(a)) == 2 - Level(a)
  {
  }

  // ---------------------------------------------------------------- Managed links

  /** Made through a service account, and not a campaign link. */
  predicate IsManaged(url: Url) {
    url.viaServiceAccount != None && url.kind != Campaign
  }

  predicate IsManager(who: Viewer, url: Url) {
    IsManaged(url) && Some(who.user) == url.viaServiceAccount
  }

  /** A managed link's destination is its manager's to read, and its organization's owners'. */
  predicate SeesDestination(who: Viewer, url: Url) {
    || !IsManaged(url)
    || IsManager(who, url)
    || (who.role == Some(Owner) && who.organization != None && who.organization == url.organization)
  }

  function ManagedClause(url: Url): Truth {
    And(Not(IsNull(url.viaServiceAccount)), Of(url.kind != Campaign))
  }

  function NotManagedClause(url: Url): Truth {
    Or(IsNull(url.viaServiceAccount), Of(url.kind == Campaign))
  }

  function DestinationVisible(who: Viewer, url: Url): Truth {
    var visible := Or(NotManagedClause(url), Equals(url.viaServiceAccount, who.user));
    if who.role == Some(Owner) && who.organization.Some? then Or(visible, Equals(url.organization, who.organization.value))
    else visible
  }

  /** The two clauses split every table in two: never unknown, never both, never neither. */
  lemma ManagedClausesAreComplements(url: Url)
    ensures ManagedClause(url) == Of(IsManaged(url))
    ensures NotManagedClause(url) == Not(ManagedClause(url)) != Unknown
  {
  }

  /** The SQL condition is true exactly where the rule is, though it may be unknown where it isn't. */
  lemma DestinationVisibleIff(who: Viewer, url: Url)
    ensures DestinationVisible(who, url) == True <==> SeesDestination(who, url)
  {
  }

  // ---------------------------------------------------------------- The list

  datatype TagFilter = AllOf(tags: set<Id>) | AnyOf(tags: set<Id>)

  datatype ManagedFilter = Exclude | Only

  /** What is asked for, `search` without the spaces around it. */
  datatype Query = Query(tags: Option<TagFilter>, search: string, kinds: set<Kind>, via: Option<Id>,
                         managed: Option<ManagedFilter>, managedBy: Option<Id>)

  function Sees(who: Viewer, url: Url): Truth {
    var ownPersonal := And(IsNull(url.organization), Of(url.createdBy == who.user));
    if who.organization == None then ownPersonal else Or(Equals(url.organization, who.organization.value), ownPersonal)
  }

  function Tagged(filter: Option<TagFilter>, url: Url): Truth {
    match filter
    case None => True
    case Some(AllOf(tags)) => Of(tags <= url.tags)
    case Some(AnyOf(tags)) => Of(tags * url.tags != {})
  }

  /** `contains(text, search)` is the database's substring search, whatever the case. */
  function Found(who: Viewer, search: string, contains: (string, string) -> bool, url: Url): Truth {
    if search == "" then True
    else
      Or(Or(if url.title == None then Unknown else Of(contains(url.title.value, search)),
            And(Of(contains(url.destination, search)), DestinationVisible(who, url))),
         Of(contains(url.code, search)))
  }

  function OfKinds(kinds: set<Kind>, url: Url): Truth {
    if kinds == {} then True else Of(url.kind in kinds)
  }

  function Via(via: Option<Id>, url: Url): Truth {
    if via == None then True else Equals(url.viaServiceAccount, via.value)
  }

  function Managed(filter: Option<ManagedFilter>, url: Url): Truth {
    match filter
    case None => True
    case Some(Exclude) => NotManagedClause(url)
    case Some(Only) => ManagedClause(url)
  }

  function ManagedBy(account: Option<Id>, url: Url): Truth {
    if account == None then True else And(ManagedClause(url), Equals(url.viaServiceAccount, account.value))
  }

  /** Every filter but the search. */
  function Asked(who: Viewer, query: Query, url: Url): Truth {
    And(And(And(Sees(who, url), Tagged(query.tags, url)), And(OfKinds(query.kinds, url), Via(query.via, url))),
        And(Managed(query.managed, url), ManagedBy(query.managedBy, url)))
  }

  /** The rows the list's query keeps. */
  function Kept(who: Viewer, query: Query, contains: (string, string) -> bool): Url -> bool {
    (url: Url) => And(Asked(who, query, url), Found(who, query.search, contains, url)) == True
  }

  predicate AsNew(a: Url, b: Url) {
    a.createdAt >= b.createdAt
  }

  /** `ORDER BY created_at DESC`, links as new as each other in table order. */
  function NewestFirst(urls: seq<Url>): seq<Url> {
    Sorted(urls, AsNew)
  }

  /** A link as a viewer reads it. */
  datatype Item = Item(url: Url, clicks: nat, managedBy: Option<Id>)

  function Destination(who: Viewer, mask: string -> string, url: Url): string {
    if SeesDestination(who, url) then url.destination else mask(url.destination)
  }

  function Response(who: Viewer, mask: string -> string, clicks: Id -> nat, url: Url): Item {
    Item(url.(destination := Destination(who, mask, url)), clicks(url.id), if IsManaged(url) then url.viaServiceAccount else None)
  }

  datatype List = List(items: seq<Item>, total: nat)

  function ListUrls(urls: seq<Url>, who: Viewer, query: Query, skip: nat, limit: nat,
                    contains: (string, string) -> bool, mask: string -> string, clicks: Id -> nat): List
  {
    var kept := Filter(urls, Kept(who, query, contains));
    var page := Page(NewestFirst(kept), skip, limit);
    List(seq(|page|, k requires 0 <= k < |page| => Response(who, mask, clicks, page[k])), |kept|)
  }

  /** Who manages a link and who reads its destination, of what its row and the viewer hold. */
  lemma ManagedRules(who: Viewer, url: Url)
    ensures IsManaged(url) <==> url.viaServiceAccount.Some? && url.kind in {Standard, Custom}
    ensures IsManager(who, url) <==> IsManaged(url) && url.viaServiceAccount == Some(who.user)
    ensures SeesDestination(who, url) <==>
      || url.viaServiceAccount == None || url.kind == Campaign || url.viaServiceAccount == Some(who.user)
      || (who.role == Some(Owner) && url.organization.Some? && url.organization == who.organization)
  {
  }

  /** The links a viewer sees: their organization's and their own personal ones. */
  predicate IsSeen(who: Viewer, url: Url) {
    || (url.organization.Some? && url.organization == who.organization)
    || (url.organization == None && url.createdBy == who.user)
  }

  /** A search's text is in the link's title or code, or in a destination the viewer reads. */
  predicate IsFound(who: Viewer, search: string, contains: (string, string) -> bool, url: Url) {
    || search == "" || contains(url.code, search)
    || (url.title.Some? && contains(url.title.value, search))
    || (SeesDestination(who, url) && contains(url.destination, search))
  }

  predicate IsTagged(filter: Option<TagFilter>, url: Url) {
    match filter
    case None => true
    case Some(AllOf(tags)) => forall tag | tag in tags :: tag in url.tags
    case Some(AnyOf(tags)) => exists tag | tag in tags :: tag in url.tags
  }

  /** NULLs and all, the query keeps exactly the links every filter asked for holds of. */
  lemma KeptIff(who: Viewer, query: Query, contains: (string, string) -> bool, url: Url)
    ensures Kept(who, query, contains)(url) <==>
      && IsSeen(who, url) && IsTagged(query.tags, url) && IsFound(who, query.search, contains, url)
      && (query.kinds != {} ==> url.kind in query.kinds)
      && (query.via.Some? ==> url.viaServiceAccount == query.via)
      && (query.managed == Some(Exclude) ==> !IsManaged(url)) && (query.managed == Some(Only) ==> IsManaged(url))
      && (query.managedBy.Some? ==> IsManaged(url) && url.viaServiceAccount == query.managedBy)
  {
    AskedIff(who, query, url);
    FoundIff(who, query.search, contains, url);
    hide Asked, Found, IsSeen, IsTagged, IsFound;
  }

  lemma FoundIff(who: Viewer, search: string, contains: (string, string) -> bool, url: Url)
    ensures Found(who, search, contains, url) == True <==> IsFound(who, search, contains, url)
  {
    DestinationVisibleIff(who, url);
    hide DestinationVisible, SeesDestination;
  }

  lemma TaggedIff(filter: Option<TagFilter>, url: Url)
    ensures Tagged(filter, url) == Of(IsTagged(filter, url))
  {
    match filter
    case Some(AnyOf(tags)) =>
      if tags * url.tags != {} {
        var tag :| tag in tags * url.tags;
      }
      if tag :| tag in tags && tag in url.tags {
        assert tag in tags * url.tags;
      }
    case _ =>
  }

  lemma AskedIff(who: Viewer, query: Query, url: Url)
    ensures Asked(who, query, url) == True <==>
      && IsSeen(who, url) && IsTagged(query.tags, url)
      && (query.kinds != {} ==> url.kind in query.kinds)
      && (query.via.Some? ==> url.viaServiceAccount == query.via)
      && (query.managed == Some(Exclude) ==> !IsManaged(url)) && (query.managed == Some(Only) ==> IsManaged(url))
      && (query.managedBy.Some? ==> IsManaged(url) && url.viaServiceAccount == query.managedBy)
  {
    TaggedIff(query.tags, url);
    hide Tagged, IsTagged;
    assert Sees(who, url) == True <==> IsSeen(who, url);
    ManagedClausesAreComplements(url);
  }

  /** An item is the link itself, its destination masked from those who may not read it, with its clicks and manager. */
  lemma ItemTells(who: Viewer, mask: string -> string, clicks: Id -> nat, url: Url)
    ensures var item := Response(who, mask, clicks, url);
      && item.url.(destination := url.destination) == url && item.clicks == clicks(url.id)
      && item.url.destination == (if SeesDestination(who, url) then url.destination else mask(url.destination))
      && (item.managedBy == if IsManaged(url) then url.viaServiceAccount else None)
  {
  }

  // ---------------------------------------------------------------- What it may tell

  /** Two links alike but for a destination the viewer reads masked, and masked alike. */
  predicate LookAlike(who: Viewer, mask: string -> string, a: Url, b: Url) {
    && b == a.(destination := b.destination)
    && (a.destination != b.destination ==> !SeesDestination(who, a) && mask(a.destination) == mask(b.destination))
  }

  ghost predicate AllLookAlike(who: Viewer, mask: string -> string, before: seq<Url>, after: seq<Url>) {
    |before| == |after| && forall k :: 0 <= k < |before| ==> LookAlike(who, mask, before[k], after[k])
  }

  /** A search keeps a link whatever the destination the viewer can't read. */
  lemma KeptAlike(who: Viewer, query: Query, contains: (string, string) -> bool, mask: string -> string, a: Url, b: Url)
    requires LookAlike(who, mask, a, b)
    ensures Kept(who, query, contains)(a) == Kept(who, query, contains)(b)
    ensures Destination(who, mask, a) == Destination(who, mask, b)
  {
    DestinationVisibleIff(who, a);
    DestinationVisibleIff(who, b);
    assert SeesDestination(who, a) == SeesDestination(who, b);
    AskedAlike(who, query, a, b);
    hide Asked, SeesDestination, DestinationVisible;
  }

  lemma AskedAlike(who: Viewer, query: Query, a: Url, b: Url)
    requires b == a.(destination := b.destination)
    ensures Asked(who, query, a) == Asked(who, query, b)
  {
    assert Sees(who, a) == Sees(who, b);
    assert Managed(query.managed, a) == Managed(query.managed, b);
  }

  lemma {:induction false} FilterAlike(who: Viewer, query: Query, contains: (string, string) -> bool,
                                       mask: string -> string, before: seq<Url>, after: seq<Url>)
    requires AllLookAlike(who, mask, before, after)
    ensures AllLookAlike(who, mask, Filter(before, Kept(who, query, contains)), Filter(after, Kept(who, query, contains)))
  {
    if before != [] {
      hide Kept, LookAlike;
      FilterAlike(who, query, contains, mask, before[1..], after[1..]);
      KeptAlike(who, query, contains, mask, before[0], after[0]);
    }
  }

  lemma AsOld(who: Viewer, mask: string -> string, a: Url, b: Url)
    requires LookAlike(who, mask, a, b)
    ensures a.createdAt == b.createdAt
  {
  }

  lemma {:induction false} PutInAlike(who: Viewer, mask: string -> string, a: Url, b: Url, before: seq<Url>, after: seq<Url>)
    requires LookAlike(who, mask, a, b) && AllLookAlike(who, mask, before, after)
    ensures AllLookAlike(who, mask, PutIn(a, before, AsNew), PutIn(b, after, AsNew))
  {
    AsOld(who, mask, a, b);
    if before != [] {
      AsOld(who, mask, before[0], after[0]);
    }
    hide LookAlike;
    if before != [] && a.createdAt < before[0].createdAt {
      PutInAlike(who, mask, a, b, before[1..], after[1..]);
    }
  }

  lemma {:induction false} NewestFirstAlike(who: Viewer, mask: string -> string, before: seq<Url>, after: seq<Url>)
    requires AllLookAlike(who, mask, before, after)
    ensures AllLookAlike(who, mask, NewestFirst(before), NewestFirst(after))
  {
    if before != [] {
      NewestFirstAlike(who, mask, before[1..], after[1..]);
      PutInAlike(who, mask, before[0], after[0], NewestFirst(before[1..]), NewestFirst(after[1..]));
    }
  }

  /**
   Two databases that differ only in destinations the viewer reads masked, masked alike, give that viewer the
   same list and total, whatever is searched for and whichever page.
   */
  lemma TheListTellsNoMore(before: seq<Url>, after: seq<Url>, who: Viewer, query: Query, skip: nat, limit: nat,
                           contains: (string, string) -> bool, mask: string -> string, clicks: Id -> nat)
    requires AllLookAlike(who, mask, before, after)
    ensures ListUrls(before, who, query, skip, limit, contains, mask, clicks)
         == ListUrls(after, who, query, skip, limit, contains, mask, clicks)
  {
    hide Kept, LookAlike, NewestFirst, Filter;
    FilterAlike(who, query, contains, mask, before, after);
    var keptBefore, keptAfter := Filter(before, Kept(who, query, contains)), Filter(after, Kept(who, query, contains));
    NewestFirstAlike(who, mask, keptBefore, keptAfter);
    var pageBefore, pageAfter := Page(NewestFirst(keptBefore), skip, limit), Page(NewestFirst(keptAfter), skip, limit);
    assert AllLookAlike(who, mask, pageBefore, pageAfter);
    forall k | 0 <= k < |pageBefore|
      ensures Response(who, mask, clicks, pageBefore[k]) == Response(who, mask, clicks, pageAfter[k])
    {
      ReadAlike(who, mask, clicks, pageBefore[k], pageAfter[k]);
    }
  }

  lemma ReadAlike(who: Viewer, mask: string -> string, clicks: Id -> nat, a: Url, b: Url)
    requires LookAlike(who, mask, a, b)
    ensures Response(who, mask, clicks, a) == Response(who, mask, clicks, b)
  {
    assert SeesDestination(who, a) == SeesDestination(who, b);
  }

  /** The search without its guard: matching every destination, read or not. */
  function KeptUnguarded(who: Viewer, query: Query, contains: (string, string) -> bool): Url -> bool {
    (url: Url) => Kept(who, query, contains)(url)
      || (Asked(who, query, url) == True && query.search != "" && contains(url.destination, query.search))
  }

  /** Without it, the total alone gives a masked destination away: two databases that look alike count apart. */
  lemma UnguardedTells(contains: (string, string) -> bool, mask: string -> string, secret: string, other: string)
    returns (who: Viewer, query: Query, before: seq<Url>, after: seq<Url>)
    requires secret != "" && mask(secret) == mask(other)
    requires contains(secret, secret) && !contains(other, secret) && !contains("", secret)
    ensures AllLookAlike(who, mask, before, after)
    ensures |Filter(before, KeptUnguarded(who, query, contains))| > |Filter(after, KeptUnguarded(who, query, contains))|
  {
    who := Viewer("person", Some("organization"), Some(Admin));
    query := Query(None, secret, {}, None, None, None);
    var a := Url("link", "", None, secret, Standard, {}, 0, "person", Some("organization"), Some("account"));
    var b := a.(destination := other);
    before, after := [a], [b];
    FilterSnoc([], a, KeptUnguarded(who, query, contains));
    FilterSnoc([], b, KeptUnguarded(who, query, contains));
    assert [] + [a] == [a] && [] + [b] == [b];
  }

  // ---------------------------------------------------------------- The order, and the filters' totals

  ghost predicate Descending(urls: seq<Url>) {
    forall j, k :: 0 <= j < k < |urls| ==> urls[j].createdAt >= urls[k].createdAt
  }

  /** The list is the rows kept, newest first. */
  lemma NewestFirstIsOrdered(urls: seq<Url>)
    ensures Descending(NewestFirst(urls)) && multiset(NewestFirst(urls)) == multiset(urls)
  {
    SortedKeepsRows(urls, AsNew);
    SortedIsInOrder(urls, AsNew);
  }

  lemma KeptSplits(who: Viewer, query: Query, contains: (string, string) -> bool, url: Url)
    requires query.managed == None
    ensures var without, only := query.(managed := Some(Exclude)), query.(managed := Some(Only));
      && Kept(who, query, contains)(url) == (Kept(who, without, contains)(url) || Kept(who, only, contains)(url))
      && !(Kept(who, without, contains)(url) && Kept(who, only, contains)(url))
  {
    ManagedClausesAreComplements(url);
    hide Sees, Tagged, OfKinds, Via, ManagedBy, ManagedClause, NotManagedClause, Found;
  }

  /** Leaving managed links out and keeping only those are two halves of the whole list. */
  lemma ManagedFilterSplits(urls: seq<Url>, who: Viewer, query: Query, skip: nat, limit: nat,
                            contains: (string, string) -> bool, mask: string -> string, clicks: Id -> nat)
    requires query.managed == None
    ensures ListUrls(urls, who, query, skip, limit, contains, mask, clicks).total
         == ListUrls(urls, who, query.(managed := Some(Exclude)), skip, limit, contains, mask, clicks).total
          + ListUrls(urls, who, query.(managed := Some(Only)), skip, limit, contains, mask, clicks).total
  {
    var all := Kept(who, query, contains);
    var without := Kept(who, query.(managed := Some(Exclude)), contains);
    var only := Kept(who, query.(managed := Some(Only)), contains);
    forall url ensures all(url) == (without(url) || only(url)) && !(without(url) && only(url)) {
      KeptSplits(who, query, contains, url);
    }
    hide Kept, Filter;
    CountKept(urls, all);
    CountKept(urls, without);
    CountKept(urls, only);
    CountUnion(urls, without, only, all);
  }
}
