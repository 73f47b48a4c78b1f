/** The paths tried on unknown codes: a page of them, and what the totals and the hidden counts add up to. */
module OrphanGroups {
  import opened Rows
  import opened Grouping
  import opened Sorting

  type Type = nat

  datatype Hit = Hit(id: int, path: string, kind: Type, at: int)

  /** A path tried: how often, and its first and last hit. */
  datatype Group = Group(path: string, visits: nat, firstSeen: int, lastSeen: int)

  datatype Groups = Groups(groups: seq<Group>, totalVisits: nat, totalPaths: nat, hiddenVisits: int, hiddenPaths: int)

  /** The hits asked for: from `since`, before `until`, of some types. */
  function Tried(since: int, until: Option<int>, types: Option<set<Type>>): Hit -> bool {
    (hit: Hit) => hit.at >= since && (until.Some? ==> hit.at < until.value) && (types.Some? ==> hit.kind in types.value)
  }

  /** Those shown: all of them, or only the typos. */
  function Shown(tried: Hit -> bool, typos: Option<Hit -> bool>): Hit -> bool {
    (hit: Hit) => tried(hit) && (typos.Some? ==> typos.value(hit))
  }

  function Hidden(tried: Hit -> bool, typos: Option<Hit -> bool>): Hit -> bool {
    (hit: Hit) => tried(hit) && !Shown(tried, typos)(hit)
  }

  function PathOf(): Hit -> string { (hit: Hit) => hit.path }

  function OnPath(path: string): Hit -> bool { (hit: Hit) => hit.path == path }

  function Earliest(hits: seq<Hit>): (at: int)
    requires hits != []
    ensures forall hit | hit in hits :: at <= hit.at
    ensures exists hit | hit in hits :: at == hit.at
  {
    if |hits| == 1 then hits[0].at
    else
      var rest := Earliest(hits[1..]);
      if hits[0].at <= rest then hits[0].at else rest
  }

  function Latest(hits: seq<Hit>): (at: int)
    requires hits != []
    ensures forall hit | hit in hits :: at >= hit.at
    ensures exists hit | hit in hits :: at == hit.at
  {
    if |hits| == 1 then hits[0].at
    else
      var rest := Latest(hits[1..]);
      if hits[0].at >= rest then hits[0].at else rest
  }

  function GroupOf(hits: seq<Hit>, path: string): Group {
    var there := Filter(hits, OnPath(path));
    if there == [] then Group(path, 0, 0, 0) else Group(path, |there|, Earliest(there), Latest(there))
  }

  /** The most tried first, then the latest hit, then the path. */
  predicate Before(a: Group, b: Group) {
    if a.visits != b.visits then a.visits > b.visits
    else if a.lastSeen != b.lastSeen then a.lastSeen > b.lastSeen
    else TextBefore(a.path, b.path)
  }

  /** The groups of some paths, one each. */
  function GroupsOf(hits: seq<Hit>, paths: seq<string>): (groups: seq<Group>)
    ensures |groups| == |paths| && forall k :: 0 <= k < |paths| ==> groups[k] == GroupOf(hits, paths[k])
  {
    seq(|paths|, k requires 0 <= k < |paths| => GroupOf(hits, paths[k]))
  }

  /** Every group of the hits, in order. */
  function AllGroups(hits: seq<Hit>): seq<Group> {
    Sorted(GroupsOf(hits, Keys(hits, PathOf())), Before)
  }

  function OrphanGroups(hits: seq<Hit>, since: int, until: Option<int>, types: Option<set<Type>>, typos: Option<Hit -> bool>,
                        skip: nat, limit: nat): Groups
  {
    var tried := Filter(hits, Tried(since, until, types));
    var shown := Filter(hits, Shown(Tried(since, until, types), typos));
    Groups(Page(AllGroups(shown), skip, limit), |shown|, |Keys(shown, PathOf())|,
           |tried| - |shown|, |Keys(tried, PathOf())| - |Keys(shown, PathOf())|)
  }

  // ---------------------------------------------------------------- The order

  lemma BeforeIsTotal(a: Group, b: Group)
    ensures Before(a, b) ==> !Before(b, a)
    ensures a.path != b.path ==> Before(a, b) || Before(b, a)
  {
    TextOrder(a.path, b.path);
  }

  lemma BeforeIsTransitive(a: Group, b: Group, c: Group)
    requires Before(a, b) && Before(b, c)
    ensures Before(a, c)
  {
    if TextBefore(a.path, b.path) && TextBefore(b.path, c.path) {
      TextOrderTransitive(a.path, b.path, c.path);
    }
  }

  lemma GroupsPath(hits: seq<Hit>, path: string)
    ensures GroupOf(hits, path).path == path
  {
  }

  /** The groups are those of the paths hit, each once, strictly in order. */
  lemma GroupsAreOrdered(hits: seq<Hit>)
    ensures InOrder(AllGroups(hits), Before)
    ensures multiset(AllGroups(hits)) == multiset(GroupsOf(hits, Keys(hits, PathOf())))
  {
    hide GroupOf, Keys;
    var paths, groups := Keys(hits, PathOf()), GroupsOf(hits, Keys(hits, PathOf()));
    SortedKeepsRows(groups, Before);
    forall a, b, c | Before(a, b) && Before(b, c) ensures Before(a, c) {
      BeforeIsTransitive(a, b, c);
    }
    forall j, k | 0 <= j < k < |groups| ensures Before(groups[j], groups[k]) || Before(groups[k], groups[j]) {
      GroupsPath(hits, paths[j]);
      GroupsPath(hits, paths[k]);
      BeforeIsTotal(groups[j], groups[k]);
    }
    SortedIsInOrder(groups, Before);
  }

  /** A path's group counts its hits, and its first and last seen are those of hits, with every other between. */
  lemma GroupTells(hits: seq<Hit>, path: string)
    requires exists hit | hit in hits :: hit.path == path
    ensures var group := GroupOf(hits, path);
      && group.path == path && group.visits == Count(hits, OnPath(path))
      && (forall hit | hit in hits && hit.path == path :: group.firstSeen <= hit.at <= group.lastSeen)
      && (exists hit | hit in hits && hit.path == path :: hit.at == group.firstSeen)
      && (exists hit | hit in hits && hit.path == path :: hit.at == group.lastSeen)
  {
    var there := Filter(hits, OnPath(path));
    CountKept(hits, OnPath(path));
    forall hit | hit in hits && hit.path == path ensures hit in there {
      FilterKeeps(hits, OnPath(path), hit);
    }
    forall hit | hit in there ensures hit in hits && hit.path == path {
      KeptRows(hits, OnPath(path), hit);
    }
  }

  /** The order spelled out: the most tried, then the latest hit, then the path. */
  lemma OrderTells(groups: seq<Group>, j: nat, k: nat)
    requires InOrder(groups, Before) && j < k < |groups|
    ensures var a, b := groups[j], groups[k];
      a.visits > b.visits
      || (a.visits == b.visits && (a.lastSeen > b.lastSeen || (a.lastSeen == b.lastSeen && TextBefore(a.path, b.path))))
  {
    assert Before(groups[j], groups[k]);
  }

  // ---------------------------------------------------------------- What the groups add up to

  function VisitsOf(groups: seq<Group>): nat {
    if groups == [] then 0 else groups[0].visits + VisitsOf(groups[1..])
  }

  lemma {:induction false} PutInVisits(group: Group, groups: seq<Group>)
    ensures VisitsOf(PutIn(group, groups, Before)) == VisitsOf(groups) + group.visits
  {
    hide Before;
    if groups != [] && !Before(group, groups[0]) {
      PutInVisits(group, groups[1..]);
      assert ([groups[0]] + PutIn(group, groups[1..], Before))[1..] == PutIn(group, groups[1..], Before);
    } else {
      assert ([group] + groups)[1..] == groups;
    }
  }

  lemma {:induction false} SortedVisits(groups: seq<Group>)
    ensures VisitsOf(Sorted(groups, Before)) == VisitsOf(groups)
  {
    if groups != [] {
      hide Before;
      SortedVisits(groups[1..]);
      PutInVisits(groups[0], Sorted(groups[1..], Before));
    }
  }

  lemma {:induction false} VisitsSnoc(groups: seq<Group>, group: Group)
    ensures VisitsOf(groups + [group]) == VisitsOf(groups) + group.visits
  {
    if groups != [] {
      VisitsSnoc(groups[1..], group);
      assert (groups + [group])[1..] == groups[1..] + [group];
    } else {
      assert ([] + [group])[1..] == [];
    }
  }

  lemma {:induction false} GroupsVisits(hits: seq<Hit>, paths: seq<string>)
    ensures VisitsOf(GroupsOf(hits, paths)) == SumOver(paths, GroupCount(hits, PathOf(), Everything()))
  {
    if paths != [] {
      hide GroupOf;
      var before, last := paths[..|paths| - 1], paths[|paths| - 1];
      GroupsVisits(hits, before);
      GroupVisits(hits, last);
      VisitsSnoc(GroupsOf(hits, before), GroupOf(hits, last));
      assert GroupsOf(hits, paths) == GroupsOf(hits, before) + [GroupOf(hits, last)];
    }
  }

  lemma GroupVisits(hits: seq<Hit>, path: string)
    ensures GroupOf(hits, path).visits == GroupCount(hits, PathOf(), Everything())(path)
  {
    CountKept(hits, OnPath(path));
    CountSame(hits, OnPath(path), InGroup(PathOf(), path, Everything()));
  }

  /** Over every page the groups hold every hit shown. */
  lemma GroupsHoldEveryHit(hits: seq<Hit>)
    ensures VisitsOf(AllGroups(hits)) == |hits| && |AllGroups(hits)| == |Keys(hits, PathOf())|
  {
    var groups := GroupsOf(hits, Keys(hits, PathOf()));
    SortedVisits(groups);
    SortedKeepsRows(groups, Before);
    assert |AllGroups(hits)| == |multiset(AllGroups(hits))| == |multiset(groups)|;
    GroupsVisits(hits, Keys(hits, PathOf()));
    GroupsLoseNothing(hits, PathOf(), Everything());
    CountKept(hits, Everything());
    FilterAll(hits, Everything());
  }

  /** The hits of a query that are shown. */
  function ShownHits(hits: seq<Hit>, since: int, until: Option<int>, types: Option<set<Type>>, typos: Option<Hit -> bool>): seq<Hit> {
    Filter(hits, Shown(Tried(since, until, types), typos))
  }

  /** The groups of the pages from `skip` on, `limit` at a time, until there are no more. */
  function Paged(hits: seq<Hit>, since: int, until: Option<int>, types: Option<set<Type>>, typos: Option<Hit -> bool>,
                 skip: nat, limit: nat): seq<Group>
    requires limit > 0
    decreases |AllGroups(ShownHits(hits, since, until, types, typos))| - skip
  {
    if skip >= |AllGroups(ShownHits(hits, since, until, types, typos))| then []
    else
      OrphanGroups(hits, since, until, types, typos, skip, limit).groups
      + Paged(hits, since, until, types, typos, skip + limit, limit)
  }

  lemma {:induction false} PagedArePages(hits: seq<Hit>, since: int, until: Option<int>, types: Option<set<Type>>,
                                         typos: Option<Hit -> bool>, skip: nat, limit: nat)
    requires limit > 0
    ensures Paged(hits, since, until, types, typos, skip, limit)
         == Pages(AllGroups(ShownHits(hits, since, until, types, typos)), skip, limit)
    decreases |AllGroups(ShownHits(hits, since, until, types, typos))| - skip
  {
    hide AllGroups, Filter, Shown, Tried, Page, Keys;
    if skip < |AllGroups(ShownHits(hits, since, until, types, typos))| {
      PagedArePages(hits, since, until, types, typos, skip + limit, limit);
    }
  }

  /** Paging through, with any limit, gives every group shown once, strictly in order. */
  lemma PagesAreTheGroups(hits: seq<Hit>, since: int, until: Option<int>, types: Option<set<Type>>, typos: Option<Hit -> bool>,
                          limit: nat)
    requires limit > 0
    ensures var paged, shown := Paged(hits, since, until, types, typos, 0, limit), ShownHits(hits, since, until, types, typos);
      && paged == AllGroups(shown) && InOrder(paged, Before)
      && multiset(paged) == multiset(GroupsOf(shown, Keys(shown, PathOf())))
  {
    hide AllGroups, Paged, Pages, ShownHits, GroupsOf;
    PagedArePages(hits, since, until, types, typos, 0, limit);
    PagesAreTheRows(AllGroups(ShownHits(hits, since, until, types, typos)), 0, limit);
    GroupsAreOrdered(ShownHits(hits, since, until, types, typos));
  }

  // ---------------------------------------------------------------- What is hidden

  function NoneShown(shown: seq<Hit>): string -> bool {
    (path: string) => forall hit :: hit in shown ==> hit.path != path
  }

  lemma {:induction false} DistinctSize(keys: seq<string>)
    requires Distinct(keys)
    ensures |set k | k in keys| == |keys|
  {
    if keys != [] {
      var before, last := keys[..|keys| - 1], keys[|keys| - 1];
      assert keys == before + [last];
      DistinctSize(before);
      assert (set k | k in keys) == (set k | k in before) + {last};
    }
  }

  lemma {:induction false} FilterStaysDistinct(keys: seq<string>, keep: string -> bool)
    requires Distinct(keys)
    ensures Distinct(Filter(keys, keep))
  {
    if keys != [] {
      FilterStaysDistinct(keys[1..], keep);
      if keys[0] in Filter(keys[1..], keep) {
        KeptRows(keys[1..], keep, keys[0]);
      }
    }
  }

  function SomeShown(shown: seq<Hit>): string -> bool {
    (path: string) => !NoneShown(shown)(path)
  }

  lemma PathShown(shown: seq<Hit>, path: string)
    ensures SomeShown(shown)(path) <==> path in Keys(shown, PathOf())
  {
    if path in Keys(shown, PathOf()) {
      var hit :| hit in shown && PathOf()(hit) == path;
      assert !NoneShown(shown)(path);
    } else {
      forall hit | hit in shown ensures hit.path != path {
        assert PathOf()(hit) in Keys(shown, PathOf());
      }
      assert NoneShown(shown)(path);
    }
  }

  lemma PathTried(tried: seq<Hit>, shown: seq<Hit>, path: string)
    requires forall hit | hit in shown :: hit in tried
    requires path in Keys(shown, PathOf())
    ensures path in Keys(tried, PathOf())
  {
    var hit :| hit in shown && PathOf()(hit) == path;
    assert PathOf()(hit) in Keys(tried, PathOf());
  }

  /** Of the paths tried, those with a hit shown are the paths of the hits shown. */
  lemma PathsShown(tried: seq<Hit>, shown: seq<Hit>)
    requires forall hit | hit in shown :: hit in tried
    ensures |Keys(tried, PathOf())| == |Keys(shown, PathOf())| + Count(Keys(tried, PathOf()), NoneShown(shown))
  {
    var paths, there := Keys(tried, PathOf()), Keys(shown, PathOf());
    CountUnion(paths, SomeShown(shown), NoneShown(shown), Everything());
    CountKept(paths, Everything());
    FilterAll(paths, Everything());
    var kept := Filter(paths, SomeShown(shown));
    CountKept(paths, SomeShown(shown));
    FilterStaysDistinct(paths, SomeShown(shown));
    hide Filter, Count, Keys, NoneShown, SomeShown, PathOf, Distinct;
    forall path ensures path in kept <==> path in there {
      PathShown(shown, path);
      if path in kept {
        KeptRows(paths, SomeShown(shown), path);
      } else if path in there {
        PathTried(tried, shown, path);
        FilterKeeps(paths, SomeShown(shown), path);
      }
    }
    assert (set path | path in kept) == set path | path in there;
    DistinctSize(kept);
    DistinctSize(there);
  }

  /** Which hits are asked for, shown and hidden. */
  lemma WhichHits(since: int, until: Option<int>, types: Option<set<Type>>, typos: Option<Hit -> bool>, hit: Hit)
    ensures var tried := Tried(since, until, types);
      && (tried(hit) <==> since <= hit.at && (until == None || hit.at < until.value) && (types == None || hit.kind in types.value))
      && (Shown(tried, typos)(hit) <==> tried(hit) && (typos == None || typos.value(hit)))
      && (Hidden(tried, typos)(hit) <==> tried(hit) && typos != None && !typos.value(hit))
      && PathOf()(hit) == hit.path && (OnPath(hit.path)(hit))
  {
  }

  /** The totals are over every page; shown and hidden hits are all the hits tried; a path is hidden when none of its is shown. */
  lemma TotalsAddUp(hits: seq<Hit>, since: int, until: Option<int>, types: Option<set<Type>>, typos: Option<Hit -> bool>,
                    skip: nat, limit: nat)
    ensures var page, tried := OrphanGroups(hits, since, until, types, typos, skip, limit), Tried(since, until, types);
      var shown := Filter(hits, Shown(tried, typos));
      && page.totalVisits == VisitsOf(AllGroups(shown)) == Count(hits, Shown(tried, typos))
      && page.totalPaths == |AllGroups(shown)|
      && page.hiddenVisits == Count(hits, Hidden(tried, typos)) == Count(hits, tried) - page.totalVisits
      && page.hiddenPaths == Count(Keys(Filter(hits, tried), PathOf()), NoneShown(shown))
  {
    hide AllGroups, Count, Filter, Tried, NoneShown;
    var tried := Tried(since, until, types);
    var all, shown := Filter(hits, tried), Filter(hits, Shown(tried, typos));
    GroupsHoldEveryHit(shown);
    CountKept(hits, tried);
    CountKept(hits, Shown(tried, typos));
    CountUnion(hits, Shown(tried, typos), Hidden(tried, typos), tried);
    forall hit | hit in shown ensures hit in all {
      KeptRows(hits, Shown(tried, typos), hit);
      FilterKeeps(hits, tried, hit);
    }
    PathsShown(all, shown);
  }
}
