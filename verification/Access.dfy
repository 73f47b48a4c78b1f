/**
 The link a code names, among those a viewer sees: many addresses in one query, against one address by itself.
 */
module Access {
  import opened Rows
  import opened Sorting

  type Id = string

  datatype Domain = Domain(hostname: string, isDefault: bool)

  /** A link: on a domain, or from before domains; an organization's, or only its creator's. */
  datatype Url = Url(id: Id, code: string, domain: Option<Domain>, createdAt: int,
                     organization: Option<Id>, createdBy: Id)

  datatype Viewer = Viewer(user: Id, organization: Option<Id>)

  /** A code, and the domain asked for, if any. */
  datatype Address = Address(code: string, domain: Option<string>)

  predicate Sees(who: Viewer, url: Url) {
    || (who.organization.Some? && url.organization == who.organization)
    || (url.organization == None && url.createdBy == who.user)
  }

  // ---------------------------------------------------------------- The order links answer in

  function Hostname(url: Url): string {
    if url.domain.Some? then url.domain.value.hostname else ""
  }

  predicate OnDefault(url: Url) {
    url.domain == None || url.domain.value.isDefault
  }

  /** The default domain's link, then one from before domains, then the others by hostname, age and id. */
  predicate Before(a: Url, b: Url) {
    if OnDefault(a) != OnDefault(b) then OnDefault(a)
    else if (a.domain == None) != (b.domain == None) then b.domain == None
    else if Hostname(a) != Hostname(b) then TextBefore(Hostname(a), Hostname(b))
    else if a.createdAt != b.createdAt then a.createdAt < b.createdAt
    else TextBefore(a.id, b.id)
  }

  /** Any two links are in order, one way only. */
  lemma BeforeIsTotal(a: Url, b: Url)
    ensures Before(a, b) ==> !Before(b, a)
    ensures a.id != b.id ==> Before(a, b) || Before(b, a)
  {
    TextOrder(Hostname(a), Hostname(b));
    TextOrder(a.id, b.id);
  }

  lemma BeforeIsTransitive(a: Url, b: Url, c: Url)
    requires Before(a, b) && Before(b, c)
    ensures Before(a, c)
  {
    TextOrder(Hostname(a), Hostname(b));
    if TextBefore(Hostname(a), Hostname(b)) && TextBefore(Hostname(b), Hostname(c)) {
      TextOrderTransitive(Hostname(a), Hostname(b), Hostname(c));
      TextOrder(Hostname(a), Hostname(c));
    }
    if TextBefore(a.id, b.id) && TextBefore(b.id, c.id) {
      TextOrderTransitive(a.id, b.id, c.id);
    }
  }

  // ---------------------------------------------------------------- One address

  /** The host a link answers on. */
  function HostOf(url: Url, default: Option<string>): Option<string> {
    if url.domain.Some? then Some(url.domain.value.hostname) else default
  }

  /** The links that answer an address. */
  function Answers(who: Viewer, default: Option<string>, normalize: string -> string, address: Address): Url -> bool {
    (url: Url) => url.code == address.code && Sees(who, url)
      && (address.domain == None || HostOf(url, default) == Some(normalize(address.domain.value)))
  }

  /** The first of some links in that order. */
  function First(urls: seq<Url>): (first: Option<Url>)
    ensures urls == [] <==> first == None
    ensures first.Some? ==> first.value in urls
  {
    if urls == [] then None
    else
      var rest := First(urls[1..]);
      if rest == None || Before(urls[0], rest.value) then Some(urls[0]) else rest
  }

  /** The link an address names, found by itself. */
  function FindUrl(urls: seq<Url>, who: Viewer, default: Option<string>, normalize: string -> string, address: Address): Option<Url> {
    First(Filter(urls, Answers(who, default, normalize, address)))
  }

  ghost predicate DistinctIds(urls: seq<Url>) {
    forall j, k :: 0 <= j < k < |urls| ==> urls[j].id != urls[k].id
  }

  lemma {:induction false} FirstIsFirst(urls: seq<Url>, url: Url)
    requires DistinctIds(urls) && url in urls
    ensures url == First(urls).value || Before(First(urls).value, url)
  {
    var rest := urls[1..];
    assert DistinctIds(rest);
    if rest != [] {
      var first := First(rest).value;
      BeforeIsTotal(urls[0], first);
      if url != urls[0] {
        FirstIsFirst(rest, url);
        if Before(urls[0], first) && Before(first, url) {
          BeforeIsTransitive(urls[0], first, url);
        }
      }
    }
  }

  /** It is the one that answers and comes before every other that does; None when none answers. */
  lemma FindUrlIsTheFirst(urls: seq<Url>, who: Viewer, default: Option<string>, normalize: string -> string,
                          address: Address, url: Url)
    requires DistinctIds(urls)
    ensures var answers := Answers(who, default, normalize, address);
      && (FindUrl(urls, who, default, normalize, address) == Some(url) <==>
          url in urls && answers(url) && forall other | other in urls && answers(other) :: other == url || Before(url, other))
      && (FindUrl(urls, who, default, normalize, address) == None <==> forall other | other in urls :: !answers(other))
  {
    var answers := Answers(who, default, normalize, address);
    var kept := Filter(urls, answers);
    FilterKeepsDistinct(urls, answers);
    forall other ensures other in kept <==> other in urls && answers(other) {
      if other in kept {
        KeptRows(urls, answers, other);
      } else if other in urls && answers(other) {
        FilterKeeps(urls, answers, other);
      }
    }
    if kept != [] {
      var first := First(kept).value;
      forall other | other in kept ensures other == first || Before(first, other) {
        FirstIsFirst(kept, other);
      }
      BeforeIsTotal(first, url);
    }
  }

  lemma {:induction false} FilterKeepsDistinct(urls: seq<Url>, keep: Url -> bool)
    requires DistinctIds(urls)
    ensures DistinctIds(Filter(urls, keep))
  {
    if urls != [] {
      var rest := Filter(urls[1..], keep);
      FilterKeepsDistinct(urls[1..], keep);
      forall k | 0 <= k < |rest| ensures rest[k].id != urls[0].id {
        KeptRows(urls[1..], keep, rest[k]);
      }
    }
  }

  /** The default domain's links stand first, those from before domains next, other domains' last. */
  function Standing(url: Url): nat {
    match url.domain
    case Some(domain) => if domain.isDefault then 0 else 2
    case None => 1
  }

  predicate SameHost(a: Url, b: Url) {
    match a.domain
    case None => b.domain == None
    case Some(domain) => b.domain.Some? && b.domain.value.hostname == domain.hostname
  }

  /** The link found stands first of those that answer; of equals, by hostname, then the oldest, then by id. */
  lemma AnswersInOrder(urls: seq<Url>, who: Viewer, default: Option<string>, normalize: string -> string,
                       address: Address, url: Url, other: Url)
    requires DistinctIds(urls) && FindUrl(urls, who, default, normalize, address) == Some(url)
    requires other in urls && Answers(who, default, normalize, address)(other) && other != url
    ensures Standing(url) <= Standing(other)
    ensures Standing(url) == Standing(other) && url.domain.Some? ==>
      url.domain.value.hostname == other.domain.value.hostname
      || TextBefore(url.domain.value.hostname, other.domain.value.hostname)
    ensures Standing(url) == Standing(other) && SameHost(url, other) ==>
      url.createdAt < other.createdAt || (url.createdAt == other.createdAt && TextBefore(url.id, other.id))
  {
    FindUrlIsTheFirst(urls, who, default, normalize, address, url);
  }

  /** What answers an address: a link with its code that the viewer sees, on the host asked for when one is. */
  lemma AnswerRules(who: Viewer, default: Option<string>, normalize: string -> string, address: Address, url: Url)
    ensures Answers(who, default, normalize, address)(url) <==>
      && url.code == address.code
      && ((who.organization.Some? && url.organization == who.organization)
          || (url.organization == None && url.createdBy == who.user))
      && match address.domain
         case None => true
         case Some(asked) =>
           match url.domain case Some(domain) => domain.hostname == normalize(asked) case None => default == Some(normalize(asked))
  {
  }

  // ---------------------------------------------------------------- Many addresses

  function WithCode(code: string): Url -> bool {
    (url: Url) => url.code == code
  }

  /** The rows one query reads for all the codes. */
  function Candidates(who: Viewer, codes: set<string>): Url -> bool {
    (url: Url) => url.code in codes && Sees(who, url)
  }

  function OnHost(default: Option<string>, hostname: string): Url -> bool {
    (url: Url) => HostOf(url, default) == Some(hostname)
  }

  function Under(byCode: map<string, seq<Url>>, code: string): seq<Url> {
    if code in byCode then byCode[code] else []
  }

  /** The links read, by code, in the order they were read. */
  method ByCode(candidates: seq<Url>) returns (byCode: map<string, seq<Url>>)
    ensures forall code :: Under(byCode, code) == Filter(candidates, WithCode(code))
  {
    byCode := map[];
    for i := 0 to |candidates|
      invariant forall code :: Under(byCode, code) == Filter(candidates[..i], WithCode(code))
    {
      var url := candidates[i];
      assert candidates[..i + 1] == candidates[..i] + [url];
      forall code
        ensures Filter(candidates[..i + 1], WithCode(code))
             == Filter(candidates[..i], WithCode(code)) + if url.code == code then [url] else []
      {
        FilterSnoc(candidates[..i], url, WithCode(code));
      }
      byCode := byCode[url.code := Under(byCode, url.code) + [url]];
    }
    assert candidates[..|candidates|] == candidates;
  }

  /** Reading the candidates of many codes first, then an address's, gives what answers the address. */
  lemma AnswersAmongCandidates(urls: seq<Url>, who: Viewer, default: Option<string>, normalize: string -> string,
                               codes: set<string>, address: Address)
    requires address.code in codes
    ensures var links := Filter(Filter(urls, Candidates(who, codes)), WithCode(address.code));
      Filter(urls, Answers(who, default, normalize, address))
      == if address.domain == None then links else Filter(links, OnHost(default, normalize(address.domain.value)))
  {
    var seen := (url: Url) => url.code == address.code && Sees(who, url);
    FilterTwice(urls, Candidates(who, codes), WithCode(address.code), seen);
    if address.domain == None {
      FilterSame(urls, seen, Answers(who, default, normalize, address));
    } else {
      FilterTwice(urls, seen, OnHost(default, normalize(address.domain.value)), Answers(who, default, normalize, address));
    }
  }

  /** Many addresses in one query: each gets what it names by itself, and one that names nothing is left out. */
  method FindUrls(urls: seq<Url>, who: Viewer, default: Option<string>, normalize: string -> string, addresses: seq<Address>)
    returns (found: map<Address, Url>)
    ensures forall address :: address in found ==> address in addresses
    ensures forall address | address in addresses ::
      FindUrl(urls, who, default, normalize, address) == if address in found then Some(found[address]) else None
  {
    hide Filter, First, Candidates, Answers, WithCode, OnHost, Under;
    var codes := set address | address in addresses :: address.code;
    var candidates := Filter(urls, Candidates(who, codes));
    var byCode := ByCode(candidates);
    found := map[];
    for i := 0 to |addresses|
      invariant forall address :: address in found ==> address in addresses[..i]
      invariant forall address | address in addresses[..i] ::
        FindUrl(urls, who, default, normalize, address) == if address in found then Some(found[address]) else None
    {
      var address := addresses[i];
      assert addresses[..i + 1] == addresses[..i] + [address];
      AnswersAmongCandidates(urls, who, default, normalize, codes, address);
      var links := Under(byCode, address.code);
      if address.domain.Some? {
        links := Filter(links, OnHost(default, normalize(address.domain.value)));
      }
      if links != [] {
        found := found[address := First(links).value];
      }
    }
    assert addresses[..|addresses|] == addresses;
  }

  /** One address by itself: the same query, for one. */
  method FindOne(urls: seq<Url>, who: Viewer, default: Option<string>, normalize: string -> string, address: Address)
    returns (url: Option<Url>)
    ensures url == FindUrl(urls, who, default, normalize, address)
  {
    var found := FindUrls(urls, who, default, normalize, [address]);
    assert address in [address];
    url := if address in found then Some(found[address]) else None;
  }

  // ---------------------------------------------------------------- The default domain

  /** The default domain is the one whose hostname is the default. */
  ghost predicate OneDefault(urls: seq<Url>, default: Option<string>) {
    forall url | url in urls && url.domain.Some? :: url.domain.value.isDefault <==> Some(url.domain.value.hostname) == default
  }

  /** Without a domain, the default domain's link answers when it has one; another domain's only when it has none. */
  lemma DefaultDomainAnswersFirst(urls: seq<Url>, who: Viewer, default: string, normalize: string -> string,
                                  code: string, host: string)
    requires DistinctIds(urls) && OneDefault(urls, Some(default)) && normalize(host) == default
    ensures var there := FindUrl(urls, who, Some(default), normalize, Address(code, Some(host)));
      var anywhere := FindUrl(urls, who, Some(default), normalize, Address(code, None));
      if there.Some? then anywhere == there else anywhere.Some? ==> !OnDefault(anywhere.value)
  {
    var onHost, any := Address(code, Some(host)), Address(code, None);
    var there := FindUrl(urls, who, Some(default), normalize, onHost);
    var anywhere := FindUrl(urls, who, Some(default), normalize, any);
    if there.Some? {
      FindUrlIsTheFirst(urls, who, Some(default), normalize, onHost, there.value);
      FindUrlIsTheFirst(urls, who, Some(default), normalize, any, there.value);
    } else if anywhere.Some? {
      FindUrlIsTheFirst(urls, who, Some(default), normalize, any, anywhere.value);
      FindUrlIsTheFirst(urls, who, Some(default), normalize, onHost, anywhere.value);
    }
  }
}
