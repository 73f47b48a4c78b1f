/**
 Short domains: the default one, the domain a host names, the link a code names on it, and the repair that binds
 campaign links from before domains to the default one.
 */
module Domains {
  import opened Rows

  type Id = nat

  datatype Domain = Domain(id: Id, hostname: string, isDefault: bool)

  datatype Kind = Standard | Custom | Campaign

  /** A link; without a domain, one from before domains. */
  datatype Url = Url(id: Id, code: string, domain: Option<Id>, kind: Kind)

  ghost predicate DistinctDomains(domains: seq<Domain>) {
    forall j, k :: 0 <= j < k < |domains| ==> domains[j].id != domains[k].id && domains[j].hostname != domains[k].hostname
  }

  ghost predicate OneDefaultAtMost(domains: seq<Domain>) {
    forall j, k :: 0 <= j < k < |domains| ==> !(domains[j].isDefault && domains[k].isDefault)
  }

  ghost predicate DistinctIds(urls: seq<Url>) {
    forall j, k :: 0 <= j < k < |urls| ==> urls[j].id != urls[k].id
  }

  /** The table's constraint: a code once on each domain. Rows without one escape it. */
  ghost predicate CodesAreUnique(urls: seq<Url>) {
    forall j, k :: 0 <= j < k < |urls| ==> !(urls[j].domain.Some? && urls[j].domain == urls[k].domain && urls[j].code == urls[k].code)
  }

  // ---------------------------------------------------------------- What a code names

  function OnDomain(domain: Id, code: string): Url -> bool {
    (url: Url) => url.domain == Some(domain) && url.code == code
  }

  function Legacy(code: string): Url -> bool {
    (url: Url) => url.domain == None && url.code == code
  }

  ghost function NamedOn(urls: seq<Url>, domain: Id, code: string): set<Id> {
    set url | url in urls && OnDomain(domain, code)(url) :: url.id
  }

  ghost function NamedLegacy(urls: seq<Url>, code: string): set<Id> {
    set url | url in urls && Legacy(code)(url) :: url.id
  }

  /** The links a redirect may answer with: the domain's, else those from before domains. A pixel's, only the first. */
  ghost function Resolved(urls: seq<Url>, domain: Id, code: string): set<Id> {
    if NamedOn(urls, domain, code) != {} then NamedOn(urls, domain, code) else NamedLegacy(urls, code)
  }

  // ---------------------------------------------------------------- The repair

  predicate TakenOn(urls: seq<Url>, domain: Id, code: string) {
    exists other :: other in urls && OnDomain(domain, code)(other)
  }

  predicate SharedWithLegacy(urls: seq<Url>, url: Url) {
    exists other :: other in urls && Legacy(url.code)(other) && other.id != url.id
  }

  /** The rows the repair binds: campaign links without a domain whose code is free and theirs alone. */
  function Moves(urls: seq<Url>, default: Id): Url -> bool {
    (url: Url) => url.domain == None && url.kind == Campaign && !TakenOn(urls, default, url.code) && !SharedWithLegacy(urls, url)
  }

  /** One UPDATE, each row judged by the table as it was. */
  function Repaired(urls: seq<Url>, default: Id): (after: seq<Url>)
    ensures |after| == |urls|
    ensures forall k :: 0 <= k < |urls| ==>
      after[k] == if Moves(urls, default)(urls[k]) then urls[k].(domain := Some(default)) else urls[k]
  {
    seq(|urls|, k requires 0 <= k < |urls| => if Moves(urls, default)(urls[k]) then urls[k].(domain := Some(default)) else urls[k])
  }

  lemma RepairKeepsCodesUnique(urls: seq<Url>, default: Id)
    requires CodesAreUnique(urls) && DistinctIds(urls)
    ensures CodesAreUnique(Repaired(urls, default)) && DistinctIds(Repaired(urls, default))
  {
    var after := Repaired(urls, default);
    forall j, k | 0 <= j < k < |urls| && after[j].domain.Some? && after[j].domain == after[k].domain
      ensures after[j].code != after[k].code
    {
      var a, b := urls[j], urls[k];
      assert a in urls && b in urls;
      assert Moves(urls, default)(a) && b.code == a.code ==> !OnDomain(default, a.code)(b) && !Legacy(a.code)(b);
      assert Moves(urls, default)(b) && b.code == a.code ==> !OnDomain(default, b.code)(a) && !Legacy(b.code)(a);
    }
  }

  /** The rows with a code that the repair binds. */
  ghost function Moved(urls: seq<Url>, default: Id, code: string): set<Id> {
    set url | url in urls && url.code == code && Moves(urls, default)(url) :: url.id
  }

  lemma RowAfter(urls: seq<Url>, default: Id, url: Url)
    requires url in urls
    ensures (if Moves(urls, default)(url) then url.(domain := Some(default)) else url) in Repaired(urls, default)
  {
    var k :| 0 <= k < |urls| && urls[k] == url;
    assert Repaired(urls, default)[k] == if Moves(urls, default)(url) then url.(domain := Some(default)) else url;
  }

  lemma RowBefore(urls: seq<Url>, default: Id, after: Url) returns (url: Url)
    requires after in Repaired(urls, default)
    ensures url in urls && after == if Moves(urls, default)(url) then url.(domain := Some(default)) else url
  {
    var k :| 0 <= k < |urls| && Repaired(urls, default)[k] == after;
    url := urls[k];
  }

  /** The default domain gains the rows bound, and no other does. */
  lemma NamedAfter(urls: seq<Url>, default: Id, domain: Id, code: string)
    ensures NamedOn(Repaired(urls, default), domain, code)
         == NamedOn(urls, domain, code) + if domain == default then Moved(urls, default, code) else {}
  {
    var after := Repaired(urls, default);
    var named := NamedOn(urls, domain, code) + if domain == default then Moved(urls, default, code) else {};
    forall id | id in NamedOn(after, domain, code) ensures id in named {
      var row :| row in after && OnDomain(domain, code)(row) && row.id == id;
      var url := RowBefore(urls, default, row);
    }
    forall id | id in named ensures id in NamedOn(after, domain, code) {
      var url :| url in urls && url.id == id && url.code == code
        && (OnDomain(domain, code)(url) || (domain == default && Moves(urls, default)(url)));
      RowAfter(urls, default, url);
      assert OnDomain(domain, code)(if Moves(urls, default)(url) then url.(domain := Some(default)) else url);
    }
  }

  /** They are no longer from before domains. */
  lemma LegacyAfter(urls: seq<Url>, default: Id, code: string)
    requires DistinctIds(urls)
    ensures NamedLegacy(Repaired(urls, default), code) == NamedLegacy(urls, code) - Moved(urls, default, code)
  {
    var after := Repaired(urls, default);
    var left := NamedLegacy(urls, code) - Moved(urls, default, code);
    forall id | id in NamedLegacy(after, code) ensures id in left {
      var row :| row in after && Legacy(code)(row) && row.id == id;
      var url := RowBefore(urls, default, row);
      assert forall other | other in urls && other.id == id :: other == url;
    }
    forall id | id in left ensures id in NamedLegacy(after, code) {
      var url :| url in urls && Legacy(code)(url) && url.id == id;
      RowAfter(urls, default, url);
    }
  }

  /** A row is bound only when its code named it alone. */
  lemma MovedWasAlone(urls: seq<Url>, default: Id, code: string)
    requires Moved(urls, default, code) != {}
    ensures NamedOn(urls, default, code) == {} && NamedLegacy(urls, code) == Moved(urls, default, code)
  {
    var id :| id in Moved(urls, default, code);
    var url :| url in urls && url.code == code && Moves(urls, default)(url) && url.id == id;
    forall other | other in urls && Legacy(code)(other) ensures other.id == id {
    }
    assert Legacy(code)(url);
    forall other | other in urls && other.code == code && Moves(urls, default)(other) ensures other.id == id {
      assert Legacy(code)(other);
    }
  }

  /** What every code names on the default domain stays as it was. */
  lemma RepairKeepsTheDefaultHost(urls: seq<Url>, default: Id, code: string)
    requires DistinctIds(urls)
    ensures Resolved(Repaired(urls, default), default, code) == Resolved(urls, default, code)
  {
    hide NamedOn, NamedLegacy, Moved, Repaired;
    NamedAfter(urls, default, default, code);
    LegacyAfter(urls, default, code);
    if Moved(urls, default, code) != {} {
      MovedWasAlone(urls, default, code);
    }
  }

  /** On another domain, a code keeps what it names exactly when no row with it is bound, or the domain has its own. */
  lemma RepairKeepsAnotherHostIff(urls: seq<Url>, default: Id, domain: Id, code: string)
    requires DistinctIds(urls) && domain != default
    ensures Resolved(Repaired(urls, default), domain, code) == Resolved(urls, domain, code)
       <==> Moved(urls, default, code) == {} || NamedOn(urls, domain, code) != {}
    ensures Resolved(Repaired(urls, default), domain, code) <= Resolved(urls, domain, code)
  {
    hide NamedOn, NamedLegacy, Moved, Repaired;
    NamedAfter(urls, default, domain, code);
    LegacyAfter(urls, default, code);
    if Moved(urls, default, code) != {} {
      MovedWasAlone(urls, default, code);
    }
  }

  /** One campaign link from before domains: any other host served it, and after the repair none but the default does. */
  lemma AnotherHostLosesACode(default: Id, other: Id, url: Url)
    requires other != default && url.domain == None && url.kind == Campaign
    ensures Resolved([url], other, url.code) == {url.id} && Resolved(Repaired([url], default), other, url.code) == {}
    ensures Resolved(Repaired([url], default), default, url.code) == {url.id}
  {
    var urls := [url];
    assert url in urls && Legacy(url.code)(url) && Moves(urls, default)(url);
    var moved := url.(domain := Some(default));
    assert Repaired(urls, default) == [moved];
    assert moved in [moved] && OnDomain(default, url.code)(moved);
  }

  /** A second repair has nothing to move. */
  lemma RepairIsDone(urls: seq<Url>, default: Id)
    requires DistinctIds(urls)
    ensures Repaired(Repaired(urls, default), default) == Repaired(urls, default)
    ensures Count(Repaired(urls, default), Moves(Repaired(urls, default), default)) == 0
  {
    var after := Repaired(urls, default);
    forall row | row in after ensures !Moves(after, default)(row) {
      StaysPut(urls, default, row);
    }
    CountNone(after, Moves(after, default));
  }

  lemma StaysPut(urls: seq<Url>, default: Id, row: Url)
    requires DistinctIds(urls) && row in Repaired(urls, default)
    ensures !Moves(Repaired(urls, default), default)(row)
  {
    var after := Repaired(urls, default);
    var url := RowBefore(urls, default, row);
    if row.domain == None && row.kind == Campaign {
      assert row == url && !Moves(urls, default)(url);
      if TakenOn(urls, default, url.code) {
        var other :| other in urls && OnDomain(default, url.code)(other);
        RowAfter(urls, default, other);
        assert OnDomain(default, row.code)(other);
      } else {
        var other :| other in urls && Legacy(url.code)(other) && other.id != url.id;
        assert Legacy(other.code)(url) && SharedWithLegacy(urls, other);
        RowAfter(urls, default, other);
        assert Legacy(row.code)(other);
      }
    }
  }

  function LegacyCampaign(): Url -> bool {
    (url: Url) => url.domain == None && url.kind == Campaign
  }

  /** Which links the repair is about, and which of them it binds: those whose code no other link could answer with. */
  lemma RepairRules(urls: seq<Url>, default: Id, url: Url)
    ensures LegacyCampaign()(url) <==> url.domain == None && url.kind == Campaign
    ensures Moves(urls, default)(url) <==>
      && url.domain == None && url.kind == Campaign
      && forall other | other in urls && other.code == url.code ::
           other.domain != Some(default) && (other.domain == None ==> other.id == url.id)
  {
    if Moves(urls, default)(url) {
      forall other | other in urls && other.code == url.code
        ensures other.domain != Some(default) && (other.domain == None ==> other.id == url.id)
      {
        assert !OnDomain(default, url.code)(other);
        assert other.id != url.id ==> !Legacy(url.code)(other);
      }
    }
  }

  /** Every campaign link from before domains is bound, or left and counted for review. */
  lemma MovedOrLeft(urls: seq<Url>, default: Id)
    ensures Count(Repaired(urls, default), LegacyCampaign()) + Count(urls, Moves(urls, default)) == Count(urls, LegacyCampaign())
  {
    var stays := (url: Url) => LegacyCampaign()(url) && !Moves(urls, default)(url);
    CountUnion(urls, stays, Moves(urls, default), LegacyCampaign());
    CountPaired(urls, Repaired(urls, default), stays, LegacyCampaign());
  }

  // ---------------------------------------------------------------- The default domain

  function IsDefault(): Domain -> bool {
    (domain: Domain) => domain.isDefault
  }

  function Named(hostname: string): Domain -> bool {
    (domain: Domain) => domain.hostname == hostname
  }

  predicate Has(domains: seq<Domain>, named: Domain -> bool) {
    exists domain :: domain in domains && named(domain)
  }

  /** The domains with a default one: the one there is, else the one of the configured hostname, made if need be. */
  ghost predicate WithDefault(before: seq<Domain>, after: seq<Domain>, hostname: string, default: Domain) {
    && default in after && default.isDefault
    && (Has(before, IsDefault()) ==> after == before)
    && (!Has(before, IsDefault()) ==> default.hostname == hostname)
    && (!Has(before, IsDefault()) && Has(before, Named(hostname)) ==>
          |after| == |before| && forall k :: 0 <= k < |before| ==>
            after[k] == if before[k].hostname == hostname then before[k].(isDefault := true) else before[k])
    && (!Has(before, IsDefault()) && !Has(before, Named(hostname)) ==>
          after == before + [default] && forall domain :: domain in before ==> domain.id != default.id)
  }

  /** It is then the only default one, and asking again changes nothing. */
  lemma DefaultIsSettled(before: seq<Domain>, after: seq<Domain>, hostname: string, default: Domain)
    requires DistinctDomains(before) && OneDefaultAtMost(before) && WithDefault(before, after, hostname, default)
    ensures DistinctDomains(after) && OneDefaultAtMost(after)
    ensures forall domain :: domain in after ==> (domain.isDefault <==> domain == default)
    ensures forall again, same :: WithDefault(after, again, hostname, same) ==> again == after && same == default
  {
    OnlyDefault(before, after, hostname, default);
    assert IsDefault()(default);
  }

  lemma OnlyDefault(before: seq<Domain>, after: seq<Domain>, hostname: string, default: Domain)
    requires DistinctDomains(before) && OneDefaultAtMost(before) && WithDefault(before, after, hostname, default)
    ensures DistinctDomains(after) && OneDefaultAtMost(after)
    ensures forall domain :: domain in after ==> (domain.isDefault <==> domain == default)
  {
    if !Has(before, IsDefault()) {
      forall k | 0 <= k < |before| ensures !before[k].isDefault {
        assert !IsDefault()(before[k]);
      }
      if !Has(before, Named(hostname)) {
        forall k | 0 <= k < |before| ensures before[k].hostname != hostname && before[k].id != default.id {
          assert !Named(hostname)(before[k]);
        }
      }
    }
  }

  class Database {
    const defaultHost: string
    var domains: seq<Domain>
    var urls: seq<Url>

    ghost predicate Valid() reads this {
      DistinctDomains(domains) && OneDefaultAtMost(domains) && DistinctIds(urls) && CodesAreUnique(urls)
    }

    constructor (host: string)
      ensures Valid() && domains == [] && urls == [] && defaultHost == host
    {
      defaultHost, domains, urls := host, [], [];
    }

    /** The default domain, made or promoted the first time. */
    method GetOrCreateDefaultDomain(newId: Id) returns (default: Domain)
      requires Valid() && forall domain :: domain in domains ==> domain.id != newId
      modifies this`domains
      ensures Valid() && WithDefault(old(domains), domains, defaultHost, default)
    {
      var existing := Filter(domains, IsDefault());
      if existing != [] {
        default := existing[0];
        KeptRows(domains, IsDefault(), default);
      } else {
        NoneKept(domains, IsDefault());
        var byHost := Filter(domains, Named(defaultHost));
        if byHost != [] {
          KeptRows(domains, Named(defaultHost), byHost[0]);
          var k :| 0 <= k < |domains| && domains[k] == byHost[0];
          default := byHost[0].(isDefault := true);
          domains := domains[k := default];
          assert domains[k] == default;
        } else {
          NoneKept(domains, Named(defaultHost));
          default := Domain(newId, defaultHost, true);
          domains := domains + [default];
          assert domains[|domains| - 1] == default;
        }
      }
      DefaultIsSettled(old(domains), domains, defaultHost, default);
    }

    /** The domain a request's host names; the default one for a host nobody registered. */
    method ResolveDomainForHost(hostHeader: string, normalize: string -> string, newId: Id) returns (domain: Domain)
      requires Valid() && forall domain :: domain in domains ==> domain.id != newId
      modifies this`domains
      ensures Valid() && domain in domains
      ensures domains == old(domains) || WithDefault(old(domains), domains, defaultHost, domain)
      ensures hostHeader != "" && Has(old(domains), Named(normalize(hostHeader)))
        ==> domain.hostname == normalize(hostHeader) && domains == old(domains)
      ensures hostHeader == "" || !Has(old(domains), Named(normalize(hostHeader)))
        ==> WithDefault(old(domains), domains, defaultHost, domain)
    {
      if hostHeader != "" {
        var bareHost := normalize(hostHeader);
        var matches := Filter(domains, Named(bareHost));
        if matches != [] {
          KeptRows(domains, Named(bareHost), matches[0]);
          domain := matches[0];
          return;
        }
        NoneKept(domains, Named(bareHost));
      }
      domain := GetOrCreateDefaultDomain(newId);
    }

    /** The repair, run at every startup: how many rows it bound, and how many it left. */
    method BackfillCampaignUrlDomains(newId: Id) returns (moved: nat, left: nat, default: Domain)
      requires Valid() && forall domain :: domain in domains ==> domain.id != newId
      modifies this
      ensures Valid() && WithDefault(old(domains), domains, defaultHost, default)
      ensures urls == Repaired(old(urls), default.id)
      ensures moved == Count(old(urls), Moves(old(urls), default.id))
      ensures left == Count(urls, LegacyCampaign()) == Count(old(urls), LegacyCampaign()) - moved
    {
      default := GetOrCreateDefaultDomain(newId);
      RepairKeepsCodesUnique(urls, default.id);
      MovedOrLeft(urls, default.id);
      moved := Count(urls, Moves(urls, default.id));
      urls := Repaired(urls, default.id);
      left := Count(urls, LegacyCampaign());
    }
  }

  lemma NoneKept(domains: seq<Domain>, named: Domain -> bool)
    requires Filter(domains, named) == []
    ensures !Has(domains, named)
  {
    if Has(domains, named) {
      var domain :| domain in domains && named(domain);
      FilterKeeps(domains, named, domain);
    }
  }
}
