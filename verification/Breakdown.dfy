/** A breakdown's tables and its cities: each counts every visit, and a named city came from enough links. */
module Breakdown {
  import opened Rows
  import opened Grouping

  const UNKNOWN: string := "Unknown"
  const OTHER_CITIES: string := "Other cities"

  datatype Visit = Visit(url: int, userAgent: Option<string>, referer: Option<string>, country: Option<string>, city: Option<string>)

  /** What a user agent tells. */
  datatype Families = Families(os: string, browser: string, device: string)

  /** Where the database put a visit. */
  datatype Place = Place(country: Option<string>, city: Option<string>)

  /** A city as the breakdown names it. */
  datatype CityName = CityName(name: string, country: Option<string>)

  function UserAgentOf(): Visit -> Option<string> { (visit: Visit) => visit.userAgent }

  function RefererOf(): Visit -> Option<string> { (visit: Visit) => visit.referer }

  function CountryOf(): Visit -> Option<string> { (visit: Visit) => visit.country }

  function PlaceOf(): Visit -> Place { (visit: Visit) => Place(visit.country, visit.city) }

  function OsOf(families: Option<string> -> Families): Option<string> -> string { (agent: Option<string>) => families(agent).os }

  function BrowserOf(families: Option<string> -> Families): Option<string> -> string { (agent: Option<string>) => families(agent).browser }

  function DeviceOf(families: Option<string> -> Families): Option<string> -> string { (agent: Option<string>) => families(agent).device }

  /** What each table groups by and names its groups with. */
  lemma WhatIsGrouped(visit: Visit, families: Option<string> -> Families, agent: Option<string>)
    ensures UserAgentOf()(visit) == visit.userAgent && RefererOf()(visit) == visit.referer && CountryOf()(visit) == visit.country
    ensures PlaceOf()(visit).country == visit.country && PlaceOf()(visit).city == visit.city
    ensures Families(OsOf(families)(agent), BrowserOf(families)(agent), DeviceOf(families)(agent)) == families(agent)
  {
  }

  type Table = map<string, nat>

  datatype Fields = Fields(total: nat, os: Table, browsers: Table, devices: Table, referrers: Table, countries: Table)

  /** A table counts, under each name, the visits that have it. */
  ghost predicate Counts<K>(table: Table, visits: seq<Visit>, key: Visit -> K, name: K -> string) {
    && (forall l :: Counted(table)(l) == Count(visits, Labelled(key, name, l)))
    && table.Keys == set visit | visit in visits :: name(key(visit))
  }

  /** The counts of a table sum to the total. */
  ghost predicate SumsTo(table: Table, total: nat) {
    Total(table.Keys, Counted(table)) == total
  }

  /** Each of the five tables counts the visits under its own names, and sums to the same total: every visit. */
  method BreakdownFields(visits: seq<Visit>, families: Option<string> -> Families,
                         referrerHost: Option<string> -> string, countryLabel: Option<string> -> string)
    returns (fields: Fields)
    ensures fields.total == |visits|
    ensures Counts(fields.os, visits, UserAgentOf(), OsOf(families)) && SumsTo(fields.os, fields.total)
    ensures Counts(fields.browsers, visits, UserAgentOf(), BrowserOf(families)) && SumsTo(fields.browsers, fields.total)
    ensures Counts(fields.devices, visits, UserAgentOf(), DeviceOf(families)) && SumsTo(fields.devices, fields.total)
    ensures Counts(fields.referrers, visits, RefererOf(), referrerHost) && SumsTo(fields.referrers, fields.total)
    ensures Counts(fields.countries, visits, CountryOf(), countryLabel) && SumsTo(fields.countries, fields.total)
  {
    hide Count, Labelled, Counted, Total;
    var os := CountByLabel(visits, UserAgentOf(), OsOf(families));
    LabelsLoseNothing(visits, UserAgentOf(), OsOf(families), os);
    var browsers := CountByLabel(visits, UserAgentOf(), BrowserOf(families));
    LabelsLoseNothing(visits, UserAgentOf(), BrowserOf(families), browsers);
    var devices := CountByLabel(visits, UserAgentOf(), DeviceOf(families));
    LabelsLoseNothing(visits, UserAgentOf(), DeviceOf(families), devices);
    var referrers := CountByLabel(visits, RefererOf(), referrerHost);
    LabelsLoseNothing(visits, RefererOf(), referrerHost, referrers);
    var countries := CountByLabel(visits, CountryOf(), countryLabel);
    LabelsLoseNothing(visits, CountryOf(), countryLabel, countries);
    var total := SumOf(countries);
    fields := Fields(total, os, browsers, devices, referrers, countries);
  }

  // ---------------------------------------------------------------- Cities

  /** The links whose visits came from a place. */
  function LinksFrom(visits: seq<Visit>, place: Place): set<int> {
    set visit | visit in visits && PlaceOf()(visit) == place :: visit.url
  }

  /** How a breakdown names a place: its city only when visits came from there to enough links. */
  function Naming(visits: seq<Visit>, minLinks: nat): Place -> CityName {
    (place: Place) =>
      if place.city == None || place.city.value == "" then CityName(UNKNOWN, None)
      else if |LinksFrom(visits, place)| < minLinks then CityName(OTHER_CITIES, None)
      else CityName(place.city.value, place.country)
  }

  /** Without a city a place is unknown; with one it is named, with its country, when its visits came from enough links. */
  lemma NamingRules(visits: seq<Visit>, minLinks: nat, country: Option<string>, city: string)
    ensures Naming(visits, minLinks)(Place(country, None)) == Naming(visits, minLinks)(Place(country, Some(""))) == CityName("Unknown", None)
    ensures city != "" ==>
      var links := set visit | visit in visits && visit.country == country && visit.city == Some(city) :: visit.url;
      Naming(visits, minLinks)(Place(country, Some(city)))
      == if |links| >= minLinks then CityName(city, country) else CityName("Other cities", None)
  {
    assert LinksFrom(visits, Place(country, Some(city)))
        == set visit | visit in visits && visit.country == country && visit.city == Some(city) :: visit.url;
  }

  /** The links whose visits a breakdown counts under a name. */
  ghost function LinksNamed(visits: seq<Visit>, minLinks: nat, name: CityName): set<int> {
    set visit | visit in visits && Naming(visits, minLinks)(PlaceOf()(visit)) == name :: visit.url
  }

  predicate IsACity(name: CityName) {
    name.country.Some? || (name.name != UNKNOWN && name.name != OTHER_CITIES)
  }

  lemma NamedCityHasEnoughLinks(visits: seq<Visit>, minLinks: nat, visit: Visit)
    requires visit in visits && IsACity(Naming(visits, minLinks)(PlaceOf()(visit)))
    ensures |LinksNamed(visits, minLinks, Naming(visits, minLinks)(PlaceOf()(visit)))| >= minLinks
  {
    var place, name := PlaceOf()(visit), Naming(visits, minLinks)(PlaceOf()(visit));
    assert LinksFrom(visits, place) <= LinksNamed(visits, minLinks, name);
    SubsetSize(LinksFrom(visits, place), LinksNamed(visits, minLinks, name));
  }

  /** The cities count every visit, and each one named came from at least `minLinks` links. */
  method Cities(visits: seq<Visit>, minLinks: nat) returns (counts: map<CityName, nat>)
    ensures forall name :: Counted(counts)(name) == Count(visits, Labelled(PlaceOf(), Naming(visits, minLinks), name))
    ensures Total(counts.Keys, Counted(counts)) == |visits|
    ensures forall name | name in counts && (name.country.Some? || name.name !in {UNKNOWN, OTHER_CITIES}) ::
      |LinksNamed(visits, minLinks, name)| >= minLinks
  {
    hide Count, Labelled, Counted, Total;
    counts := CountByLabel(visits, PlaceOf(), Naming(visits, minLinks));
    LabelsLoseNothing(visits, PlaceOf(), Naming(visits, minLinks), counts);
    forall name | name in counts && IsACity(name) ensures |LinksNamed(visits, minLinks, name)| >= minLinks {
      var visit :| visit in visits && Naming(visits, minLinks)(PlaceOf()(visit)) == name;
      NamedCityHasEnoughLinks(visits, minLinks, visit);
    }
  }
}
