/** Locating a zone by its full name (internal/dnsbalancer/matching.go). */
module ZoneLocator {
  import opened Wrappers
  import opened Names
  import opened Zones

  datatype NamedZone = NamedZone(name: string, zone: Zone)
  datatype Domain = Domain(name: string, zones: seq<NamedZone>)
  datatype ZoneMatch = ZoneMatch(domain: string, zoneName: string, fqdn: string, zone: Zone)

  datatype Located = Match(zone: ZoneMatch) | InvalidName | NotFound | Ambiguous

  function ZoneFQDN(domain: string, zone: string): string {
    var d, z := NormalizeFQDN(domain), NormalizeFQDN(zone);
    if z == "@" then d
    else if d == "" || z == "" then ""
    else z + "." + d
  }

  /** The name "@" stands for the domain itself; any other zone's full name is its own
      name, a dot, and the domain's name, with nothing where one of them is missing. */
  lemma ZoneFQDNMeans(domain: string, zone: string)
    ensures var r, d, z := ZoneFQDN(domain, zone), NormalizeFQDN(domain), NormalizeFQDN(zone);
            && (z == "@" ==> r == d)
            && (z != "@" && (d == "" || z == "") ==> r == "")
            && (z != "@" && d != "" && z != "" ==>
                  |r| == |z| + 1 + |d| && z == r[..|z|] && r[|z|] == '.' && d == r[|z| + 1..])
  {
  }

  /** Case does not matter in either name. */
  lemma ZoneFQDNIgnoresCase(domain: string, otherDomain: string, zone: string, otherZone: string)
    requires SameText(domain, otherDomain) && SameText(zone, otherZone)
    ensures ZoneFQDN(domain, zone) == ZoneFQDN(otherDomain, otherZone)
  {
    CaseDoesNotMatter(domain, otherDomain);
    CaseDoesNotMatter(zone, otherZone);
  }

  /** Two zones of one domain have the same full name only under the same name. */
  lemma ZoneFQDNTellsApart(domain: string, a: string, b: string)
    requires ZoneFQDN(domain, a) == ZoneFQDN(domain, b) != ""
    ensures NormalizeFQDN(a) == NormalizeFQDN(b)
  {
    var r, d := ZoneFQDN(domain, a), NormalizeFQDN(domain);
    ZoneFQDNMeans(domain, a);
    ZoneFQDNMeans(domain, b);
    assert NormalizeFQDN(a) != "@" && NormalizeFQDN(b) != "@" ==>
      NormalizeFQDN(a) == r[..|r| - |d| - 1] && NormalizeFQDN(b) == r[..|r| - |d| - 1];
  }

  /** How a zone's full name is made of its domain's name and its own; ZoneFQDN is the one in use. */
  type Naming = (string, string) -> string

  function Hit(f: Naming, domain: string, zone: NamedZone, target: string): seq<ZoneMatch> {
    if f(domain, zone.name) == target then [ZoneMatch(domain, zone.name, target, zone.zone)] else []
  }

  /** The zones of one domain whose full name is target, in configuration order. */
  function MatchesIn(f: Naming, domain: string, zones: seq<NamedZone>, target: string): seq<ZoneMatch> {
    if zones == [] then []
    else
      var last := zones[|zones| - 1];
      MatchesIn(f, domain, zones[..|zones| - 1], target) + Hit(f, domain, last, target)
  }

  function Matches(f: Naming, domains: seq<Domain>, target: string): seq<ZoneMatch> {
    if domains == [] then []
    else
      var last := domains[|domains| - 1];
      Matches(f, domains[..|domains| - 1], target) + MatchesIn(f, last.name, last.zones, target)
  }

  /** What the configuration says about a full name: the one zone that has it. */
  function Lookup(f: Naming, domains: seq<Domain>, target: string): Option<Zone> {
    var found := Matches(f, domains, target);
    if |found| == 1 then Some(found[0].zone) else None
  }

  function Found(found: Option<ZoneMatch>): seq<ZoneMatch> {
    if found.Some? then [found.value] else []
  }

  lemma MatchesInSnoc(f: Naming, domain: string, zones: seq<NamedZone>, zone: NamedZone, target: string)
    ensures MatchesIn(f, domain, zones + [zone], target) == MatchesIn(f, domain, zones, target) + Hit(f, domain, zone, target)
  {
    assert (zones + [zone])[..|zones|] == zones;
  }

  lemma MatchesSnoc(f: Naming, domains: seq<Domain>, domain: Domain, target: string)
    ensures Matches(f, domains + [domain], target) == Matches(f, domains, target) + MatchesIn(f, domain.name, domain.zones, target)
  {
    assert (domains + [domain])[..|domains|] == domains;
  }

  /** The loop over the zones of one domain; None when a second match turns up. */
  method ScanDomain(f: Naming, domain: Domain, target: string, before: Option<ZoneMatch>) returns (r: Option<Option<ZoneMatch>>)
    ensures r.Some? ==> Found(r.value) == Found(before) + MatchesIn(f, domain.name, domain.zones, target)
    ensures r.None? ==> |Found(before) + MatchesIn(f, domain.name, domain.zones, target)| >= 2
  {
    var found := before;
    for j := 0 to |domain.zones|
      invariant Found(found) == Found(before) + MatchesIn(f, domain.name, domain.zones[..j], target)
    {
      var zone := domain.zones[j];
      assert domain.zones[..j + 1] == domain.zones[..j] + [zone];
      MatchesInSnoc(f, domain.name, domain.zones[..j], zone, target);
      if f(domain.name, zone.name) == target {
        var current := ZoneMatch(domain.name, zone.name, target, zone.zone);
        if found.Some? {
          MatchesInGrows(f, domain.name, domain.zones, j + 1, target);
          return None;
        }
        found := Some(current);
      }
    }
    assert domain.zones[..|domain.zones|] == domain.zones;
    return Some(found);
  }

  // ---- The matches, by their places ----

  ghost predicate ZoneAt(f: Naming, domains: seq<Domain>, i: int, j: int, target: string) {
    0 <= i < |domains| && 0 <= j < |domains[i].zones| && f(domains[i].name, domains[i].zones[j].name) == target
  }

  /** The only zone of that full name, and what a match says of it. */
  ghost predicate OnlyZoneAt(f: Naming, domains: seq<Domain>, i: int, j: int, target: string, m: ZoneMatch) {
    && ZoneAt(f, domains, i, j, target)
    && (forall k, l :: ZoneAt(f, domains, k, l, target) ==> k == i && l == j)
    && m == ZoneMatch(domains[i].name, domains[i].zones[j].name, target, domains[i].zones[j].zone)
  }

  ghost predicate TwoZonesAt(f: Naming, domains: seq<Domain>, target: string) {
    exists i, j, k, l :: ZoneAt(f, domains, i, j, target) && ZoneAt(f, domains, k, l, target) && (i != k || j != l)
  }

  ghost predicate NoZoneAt(f: Naming, domains: seq<Domain>, target: string) {
    forall i, j :: !ZoneAt(f, domains, i, j, target)
  }

  ghost predicate OnlyZone(f: Naming, domains: seq<Domain>, target: string, m: ZoneMatch) {
    exists i, j :: OnlyZoneAt(f, domains, i, j, target, m)
  }

  ghost predicate Tallies(f: Naming, domains: seq<Domain>, target: string, found: seq<ZoneMatch>) {
    && (|found| == 0 ==> NoZoneAt(f, domains, target))
    && (|found| == 1 ==> OnlyZone(f, domains, target, found[0]))
    && (|found| >= 2 ==> TwoZonesAt(f, domains, target))
  }

  lemma ZoneAtGrows(f: Naming, small: seq<Domain>, big: seq<Domain>, target: string)
    requires |small| <= |big|
    requires forall i :: 0 <= i < |small| ==> small[i].name == big[i].name && small[i].zones <= big[i].zones
    ensures forall i, j :: ZoneAt(f, small, i, j, target) ==> ZoneAt(f, big, i, j, target)
  {
  }

  /** One more zone, at the end of the last domain. */
  lemma TallyZone(f: Naming, before: seq<Domain>, domain: Domain, zone: NamedZone, target: string, found: seq<ZoneMatch>)
    requires Tallies(f, before + [domain], target, found)
    ensures Tallies(f, before + [domain.(zones := domain.zones + [zone])], target, found + Hit(f, domain.name, zone, target))
  {
    var small, big := before + [domain], before + [domain.(zones := domain.zones + [zone])];
    var n, m := |before|, |domain.zones|;
    assert big[n].zones[m] == zone;
    assert forall j :: 0 <= j < m ==> big[n].zones[j] == small[n].zones[j];
    forall i, j ensures ZoneAt(f, big, i, j, target) <==> ZoneAt(f, small, i, j, target) || (i == n && j == m && f(domain.name, zone.name) == target) {
    }
    if |found| == 1 {
      var i, j :| OnlyZoneAt(f, small, i, j, target, found[0]);
      assert ZoneAt(f, big, i, j, target);
      if f(domain.name, zone.name) == target {
        assert ZoneAt(f, big, n, m, target);
        assert !ZoneAt(f, small, n, m, target);
        assert TwoZonesAt(f, big, target);
      } else {
        assert found + Hit(f, domain.name, zone, target) == found;
        assert OnlyZoneAt(f, big, i, j, target, found[0]);
      }
    } else if |found| == 0 {
      if f(domain.name, zone.name) == target {
        assert OnlyZoneAt(f, big, n, m, target, Hit(f, domain.name, zone, target)[0]);
      }
    } else {
      ZoneAtGrows(f, small, big, target);
      var i, j, k, l :| ZoneAt(f, small, i, j, target) && ZoneAt(f, small, k, l, target) && (i != k || j != l);
      assert ZoneAt(f, big, i, j, target) && ZoneAt(f, big, k, l, target);
    }
  }

  lemma {:induction false} TallyDomain(f: Naming, before: seq<Domain>, name: string, zones: seq<NamedZone>, target: string, found: seq<ZoneMatch>)
    requires Tallies(f, before, target, found)
    ensures Tallies(f, before + [Domain(name, zones)], target, found + MatchesIn(f, name, zones, target))
  {
    var all := before + [Domain(name, zones)];
    if zones == [] {
      forall i, j ensures ZoneAt(f, all, i, j, target) <==> ZoneAt(f, before, i, j, target) {
      }
      assert found + [] == found;
      if |found| == 1 {
        var i, j :| OnlyZoneAt(f, before, i, j, target, found[0]);
        assert OnlyZoneAt(f, all, i, j, target, found[0]);
      } else if |found| >= 2 {
        var i, j, k, l :| ZoneAt(f, before, i, j, target) && ZoneAt(f, before, k, l, target) && (i != k || j != l);
        assert ZoneAt(f, all, i, j, target) && ZoneAt(f, all, k, l, target);
      }
    } else {
      var init, last := zones[..|zones| - 1], zones[|zones| - 1];
      TallyDomain(f, before, name, init, target, found);
      TallyZone(f, before, Domain(name, init), last, target, found + MatchesIn(f, name, init, target));
      assert init + [last] == zones;
      assert found + MatchesIn(f, name, init, target) + Hit(f, name, last, target) == found + MatchesIn(f, name, zones, target);
    }
  }

  /** No zone, one zone or more zones of that full name, wherever they are. */
  lemma {:induction false} MatchesMeans(f: Naming, domains: seq<Domain>, target: string)
    ensures Tallies(f, domains, target, Matches(f, domains, target))
  {
    if domains != [] {
      var init, last := domains[..|domains| - 1], domains[|domains| - 1];
      MatchesMeans(f, init, target);
      TallyDomain(f, init, last.name, last.zones, target, Matches(f, init, target));
      assert init + [Domain(last.name, last.zones)] == domains;
    }
  }

  method LocateZone(domains: seq<Domain>, fqdn: string) returns (r: Located)
    ensures r.InvalidName? <==> NormalizeFQDN(fqdn) == ""
    ensures r.Match? ==> Matches(ZoneFQDN, domains, NormalizeFQDN(fqdn)) == [r.zone]
    ensures r.NotFound? ==> Matches(ZoneFQDN, domains, NormalizeFQDN(fqdn)) == []
    ensures r.Ambiguous? ==> |Matches(ZoneFQDN, domains, NormalizeFQDN(fqdn))| >= 2
  {
    var target := NormalizeFQDN(fqdn);
    if target == "" {
      return InvalidName;
    }
    var found: Option<ZoneMatch> := None;
    for i := 0 to |domains|
      invariant Found(found) == Matches(ZoneFQDN, domains[..i], target)
    {
      assert domains[..i + 1] == domains[..i] + [domains[i]];
      MatchesSnoc(ZoneFQDN, domains[..i], domains[i], target);
      var scanned := ScanDomain(ZoneFQDN, domains[i], target, found);
      if scanned.None? {
        MatchesGrows(ZoneFQDN, domains, i + 1, target);
        return Ambiguous;
      }
      found := scanned.value;
    }
    assert domains[..|domains|] == domains;
    if found.None? {
      return NotFound;
    }
    return Match(found.value);
  }

  lemma MatchesInGrows(f: Naming, domain: string, zones: seq<NamedZone>, n: nat, target: string)
    requires n <= |zones|
    ensures |MatchesIn(f, domain, zones[..n], target)| <= |MatchesIn(f, domain, zones, target)|
  {
    if n < |zones| {
      assert zones[..|zones| - 1][..n] == zones[..n];
      MatchesInGrows(f, domain, zones[..|zones| - 1], n, target);
    } else {
      assert zones[..n] == zones;
    }
  }

  lemma MatchesGrows(f: Naming, domains: seq<Domain>, n: nat, target: string)
    requires n <= |domains|
    ensures |Matches(f, domains[..n], target)| <= |Matches(f, domains, target)|
  {
    if n < |domains| {
      assert domains[..|domains| - 1][..n] == domains[..n];
      MatchesGrows(f, domains[..|domains| - 1], n, target);
    } else {
      assert domains[..n] == domains;
    }
  }

  // ---- A PATCH addresses a zone by the two raw names ----

  function PatchZone(zone: NamedZone, here: bool, zoneName: string, body: Zone): NamedZone {
    if here && zone.name == zoneName then zone.(zone := body) else zone
  }

  function PatchZones(zones: seq<NamedZone>, here: bool, zoneName: string, body: Zone): seq<NamedZone> {
    seq(|zones|, i requires 0 <= i < |zones| => PatchZone(zones[i], here, zoneName, body))
  }

  function PatchDomain(item: Domain, domain: string, zoneName: string, body: Zone): Domain {
    item.(zones := PatchZones(item.zones, item.name == domain, zoneName, body))
  }

  function PatchPath(domains: seq<Domain>, domain: string, zoneName: string, body: Zone): seq<Domain> {
    seq(|domains|, i requires 0 <= i < |domains| => PatchDomain(domains[i], domain, zoneName, body))
  }

  function PatchMatch(m: ZoneMatch, domain: string, zoneName: string, body: Zone): ZoneMatch {
    if m.domain == domain && m.zoneName == zoneName then m.(zone := body) else m
  }

  function PatchMatches(ms: seq<ZoneMatch>, domain: string, zoneName: string, body: Zone): seq<ZoneMatch> {
    seq(|ms|, i requires 0 <= i < |ms| => PatchMatch(ms[i], domain, zoneName, body))
  }

  lemma PatchMatchesConcat(a: seq<ZoneMatch>, b: seq<ZoneMatch>, domain: string, zoneName: string, body: Zone)
    ensures PatchMatches(a + b, domain, zoneName, body)
         == PatchMatches(a, domain, zoneName, body) + PatchMatches(b, domain, zoneName, body)
  {
  }

  lemma PatchedHit(f: Naming, name: string, zone: NamedZone, target: string, domain: string, zoneName: string, body: Zone)
    ensures Hit(f, name, PatchZone(zone, name == domain, zoneName, body), target)
         == PatchMatches(Hit(f, name, zone, target), domain, zoneName, body)
  {
  }

  lemma PatchedSnoc(f: Naming, name: string, zones: seq<NamedZone>, last: NamedZone, target: string,
                    domain: string, zoneName: string, body: Zone)
    requires MatchesIn(f, name, PatchZones(zones, name == domain, zoneName, body), target)
          == PatchMatches(MatchesIn(f, name, zones, target), domain, zoneName, body)
    ensures MatchesIn(f, name, PatchZones(zones + [last], name == domain, zoneName, body), target)
         == PatchMatches(MatchesIn(f, name, zones + [last], target), domain, zoneName, body)
  {
    PatchedHit(f, name, last, target, domain, zoneName, body);
    PatchMatchesConcat(MatchesIn(f, name, zones, target), Hit(f, name, last, target), domain, zoneName, body);
    var front, patched := PatchZones(zones, name == domain, zoneName, body), PatchZone(last, name == domain, zoneName, body);
    assert PatchZones(zones + [last], name == domain, zoneName, body) == front + [patched];
    MatchesInSnoc(f, name, front, patched, target);
    MatchesInSnoc(f, name, zones, last, target);
  }

  lemma {:induction false} PatchedMatchesIn(f: Naming, name: string, zones: seq<NamedZone>, target: string,
                                            domain: string, zoneName: string, body: Zone)
    ensures MatchesIn(f, name, PatchZones(zones, name == domain, zoneName, body), target)
         == PatchMatches(MatchesIn(f, name, zones, target), domain, zoneName, body)
  {
    if zones != [] {
      var init, last := zones[..|zones| - 1], zones[|zones| - 1];
      PatchedMatchesIn(f, name, init, target, domain, zoneName, body);
      PatchedSnoc(f, name, init, last, target, domain, zoneName, body);
      assert zones == init + [last];
    }
  }

  lemma {:induction false} PatchedMatches(f: Naming, domains: seq<Domain>, target: string,
                                          domain: string, zoneName: string, body: Zone)
    ensures Matches(f, PatchPath(domains, domain, zoneName, body), target)
         == PatchMatches(Matches(f, domains, target), domain, zoneName, body)
  {
    if domains != [] {
      var init, last := domains[..|domains| - 1], domains[|domains| - 1];
      PatchedMatches(f, init, target, domain, zoneName, body);
      PatchedMatchesIn(f, last.name, last.zones, target, domain, zoneName, body);
      PatchMatchesConcat(Matches(f, init, target), MatchesIn(f, last.name, last.zones, target), domain, zoneName, body);
      assert PatchPath(domains, domain, zoneName, body)[..|domains| - 1] == PatchPath(init, domain, zoneName, body);
    }
  }

  ghost predicate AllNamed(f: Naming, ms: seq<ZoneMatch>, target: string) {
    forall i :: 0 <= i < |ms| ==> ms[i].fqdn == target && f(ms[i].domain, ms[i].zoneName) == target
  }

  lemma {:induction false} MatchesInTarget(f: Naming, domain: string, zones: seq<NamedZone>, target: string)
    ensures AllNamed(f, MatchesIn(f, domain, zones, target), target)
  {
    if zones != [] {
      var init, last := zones[..|zones| - 1], zones[|zones| - 1];
      MatchesInTarget(f, domain, init, target);
      assert AllNamed(f, Hit(f, domain, last, target), target);
    }
  }

  lemma {:induction false} MatchesTarget(f: Naming, domains: seq<Domain>, target: string)
    ensures AllNamed(f, Matches(f, domains, target), target)
  {
    if domains != [] {
      var last := domains[|domains| - 1];
      MatchesTarget(f, domains[..|domains| - 1], target);
      MatchesInTarget(f, last.name, last.zones, target);
    }
  }

  /** A PATCH to the path of a located zone replaces that zone and, seen by full
      names, nothing else: this is why the edits below work on a map from full
      names to zones. */
  lemma PatchReplacesOneZone(f: Naming, domains: seq<Domain>, target: string, body: Zone, other: string)
    requires |Matches(f, domains, target)| == 1
    ensures var m := Matches(f, domains, target)[0];
            Lookup(f, PatchPath(domains, m.domain, m.zoneName, body), other)
            == if other == target then Some(body) else Lookup(f, domains, other)
  {
    var m := Matches(f, domains, target)[0];
    PatchedMatches(f, domains, other, m.domain, m.zoneName, body);
    MatchesTarget(f, domains, target);
    MatchesTarget(f, domains, other);
  }
}
