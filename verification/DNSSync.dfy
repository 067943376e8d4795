/** Making a node's DNS zone follow the panel, and the preview of it
    (internal/orchestrator/dns_sync.go). */
module DNSSync {
  import opened Wrappers
  import P = Process
  import opened Names
  import opened Zones
  import opened ZoneClient
  import opened Profiles
  import HM = HostMove

  /** A node on the panel; `profile` is None when it has no active profile. */
  datatype Node = Node(uuid: string, address: Option<Addr>, profile: Option<Profile>)

  /** The deployment of a node: its SNI and its stored address. */
  datatype Row = Row(sni: string, ip: Addr)

  datatype Failure = Unavailable | InvalidRequest | NodeNotFound | BadAddress | PersistenceFailed | DNSFailed | TargetUnknown
  datatype Action = AddedAddress | ReplacedAddress | AlreadyPresent
  datatype Outcome = Synced(zone: string, action: Action) | Failed(failure: Failure)
  datatype Preview = Preview(zone: Option<string>, currentPresent: bool, previousPresent: bool, canSync: bool)

  datatype Inference = Inferred(zone: string) | NotInferred | CallFailed
  datatype Shown = Shown(preview: Preview) | NotShown(failure: Failure)
  datatype Change = Changed(action: Action) | Refused(failure: Failure)

  predicate NonEmptyAdvanced(zone: Zone) {
    zone.Advanced? && zone.nodes != []
  }

  // ---- Which zone a node without a deployment belongs to ----

  /** A Host that speaks for the node: same profile, and its one inbound is active. */
  predicate Speaks(h: HM.Host, p: Profile) {
    && HM.Usable(h)
    && h.deploy.value.profile.uuid == TrimSpace(p.uuid)
    && |h.deploy.value.profile.inbounds| == 1
    && h.deploy.value.profile.inbounds[0] in Trimmed(p.inbounds)
    && NormalizeFQDN(h.deploy.value.sni) != ""
  }

  /** The zone names that Hosts give the node. */
  function Candidates(hosts: seq<HM.Host>, p: Profile): set<string> {
    set h | h in hosts && Speaks(h, p) :: NormalizeFQDN(h.deploy.value.sni)
  }

  lemma CandidatesSnoc(hosts: seq<HM.Host>, h: HM.Host, p: Profile)
    ensures Candidates(hosts + [h], p) == Candidates(hosts, p) + if Speaks(h, p) then {NormalizeFQDN(h.deploy.value.sni)} else {}
  {
    assert forall x :: x in hosts + [h] <==> x in hosts || x == h;
  }

  predicate Complete(n: Node) {
    n.profile.Some? && TrimSpace(n.profile.value.uuid) != "" && n.profile.value.inbounds != []
  }

  /** A name is inferred exactly when all the Hosts that speak for the node agree. */
  ghost predicate Infers(hosts: seq<HM.Host>, n: Node, name: string) {
    Complete(n) && Candidates(hosts, n.profile.value) == {name}
  }

  /** A name is inferred exactly when the node's profile is complete, some enabled Host
      with a complete profile deploys it through the one inbound that is active on the
      node, and every such Host whose SNI is a name has that name. */
  lemma InfersExactlyWhen(hosts: seq<HM.Host>, n: Node, name: string)
    ensures Infers(hosts, n, name) <==>
              && name != "" && n.profile.Some? && TrimSpace(n.profile.value.uuid) != "" && n.profile.value.inbounds != []
              && (exists h :: h in hosts && !h.disabled && h.deploy.Some? && TrimSpace(h.deploy.value.sni) != ""
                              && h.deploy.value.profile.uuid == TrimSpace(n.profile.value.uuid)
                              && |h.deploy.value.profile.inbounds| == 1
                              && h.deploy.value.profile.inbounds[0] in Trimmed(n.profile.value.inbounds)
                              && NormalizeFQDN(h.deploy.value.sni) == name)
              && (forall h :: h in hosts && !h.disabled && h.deploy.Some? && TrimSpace(h.deploy.value.sni) != ""
                              && h.deploy.value.profile.uuid == TrimSpace(n.profile.value.uuid)
                              && |h.deploy.value.profile.inbounds| == 1
                              && h.deploy.value.profile.inbounds[0] in Trimmed(n.profile.value.inbounds)
                              && NormalizeFQDN(h.deploy.value.sni) != "" ==>
                                NormalizeFQDN(h.deploy.value.sni) == name)
  {
    if Complete(n) {
      var names := Candidates(hosts, n.profile.value);
      forall x ensures x in names <==> exists h :: h in hosts && Speaks(h, n.profile.value) && NormalizeFQDN(h.deploy.value.sni) == x {
      }
      if Infers(hosts, n, name) {
        assert name in names;
        forall h | h in hosts && Speaks(h, n.profile.value) ensures NormalizeFQDN(h.deploy.value.sni) == name {
          assert NormalizeFQDN(h.deploy.value.sni) in names;
        }
      }
    }
  }

  // ---- What a synchronisation may do to the zone ----

  /** The zone can take the address without guessing an advanced entry's fields. */
  predicate TargetKnown(zone: Zone, address: Addr, previous: Option<Addr>) {
    || !NonEmptyAdvanced(zone)
    || Contains(zone, address)
    || (previous.Some? && Contains(zone, previous.value))
  }

  /** The panel's address is in, a different stored one is out. */
  predicate Follows(zone: Zone, address: Addr, previous: Option<Addr>) {
    Contains(zone, address) && (previous.Some? && previous.value != address ==> !Contains(zone, previous.value))
  }

  function Outdated(address: Addr, previous: Option<Addr>): set<Addr> {
    if previous.Some? && previous.value != address then {previous.value} else {}
  }

  lemma OnlyOne(s: set<string>, x: string)
    requires x in s && |s| == 1
    ensures s == {x}
  {
    assert |s - {x}| == 0;
    assert s == (s - {x}) + {x};
  }

  /** What a change of the zone `name` that goes through does. */
  ghost predicate Brought(before: Config, after: Config, name: string, address: Addr, previous: Option<Addr>) {
    && after.Keys == before.Keys && name in before
    && Follows(after[name], address, previous)
    && Exchanged(before[name], after[name], Outdated(address, previous), {address})
    && (forall other :: other in after && other != name ==> after[other] == before[other])
  }

  /** What a change of the zone does, with the action or failure that it reports. */
  ghost predicate ChangedAs(before: Config, after: Config, name: string, address: Addr, previous: Option<Addr>, change: Change) {
    && name in before
    && (change.Refused? ==> after == before && (change.failure == TargetUnknown || change.failure == DNSFailed))
    && (change.Changed? ==>
          && Brought(before, after, name, address, previous)
          && (change.action == AlreadyPresent <==> Follows(before[name], address, previous))
          && (change.action == ReplacedAddress <==> previous.Some? && previous.value != address && Contains(before[name], previous.value)))
    && (Follows(before[name], address, previous) ==> after == before)
  }

  function StoredIP(stored: map<string, Row>, uuid: string): Option<Addr> {
    if uuid in stored then Some(stored[uuid].ip) else None
  }

  /** The rows with the node's stored address at the panel's. */
  function Following(stored: map<string, Row>, uuid: string, address: Addr): map<string, Row> {
    if uuid in stored then stored[uuid := stored[uuid].(ip := address)] else stored
  }

  /** What one synchronisation leaves: on success zone and stored address follow the
      panel; on failure the stored address is as before, and so are the zones unless
      only the database was left behind. A zone that follows already is not changed. */
  ghost predicate SyncedAs(before: Config, after: Config, storedBefore: map<string, Row>, storedAfter: map<string, Row>,
                           uuid: string, address: Addr, r: Outcome, zone: Option<string>)
  {
    var previous := StoredIP(storedBefore, uuid);
    && (r.Synced? ==>
          && zone.Some? && Brought(before, after, zone.value, address, previous)
          && (r.action == AlreadyPresent <==> Follows(before[zone.value], address, previous))
          && (r.action == ReplacedAddress <==> previous.Some? && previous.value != address && Contains(before[zone.value], previous.value))
          && storedAfter == Following(storedBefore, uuid, address))
    && (r.Failed? ==> storedAfter == storedBefore)
    && (r.Failed? && r.failure != PersistenceFailed ==> after == before)
    && (r == Failed(PersistenceFailed) ==> zone.Some? && Brought(before, after, zone.value, address, previous))
    && (zone.Some? && zone.value in before && Follows(before[zone.value], address, previous) ==> after == before)
  }

  lemma RefusedIsSynced(zones: Config, stored: map<string, Row>, uuid: string, address: Addr, name: string, change: Change)
    requires ChangedAs(zones, zones, name, address, StoredIP(stored, uuid), change) && change.Refused?
    ensures SyncedAs(zones, zones, stored, stored, uuid, address, Failed(change.failure), Some(name))
  {
  }

  /** The zone is changed; the row follows, or its write fails. */
  lemma ChangedIsSynced(before: Config, after: Config, stored: map<string, Row>, uuid: string, address: Addr, name: string, change: Change)
    requires ChangedAs(before, after, name, address, StoredIP(stored, uuid), change) && change.Changed?
    ensures SyncedAs(before, after, stored, Following(stored, uuid, address), uuid, address, Synced(name, change.action), Some(name))
    ensures SyncedAs(before, after, stored, stored, uuid, address, Failed(PersistenceFailed), Some(name))
  {
  }

  /** A second run finds the zone following, whether the first one succeeded or left
      only the database behind. */
  lemma SecondRunChangesNoZone(first: Config, second: Config, third: Config, stored0: map<string, Row>, stored1: map<string, Row>, stored2: map<string, Row>,
                               uuid: string, address: Addr, r: Outcome, again: Outcome, zone: Option<string>)
    requires SyncedAs(first, second, stored0, stored1, uuid, address, r, zone) && (r.Synced? || r == Failed(PersistenceFailed))
    requires SyncedAs(second, third, stored1, stored2, uuid, address, again, zone)
    ensures third == second
    ensures again.Synced? ==> StoredIP(stored2, uuid) == if uuid in stored0 then Some(address) else None
    ensures r.Synced? ==> stored2 == stored1
  {
  }

  lemma ReplacingBrings(before: Config, name: string, address: Addr, previous: Addr)
    requires name in before && AllClean(before) && previous != address && Contains(before[name], previous)
    ensures Brought(before, before[name := Replaced(before[name], previous, address)], name, address, Some(previous))
  {
    ReplacedMeans(before[name], previous, address);
  }

  lemma AddingBrings(before: Config, name: string, address: Addr, previous: Option<Addr>)
    requires name in before && AllClean(before) && !Contains(before[name], address) && !NonEmptyAdvanced(before[name])
    requires previous.Some? && previous.value != address ==> !Contains(before[name], previous.value)
    ensures Brought(before, before[name := Added(before[name], address)], name, address, previous)
  {
    AddedMeans(before[name], address);
  }

  class Service {
    const process: P.Process
    const dns: Client
    const dnsDisabled: bool
    const isPublic: Addr -> bool
    const hosts: seq<HM.Host>
    const nodes: seq<Node>
    var stored: map<string, Row>

    /** The configured zone names are settled. */
    ghost predicate Valid()
      reads dns
    {
      && dns.Valid() && dns.process == process
      && (forall name :: name in dns.names ==> name != "" && NormalizeFQDN(name) == name)
      && (forall i, j :: 0 <= i < j < |nodes| ==> nodes[i].uuid != nodes[j].uuid)
    }

    constructor (process: P.Process, dns: Client, dnsDisabled: bool, isPublic: Addr -> bool, hosts: seq<HM.Host>, nodes: seq<Node>, stored: map<string, Row>)
      requires dns.Valid() && dns.process == process
      requires forall name :: name in dns.names ==> name != "" && NormalizeFQDN(name) == name
      requires forall i, j :: 0 <= i < j < |nodes| ==> nodes[i].uuid != nodes[j].uuid
      ensures Valid() && this.dns == dns && this.nodes == nodes && this.hosts == hosts && this.stored == stored
      ensures this.dnsDisabled == dnsDisabled && this.isPublic == isPublic
    {
      this.process, this.dns, this.dnsDisabled, this.isPublic := process, dns, dnsDisabled, isPublic;
      this.hosts, this.nodes, this.stored := hosts, nodes, stored;
    }

    /** The stored address of a node that has a deployment. */
    function Previous(uuid: string): Option<Addr>
      reads `stored
    {
      StoredIP(stored, uuid)
    }

    /** The zone that a synchronisation of n is about. */
    ghost predicate IsZoneOf(n: Node, name: string)
      reads `stored
    {
      if n.uuid in stored then name == NormalizeFQDN(stored[n.uuid].sni) else Infers(hosts, n, name)
    }

    /** There is such a zone and it can take the address. */
    ghost predicate Known(n: Node, address: Addr)
      reads `stored, dns`zones
    {
      exists name :: IsZoneOf(n, name) && name in dns.zones && TargetKnown(dns.zones[name], address, Previous(n.uuid))
    }

    method FindNode(uuid: string) returns (r: Option<Node>)
      ensures r.Some? ==> r.value in nodes && r.value.uuid == uuid
      ensures r.None? ==> forall n :: n in nodes ==> n.uuid != uuid
    {
      for i := 0 to |nodes|
        invariant forall j :: 0 <= j < i ==> nodes[j].uuid != uuid
      {
        if nodes[i].uuid == uuid {
          return Some(nodes[i]);
        }
      }
      return None;
    }

    /** The zones can be read and have one of that name. */
    ghost predicate Configured(name: string)
      reads dns`zones
    {
      name in dns.zones && AllClean(dns.zones)
    }

    /** The node's zone cannot be read. */
    ghost predicate Misconfigured(n: Node)
      reads `stored, dns`zones
    {
      exists name :: IsZoneOf(n, name) && !Configured(name)
    }

    /** FindZone: the configured zone with that full name. */
    method FindZone(fqdn: string) returns (r: Option<string>)
      requires Valid()
      modifies process
      ensures r.Some? ==> r.value == NormalizeFQDN(fqdn) && Configured(r.value)
      ensures r.None? ==> old(process.failures) < process.failures || !Configured(NormalizeFQDN(fqdn))
      ensures Valid() && old(process.failures) <= process.failures
    {
      var domains := dns.GetDomains();
      if domains.Err? || NormalizeFQDN(fqdn) !in domains.value {
        return None;
      }
      return Some(NormalizeFQDN(fqdn));
    }

    /** The candidates map: normalised name to the name as the last Host has it. */
    method CollectCandidates(p: Profile) returns (candidates: map<string, string>)
      ensures candidates.Keys == Candidates(hosts, p)
      ensures forall key :: key in candidates ==> NormalizeFQDN(candidates[key]) == key
    {
      candidates := map[];
      for i := 0 to |hosts|
        invariant candidates.Keys == Candidates(hosts[..i], p)
        invariant forall key :: key in candidates ==> NormalizeFQDN(candidates[key]) == key
      {
        var host := hosts[i];
        assert hosts[..i + 1] == hosts[..i] + [host];
        CandidatesSnoc(hosts[..i], host, p);
        if !HM.Usable(host) {
          continue;
        }
        var deploy := host.deploy.value;
        if deploy.profile.uuid != TrimSpace(p.uuid) || |deploy.profile.inbounds| != 1 {
          continue;
        }
        if deploy.profile.inbounds[0] !in Trimmed(p.inbounds) {
          continue;
        }
        var key := NormalizeFQDN(deploy.sni);
        if key != "" {
          candidates := candidates[key := deploy.sni];
        }
      }
      assert hosts[..|hosts|] == hosts;
    }

    method InferLegacyDNSZone(n: Node) returns (r: Inference)
      requires Valid()
      modifies process
      ensures Valid() && old(process.failures) <= process.failures
      ensures r.Inferred? ==> Infers(hosts, n, r.zone) && Configured(r.zone)
      ensures r.NotInferred? ==> forall name :: !Infers(hosts, n, name)
      ensures r.CallFailed? ==> old(process.failures) < process.failures || exists name :: Infers(hosts, n, name) && !Configured(name)
    {
      if !Complete(n) {
        return NotInferred;
      }
      var ok := process.Attempt();
      if !ok {
        return CallFailed;
      }
      var candidates := CollectCandidates(n.profile.value);
      if |candidates| != 1 {
        assert |candidates.Keys| == |candidates|;
        forall name ensures !Infers(hosts, n, name) {
          assert |{name}| == 1;
        }
        return NotInferred;
      }
      var key :| key in candidates;
      assert |candidates.Keys| == |candidates|;
      OnlyOne(candidates.Keys, key);
      var zone := FindZone(candidates[key]);
      if zone.None? {
        return CallFailed;
      }
      return Inferred(zone.value);
    }

    /** The zone of a node, read from the repository or inferred. */
    method LocateZoneOf(n: Node) returns (r: Inference)
      requires Valid()
      modifies process
      ensures Valid() && old(process.failures) <= process.failures
      ensures r.Inferred? ==> IsZoneOf(n, r.zone) && Configured(r.zone)
      ensures r.CallFailed? ==> old(process.failures) < process.failures || Misconfigured(n)
      ensures r.NotInferred? ==> n.uuid !in stored && forall name :: !IsZoneOf(n, name)
    {
      var ok := process.Attempt();
      if !ok {
        return CallFailed;
      }
      if n.uuid !in stored {
        r := InferLegacyDNSZone(n);
        return;
      }
      var zone := FindZone(stored[n.uuid].sni);
      return if zone.None? then CallFailed else Inferred(zone.value);
    }

    method ZoneContainsIP(zone: Zone, address: Addr) returns (found: bool)
      ensures found == Contains(zone, address)
    {
      var texts := Texts(zone);
      for i := 0 to |texts|
        invariant forall j :: 0 <= j < i ==> !Is(texts[j], address)
      {
        if Parses(texts[i]) && texts[i].addr == address {
          assert Is(texts[i], address);
          return true;
        }
      }
      return false;
    }

    lemma ZoneIsUnique(n: Node, a: string, b: string)
      requires IsZoneOf(n, a) && IsZoneOf(n, b)
      ensures a == b
    {
      if n.uuid !in stored {
        assert a in Candidates(hosts, n.profile.value);
      }
    }

    /** The zone of a node can take the address unless it is an advanced zone with
        entries, none of which is for that address or for the stored one. */
    lemma KnownMeans(n: Node, name: string, address: Addr)
      requires IsZoneOf(n, name) && name in dns.zones
      ensures Known(n, address) <==>
                || dns.zones[name].Simple? || dns.zones[name].nodes == [] || Contains(dns.zones[name], address)
                || (n.uuid in stored && Contains(dns.zones[name], stored[n.uuid].ip))
      ensures Known(n, address) <==> TargetKnown(dns.zones[name], address, Previous(n.uuid))
    {
      forall other | IsZoneOf(n, other) ensures other == name {
        ZoneIsUnique(n, other, name);
      }
    }

    /** The preview, for the node that the query has found. */
    method FindNodeForDNSSync(n: Node, address: Addr) returns (r: Shown)
      requires Valid() && n in nodes && n.address == Some(address)
      modifies process
      ensures Valid()
      ensures r.NotShown? ==>
                || (dnsDisabled && r.failure == Failure.Unavailable)
                || old(process.failures) < process.failures || !AllClean(dns.zones)
                || Misconfigured(n)
      ensures r.Shown? ==> r.preview.canSync == Known(n, address)
      ensures r.Shown? && r.preview.zone.Some? ==>
                && IsZoneOf(n, r.preview.zone.value) && r.preview.zone.value in dns.zones
                && r.preview.currentPresent == Contains(dns.zones[r.preview.zone.value], address)
                && (n.uuid in stored ==>
                      r.preview.previousPresent == Contains(dns.zones[r.preview.zone.value], stored[n.uuid].ip))
      ensures r.Shown? && r.preview.zone.None? ==> r.preview == Preview(None, false, false, false) && forall name :: !IsZoneOf(n, name)
      ensures r.Shown? && n.uuid !in stored ==> !r.preview.previousPresent
    {
      if dnsDisabled {
        return NotShown(Failure.Unavailable);
      }
      var current := dns.FindZonesByIP(address);
      if current.Err? {
        return NotShown(DNSFailed);
      }
      var located := LocateZoneOf(n);
      if located.CallFailed? {
        return NotShown(DNSFailed);
      }
      if located.NotInferred? {
        return Shown(Preview(None, false, false, false));
      }
      var zone := dns.zones[located.zone];
      var currentPresent := ZoneContainsIP(zone, address);
      var previousPresent := false;
      if n.uuid in stored {
        previousPresent := ZoneContainsIP(zone, stored[n.uuid].ip);
      }
      KnownMeans(n, located.zone, address);
      return Shown(Preview(Some(located.zone), currentPresent, previousPresent,
                           !(NonEmptyAdvanced(zone) && !currentPresent && !previousPresent)));
    }

    /** The DNS part: the old address is replaced, or the new one added. */
    method ChangeZone(name: string, address: Addr, previous: Option<Addr>) returns (r: Change)
      requires Valid() && name in dns.zones && AllClean(dns.zones)
      modifies dns, process
      ensures Valid() && old(process.failures) <= process.failures
      ensures r.Refused? && r.failure == DNSFailed ==> old(process.failures) < process.failures
      ensures r == Refused(TargetUnknown) <==> !TargetKnown(old(dns.zones)[name], address, previous)
      ensures ChangedAs(old(dns.zones), dns.zones, name, address, previous, r)
    {
      var zone := dns.zones[name];
      var currentPresent := ZoneContainsIP(zone, address);
      var previousPresent := false;
      if previous.Some? && previous.value != address {
        previousPresent := ZoneContainsIP(zone, previous.value);
      }
      if previousPresent {
        ReplacingBrings(dns.zones, name, address, previous.value);
        r := ReplacePrevious(name, address, previous.value);
        return;
      }
      if currentPresent {
        return Changed(AlreadyPresent);
      }
      if NonEmptyAdvanced(zone) {
        return Refused(TargetUnknown);
      }
      AddingBrings(dns.zones, name, address, previous);
      r := AddCurrent(name, address);
    }

    method ReplacePrevious(name: string, address: Addr, previous: Addr) returns (r: Change)
      requires Valid() && name in dns.zones && AllClean(dns.zones)
      requires previous != address && Contains(dns.zones[name], previous)
      modifies dns, process
      ensures Valid() && old(process.failures) <= process.failures
      ensures || (r == Refused(DNSFailed) && dns.zones == old(dns.zones) && old(process.failures) < process.failures)
              || (r == Changed(ReplacedAddress) && dns.zones == old(dns.zones)[name := Replaced(old(dns.zones)[name], previous, address)])
    {
      assert name in dns.names;
      TargetOfNothing(name);
      var replaced := dns.ReplaceIP(name, previous, address);
      if replaced.Err? {
        assert !replaced.error.InvalidInput? && !replaced.error.NotFound? && !replaced.error.InvalidResponse?;
        return Refused(DNSFailed);
      }
      return Changed(if replaced.value then ReplacedAddress else AlreadyPresent);
    }

    method AddCurrent(name: string, address: Addr) returns (r: Change)
      requires Valid() && name in dns.zones && AllClean(dns.zones)
      requires !Contains(dns.zones[name], address)
      modifies dns, process
      ensures Valid() && old(process.failures) <= process.failures
      ensures || (r == Refused(DNSFailed) && dns.zones == old(dns.zones) && old(process.failures) < process.failures)
              || (r == Changed(AddedAddress) && dns.zones == old(dns.zones)[name := Added(old(dns.zones)[name], address)])
    {
      assert name in dns.names;
      TargetOfNothing(name);
      var added := dns.AddIP(name, address);
      if added.Err? {
        assert !added.error.InvalidInput? && !added.error.NotFound? && !added.error.InvalidResponse?;
        return Refused(DNSFailed);
      }
      return Changed(if added.value then AddedAddress else AlreadyPresent);
    }

    /** Why a synchronisation is declined although every call went through. */
    ghost predicate Declines(f: Failure, uuid: string, expected: Addr)
      reads `stored, dns`zones
    {
      match f
      case Unavailable => dnsDisabled
      case InvalidRequest => !isPublic(expected)
      case NodeNotFound => forall n :: n in nodes ==> n.uuid != uuid
      case BadAddress => exists n :: n in nodes && n.uuid == uuid && n.address != Some(expected)
      case TargetUnknown => exists n :: n in nodes && n.uuid == uuid && !Known(n, expected)
      case DNSFailed => exists n :: n in nodes && n.uuid == uuid && Misconfigured(n)
      case PersistenceFailed => false
    }

    /** One synchronisation. `reached` says that the node was found at the expected
        address and that everything that had to be read could be read; then `zone` is
        the node's zone, if it has one. */
    method SyncNodeDNS(uuid: string, expected: Addr) returns (r: Outcome, ghost n: Option<Node>, ghost reached: bool, ghost zone: Option<string>)
      requires Valid()
      modifies this`stored, dns, process
      ensures Valid() && old(process.failures) <= process.failures
      ensures r.Failed? ==> old(process.failures) < process.failures || old(Declines(r.failure, uuid, expected))
      ensures reached ==> n.Some? && n.value in nodes && n.value.uuid == uuid && n.value.address == Some(expected)
      ensures !reached ==> r.Failed? && r.failure != TargetUnknown && dns.zones == old(dns.zones) && stored == old(stored)
      ensures reached ==> (r == Failed(TargetUnknown) <==> !old(Known(n.value, expected)))
      ensures reached && zone.Some? ==> old(IsZoneOf(n.value, zone.value))
      ensures r.Synced? ==> reached && zone == Some(r.zone)
      ensures SyncedAs(old(dns.zones), dns.zones, old(stored), stored, uuid, expected, r, zone)
    {
      n, reached, zone := None, false, None;
      var selected := Select(uuid, expected);
      if selected.Err? {
        return Failed(selected.error), n, reached, zone;
      }
      n := Some(selected.value);
      r, reached, zone := SyncNode(selected.value, expected);
    }

    lemma DeclineReasons(n: Node, address: Addr)
      requires n in nodes
      ensures !Known(n, address) ==> Declines(TargetUnknown, n.uuid, address)
      ensures Misconfigured(n) ==> Declines(DNSFailed, n.uuid, address)
    {
    }

    /** The node, at the address that is expected. */
    method Select(uuid: string, expected: Addr) returns (r: Result<Node, Failure>)
      requires Valid()
      modifies process
      ensures Valid() && old(process.failures) <= process.failures
      ensures r.Ok? ==> r.value in nodes && r.value.uuid == uuid && r.value.address == Some(expected)
      ensures r.Err? ==>
                && r.error != TargetUnknown && r.error != PersistenceFailed
                && (old(process.failures) < process.failures || Declines(r.error, uuid, expected))
    {
      if dnsDisabled {
        return Err(Failure.Unavailable);
      }
      if !isPublic(expected) {
        return Err(InvalidRequest);
      }
      var listed := process.Attempt();
      if !listed {
        return Err(Failure.Unavailable);
      }
      var node := FindNode(uuid);
      if node.None? {
        return Err(NodeNotFound);
      }
      if node.value.address != Some(expected) {
        return Err(BadAddress);
      }
      return Ok(node.value);
    }

    method SyncNode(n: Node, address: Addr) returns (r: Outcome, ghost reached: bool, ghost zone: Option<string>)
      requires Valid() && n in nodes
      modifies this`stored, dns, process
      ensures Valid() && old(process.failures) <= process.failures
      ensures r.Failed? ==> old(process.failures) < process.failures || old(Declines(r.failure, n.uuid, address))
      ensures !reached ==> r == Failed(DNSFailed) && dns.zones == old(dns.zones) && stored == old(stored)
      ensures reached ==> (r == Failed(TargetUnknown) <==> !old(Known(n, address)))
      ensures reached && zone.Some? ==> old(IsZoneOf(n, zone.value))
      ensures r.Synced? ==> reached && zone == Some(r.zone)
      ensures SyncedAs(old(dns.zones), dns.zones, old(stored), stored, n.uuid, address, r, zone)
    {
      ghost var known := Known(n, address);
      DeclineReasons(n, address);
      ghost var stuck := Declines(DNSFailed, n.uuid, address);
      var located := LocateZoneOf(n);
      assert known == Known(n, address);
      if located.CallFailed? {
        return Failed(DNSFailed), false, None;
      }
      if located.NotInferred? {
        return Failed(TargetUnknown), true, None;
      }
      KnownMeans(n, located.zone, address);
      r := Apply(n.uuid, located.zone, address);
      return r, true, Some(located.zone);
    }

    /** DNS first, then the stored address; DNS is not rolled back. */
    method Apply(uuid: string, name: string, address: Addr) returns (r: Outcome)
      requires Valid() && name in dns.zones && AllClean(dns.zones)
      modifies this`stored, dns, process
      ensures Valid() && dns.zones.Keys == old(dns.zones).Keys && old(process.failures) <= process.failures
      ensures r.Failed? ==> r.failure == TargetUnknown || old(process.failures) < process.failures
      ensures r == Failed(TargetUnknown) <==> !TargetKnown(old(dns.zones)[name], address, old(Previous(uuid)))
      ensures r.Synced? ==> r.zone == name
      ensures SyncedAs(old(dns.zones), dns.zones, old(stored), stored, uuid, address, r, Some(name))
    {
      ghost var before, rows := dns.zones, stored;
      var changed := ChangeZone(name, address, Previous(uuid));
      if changed.Refused? {
        RefusedIsSynced(before, rows, uuid, address, name, changed);
        return Failed(changed.failure);
      }
      var ok := StoreAddress(uuid, address);
      ChangedIsSynced(before, dns.zones, rows, uuid, address, name, changed);
      r := if ok then Synced(name, changed.action) else Failed(PersistenceFailed);
    }

    /** The stored address is written only when it is another one. */
    method StoreAddress(uuid: string, address: Addr) returns (ok: bool)
      modifies this`stored, process
      ensures stored == if ok then Following(old(stored), uuid, address) else old(stored)
      ensures process.failures == old(process.failures) + if ok then 0 else 1
    {
      ok := true;
      if uuid in stored && stored[uuid].ip != address {
        ok := process.Attempt();
        if ok {
          stored := stored[uuid := stored[uuid].(ip := address)];
        }
      }
    }
  }
}
