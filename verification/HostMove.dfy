/** Moving a node to another Host: its server's SNI, its panel profile, its DNS zone
    and its stored binding (internal/orchestrator/node_host_move.go). */
module HostMove {
  import opened Wrappers
  import P = Process
  import opened Names
  import opened Zones
  import opened ZoneClient
  import opened Profiles

  /** What a Host deploys. */
  datatype Deploy = Deploy(profile: Profile, sni: string)

  /** `deploy` is None when the Host has no complete profile. */
  datatype Host = Host(uuid: string, remark: string, disabled: bool, deploy: Option<Deploy>)

  datatype Binding = Binding(host: string, remark: string, sni: string)

  datatype Failure =
    | InvalidRequest | NodeUnavailable | StateChanged | HostUnavailable | HostUnchanged
    | MoveFailed | Persistence | CertificateUnavailable | SwitchFailed | DNSUpdateFailed
  datatype Outcome = Done(from: Host, to: Host) | Failed(failure: Failure)

  /** What a rollback puts back. */
  datatype Part = PanelProfile | DNSZones | ServerSNI

  /** Enabled and with a complete profile, whose SNI is not blank. */
  predicate Usable(h: Host) {
    !h.disabled && h.deploy.Some? && TrimSpace(h.deploy.value.sni) != ""
  }

  /** The enabled Hosts that deploy a profile. */
  function Matching(profile: Profile, hosts: seq<Host>): seq<Host> {
    if hosts == [] then []
    else
      var last := hosts[|hosts| - 1];
      Matching(profile, hosts[..|hosts| - 1]) + (if Usable(last) && Same(profile, last.deploy.value.profile) then [last] else [])
  }

  lemma {:induction false} MatchingMeans(profile: Profile, hosts: seq<Host>)
    ensures forall h :: h in Matching(profile, hosts) <==> h in hosts && Usable(h) && Same(profile, h.deploy.value.profile)
  {
    if hosts != [] {
      MatchingMeans(profile, hosts[..|hosts| - 1]);
      assert hosts == hosts[..|hosts| - 1] + [hosts[|hosts| - 1]];
    }
  }

  method MatchingNodeHosts(profile: Profile, hosts: seq<Host>) returns (result: seq<Host>)
    ensures result == Matching(profile, hosts)
  {
    result := [];
    for i := 0 to |hosts|
      invariant result == Matching(profile, hosts[..i])
    {
      assert hosts[..i + 1][..i] == hosts[..i];
      if !Usable(hosts[i]) {
        continue;
      }
      var same := SameNodeProfile(profile, hosts[i].deploy.value.profile);
      if same {
        result := result + [hosts[i]];
      }
    }
    assert hosts[..|hosts|] == hosts;
  }

  /** The address has left the source and is in the target, or it was that way. */
  ghost predicate ZonesMoved(before: Config, now: Config, source: string, target: string, ip: Addr) {
    || Moved(before, now, source, target, ip)
    || (now == before && source in before && target in before
        && !Contains(before[source], ip) && Contains(before[target], ip))
  }

  /** Moving an address there and back gives every zone its addresses again exactly
      when the target did not hold it before. */
  lemma MovedBackRestoresIff(before: Config, mid: Config, calls: seq<Patch>, now: Config, source: string, target: string, ip: Addr)
    requires source != target && Moved(before, mid, source, target, ip)
    requires MoveRun(mid, calls, now, Result.Ok(true), target, source, ip)
    ensures SameZones(before, now) <==> !Contains(before[target], ip)
  {
    MoveSucceeds(mid, calls, now, target, source, ip);
    assert !Contains(now[target], ip) && Contains(now[source], ip);
    if !Contains(before[target], ip) {
      forall name | name in now ensures SameAddresses(now[name], before[name]) {
        if name == source {
          assert forall a :: a != ip ==> (Contains(now[source], a) <==> Contains(before[source], a));
        } else if name == target {
          assert forall a :: a != ip ==> (Contains(now[target], a) <==> Contains(before[target], a));
        } else {
          assert now[name] == mid[name] == before[name];
        }
      }
    }
  }

  /** What a move without an error has done: all of it, or nothing was to be done. */
  ghost predicate MovedOrIdle(before: Config, now: Config, changed: bool, source: string, target: string, ip: Addr) {
    && AllClean(now)
    && (!changed ==> now == before)
    && (source != target ==>
          && ZonesMoved(before, now, source, target, ip)
          && (changed ==> Moved(before, now, source, target, ip)))
  }

  lemma MoveGoes(before: Config, calls: seq<Patch>, now: Config, changed: bool, source: string, target: string, ip: Addr)
    requires MoveRun(before, calls, now, Result.Ok(changed), source, target, ip)
    ensures MovedOrIdle(before, now, changed, source, target, ip)
  {
    if changed {
      SuccessIsClean(before, calls, now, source, target, ip);
      if source != target {
        MoveSucceeds(before, calls, now, source, target, ip);
      }
    }
  }

  /** Moving back what was moved is not refused. */
  lemma MovesBack(before: Config, mid: Config, e: Error, source: string, target: string, ip: Addr)
    requires source != target && Moved(before, mid, source, target, ip) && AllClean(mid)
    ensures !MoveRefused(mid, e, target, source, ip) && !Idle(mid, target, source, ip)
  {
  }

  /** Host i is the first with that UUID. */
  ghost predicate FirstWith(hosts: seq<Host>, i: nat, uuid: string)
    requires i < |hosts|
  {
    hosts[i].uuid == uuid && forall j :: 0 <= j < i ==> hosts[j].uuid != uuid
  }

  /** The Host that the request names, when it can be moved to. */
  ghost predicate Named(hosts: seq<Host>, uuid: string, h: Host) {
    Usable(h) && exists i :: 0 <= i < |hosts| && FirstWith(hosts, i, uuid) && hosts[i] == h
  }

  class Service {
    const process: P.Process
    const dns: Client
    const dnsDisabled: bool
    const isPublic: Addr -> bool
    const hosts: seq<Host>
    /** The node on the panel: whether it is listed, its address and its profile. */
    const listed: bool
    var address: Option<Addr>
    var profile: Profile
    /** The SNI that the node's server is set up for. */
    var serverSNI: string
    /** The binding of the node's deployment, if it has one. */
    var binding: Option<Binding>
    /** The Hosts whose profile the panel was asked to give the node, and accepted. */
    ghost var requests: seq<Host>

    ghost predicate Valid()
      reads dns
    {
      dns.Valid() && dns.process == process
    }

    constructor (process: P.Process, dns: Client, dnsDisabled: bool, isPublic: Addr -> bool, hosts: seq<Host>,
                 listed: bool, address: Option<Addr>, profile: Profile, serverSNI: string, binding: Option<Binding>)
      requires dns.Valid() && dns.process == process
      ensures Valid() && this.dns == dns && this.dnsDisabled == dnsDisabled && this.isPublic == isPublic && this.hosts == hosts
      ensures this.listed == listed && this.address == address && this.profile == profile
      ensures this.serverSNI == serverSNI && this.binding == binding && requests == []
    {
      this.process, this.dns, this.dnsDisabled, this.isPublic := process, dns, dnsDisabled, isPublic;
      this.hosts, this.listed, this.address := hosts, listed, address;
      this.profile, this.serverSNI, this.binding, this.requests := profile, serverSNI, binding, [];
    }

    /** Checks the SNI that is in place, then puts the other one in place. */
    method SwitchNodeSNI(previous: string, target: string) returns (ok: bool)
      modifies this`serverSNI, process
      ensures ok ==> old(serverSNI) == previous && serverSNI == target
      ensures !ok ==> serverSNI == old(serverSNI)
      ensures old(process.failures) <= process.failures
      ensures !ok && old(serverSNI) == previous && TrimSpace(target) != "" ==> old(process.failures) < process.failures
      ensures ok ==> process.failures == old(process.failures)
    {
      ok := process.Attempt();
      ok := ok && serverSNI == previous && TrimSpace(target) != "";
      if ok {
        serverSNI := target;
      }
    }

    /** The panel answers with the profile that it made of the request. */
    method UpdateNodeProfile(host: Host) returns (r: Option<Profile>)
      requires Usable(host)
      modifies this`profile, this`requests, process
      ensures r.Some? ==> r.value == profile && requests == old(requests) + [host]
      ensures r.None? ==> profile == old(profile) && requests == old(requests)
      ensures process.failures == old(process.failures) + if r.None? then 1 else 0
    {
      var ok := process.Attempt();
      if !ok {
        return None;
      }
      var made: Profile := *;
      profile, requests := made, requests + [host];
      return Some(profile);
    }

    /** A Host that cannot be stored as a binding. */
    predicate Blank(host: Host)
      requires Usable(host)
    {
      TrimSpace(host.remark) == ""
    }

    method SetNodeHostBinding(host: Host) returns (ok: bool)
      requires Usable(host)
      modifies this`binding, process
      ensures binding == if ok then Some(Binding(host.uuid, TrimSpace(host.remark), TrimSpace(host.deploy.value.sni))) else old(binding)
      ensures old(process.failures) <= process.failures
      ensures !ok && TrimSpace(host.remark) != "" ==> old(process.failures) < process.failures
      ensures ok ==> TrimSpace(host.remark) != "" && process.failures == old(process.failures)
    {
      ok := process.Attempt();
      ok := ok && !Blank(host);
      if ok {
        binding := Some(Binding(host.uuid, TrimSpace(host.remark), TrimSpace(host.deploy.value.sni)));
      }
    }

    method FindHost(uuid: string) returns (r: Option<Host>)
      ensures r.Some? ==> exists i :: 0 <= i < |hosts| && FirstWith(hosts, i, uuid) && hosts[i] == r.value
      ensures r.None? ==> forall h :: h in hosts ==> h.uuid != uuid
    {
      for i := 0 to |hosts|
        invariant forall j :: 0 <= j < i ==> hosts[j].uuid != uuid
      {
        if hosts[i].uuid == uuid {
          assert FirstWith(hosts, i, uuid);
          return Some(hosts[i]);
        }
      }
      return None;
    }

    /** Why a move is declined although every call went through. */
    ghost predicate Declines(f: Failure, target: string, expected: Profile)
      reads this`profile, this`address
    {
      match f
      case NodeUnavailable => !listed
      case StateChanged => !Same(profile, expected)
      case HostUnavailable => forall h :: !Named(hosts, target, h)
      case HostUnchanged => exists h :: Named(hosts, target, h) && Same(profile, h.deploy.value.profile)
      case MoveFailed =>
        || |Matching(profile, hosts)| != 1
        || address.None? || !isPublic(address.value)
        || exists h :: Named(hosts, target, h) && SameSNI(Matching(profile, hosts)[0], h)
      case _ => false
    }

    /** strings.EqualFold of the two SNIs. */
    predicate SameSNI(a: Host, b: Host) {
      a.deploy.Some? && b.deploy.Some? && ToLower(a.deploy.value.sni) == ToLower(b.deploy.value.sni)
    }

    lemma NotNamed(target: string, found: Option<Host>)
      requires found.Some? ==> !Usable(found.value) && exists i :: 0 <= i < |hosts| && FirstWith(hosts, i, target) && hosts[i] == found.value
      requires found.None? ==> forall h :: h in hosts ==> h.uuid != target
      ensures forall h :: !Named(hosts, target, h)
    {
    }

    /** Everything that is checked before anything is changed. */
    method Choose(target: string, expected: Profile) returns (r: Outcome)
      modifies process
      ensures old(process.failures) <= process.failures
      ensures r.Failed? ==> old(process.failures) < process.failures || Declines(r.failure, target, expected)
      ensures r.Done? ==>
                && Named(hosts, target, r.to) && r.to in hosts && r.to.uuid == target && Usable(r.to) && Usable(r.from) && r.from in hosts
                && Same(profile, expected) && Same(profile, r.from.deploy.value.profile)
                && !Same(profile, r.to.deploy.value.profile)
                && Matching(profile, hosts) == [r.from] && ToLower(r.from.deploy.value.sni) != ToLower(r.to.deploy.value.sni)
                && address.Some? && isPublic(address.value)
      ensures r.Done? ==> process.failures == old(process.failures)
    {
      var ok := process.Attempt();
      if !ok || !listed {
        return Failed(NodeUnavailable);
      }
      FingerprintIsSame(profile);
      FingerprintIsSame(expected);
      var same := SameNodeProfile(Fingerprint(profile), Fingerprint(expected));
      if !same {
        return Failed(StateChanged);
      }
      ok := process.Attempt();
      if !ok {
        return Failed(MoveFailed);
      }
      r := ChooseHosts(target, expected);
    }

    /** The Host to move to and the one that is left. */
    method ChooseHosts(target: string, ghost expected: Profile) returns (r: Outcome)
      requires Same(profile, expected)
      ensures r.Failed? ==> Declines(r.failure, target, expected)
      ensures r.Done? ==>
                && Named(hosts, target, r.to) && r.to in hosts && r.to.uuid == target && Usable(r.to) && Usable(r.from) && r.from in hosts
                && Same(profile, r.from.deploy.value.profile) && !Same(profile, r.to.deploy.value.profile)
                && Matching(profile, hosts) == [r.from] && ToLower(r.from.deploy.value.sni) != ToLower(r.to.deploy.value.sni)
                && address.Some? && isPublic(address.value)
    {
      var selected := FindHost(target);
      if selected.None? || !Usable(selected.value) {
        NotNamed(target, selected);
        return Failed(HostUnavailable);
      }
      var host := selected.value;
      assert Named(hosts, target, host);
      FingerprintIsSame(profile);
      var same := SameNodeProfile(Fingerprint(profile), host.deploy.value.profile);
      if same {
        return Failed(HostUnchanged);
      }
      var previous := FindPrevious();
      if previous.None? || SameSNI(previous.value, host) || address.None? || !isPublic(address.value) {
        return Failed(MoveFailed);
      }
      return Done(previous.value, host);
    }

    /** The only Host that deploys the node's profile. */
    method FindPrevious() returns (r: Option<Host>)
      ensures r.Some? <==> |Matching(profile, hosts)| == 1
      ensures r.Some? ==> Matching(profile, hosts) == [r.value] && r.value in hosts && Usable(r.value) && Same(profile, r.value.deploy.value.profile)
    {
      var previous := MatchingNodeHosts(profile, hosts);
      if |previous| != 1 {
        return None;
      }
      MatchingMeans(profile, hosts);
      assert previous[0] in previous;
      return Some(previous[0]);
    }

    /** The zone names of a move. */
    function From(previous: Host): string
      requires Usable(previous)
    {
      Target(previous.deploy.value.sni)
    }

    /** What the zones are after a move that was done and moved back. */
    ghost predicate BackAgain(before: Config, source: string, target: string, ip: Addr)
      reads dns`zones
    {
      target in before && (SameZones(before, dns.zones) <==> !Contains(before[target], ip))
    }

    /** Why a move that was begun is given up although no call failed: the panel made
        another profile of the request, the zones do not allow the move, or the Host
        cannot be stored. */
    ghost predicate GivesUp(f: Failure, previous: Host, selected: Host, ip: Addr, zones: Config, asked: nat)
      requires Usable(previous) && Usable(selected)
      reads this`requests
    {
      match f
      case MoveFailed => asked < |requests|
      case DNSUpdateFailed =>
        || BadKeys(previous.deploy.value.sni, selected.deploy.value.sni)
        || exists e :: MoveRefused(zones, e, From(previous), From(selected), ip)
      case Persistence => Blank(selected)
      case _ => false
    }

    /** All or nothing. On success the server, the profile, the zones and the binding
        are the target's. On failure the binding is as before, and so is every part that
        is not in `left`: the zones unless the address had been moved out of one of two
        zones that both held it, the profile as far as the panel does what it is asked.
        Each part in `left` has a failed call of its own, beside what stopped the
        move. */
    method MoveNodeToHost(target: string, expected: Profile)
      returns (r: Outcome, ghost previous: Option<Host>, ghost selected: Option<Host>, ghost moved: bool, ghost left: set<Part>)
      requires Valid()
      modifies this`profile, this`requests, this`serverSNI, this`binding, dns, process
      ensures Valid() && old(process.failures) <= process.failures
      ensures r.Done? ==>
                && previous == Some(r.from) && selected == Some(r.to)
                && r.from in hosts && r.to in hosts && r.to.uuid == target && Usable(r.from) && Usable(r.to)
                && old(serverSNI) == r.from.deploy.value.sni && serverSNI == r.to.deploy.value.sni
                && Same(old(profile), expected) && Matching(old(profile), hosts) == [r.from]
                && Same(old(profile), r.from.deploy.value.profile) && Same(profile, r.to.deploy.value.profile)
                && !Same(old(profile), r.to.deploy.value.profile)
                && address.Some? && isPublic(address.value)
                && (dnsDisabled ==> dns.zones == old(dns.zones))
                && (!dnsDisabled && From(r.from) != From(r.to) ==>
                      ZonesMoved(old(dns.zones), dns.zones, From(r.from), From(r.to), address.value))
                && binding == if old(binding).Some?
                              then Some(Binding(r.to.uuid, TrimSpace(r.to.remark), TrimSpace(r.to.deploy.value.sni)))
                              else None
      ensures r.Failed? ==> binding == old(binding)
      ensures r.Failed? && previous.None? ==>
                && serverSNI == old(serverSNI) && profile == old(profile) && dns.zones == old(dns.zones) && requests == old(requests)
                && (old(process.failures) < process.failures || old(Declines(r.failure, target, expected))
                    || (r.failure == SwitchFailed && exists h :: Usable(h) && old(serverSNI) != h.deploy.value.sni))
      ensures r.Failed? && previous.Some? ==>
                && selected.Some? && Usable(previous.value) && Usable(selected.value) && address.Some?
                && old(serverSNI) == previous.value.deploy.value.sni && Same(old(profile), previous.value.deploy.value.profile)
                && PutBack(previous.value, selected.value, address.value, old(requests), old(dns.zones), moved, left)
                && Accounted(r.failure, previous.value, selected.value, address.value, old(dns.zones), |old(requests)|,
                             old(process.failures), left)
      ensures r.Done? ==> process.failures == old(process.failures)
    {
      previous, selected, moved, left := None, None, false, {};
      r := Choose(target, expected);
      if r.Failed? {
        return;
      }
      var looked := process.Attempt();
      if !looked {
        r := Failed(Persistence);
        return;
      }
      var previousCertificate := process.Attempt();
      var targetCertificate := process.Attempt();
      if !previousCertificate || !targetCertificate {
        r := Failed(CertificateUnavailable);
        return;
      }
      var switched := SwitchNodeSNI(r.from.deploy.value.sni, r.to.deploy.value.sni);
      if !switched {
        assert Usable(r.from);
        r := Failed(SwitchFailed);
        return;
      }
      previous, selected := Some(r.from), Some(r.to);
      r, moved, left := MoveProfile(r.from, r.to, address.value);
    }

    /** Every part but those in `left` is as before: the panel was asked last to give
        the node its former profile. */
    ghost predicate PutBack(previous: Host, selected: Host, ip: Addr, asked: seq<Host>, zones: Config, moved: bool, left: set<Part>)
      requires Usable(previous) && Usable(selected)
      reads this`requests, this`serverSNI, dns`zones
    {
      && (PanelProfile !in left ==> asked < requests && requests[|requests| - 1] == previous)
      && (ServerSNI !in left ==> serverSNI == previous.deploy.value.sni)
      && (DNSZones !in left ==>
            if !moved then SameZones(zones, dns.zones)
            else From(previous) != From(selected) ==> BackAgain(zones, From(previous), From(selected), ip))
    }

    /** Each part that is left had a failed call, and the move was stopped by another one
        or for a reason. */
    ghost predicate Accounted(f: Failure, previous: Host, selected: Host, ip: Addr, zones: Config, asked: nat, failures: nat, left: set<Part>)
      requires Usable(previous) && Usable(selected)
      reads this`requests, process
    {
      failures + |left| + (if GivesUp(f, previous, selected, ip, zones, asked) then 0 else 1) <= process.failures
    }

    /** After the server has been switched: profile, zones, binding. */
    method MoveProfile(previous: Host, selected: Host, ip: Addr) returns (r: Outcome, ghost moved: bool, ghost left: set<Part>)
      requires Valid() && Usable(previous) && Usable(selected) && serverSNI == selected.deploy.value.sni
      modifies this`profile, this`requests, this`serverSNI, this`binding, dns, process
      ensures Valid() && old(process.failures) <= process.failures
      ensures r.Done? ==>
                && r == Done(previous, selected) && serverSNI == selected.deploy.value.sni
                && Same(profile, selected.deploy.value.profile)
                && (dnsDisabled ==> dns.zones == old(dns.zones))
                && (!dnsDisabled && From(previous) != From(selected) ==>
                      ZonesMoved(old(dns.zones), dns.zones, From(previous), From(selected), ip))
                && binding == if old(binding).Some?
                              then Some(Binding(selected.uuid, TrimSpace(selected.remark), TrimSpace(selected.deploy.value.sni)))
                              else None
      ensures r.Failed? ==>
                && binding == old(binding)
                && PutBack(previous, selected, ip, old(requests), old(dns.zones), moved, left)
                && Accounted(r.failure, previous, selected, ip, old(dns.zones), |old(requests)|, old(process.failures), left)
      ensures r.Done? ==> process.failures == old(process.failures)
    {
      moved, left := false, {};
      ghost var asked := |requests|;
      var updated := UpdateNodeProfile(selected);
      var taken := updated.Some?;
      if taken {
        taken := SameNodeProfile(Fingerprint(updated.value), selected.deploy.value.profile);
        FingerprintIsSame(updated.value);
      }
      if !taken {
        left := RollBack(previous, selected, ip, false, dns.zones);
        assert updated.Some? ==> GivesUp(MoveFailed, previous, selected, ip, old(dns.zones), asked);
        return Failed(MoveFailed), moved, left;
      }
      r, moved, left := MoveZones(previous, selected, ip);
    }

    /** After the panel has taken the profile: zones, binding. */
    method MoveZones(previous: Host, selected: Host, ip: Addr) returns (r: Outcome, ghost moved: bool, ghost left: set<Part>)
      requires Valid() && Usable(previous) && Usable(selected) && serverSNI == selected.deploy.value.sni
      requires Same(profile, selected.deploy.value.profile)
      modifies this`profile, this`requests, this`serverSNI, this`binding, dns, process
      ensures Valid() && old(process.failures) <= process.failures
      ensures r.Done? ==>
                && r == Done(previous, selected) && serverSNI == selected.deploy.value.sni && profile == old(profile)
                && (dnsDisabled ==> dns.zones == old(dns.zones))
                && (!dnsDisabled && From(previous) != From(selected) ==>
                      ZonesMoved(old(dns.zones), dns.zones, From(previous), From(selected), ip))
                && binding == if old(binding).Some?
                              then Some(Binding(selected.uuid, TrimSpace(selected.remark), TrimSpace(selected.deploy.value.sni)))
                              else None
      ensures r.Failed? ==>
                && r.failure != MoveFailed && binding == old(binding)
                && PutBack(previous, selected, ip, old(requests), old(dns.zones), moved, left)
                && Accounted(r.failure, previous, selected, ip, old(dns.zones), |old(requests)|, old(process.failures), left)
      ensures r.Done? ==> process.failures == old(process.failures)
      ensures r.Done? && old(binding).Some? ==> TrimSpace(selected.remark) != ""
    {
      moved, left := false, {};
      ghost var before := dns.zones;
      var changed: Answer<bool> := Result.Ok(false);
      ghost var stuck := false;
      if !dnsDisabled {
        changed, stuck := MoveAddress(previous, selected, ip);
      }
      if changed.Err? {
        left := RollBack(previous, selected, ip, false, before);
        if stuck {
          left := left + {DNSZones};
        }
        return Failed(DNSUpdateFailed), moved, left;
      }
      var bound := true;
      if binding.Some? {
        bound := SetNodeHostBinding(selected);
      }
      if !bound {
        moved := changed.value;
        left := RollBack(previous, selected, ip, changed.value, before);
        return Failed(Persistence), moved, left;
      }
      return Done(previous, selected), moved, left;
    }

    /** The zones of the move. `stuck` says that the compensating PATCH failed. */
    method MoveAddress(previous: Host, selected: Host, ip: Addr) returns (r: Answer<bool>, ghost stuck: bool)
      requires Valid() && Usable(previous) && Usable(selected)
      modifies dns, process
      ensures Valid() && old(process.failures) <= process.failures
      ensures r.Ok? ==>
                && !BadKeys(previous.deploy.value.sni, selected.deploy.value.sni)
                && MovedOrIdle(old(dns.zones), dns.zones, r.value, From(previous), From(selected), ip)
      ensures r.Err? && !stuck ==> SameZones(old(dns.zones), dns.zones)
      ensures r.Err? && stuck ==> old(process.failures) + 2 <= process.failures
      ensures r.Err? && old(process.failures) == process.failures ==>
                || BadKeys(previous.deploy.value.sni, selected.deploy.value.sni)
                || exists e :: MoveRefused(old(dns.zones), e, From(previous), From(selected), ip)
      ensures r.Ok? ==> process.failures == old(process.failures)
    {
      ghost var before, calls := dns.zones, dns.calls;
      r := dns.MoveIP(previous.deploy.value.sni, selected.deploy.value.sni, ip);
      ghost var sent := dns.calls[|calls|..];
      stuck := !Compensated(sent);
      if r.Ok? {
        MoveGoes(before, sent, dns.zones, r.value, From(previous), From(selected), ip);
      } else if !stuck {
        MoveUndone(before, sent, dns.zones, r, From(previous), From(selected), ip);
      }
    }

    /** Every compensating call is tried, whatever happens to the others. */
    method RollBack(previous: Host, selected: Host, ip: Addr, dnsChanged: bool, ghost before: Config) returns (ghost left: set<Part>)
      requires Valid() && Usable(previous) && Usable(selected) && serverSNI == selected.deploy.value.sni
      requires dnsChanged && From(previous) != From(selected) ==>
                 && Moved(before, dns.zones, From(previous), From(selected), ip) && AllClean(dns.zones)
                 && !BadKeys(previous.deploy.value.sni, selected.deploy.value.sni)
      modifies this`profile, this`requests, this`serverSNI, dns, process
      ensures Valid()
      ensures !dnsChanged ==> dns.zones == old(dns.zones) && DNSZones !in left
      ensures PanelProfile !in left ==> requests == old(requests) + [previous]
      ensures ServerSNI !in left ==> serverSNI == previous.deploy.value.sni
      ensures DNSZones !in left && dnsChanged && From(previous) != From(selected) ==>
                BackAgain(before, From(previous), From(selected), ip)
      ensures old(requests) <= requests
      ensures old(process.failures) + |left| <= process.failures
    {
      left := {};
      var updated := UpdateNodeProfile(previous);
      if updated.None? {
        left := left + {PanelProfile};
      }
      if dnsChanged {
        var movedBack := MoveBack(previous, selected, ip, before);
        if !movedBack && From(previous) != From(selected) {
          left := left + {DNSZones};
        }
      }
      var switched := SwitchNodeSNI(selected.deploy.value.sni, previous.deploy.value.sni);
      if !switched {
        left := left + {ServerSNI};
      }
    }

    method MoveBack(previous: Host, selected: Host, ip: Addr, ghost before: Config) returns (ghost done: bool)
      requires Valid() && Usable(previous) && Usable(selected)
      requires From(previous) != From(selected) ==>
                 && Moved(before, dns.zones, From(previous), From(selected), ip) && AllClean(dns.zones)
                 && !BadKeys(previous.deploy.value.sni, selected.deploy.value.sni)
      modifies dns, process
      ensures Valid() && old(process.failures) <= process.failures
      ensures From(previous) != From(selected) ==>
                if done then BackAgain(before, From(previous), From(selected), ip) else old(process.failures) < process.failures
    {
      ghost var mid, calls := dns.zones, dns.calls;
      var result := dns.MoveIP(selected.deploy.value.sni, previous.deploy.value.sni, ip);
      done := result == Result.Ok(true);
      ghost var source, target, sent := From(previous), From(selected), dns.calls[|calls|..];
      if source != target {
        if done {
          MovedBackRestoresIff(before, mid, sent, dns.zones, source, target, ip);
        } else if result.Err? {
          MovesBack(before, mid, result.error, source, target, ip);
        } else {
          MovesBack(before, mid, InvalidInput, source, target, ip);
        }
      }
    }
  }
}
