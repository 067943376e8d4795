/** Changing the address of a node in the panel, in every zone and in the database
    (internal/orchestrator/ip_change.go). */
module IPChange {
  import opened Wrappers
  import P = Process
  import opened Zones
  import opened ZoneClient

  datatype Failure = InvalidAddress | NodeUnavailable | DuplicateAddress | NodeNotFound | StaleAddress | DNSFailed | PersistenceFailed
  datatype Outcome = Done | Unchanged | Failed(failure: Failure)

  /** The zones of `done` had oldIP replaced, the others are as they were. */
  ghost predicate Swapped(before: Config, now: Config, done: seq<string>, oldIP: Addr, newIP: Addr) {
    && AllClean(before) && now.Keys == before.Keys
    && (forall name :: name in done ==> name in before && Contains(before[name], oldIP))
    && (forall name :: name in before ==>
          now[name] == if name in done then Replaced(before[name], oldIP, newIP) else before[name])
  }

  /** The zones after the ones in `done` were replaced and the last of them, from
      index k on, were replaced back, but for those in `left`. */
  ghost predicate SwappedBack(before: Config, now: Config, done: seq<string>, k: nat, left: set<string>, oldIP: Addr, newIP: Addr)
    requires k <= |done|
  {
    && AllClean(before) && oldIP != newIP && now.Keys == before.Keys
    && (forall name :: name in done ==> name in before && Contains(before[name], oldIP))
    && (forall name :: name in left ==> name in done[k..])
    && (forall name :: name in before ==>
          now[name] == if name in done[k..] && name !in left then ThereAndBack(before[name], oldIP, newIP)
                       else if name in done then Replaced(before[name], oldIP, newIP)
                       else before[name])
  }

  ghost function ThereAndBack(zone: Zone, oldIP: Addr, newIP: Addr): Zone
    requires Clean(zone) && oldIP != newIP
  {
    if Contains(zone, oldIP) then
      ReplacedMeans(zone, oldIP, newIP);
      Replaced(Replaced(zone, oldIP, newIP), newIP, oldIP)
    else zone
  }

  lemma SwappedNone(before: Config, oldIP: Addr, newIP: Addr)
    requires AllClean(before)
    ensures Swapped(before, before, [], oldIP, newIP)
  {
  }

  lemma SwappedSnoc(before: Config, mid: Config, now: Config, done: seq<string>, name: string, oldIP: Addr, newIP: Addr)
    requires Swapped(before, mid, done, oldIP, newIP) && name !in done
    requires name in before && Contains(before[name], oldIP)
    requires now == mid[name := Replaced(before[name], oldIP, newIP)]
    ensures Swapped(before, now, done + [name], oldIP, newIP)
  {
    assert forall other :: other in done + [name] <==> other in done || other == name;
  }

  lemma SwappedToBack(before: Config, now: Config, done: seq<string>, oldIP: Addr, newIP: Addr)
    requires Swapped(before, now, done, oldIP, newIP) && oldIP != newIP
    ensures SwappedBack(before, now, done, |done|, {}, oldIP, newIP)
  {
    assert done[|done|..] == [];
  }

  /** One more zone to replace back: that call finds what it takes out, and does it or
      leaves the zone. */
  lemma SwappedBackStep(before: Config, mid: Config, done: seq<string>, k: nat, left: set<string>, oldIP: Addr, newIP: Addr)
    requires k < |done| && SwappedBack(before, mid, done, k + 1, left, oldIP, newIP) && Distinct(done)
    ensures done[k] in mid && Clean(mid[done[k]]) && Contains(mid[done[k]], newIP) && done[k] !in left
    ensures SwappedBack(before, mid[done[k] := Replaced(mid[done[k]], newIP, oldIP)], done, k, left, oldIP, newIP)
    ensures SwappedBack(before, mid, done, k, left + {done[k]}, oldIP, newIP)
  {
    var name := done[k];
    assert done[k..] == [name] + done[k + 1..];
    assert name in done && name !in done[k + 1..];
    assert mid[name] == Replaced(before[name], oldIP, newIP);
    ReplaceBackRestores(before[name], oldIP, newIP);
    assert forall other :: other in done[k..] <==> other in done[k + 1..] || other == name;
  }

  /** Why a change is rejected although every call went through. */
  ghost predicate Rejects(f: Failure, addresses: map<string, Option<Addr>>, uuid: string, oldIP: Addr, newIP: Addr) {
    match f
    case DuplicateAddress => exists other :: other in addresses && other != uuid && addresses[other] == Some(newIP)
    case NodeNotFound => uuid !in addresses
    case StaleAddress => uuid in addresses && addresses[uuid] != Some(oldIP)
    case _ => false
  }

  lemma NotYet(names: seq<string>, i: nat)
    requires i < |names| && Distinct(names)
    ensures names[i] !in names[..i] && names[i] in names && Distinct(names[..i])
  {
  }

  lemma SwappedIsClean(before: Config, now: Config, done: seq<string>, oldIP: Addr, newIP: Addr)
    requires Swapped(before, now, done, oldIP, newIP) && oldIP != newIP
    ensures AllClean(now)
  {
    forall name | name in before && name in done ensures Clean(now[name]) {
      ReplacedMeans(before[name], oldIP, newIP);
    }
  }

  lemma SwappedBackIsClean(before: Config, now: Config, done: seq<string>, k: nat, left: set<string>, oldIP: Addr, newIP: Addr)
    requires k <= |done| && SwappedBack(before, now, done, k, left, oldIP, newIP)
    ensures AllClean(now)
  {
    forall name | name in before && name in done ensures Clean(now[name]) {
      ReplaceBackRestores(before[name], oldIP, newIP);
      ReplacedMeans(before[name], oldIP, newIP);
      ReplacedMeans(Replaced(before[name], oldIP, newIP), newIP, oldIP);
    }
  }

  /** What a change that went through has done to the zones. */
  ghost predicate AllSwapped(before: Config, now: Config, oldIP: Addr, newIP: Addr) {
    && now.Keys == before.Keys
    && forall name :: name in before ==>
         if Contains(before[name], oldIP) then Exchanged(before[name], now[name], {oldIP}, {newIP})
         else now[name] == before[name]
  }

  lemma SwappedMeans(before: Config, now: Config, done: seq<string>, oldIP: Addr, newIP: Addr)
    requires Swapped(before, now, done, oldIP, newIP) && oldIP != newIP
    requires forall name :: name in before && Contains(before[name], oldIP) ==> name in done
    ensures AllSwapped(before, now, oldIP, newIP)
  {
    forall name | name in before && Contains(before[name], oldIP)
      ensures Exchanged(before[name], now[name], {oldIP}, {newIP})
    {
      ReplacedMeans(before[name], oldIP, newIP);
    }
  }

  /** A rolled-back change leaves every zone its addresses exactly when none of the
      zones that had been changed held the new address before. */
  lemma RollbackRestoresIff(before: Config, now: Config, done: seq<string>, oldIP: Addr, newIP: Addr)
    requires SwappedBack(before, now, done, 0, {}, oldIP, newIP)
    ensures SameZones(before, now) <==> forall name :: name in done ==> !Contains(before[name], newIP)
  {
    assert done[0..] == done;
    forall name | name in before
      ensures SameAddresses(now[name], before[name]) <==> !(name in done && Contains(before[name], newIP))
    {
      if name in done {
        ReplaceBackRestores(before[name], oldIP, newIP);
      }
    }
  }

  class Service {
    const process: P.Process
    const dns: Client
    const dnsDisabled: bool
    const isPublic: Addr -> bool
    /** The panel's nodes in listing order, and their addresses as far as they parse. */
    const nodes: seq<string>
    var addresses: map<string, Option<Addr>>
    /** The stored address of the deployment of a node, if it has one. */
    var stored: map<string, Addr>

    /** One client writes the zones, whose names are settled. */
    ghost predicate Valid()
      reads `addresses, dns
    {
      && dns.Valid() && dns.process == process
      && (forall name :: name in dns.names ==> name != "" && Target(name) == name)
      && addresses.Keys == (set uuid | uuid in nodes)
    }

    constructor (process: P.Process, dns: Client, dnsDisabled: bool, isPublic: Addr -> bool,
                 nodes: seq<string>, addresses: map<string, Option<Addr>>, stored: map<string, Addr>)
      requires dns.Valid() && dns.process == process && addresses.Keys == (set uuid | uuid in nodes)
      requires forall name :: name in dns.names ==> name != "" && Target(name) == name
      ensures Valid() && this.dns == dns && this.addresses == addresses && this.stored == stored
      ensures this.dnsDisabled == dnsDisabled && this.isPublic == isPublic && this.nodes == nodes
    {
      this.process, this.dns, this.dnsDisabled, this.isPublic := process, dns, dnsDisabled, isPublic;
      this.nodes, this.addresses, this.stored := nodes, addresses, stored;
    }

    method UpdateStoredAddress(uuid: string, ip: Addr) returns (ok: bool)
      modifies this`stored, process
      ensures stored == if ok then old(stored)[uuid := ip] else old(stored)
      ensures process.failures == old(process.failures) + if ok then 0 else 1
    {
      ok := process.Attempt();
      if ok {
        stored := stored[uuid := ip];
      }
    }

    method UpdateNodeAddress(uuid: string, ip: Addr) returns (ok: bool)
      requires Valid() && uuid in addresses
      modifies this`addresses, process
      ensures Valid()
      ensures addresses == if ok then old(addresses)[uuid := Some(ip)] else old(addresses)
      ensures process.failures == old(process.failures) + if ok then 0 else 1
    {
      ok := process.Attempt();
      if ok {
        addresses := addresses[uuid := Some(ip)];
      }
    }

    /** Rejects a new address that another node has, and a stale old one. */
    method SelectNode(uuid: string, oldIP: Addr, newIP: Addr) returns (r: Outcome)
      requires Valid()
      ensures r.Done? <==> && uuid in addresses && addresses[uuid] == Some(oldIP)
                           && forall other :: other in addresses && other != uuid ==> addresses[other] != Some(newIP)
      ensures !r.Done? ==> r.Failed? && Rejects(r.failure, addresses, uuid, oldIP, newIP)
    {
      var selected := false;
      for i := 0 to |nodes|
        invariant selected <==> uuid in nodes[..i]
        invariant forall other :: other in nodes[..i] && other != uuid ==> addresses[other] != Some(newIP)
      {
        assert nodes[..i + 1] == nodes[..i] + [nodes[i]];
        assert nodes[i] in nodes;
        if nodes[i] != uuid && addresses[nodes[i]] == Some(newIP) {
          return Failed(DuplicateAddress);
        }
        if nodes[i] == uuid {
          selected := true;
        }
      }
      assert nodes[..|nodes|] == nodes;
      if !selected {
        return Failed(NodeNotFound);
      }
      if addresses[uuid] != Some(oldIP) {
        return Failed(StaleAddress);
      }
      return Done;
    }

    /** All or nothing: panel, zones and database all change; or the database is as
        before, and so are the panel and the zones, the zones replaced there and back,
        but for what a compensating call that failed has left: one failed call for each
        zone in `left` and for the panel, beside the one that stopped the change. */
    method ReplaceNodeIP(uuid: string, oldIP: Addr, newIP: Addr)
      returns (r: Outcome, ghost changed: seq<string>, ghost left: set<string>)
      requires Valid()
      modifies this`addresses, this`stored, dns, process
      ensures Valid() && old(process.failures) <= process.failures
      ensures r == Failed(InvalidAddress) <==> !isPublic(newIP)
      ensures r.Unchanged? <==> isPublic(newIP) && oldIP == newIP
      ensures r.Unchanged? ==> addresses == old(addresses) && stored == old(stored) && dns.zones == old(dns.zones)
      ensures r.Done? ==>
                && uuid in old(addresses) && old(addresses)[uuid] == Some(oldIP)
                && (forall other :: other in old(addresses) && other != uuid ==> old(addresses)[other] != Some(newIP))
                && addresses == old(addresses)[uuid := Some(newIP)]
                && stored == (if uuid in old(stored) then old(stored)[uuid := newIP] else old(stored))
                && if dnsDisabled then dns.zones == old(dns.zones) else AllSwapped(old(dns.zones), dns.zones, oldIP, newIP)
      ensures r.Failed? && r.failure != InvalidAddress ==>
                || old(process.failures) < process.failures
                || Rejects(r.failure, old(addresses), uuid, oldIP, newIP)
                || (r.failure == DNSFailed && !AllClean(old(dns.zones)))
      ensures r.Failed? ==>
                && stored == old(stored)
                && (addresses == old(addresses) || addresses == old(addresses)[uuid := Some(newIP)])
                && ((left == {} && dns.zones == old(dns.zones)) || SwappedBack(old(dns.zones), dns.zones, changed, 0, left, oldIP, newIP))
      ensures r.Failed? && (left != {} || addresses != old(addresses)) ==>
                old(process.failures) + |left| + (if addresses != old(addresses) then 1 else 0) < process.failures
      ensures r.Done? ==> process.failures == old(process.failures)
    {
      changed, left := [], {};
      if !isPublic(newIP) {
        return Failed(InvalidAddress), changed, left;
      }
      if oldIP == newIP {
        return Unchanged, changed, left;
      }
      var listed := process.Attempt();
      if !listed {
        return Failed(NodeUnavailable), changed, left;
      }
      r := SelectNode(uuid, oldIP, newIP);
      if r.Failed? {
        return;
      }
      r, changed, left := Change(uuid, oldIP, newIP);
    }

    /** The change of a node that was selected. */
    method Change(uuid: string, oldIP: Addr, newIP: Addr)
      returns (r: Outcome, ghost changed: seq<string>, ghost left: set<string>)
      requires Valid() && oldIP != newIP && uuid in addresses && addresses[uuid] == Some(oldIP)
      modifies this`addresses, this`stored, dns, process
      ensures Valid() && old(process.failures) <= process.failures
      ensures r.Done? || r.Failed?
      ensures r.Done? ==>
                && addresses == old(addresses)[uuid := Some(newIP)]
                && stored == (if uuid in old(stored) then old(stored)[uuid := newIP] else old(stored))
                && if dnsDisabled then dns.zones == old(dns.zones) else AllSwapped(old(dns.zones), dns.zones, oldIP, newIP)
      ensures r.Failed? ==>
                && r.failure != InvalidAddress
                && (old(process.failures) < process.failures || (r.failure == DNSFailed && !AllClean(old(dns.zones))))
                && stored == old(stored)
                && (addresses == old(addresses) || addresses == old(addresses)[uuid := Some(newIP)])
                && ((left == {} && dns.zones == old(dns.zones)) || SwappedBack(old(dns.zones), dns.zones, changed, 0, left, oldIP, newIP))
      ensures r.Failed? && (left != {} || addresses != old(addresses)) ==>
                old(process.failures) + |left| + (if addresses != old(addresses) then 1 else 0) < process.failures
      ensures r.Done? ==> process.failures == old(process.failures)
    {
      changed, left := [], {};
      var zones: seq<string> := [];
      if !dnsDisabled {
        var found := dns.FindZonesByIP(oldIP);
        if found.Err? {
          return Failed(DNSFailed), changed, left;
        }
        zones := found.value;
      }
      var looked := process.Attempt();
      if !looked {
        return Failed(PersistenceFailed), changed, left;
      }
      var updated := UpdateNodeAddress(uuid, newIP);
      if !updated {
        return Failed(NodeUnavailable), changed, left;
      }
      r, changed, left := ChangeAll(uuid, oldIP, newIP, zones, old(addresses), old(dns.zones));
    }

    /** The zone loop and the database, once the panel has the new address. */
    method ChangeAll(uuid: string, oldIP: Addr, newIP: Addr, zones: seq<string>, ghost panel: map<string, Option<Addr>>, ghost before: Config)
      returns (r: Outcome, ghost changed: seq<string>, ghost left: set<string>)
      requires Valid() && oldIP != newIP && Distinct(zones)
      requires uuid in panel && panel[uuid] == Some(oldIP) && addresses == panel[uuid := Some(newIP)]
      requires dns.zones == before
      requires dnsDisabled ==> zones == []
      requires !dnsDisabled ==> AllClean(before) && forall name :: name in zones <==> name in before && Contains(before[name], oldIP)
      modifies this`addresses, this`stored, dns, process
      ensures Valid() && old(process.failures) <= process.failures
      ensures r.Done? ==>
                && addresses == panel[uuid := Some(newIP)]
                && stored == (if uuid in old(stored) then old(stored)[uuid := newIP] else old(stored))
                && if dnsDisabled then dns.zones == before else AllSwapped(before, dns.zones, oldIP, newIP)
      ensures r.Done? || r.Failed?
      ensures r.Failed? ==>
                && r.failure != InvalidAddress
                && old(process.failures) + |left| + (if addresses != panel then 1 else 0) < process.failures
                && stored == old(stored) && (addresses == panel || addresses == panel[uuid := Some(newIP)])
                && ((left == {} && dns.zones == before) || SwappedBack(before, dns.zones, changed, 0, left, oldIP, newIP))
      ensures r.Failed? ==> r.failure == if changed == zones then PersistenceFailed else DNSFailed
      ensures r.Done? ==> process.failures == old(process.failures)
    {
      var swapped, done := SwapZones(zones, oldIP, newIP, before);
      changed, left := done, {};
      var saved := true;
      if swapped && uuid in stored {
        saved := UpdateStoredAddress(uuid, newIP);
      }
      if !swapped || !saved {
        left := RollBack(uuid, oldIP, newIP, done, panel, before);
        return Failed(if swapped then PersistenceFailed else DNSFailed), changed, left;
      }
      if !dnsDisabled {
        SwappedMeans(before, dns.zones, zones, oldIP, newIP);
      }
      return Done, changed, left;
    }

    /** The zone loop, up to the first call that fails. */
    method SwapZones(zones: seq<string>, oldIP: Addr, newIP: Addr, ghost before: Config) returns (ok: bool, changed: seq<string>)
      requires Valid() && oldIP != newIP && Distinct(zones) && dns.zones == before
      requires if dnsDisabled then zones == []
               else AllClean(before) && forall name :: name in zones ==> name in before && Contains(before[name], oldIP)
      modifies dns, process
      ensures Valid() && Distinct(changed) && (if ok then changed == zones else |changed| < |zones|)
      ensures if ok then process.failures == old(process.failures) else old(process.failures) < process.failures
      ensures dnsDisabled ==> changed == [] && dns.zones == before
      ensures !dnsDisabled ==> Swapped(before, dns.zones, changed, oldIP, newIP)
    {
      changed := [];
      if !dnsDisabled {
        SwappedNone(before, oldIP, newIP);
      }
      for i := 0 to |zones|
        invariant Valid() && changed == zones[..i] && process.failures == old(process.failures)
        invariant dnsDisabled ==> dns.zones == before
        invariant !dnsDisabled ==> Swapped(before, dns.zones, changed, oldIP, newIP)
      {
        assert zones[..i + 1] == zones[..i] + [zones[i]];
        NotYet(zones, i);
        var replaced := ReplaceOne(zones[i], oldIP, newIP, changed, before);
        if !replaced {
          return false, changed;
        }
        changed := changed + [zones[i]];
      }
      assert zones[..|zones|] == zones;
      ok := true;
    }

    /** ReplaceIP on a configured zone that holds the address: nothing but a failed call
        keeps it from taking effect. */
    method ReplaceIn(name: string, away: Addr, into: Addr) returns (ok: bool)
      requires Valid() && away != into && AllClean(dns.zones) && name in dns.zones && Contains(dns.zones[name], away)
      modifies dns, process
      ensures Valid()
      ensures ok ==> dns.zones == old(dns.zones)[name := Replaced(old(dns.zones)[name], away, into)] && process.failures == old(process.failures)
      ensures !ok ==> dns.zones == old(dns.zones) && old(process.failures) < process.failures
    {
      assert name in dns.names && Target(name) == name;
      TargetOfNothing(name);
      var replaced := dns.ReplaceIP(name, away, into);
      assert replaced.Err? ==> !replaced.error.InvalidInput? && !replaced.error.NotFound? && !replaced.error.InvalidResponse?;
      ok := replaced.Ok?;
    }

    method ReplaceOne(name: string, oldIP: Addr, newIP: Addr, ghost done: seq<string>, ghost before: Config) returns (ok: bool)
      requires Valid() && Swapped(before, dns.zones, done, oldIP, newIP) && name !in done && oldIP != newIP
      requires name in before && Contains(before[name], oldIP)
      modifies dns, process
      ensures Valid()
      ensures ok ==> Swapped(before, dns.zones, done + [name], oldIP, newIP) && process.failures == old(process.failures)
      ensures !ok ==> Swapped(before, dns.zones, done, oldIP, newIP) && old(process.failures) < process.failures
    {
      ghost var mid := dns.zones;
      SwappedIsClean(before, mid, done, oldIP, newIP);
      ok := ReplaceIn(name, oldIP, newIP);
      if ok {
        SwappedSnoc(before, mid, dns.zones, done, name, oldIP, newIP);
      }
    }

    /** In reverse; a call that fails does not stop the rest. */
    method RollBack(uuid: string, oldIP: Addr, newIP: Addr, zones: seq<string>, ghost panel: map<string, Option<Addr>>, ghost before: Config)
      returns (ghost left: set<string>)
      requires Valid() && oldIP != newIP && Distinct(zones)
      requires uuid in panel && panel[uuid] == Some(oldIP) && addresses == panel[uuid := Some(newIP)]
      requires if dnsDisabled then zones == [] && dns.zones == before else Swapped(before, dns.zones, zones, oldIP, newIP)
      modifies this`addresses, dns, process
      ensures Valid()
      ensures addresses == panel || addresses == old(addresses)
      ensures (left == {} && dns.zones == before) || SwappedBack(before, dns.zones, zones, 0, left, oldIP, newIP)
      ensures old(process.failures) + |left| + (if addresses != panel then 1 else 0) <= process.failures
    {
      left := {};
      if !dnsDisabled {
        left := RollBackZones(oldIP, newIP, zones, before);
      }
      RestoredAddress(panel, uuid, oldIP, newIP);
      var restored := UpdateNodeAddress(uuid, oldIP);
    }

    method RollBackZones(oldIP: Addr, newIP: Addr, zones: seq<string>, ghost before: Config) returns (ghost left: set<string>)
      requires Valid() && oldIP != newIP && Distinct(zones)
      requires Swapped(before, dns.zones, zones, oldIP, newIP)
      modifies dns, process
      ensures Valid()
      ensures SwappedBack(before, dns.zones, zones, 0, left, oldIP, newIP)
      ensures old(process.failures) + |left| <= process.failures
    {
      left := {};
      SwappedToBack(before, dns.zones, zones, oldIP, newIP);
      var index := |zones|;
      while index > 0
        invariant 0 <= index <= |zones| && Valid()
        invariant SwappedBack(before, dns.zones, zones, index, left, oldIP, newIP)
        invariant old(process.failures) + |left| <= process.failures
      {
        index := index - 1;
        left := ReplaceBack(oldIP, newIP, zones, index, left, before);
      }
    }

    method ReplaceBack(oldIP: Addr, newIP: Addr, zones: seq<string>, index: nat, ghost left: set<string>, ghost before: Config)
      returns (ghost still: set<string>)
      requires Valid() && oldIP != newIP && Distinct(zones) && index < |zones|
      requires SwappedBack(before, dns.zones, zones, index + 1, left, oldIP, newIP)
      modifies dns, process
      ensures Valid()
      ensures SwappedBack(before, dns.zones, zones, index, still, oldIP, newIP)
      ensures |still| - |left| <= process.failures - old(process.failures)
    {
      ghost var mid := dns.zones;
      SwappedBackStep(before, mid, zones, index, left, oldIP, newIP);
      SwappedBackIsClean(before, mid, zones, index + 1, left, oldIP, newIP);
      var back := ReplaceIn(zones[index], newIP, oldIP);
      still := if back then left else left + {zones[index]};
    }
  }

  lemma RestoredAddress(panel: map<string, Option<Addr>>, uuid: string, oldIP: Addr, newIP: Addr)
    requires uuid in panel && panel[uuid] == Some(oldIP)
    ensures panel[uuid := Some(newIP)][uuid := Some(oldIP)] == panel
  {
  }
}
