/** The typed client of the DNS balancer: read-modify-write cycles on whole zones
    (internal/dnsbalancer/client.go). The methods here run while the zone locks are
    held; ZoneProtocol runs them against each other. */
module ZoneClient {
  import opened Wrappers
  import opened Names
  import opened Zones
  import P = Process

  datatype Error = InvalidInput | Unavailable | NotFound | InvalidResponse
  type Answer<+T> = Result<T, Error>

  /** The name of the zone that an operation on fqdn reads and patches. */
  function Target(fqdn: string): string {
    NormalizeFQDN(NormalizeFQDN(fqdn))
  }

  lemma TargetOfNothing(fqdn: string)
    requires Target(fqdn) != ""
    ensures NormalizeFQDN(fqdn) != ""
  {
    assert NormalizeFQDN("") == "";
  }

  // ---- Building the requests ----

  /** Scans a list up to the first entry for ip. */
  method Find(texts: seq<IPText>, ip: Addr) returns (r: Answer<bool>)
    ensures r.Err? ==> r.error == InvalidResponse && !AllParse(texts)
    ensures AllParse(texts) ==> r == Ok(Holds(texts, ip))
    ensures r == Ok(true) ==> Holds(texts, ip)
    ensures r == Ok(false) ==> AllParse(texts) && !Holds(texts, ip)
  {
    for i := 0 to |texts|
      invariant forall j :: 0 <= j < i ==> Parses(texts[j]) && !Is(texts[j], ip)
    {
      if !Parses(texts[i]) {
        return Err(InvalidResponse);
      }
      if texts[i].addr == ip {
        assert Is(texts[i], ip);
        return Ok(true);
      }
    }
    return Ok(false);
  }

  datatype Removal = Removal(body: Zone, found: bool, moved: Option<ZoneNode>)

  method ZoneWithoutIP(zone: Zone, ip: Addr) returns (r: Answer<Removal>)
    ensures r.Err? ==> r.error == InvalidResponse
    ensures r.Ok? <==> Clean(zone)
    ensures r.Ok? ==> r.value == Removal(Without(zone, ip), Contains(zone, ip), Carried(zone, ip))
  {
    if zone.Advanced? {
      r := AdvancedWithoutIP(zone.nodes, ip);
    } else {
      r := SimpleWithoutIP(zone.ips, ip);
    }
  }

  method AdvancedWithoutIP(all: seq<ZoneNode>, ip: Addr) returns (r: Answer<Removal>)
    ensures r.Err? ==> r.error == InvalidResponse
    ensures r.Ok? <==> AllParse(NodeTexts(all))
    ensures r.Ok? ==> r.value == Removal(Advanced(NodesWithout(all, ip)), Holds(NodeTexts(all), ip), LastNode(all, ip))
  {
    var nodes: seq<ZoneNode>, moved: Option<ZoneNode> := [], None;
    for i := 0 to |all|
      invariant AllParse(NodeTexts(all[..i]))
      invariant nodes == NodesWithout(all[..i], ip) && moved == LastNode(all[..i], ip)
    {
      var item := all[i];
      assert all[..i + 1] == all[..i] + [item];
      if !Parses(item.ip) {
        assert NodeTexts(all)[i] == item.ip;
        return Err(InvalidResponse);
      }
      SnocNode(all[..i], item);
      NodesWithoutSnoc(all[..i], item, ip);
      if item.ip.addr == ip {
        moved := Some(item);
      } else {
        nodes := nodes + [item];
      }
    }
    assert all[..|all|] == all;
    LastNodeMeans(all, ip);
    return Ok(Removal(Advanced(nodes), moved.Some?, moved));
  }

  method SimpleWithoutIP(all: seq<IPText>, ip: Addr) returns (r: Answer<Removal>)
    ensures r.Err? ==> r.error == InvalidResponse
    ensures r.Ok? <==> AllParse(all)
    ensures r.Ok? ==> r.value == Removal(Simple(IPsWithout(all, ip)), Holds(all, ip), None)
  {
    var ips: seq<IPText>, found := [], false;
    for i := 0 to |all|
      invariant AllParse(all[..i]) && ips == IPsWithout(all[..i], ip)
      invariant found <==> Holds(all[..i], ip)
    {
      var value := all[i];
      assert all[..i + 1] == all[..i] + [value];
      if !Parses(value) {
        return Err(InvalidResponse);
      }
      Snoc(all[..i], value);
      IPsWithoutSnoc(all[..i], value, ip);
      if value.addr == ip {
        found := true;
      } else {
        ips := ips + [Canonical(value.addr)];
      }
    }
    assert all[..|all|] == all;
    return Ok(Removal(Simple(ips), found, None));
  }

  datatype Insertion = Insertion(body: Zone, found: bool)

  method ZoneWithIP(zone: Zone, ip: Addr, carried: Option<ZoneNode>) returns (r: Answer<Insertion>)
    ensures r.Ok? ==>
              && (!Contains(zone, ip) ==> Clean(zone) && (zone.Advanced? ==> carried.Some?))
              && r.value == if Contains(zone, ip) then Insertion(zone, true) else Insertion(With(zone, ip, carried), false)
    ensures r.Err? ==>
              || (r.error == InvalidResponse && !Clean(zone))
              || (r.error == InvalidInput && Clean(zone) && !Contains(zone, ip) && zone.Advanced? && carried.None?)
  {
    var found := Find(Texts(zone), ip);
    if found.Err? {
      return Err(found.error);
    }
    if found.value {
      return Ok(Insertion(zone, true));
    }
    match zone {
      case Advanced(nodes) =>
        if carried.None? {
          return Err(InvalidInput);
        }
        return Ok(Insertion(Advanced(nodes + [carried.value]), false));
      case Simple(ips) =>
        return Ok(Insertion(Simple(ips + [Canonical(ip)]), false));
    }
  }

  datatype Exchange = Exchange(body: Zone, foundOld: bool, foundNew: bool)

  method ReplacedSimple(ips: seq<IPText>, oldIP: Addr, newIP: Addr) returns (r: Answer<Exchange>)
    requires oldIP != newIP
    ensures r.Ok? <==> AllParse(ips)
    ensures r.Err? ==> r.error == InvalidResponse
    ensures r.Ok? ==> r.value.foundOld == Holds(ips, oldIP) && r.value.foundNew == Holds(ips, newIP)
    ensures r.Ok? && r.value.foundOld ==> r.value.body == Replaced(Simple(ips), oldIP, newIP)
  {
    var complete: seq<IPText>, foundOld, foundNew := [], false, false;
    for i := 0 to |ips|
      invariant AllParse(ips[..i]) && complete == IPsWithout(ips[..i], oldIP)
      invariant foundOld <==> Holds(ips[..i], oldIP)
      invariant foundNew <==> Holds(ips[..i], newIP)
    {
      assert ips[..i + 1] == ips[..i] + [ips[i]];
      if !Parses(ips[i]) {
        return Err(InvalidResponse);
      }
      Snoc(ips[..i], ips[i]);
      IPsWithoutSnoc(ips[..i], ips[i], oldIP);
      if ips[i].addr == oldIP {
        foundOld := true;
      } else {
        foundNew := foundNew || ips[i].addr == newIP;
        complete := complete + [Canonical(ips[i].addr)];
      }
    }
    assert ips[..|ips|] == ips;
    if !foundNew {
      complete := complete + [Canonical(newIP)];
    }
    return Ok(Exchange(Simple(complete), foundOld, foundNew));
  }

  /** The first pass over an advanced zone. */
  method ScanAdvanced(nodes: seq<ZoneNode>, oldIP: Addr, newIP: Addr) returns (r: Answer<(bool, bool)>)
    requires oldIP != newIP
    ensures r.Ok? <==> AllParse(NodeTexts(nodes))
    ensures r.Err? ==> r.error == InvalidResponse
    ensures r.Ok? ==> r.value == (Holds(NodeTexts(nodes), oldIP), Holds(NodeTexts(nodes), newIP))
  {
    var foundOld, foundNew := false, false;
    for i := 0 to |nodes|
      invariant AllParse(NodeTexts(nodes[..i]))
      invariant foundOld <==> Holds(NodeTexts(nodes[..i]), oldIP)
      invariant foundNew <==> Holds(NodeTexts(nodes[..i]), newIP)
    {
      assert nodes[..i + 1] == nodes[..i] + [nodes[i]];
      SnocNode(nodes[..i], nodes[i]);
      if !Parses(nodes[i].ip) {
        assert NodeTexts(nodes)[i] == nodes[i].ip;
        return Err(InvalidResponse);
      }
      if nodes[i].ip.addr == oldIP {
        foundOld := true;
      } else if nodes[i].ip.addr == newIP {
        foundNew := true;
      }
    }
    assert nodes[..|nodes|] == nodes;
    return Ok((foundOld, foundNew));
  }

  method ReplacedAdvanced(nodes: seq<ZoneNode>, oldIP: Addr, newIP: Addr) returns (r: Answer<Exchange>)
    requires oldIP != newIP
    ensures r.Ok? <==> AllParse(NodeTexts(nodes))
    ensures r.Err? ==> r.error == InvalidResponse
    ensures r.Ok? ==> r.value.foundOld == Holds(NodeTexts(nodes), oldIP) && r.value.foundNew == Holds(NodeTexts(nodes), newIP)
    ensures r.Ok? && r.value.foundOld ==> r.value.body == Replaced(Advanced(nodes), oldIP, newIP)
  {
    var scanned := ScanAdvanced(nodes, oldIP, newIP);
    if scanned.Err? {
      return Err(scanned.error);
    }
    var (foundOld, foundNew) := scanned.value;
    var complete: seq<ZoneNode> := [];
    for i := 0 to |nodes|
      invariant complete == NodesReplaced(nodes[..i], oldIP, newIP, foundNew)
    {
      var item := nodes[i];
      assert nodes[..i + 1] == nodes[..i] + [item];
      assert Parses(NodeTexts(nodes)[i]);
      NodesReplacedSnoc(nodes[..i], item, oldIP, newIP, foundNew);
      if item.ip.addr == oldIP {
        if foundNew {
          continue;
        }
        item := item.(ip := Canonical(newIP));
      }
      complete := complete + [item];
    }
    assert nodes[..|nodes|] == nodes;
    return Ok(Exchange(Advanced(complete), foundOld, foundNew));
  }

  // ---- Conservation of a moved address ----

  /** Seen from the source and target as they were, ip is in one of the two and
      every other address of the two is where it was. */
  ghost predicate Kept(source0: Zone, target0: Zone, source: Zone, target: Zone, ip: Addr) {
    && (Contains(source, ip) || Contains(target, ip))
    && (forall a :: a != ip ==> (Contains(source, a) <==> Contains(source0, a)))
    && (forall a :: a != ip ==> (Contains(target, a) <==> Contains(target0, a)))
  }

  /** The target's old entries, then one entry for ip taken from the source. */
  ghost predicate GainedEntry(source0: Zone, target0: Zone, target: Zone, ip: Addr) {
    && source0.Advanced? && target0.Advanced? && target.Advanced?
    && var n := |target0.nodes|;
       && |target.nodes| == n + 1 && target.nodes[..n] == target0.nodes
       && target.nodes[n] in source0.nodes && Is(target.nodes[n].ip, ip)
  }

  ghost predicate OnlyTwoChange(before: Config, now: Config, source: string, target: string) {
    && now.Keys == before.Keys && source in now && target in now
    && forall name :: name in now && name != source && name != target ==> now[name] == before[name]
  }

  ghost predicate Conserved(before: Config, now: Config, source: string, target: string, ip: Addr) {
    && OnlyTwoChange(before, now, source, target)
    && Kept(before[source], before[target], now[source], now[target], ip)
  }

  ghost predicate MovedZones(source0: Zone, target0: Zone, source: Zone, target: Zone, ip: Addr) {
    && Kept(source0, target0, source, target, ip)
    && SameFormat(source0, target0) && SameFormat(source, target)
    && Contains(source0, ip) && !Contains(source, ip) && Contains(target, ip)
    && (Contains(target0, ip) ==> target == target0)
    && (!Contains(target0, ip) && target0.Advanced? ==> GainedEntry(source0, target0, target, ip))
  }

  /** What a move that reports a change has done. */
  ghost predicate Moved(before: Config, now: Config, source: string, target: string, ip: Addr) {
    && OnlyTwoChange(before, now, source, target)
    && MovedZones(before[source], before[target], now[source], now[target], ip)
  }

  ghost predicate SameZones(before: Config, now: Config) {
    && now.Keys == before.Keys
    && forall name :: name in now ==> SameAddresses(now[name], before[name])
  }

  /** The zones of a move whose target lacks ip: after the target PATCH and after the
      source PATCH. */
  lemma TargetThenSource(source: Zone, target: Zone, ip: Addr)
    requires Clean(source) && Clean(target) && SameFormat(source, target)
    requires Contains(source, ip) && !Contains(target, ip)
    ensures target.Advanced? ==> Carried(source, ip).Some?
    ensures var t := With(target, ip, Carried(source, ip));
            && Clean(t) && Clean(Without(source, ip))
            && Kept(source, target, source, t, ip)
            && MovedZones(source, target, Without(source, ip), t, ip)
  {
    WithMeans(source, target, ip);
    WithoutMeans(source, ip);
    if source.Advanced? {
      LastNodeMeans(source.nodes, ip);
    }
  }

  ghost predicate Movable(zones: Config, source: string, target: string, ip: Addr) {
    && AllClean(zones) && source in zones && target in zones
    && SameFormat(zones[source], zones[target]) && Contains(zones[source], ip)
    && (zones[target].Advanced? ==> Carried(zones[source], ip).Some?)
  }

  /** The configurations that such a move passes through. */
  ghost function Filled(zones: Config, source: string, target: string, ip: Addr): Config
    requires Movable(zones, source, target, ip)
  {
    zones[target := With(zones[target], ip, Carried(zones[source], ip))]
  }

  ghost function Emptied(zones: Config, source: string, target: string, ip: Addr): Config
    requires Movable(zones, source, target, ip)
  {
    Filled(zones, source, target, ip)[source := Without(zones[source], ip)]
  }

  ghost function Restored(zones: Config, target: string): Config
    requires target in zones
  {
    zones[target := Snapshot(zones[target])]
  }

  /** The zones of a move whose target holds ip already: only the source changes. */
  lemma SourceOnly(source: Zone, target: Zone, ip: Addr)
    requires Clean(source) && SameFormat(source, target) && Contains(source, ip) && Contains(target, ip)
    ensures Clean(Without(source, ip)) && MovedZones(source, target, Without(source, ip), target, ip)
    ensures target.Advanced? ==> Carried(source, ip).Some?
  {
    WithoutMeans(source, ip);
    if source.Advanced? {
      LastNodeMeans(source.nodes, ip);
    }
  }

  // ---- The PATCHes that were sent ----

  /** One PATCH and whether it took effect. */
  datatype Patch = Patch(name: string, body: Zone, ok: bool)

  function Play(zones: Config, p: Patch): Config {
    if p.ok then zones[p.name := p.body] else zones
  }

  /** The zones after these PATCHes. */
  function Played(before: Config, calls: seq<Patch>): Config {
    if calls == [] then before else Play(Played(before, calls[..|calls| - 1]), calls[|calls| - 1])
  }

  lemma PlayedSnoc(before: Config, calls: seq<Patch>, p: Patch)
    ensures Played(before, calls + [p]) == Play(Played(before, calls), p)
  {
    assert (calls + [p])[..|calls|] == calls;
  }

  lemma PlayedOne(before: Config, p: Patch)
    ensures Played(before, [p]) == Play(before, p)
  {
    PlayedSnoc(before, [], p);
    assert [] + [p] == [p];
  }

  lemma PlayedTwo(before: Config, p: Patch, q: Patch)
    ensures Played(before, [p, q]) == Play(Play(before, p), q)
  {
    PlayedOne(before, p);
    PlayedSnoc(before, [p], q);
    assert [p] + [q] == [p, q];
  }

  lemma PlayedThree(before: Config, p: Patch, q: Patch, r: Patch)
    ensures Played(before, [p, q, r]) == Play(Play(Play(before, p), q), r)
  {
    PlayedTwo(before, p, q);
    PlayedSnoc(before, [p, q], r);
    assert [p, q] + [r] == [p, q, r];
  }

  predicate AllWentThrough(calls: seq<Patch>) {
    forall i :: 0 <= i < |calls| ==> calls[i].ok
  }

  // The PATCHes of a move.

  function FillTarget(zones: Config, source: string, target: string, ip: Addr, ok: bool): Patch
    requires source in zones && target in zones && (zones[target].Advanced? ==> Carried(zones[source], ip).Some?)
  {
    Patch(target, With(zones[target], ip, Carried(zones[source], ip)), ok)
  }

  function EmptySource(zones: Config, source: string, ip: Addr, ok: bool): Patch
    requires source in zones && Clean(zones[source])
  {
    Patch(source, Without(zones[source], ip), ok)
  }

  function RestoreTarget(zones: Config, target: string, ok: bool): Patch
    requires target in zones
  {
    Patch(target, Snapshot(zones[target]), ok)
  }

  /** The PATCHes that a move sends once it has read the zones, whichever of them take
      effect: the target is filled unless it holds the address, the source is emptied
      only then, and when that fails the target is sent what it was before. */
  ghost predicate MoveCalls(before: Config, calls: seq<Patch>, source: string, target: string, ip: Addr)
    requires Movable(before, source, target, ip)
  {
    if Contains(before[target], ip) then exists ok :: calls == [EmptySource(before, source, ip, ok)]
    else
      || calls == [FillTarget(before, source, target, ip, false)]
      || calls == [FillTarget(before, source, target, ip, true), EmptySource(before, source, ip, true)]
      || exists ok :: calls == [FillTarget(before, source, target, ip, true), EmptySource(before, source, ip, false),
                                RestoreTarget(before, target, ok)]
  }

  /** Whether the compensating PATCH, if there was one, took effect. */
  predicate Compensated(calls: seq<Patch>) {
    |calls| == 3 ==> calls[2].ok
  }

  /** How a move goes: its PATCHes, the configuration after them and what is returned. */
  ghost predicate MoveRun(before: Config, calls: seq<Patch>, now: Config, r: Answer<bool>, source: string, target: string, ip: Addr) {
    && now == Played(before, calls)
    && if calls == [] then r.Err? || (r == Ok(false) && Idle(before, source, target, ip))
       else Movable(before, source, target, ip) && MoveCalls(before, calls, source, target, ip)
            && r == if AllWentThrough(calls) then Ok(true) else Err(Unavailable)
  }

  /** There is nothing to move. */
  ghost predicate Idle(before: Config, source: string, target: string, ip: Addr) {
    && AllClean(before) && source in before && target in before && SameFormat(before[source], before[target])
    && !Contains(before[source], ip) && Contains(before[target], ip)
  }

  /** Why a move is refused although no call failed. */
  ghost predicate MoveRefused(before: Config, e: Error, source: string, target: string, ip: Addr) {
    match e
    case Unavailable => false
    case InvalidResponse => !AllClean(before)
    case NotFound =>
      source !in before || target !in before
      || (before[source].Simple? && before[target].Simple? && !Contains(before[source], ip) && !Contains(before[target], ip))
    case InvalidInput =>
      && source in before && target in before
      && (!SameFormat(before[source], before[target])
          || (before[source].Advanced? && !Contains(before[source], ip) && !Contains(before[target], ip)))
  }

  lemma CallsOfSuccess(before: Config, calls: seq<Patch>, source: string, target: string, ip: Addr)
    requires Movable(before, source, target, ip) && MoveCalls(before, calls, source, target, ip) && AllWentThrough(calls)
    ensures calls == if Contains(before[target], ip) then [EmptySource(before, source, ip, true)]
                     else [FillTarget(before, source, target, ip, true), EmptySource(before, source, ip, true)]
  {
    assert calls[0].ok && (|calls| > 1 ==> calls[1].ok);
  }

  lemma SuccessIsClean(before: Config, calls: seq<Patch>, now: Config, source: string, target: string, ip: Addr)
    requires MoveRun(before, calls, now, Ok(true), source, target, ip)
    ensures AllClean(now)
  {
    CallsOfSuccess(before, calls, source, target, ip);
    if Contains(before[target], ip) {
      PlayedOne(before, EmptySource(before, source, ip, true));
      WithoutMeans(before[source], ip);
    } else {
      PlayedTwo(before, FillTarget(before, source, target, ip, true), EmptySource(before, source, ip, true));
      TargetThenSource(before[source], before[target], ip);
    }
  }

  /** A reported change is the whole move. */
  lemma MoveSucceeds(before: Config, calls: seq<Patch>, now: Config, source: string, target: string, ip: Addr)
    requires MoveRun(before, calls, now, Ok(true), source, target, ip) && source != target
    ensures AllClean(now) && Moved(before, now, source, target, ip)
  {
    CallsOfSuccess(before, calls, source, target, ip);
    if Contains(before[target], ip) {
      PlayedOne(before, EmptySource(before, source, ip, true));
      SourceOnly(before[source], before[target], ip);
    } else {
      PlayedTwo(before, FillTarget(before, source, target, ip, true), EmptySource(before, source, ip, true));
      EmptiedMeans(before, source, target, ip);
    }
  }

  /** A failure whose compensation went through leaves every zone its addresses. */
  lemma MoveUndone(before: Config, calls: seq<Patch>, now: Config, r: Answer<bool>, source: string, target: string, ip: Addr)
    requires r.Err? && MoveRun(before, calls, now, r, source, target, ip) && Compensated(calls)
    ensures SameZones(before, now)
  {
    if |calls| == 1 {
      PlayedOne(before, calls[0]);
    } else if |calls| == 3 {
      PlayedThree(before, calls[0], calls[1], calls[2]);
      assert Filled(before, source, target, ip)[target := Snapshot(before[target])] == Restored(before, target);
      SnapshotMeans(before[target]);
    }
  }

  /** The configurations a move can be in. */
  ghost predicate OnTheWay(before: Config, step: Config, source: string, target: string, ip: Addr) {
    || step == before
    || (Movable(before, source, target, ip)
        && if Contains(before[target], ip) then
             step == before[source := Without(before[source], ip)]
           else
             || step == Filled(before, source, target, ip)
             || step == Emptied(before, source, target, ip)
             || step == Restored(before, target))
  }

  lemma MoveStaysOnTheWay(before: Config, calls: seq<Patch>, k: nat, source: string, target: string, ip: Addr)
    requires Movable(before, source, target, ip) && MoveCalls(before, calls, source, target, ip) && k <= |calls|
    ensures OnTheWay(before, Played(before, calls[..k]), source, target, ip)
  {
    if k == 1 {
      assert calls[..1] == [calls[0]];
      PlayedOne(before, calls[0]);
    } else if k == 2 {
      assert calls[..2] == [calls[0], calls[1]];
      PlayedTwo(before, calls[0], calls[1]);
    } else if k == 3 {
      assert calls[..3] == [calls[0], calls[1], calls[2]];
      PlayedThree(before, calls[0], calls[1], calls[2]);
      assert Filled(before, source, target, ip)[target := Snapshot(before[target])] == Restored(before, target);
    }
  }

  lemma OnTheWayConserves(before: Config, step: Config, source: string, target: string, ip: Addr)
    requires OnTheWay(before, step, source, target, ip) && source != target
    requires source in before && target in before && Contains(before[source], ip)
    ensures Conserved(before, step, source, target, ip)
  {
    if step == before {
    } else if Contains(before[target], ip) {
      SourceOnly(before[source], before[target], ip);
    } else if step == Filled(before, source, target, ip) {
      FilledMeans(before, source, target, ip);
    } else if step == Emptied(before, source, target, ip) {
      EmptiedMeans(before, source, target, ip);
    } else {
      RestoredMeans(before, source, target, ip);
    }
  }

  /** Conservation: an address that starts in the source is in the source or in the
      target after every PATCH, whatever fails, and nothing else changes. */
  lemma MoveConserves(before: Config, calls: seq<Patch>, now: Config, r: Answer<bool>, source: string, target: string, ip: Addr)
    requires MoveRun(before, calls, now, r, source, target, ip) && source != target
    requires source in before && target in before && Contains(before[source], ip)
    ensures forall k :: 0 <= k <= |calls| ==> Conserved(before, Played(before, calls[..k]), source, target, ip)
    ensures Conserved(before, now, source, target, ip)
  {
    forall k | 0 <= k <= |calls| ensures Conserved(before, Played(before, calls[..k]), source, target, ip) {
      if k > 0 {
        MoveStaysOnTheWay(before, calls, k, source, target, ip);
      }
      OnTheWayConserves(before, Played(before, calls[..k]), source, target, ip);
    }
    assert calls[..|calls|] == calls;
  }

  /** The guard of MoveIP compares names that were normalised once. When the two
      still name one zone, a successful move drops the address; otherwise it never
      does. */
  lemma MoveKeepsAddressIffTwoZones(before: Config, calls: seq<Patch>, now: Config, source: string, target: string, ip: Addr)
    requires MoveRun(before, calls, now, Ok(true), source, target, ip)
    ensures source in now && target in now
    ensures Contains(now[source], ip) || Contains(now[target], ip) <==> source != target
  {
    if source != target {
      MoveSucceeds(before, calls, now, source, target, ip);
    } else {
      CallsOfSuccess(before, calls, source, target, ip);
      PlayedOne(before, EmptySource(before, source, ip, true));
      WithoutMeans(before[source], ip);
    }
  }

  lemma FilledMeans(before: Config, source: string, target: string, ip: Addr)
    requires Movable(before, source, target, ip) && !Contains(before[target], ip) && source != target
    ensures Conserved(before, Filled(before, source, target, ip), source, target, ip)
  {
    TargetThenSource(before[source], before[target], ip);
  }

  lemma EmptiedMeans(before: Config, source: string, target: string, ip: Addr)
    requires Movable(before, source, target, ip) && !Contains(before[target], ip)
    ensures AllClean(Emptied(before, source, target, ip))
    ensures Moved(before, Emptied(before, source, target, ip), source, target, ip)
  {
    TargetThenSource(before[source], before[target], ip);
  }

  lemma RestoredMeans(before: Config, source: string, target: string, ip: Addr)
    requires source in before && target in before && source != target && Contains(before[source], ip)
    ensures SameZones(before, Restored(before, target)) && Conserved(before, Restored(before, target), source, target, ip)
  {
    SnapshotMeans(before[target]);
  }

  /** An AddIP that reached its PATCH, and nothing came of it. */
  ghost predicate AddFails(before: Config, calls: seq<Patch>, sent: seq<Patch>, name: string, ip: Addr) {
    && name in before && !Contains(before[name], ip)
    && calls == sent + [Patch(name, Added(before[name], ip), false)]
  }

  /** The input check of a move. */
  predicate BadKeys(sourceFQDN: string, targetFQDN: string) {
    NormalizeFQDN(sourceFQDN) == "" || NormalizeFQDN(targetFQDN) == "" || NormalizeFQDN(sourceFQDN) == NormalizeFQDN(targetFQDN)
  }

  // The ways a move to a zone that lacks the address can go, after the PATCHes that had
  // been sent before.

  lemma EmptyRun(before: Config, sent: seq<Patch>, source: string, target: string, ip: Addr, ok: bool)
    requires Movable(before, source, target, ip) && Contains(before[target], ip)
    ensures var empty := EmptySource(before, source, ip, ok);
            var r := if ok then Ok(true) else Err(Unavailable);
            && (sent + [empty])[|sent|..] == [empty]
            && MoveRun(before, [empty], Play(before, empty), r, source, target, ip)
  {
    var empty := EmptySource(before, source, ip, ok);
    PlayedOne(before, empty);
    assert [empty][0] == empty;
  }

  lemma FillFails(before: Config, sent: seq<Patch>, source: string, target: string, ip: Addr)
    requires Movable(before, source, target, ip) && !Contains(before[target], ip)
    ensures var fill := FillTarget(before, source, target, ip, false);
            && (sent + [fill])[|sent|..] == [fill]
            && MoveRun(before, [fill], Play(before, fill), Err(Unavailable), source, target, ip)
  {
    var fill := FillTarget(before, source, target, ip, false);
    PlayedOne(before, fill);
    assert [fill][0] == fill;
  }

  lemma FillAndEmptyRun(before: Config, sent: seq<Patch>, source: string, target: string, ip: Addr)
    requires Movable(before, source, target, ip) && !Contains(before[target], ip)
    ensures var fill, empty := FillTarget(before, source, target, ip, true), EmptySource(before, source, ip, true);
            && (sent + [fill] + [empty])[|sent|..] == [fill, empty]
            && MoveRun(before, [fill, empty], Play(Play(before, fill), empty), Ok(true), source, target, ip)
  {
    PlayedTwo(before, FillTarget(before, source, target, ip, true), EmptySource(before, source, ip, true));
  }

  lemma RestoreRun(before: Config, sent: seq<Patch>, source: string, target: string, ip: Addr, ok: bool)
    requires Movable(before, source, target, ip) && !Contains(before[target], ip)
    ensures var fill, empty := FillTarget(before, source, target, ip, true), EmptySource(before, source, ip, false);
            var restore := RestoreTarget(before, target, ok);
            && (sent + [fill] + [empty] + [restore])[|sent|..] == [fill, empty, restore]
            && MoveRun(before, [fill, empty, restore], Play(Play(Play(before, fill), empty), restore), Err(Unavailable), source, target, ip)
  {
    var fill, empty := FillTarget(before, source, target, ip, true), EmptySource(before, source, ip, false);
    PlayedThree(before, fill, empty, RestoreTarget(before, target, ok));
    assert [fill, empty, RestoreTarget(before, target, ok)][1] == empty;
  }

  class Client {
    const process: P.Process
    /** The configured full names, in configuration order. */
    const names: seq<string>
    var zones: Config
    /** Every PATCH that was sent. */
    ghost var calls: seq<Patch>

    ghost predicate Valid()
      reads this
    {
      && zones.Keys == (set name | name in names)
      && (forall i, j :: 0 <= i < j < |names| ==> names[i] != names[j])
    }

    constructor (process: P.Process, names: seq<string>, zones: Config)
      requires forall i, j :: 0 <= i < j < |names| ==> names[i] != names[j]
      requires zones.Keys == (set name | name in names)
      ensures Valid() && this.process == process && this.names == names && this.zones == zones && calls == []
    {
      this.process, this.names, this.zones, this.calls := process, names, zones, [];
    }

    /** GET: an answer with text that is no address is rejected as a whole. */
    method GetDomains() returns (r: Answer<Config>)
      modifies process
      ensures r.Ok? ==> r.value == zones && AllClean(zones)
      ensures r.Err? ==> r.error == Unavailable || (r.error == InvalidResponse && !AllClean(zones))
      ensures process.failures == old(process.failures) + if FailsWith(r, Unavailable) then 1 else 0
      ensures process.alive ==> old(process.alive)
    {
      var ok := process.Attempt();
      if !ok {
        return Err(Unavailable);
      }
      if exists name | name in zones.Keys :: !Clean(zones[name]) {
        return Err(InvalidResponse);
      }
      return Ok(zones);
    }

    /** PATCH of one located zone. */
    method PatchZone(name: string, body: Zone) returns (ok: bool)
      requires Valid() && name in zones
      modifies this, process
      ensures Valid() && (process.alive ==> old(process.alive))
      ensures zones == Play(old(zones), Patch(name, body, ok)) && calls == old(calls) + [Patch(name, body, ok)]
      ensures process.failures == old(process.failures) + if ok then 0 else 1
    {
      ok := process.Attempt();
      if ok {
        zones := zones[name := body];
      }
      calls := calls + [Patch(name, body, ok)];
    }

    method FindZonesByIP(ip: Addr) returns (r: Answer<seq<string>>)
      requires Valid()
      modifies process
      ensures r.Ok? ==> AllClean(zones) && forall name :: name in r.value <==> name in zones && Contains(zones[name], ip)
      ensures r.Ok? ==> forall i, j :: 0 <= i < j < |r.value| ==> r.value[i] != r.value[j]
      ensures r.Err? ==> r.error == Unavailable || (r.error == InvalidResponse && !AllClean(zones))
      ensures process.failures == old(process.failures) + if FailsWith(r, Unavailable) then 1 else 0
      ensures process.alive ==> old(process.alive)
    {
      var domains := GetDomains();
      if domains.Err? {
        return Err(domains.error);
      }
      var result: seq<string> := [];
      for i := 0 to |names|
        invariant Valid() && AllClean(zones) && (process.alive ==> old(process.alive)) && process.failures == old(process.failures)
        invariant forall name :: name in result <==> name in names[..i] && name in zones && Contains(zones[name], ip)
        invariant forall a, b :: 0 <= a < b < |result| ==> result[a] != result[b]
      {
        assert names[..i + 1] == names[..i] + [names[i]];
        assert names[i] in names;
        var matched := Find(Texts(zones[names[i]]), ip);
        if matched == Ok(true) {
          result := result + [names[i]];
        }
      }
      assert names[..|names|] == names;
      return Ok(result);
    }

    /** One PATCH of the whole list, and only when the address is missing. An error has
        its reason: a call that failed, or the input or the zones as they are. */
    method AddIP(fqdn: string, ip: Addr) returns (r: Answer<bool>)
      requires Valid()
      modifies this, process
      ensures Valid() && (process.alive ==> old(process.alive)) && old(process.failures) <= process.failures
      ensures FailsWith(r, InvalidInput) <==> NormalizeFQDN(fqdn) == ""
      ensures FailsWith(r, Unavailable) <==> old(process.failures) < process.failures
      ensures FailsWith(r, InvalidResponse) ==> !AllClean(old(zones))
      ensures FailsWith(r, NotFound) ==> Target(fqdn) !in old(zones)
      ensures r.Err? ==> zones == old(zones) && (calls == old(calls) || AddFails(old(zones), calls, old(calls), Target(fqdn), ip))
      ensures r.Ok? ==>
                && Target(fqdn) in old(zones) && AllClean(old(zones))
                && r.value == !Contains(old(zones)[Target(fqdn)], ip)
                && zones == old(zones)[Target(fqdn) := Added(old(zones)[Target(fqdn)], ip)]
                && calls == old(calls) + if r.value then [Patch(Target(fqdn), zones[Target(fqdn)], true)] else []
    {
      var key := NormalizeFQDN(fqdn);
      if key == "" {
        return Err(InvalidInput);
      }
      var locked := process.Attempt();
      if !locked {
        return Err(Unavailable);
      }
      var domains := GetDomains();
      if domains.Err? {
        return Err(domains.error);
      }
      var name := NormalizeFQDN(key);
      if name !in domains.value {
        return Err(NotFound);
      }
      var zone := domains.value[name];
      var present := Find(Texts(zone), ip);
      if present.value {
        return Ok(false);
      }
      var ok := PatchZone(name, Simple(IPsOf(zone) + [Canonical(ip)]));
      if !ok {
        return Err(Unavailable);
      }
      return Ok(true);
    }

    method ReplaceIP(fqdn: string, oldIP: Addr, newIP: Addr) returns (r: Answer<bool>)
      requires Valid()
      modifies this, process
      ensures Valid() && (process.alive ==> old(process.alive)) && old(process.failures) <= process.failures
      ensures FailsWith(r, InvalidInput) <==> NormalizeFQDN(fqdn) == "" || oldIP == newIP
      ensures FailsWith(r, Unavailable) <==> old(process.failures) < process.failures
      ensures FailsWith(r, InvalidResponse) ==> !AllClean(old(zones))
      ensures FailsWith(r, NotFound) ==>
                Target(fqdn) in old(zones) ==>
                  !Contains(old(zones)[Target(fqdn)], oldIP) && !Contains(old(zones)[Target(fqdn)], newIP)
      ensures r.Err? ==> zones == old(zones)
      ensures r.Ok? ==>
                && oldIP != newIP && Target(fqdn) in old(zones) && AllClean(old(zones))
                && r.value == Contains(old(zones)[Target(fqdn)], oldIP)
      ensures r == Ok(true) ==>
                && zones == old(zones)[Target(fqdn) := Replaced(old(zones)[Target(fqdn)], oldIP, newIP)]
                && calls == old(calls) + [Patch(Target(fqdn), zones[Target(fqdn)], true)]
      ensures r == Ok(false) ==>
                && Contains(old(zones)[Target(fqdn)], newIP)
                && zones == old(zones) && calls == old(calls)
    {
      var key := NormalizeFQDN(fqdn);
      if key == "" || oldIP == newIP {
        return Err(InvalidInput);
      }
      var locked := process.Attempt();
      if !locked {
        return Err(Unavailable);
      }
      var domains := GetDomains();
      if domains.Err? {
        return Err(domains.error);
      }
      var name := NormalizeFQDN(key);
      if name !in domains.value {
        return Err(NotFound);
      }
      r := ReplaceIn(name, oldIP, newIP);
    }

    /** The replacement once the zones are read. */
    method ReplaceIn(name: string, oldIP: Addr, newIP: Addr) returns (r: Answer<bool>)
      requires Valid() && AllClean(zones) && name in zones && oldIP != newIP
      modifies this, process
      ensures Valid() && (process.alive ==> old(process.alive)) && old(process.failures) <= process.failures
      ensures FailsWith(r, Unavailable) <==> old(process.failures) < process.failures
      ensures r.Err? ==> r.error == Unavailable || (r.error == NotFound && !Contains(old(zones)[name], oldIP) && !Contains(old(zones)[name], newIP))
      ensures r.Err? ==> zones == old(zones)
      ensures r.Ok? ==> r.value == Contains(old(zones)[name], oldIP)
      ensures r == Ok(true) ==>
                && zones == old(zones)[name := Replaced(old(zones)[name], oldIP, newIP)]
                && calls == old(calls) + [Patch(name, zones[name], true)]
      ensures r == Ok(false) ==> Contains(old(zones)[name], newIP) && zones == old(zones) && calls == old(calls)
    {
      var zone := zones[name];
      var exchange;
      if zone.Advanced? && zone.nodes != [] {
        exchange := ReplacedAdvanced(zone.nodes, oldIP, newIP);
      } else {
        assert zone.Advanced? ==> Texts(zone) == IPsOf(zone);
        exchange := ReplacedSimple(IPsOf(zone), oldIP, newIP);
      }
      if !exchange.value.foundOld {
        return if exchange.value.foundNew then Ok(false) else Err(NotFound);
      }
      var ok := PatchZone(name, exchange.value.body);
      return if ok then Ok(true) else Err(Unavailable);
    }

    /** The target is patched first; a source PATCH that fails is compensated by
        sending the target its snapshot. */
    method MoveIP(sourceFQDN: string, targetFQDN: string, ip: Addr) returns (r: Answer<bool>)
      requires Valid()
      modifies this, process
      ensures Valid() && (process.alive ==> old(process.alive)) && old(process.failures) <= process.failures
      ensures old(calls) <= calls
      ensures MoveRun(old(zones), calls[|old(calls)|..], zones, r, Target(sourceFQDN), Target(targetFQDN), ip)
      ensures FailsWith(r, Unavailable) <==> old(process.failures) < process.failures
      ensures !Compensated(calls[|old(calls)|..]) ==> old(process.failures) + 2 <= process.failures
      ensures BadKeys(sourceFQDN, targetFQDN) ==> FailsWith(r, InvalidInput)
      ensures r.Err? && r.error != Unavailable && !BadKeys(sourceFQDN, targetFQDN) ==>
                MoveRefused(old(zones), r.error, Target(sourceFQDN), Target(targetFQDN), ip)
    {
      var sourceKey, targetKey := NormalizeFQDN(sourceFQDN), NormalizeFQDN(targetFQDN);
      if sourceKey == "" || targetKey == "" || sourceKey == targetKey {
        return Err(InvalidInput);
      }
      var first := process.Attempt();
      if !first {
        return Err(Unavailable);
      }
      var second := process.Attempt();
      if !second {
        return Err(Unavailable);
      }
      var domains := GetDomains();
      if domains.Err? {
        return Err(domains.error);
      }
      var source, target := NormalizeFQDN(sourceKey), NormalizeFQDN(targetKey);
      if source !in domains.value || target !in domains.value {
        return Err(NotFound);
      }
      r := MoveBetween(source, target, ip);
    }

    /** The move once both zones are read. */
    method MoveBetween(source: string, target: string, ip: Addr) returns (r: Answer<bool>)
      requires Valid() && AllClean(zones) && source in zones && target in zones
      modifies this, process
      ensures Valid() && (process.alive ==> old(process.alive)) && old(process.failures) <= process.failures
      ensures old(calls) <= calls
      ensures MoveRun(old(zones), calls[|old(calls)|..], zones, r, source, target, ip)
      ensures FailsWith(r, Unavailable) <==> old(process.failures) < process.failures
      ensures !Compensated(calls[|old(calls)|..]) ==> old(process.failures) + 2 <= process.failures
      ensures r.Err? && r.error != Unavailable ==> MoveRefused(old(zones), r.error, source, target, ip)
    {
      var sourceZone, targetZone := zones[source], zones[target];
      if sourceZone.Advanced? != targetZone.Advanced? {
        return Err(InvalidInput);
      }
      var removal := ZoneWithoutIP(sourceZone, ip);
      if sourceZone.Advanced? {
        LastNodeMeans(sourceZone.nodes, ip);
      }
      var insertion := ZoneWithIP(targetZone, ip, removal.value.moved);
      if insertion.Err? {
        return Err(insertion.error);
      }
      if !removal.value.found {
        return if insertion.value.found then Ok(false) else Err(NotFound);
      }
      if insertion.value.found {
        r := EmptyOnly(source, target, ip);
      } else {
        r := FillThenEmpty(source, target, ip);
      }
    }

    /** A move to a zone that holds ip already. */
    method EmptyOnly(source: string, target: string, ip: Addr) returns (r: Answer<bool>)
      requires Valid() && Movable(zones, source, target, ip) && Contains(zones[target], ip)
      modifies this, process
      ensures Valid() && (process.alive ==> old(process.alive)) && old(process.failures) <= process.failures
      ensures old(calls) < calls
      ensures MoveRun(old(zones), calls[|old(calls)|..], zones, r, source, target, ip)
      ensures FailsWith(r, Unavailable) <==> old(process.failures) < process.failures
      ensures !Compensated(calls[|old(calls)|..]) ==> old(process.failures) + 2 <= process.failures
      ensures r.Err? ==> r.error == Unavailable
    {
      ghost var before, sent := zones, calls;
      var emptied := PatchZone(source, Without(zones[source], ip));
      EmptyRun(before, sent, source, target, ip, emptied);
      return if emptied then Ok(true) else Err(Unavailable);
    }

    /** A move to a zone that lacks ip. */
    method FillThenEmpty(source: string, target: string, ip: Addr) returns (r: Answer<bool>)
      requires Valid() && Movable(zones, source, target, ip) && !Contains(zones[target], ip)
      modifies this, process
      ensures Valid() && (process.alive ==> old(process.alive)) && old(process.failures) <= process.failures
      ensures old(calls) < calls
      ensures MoveRun(old(zones), calls[|old(calls)|..], zones, r, source, target, ip)
      ensures FailsWith(r, Unavailable) <==> old(process.failures) < process.failures
      ensures !Compensated(calls[|old(calls)|..]) ==> old(process.failures) + 2 <= process.failures
      ensures r.Err? ==> r.error == Unavailable
    {
      ghost var before, sent := zones, calls;
      var s, t := zones[source], zones[target];
      var filled := PatchZone(target, With(t, ip, Carried(s, ip)));
      if !filled {
        FillFails(before, sent, source, target, ip);
        return Err(Unavailable);
      }
      r := EmptyOrRestore(source, target, s, t, ip, before, sent);
    }

    /** The target holds the address now: the source is emptied, or else the target gets
        its former content back. */
    method EmptyOrRestore(source: string, target: string, s: Zone, t: Zone, ip: Addr, ghost before: Config, ghost sent: seq<Patch>)
      returns (r: Answer<bool>)
      requires Valid() && Movable(before, source, target, ip) && !Contains(before[target], ip) && s == before[source] && t == before[target]
      requires var fill := FillTarget(before, source, target, ip, true); zones == Play(before, fill) && calls == sent + [fill]
      modifies this, process
      ensures Valid() && (process.alive ==> old(process.alive)) && old(process.failures) <= process.failures
      ensures sent < calls && MoveRun(before, calls[|sent|..], zones, r, source, target, ip)
      ensures FailsWith(r, Unavailable) <==> old(process.failures) < process.failures
      ensures !Compensated(calls[|sent|..]) ==> old(process.failures) + 2 <= process.failures
      ensures r.Err? ==> r.error == Unavailable
    {
      var emptied := PatchZone(source, Without(s, ip));
      if emptied {
        FillAndEmptyRun(before, sent, source, target, ip);
        return Ok(true);
      }
      var restored := PatchZone(target, Snapshot(t));
      RestoreRun(before, sent, source, target, ip, restored);
      return Err(Unavailable);
    }
  }
}
