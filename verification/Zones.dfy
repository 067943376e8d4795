/** DNS-balancer zones and the whole-list edits that a PATCH carries
    (internal/dnsbalancer/models.go, wire.go, client.go). */
module Zones {
  import opened Wrappers

  /** Address text as the API stores it: the form Addr.String prints, another
      spelling of the same address, or text netip.ParseAddr rejects. */
  datatype IPText = Canonical(addr: Addr) | Spelled(raw: string, addr: Addr) | Garbage(raw: string)

  datatype ZoneNode = ZoneNode(ip: IPText, address: string)

  /** A zone uses one of the two formats. A PATCH body is a zone too: the lists it
      carries replace the zone's. */
  datatype Zone = Simple(ips: seq<IPText>) | Advanced(nodes: seq<ZoneNode>)

  /** The configured zones by their full names. */
  type Config = map<string, Zone>

  predicate Parses(t: IPText) {
    !t.Garbage?
  }

  predicate Is(t: IPText, ip: Addr) {
    Parses(t) && t.addr == ip
  }

  function NodeTexts(nodes: seq<ZoneNode>): seq<IPText> {
    seq(|nodes|, i requires 0 <= i < |nodes| => nodes[i].ip)
  }

  /** The address texts of a zone, whichever format it has. */
  function Texts(zone: Zone): seq<IPText> {
    match zone
    case Simple(ips) => ips
    case Advanced(nodes) => NodeTexts(nodes)
  }

  predicate AllParse(texts: seq<IPText>) {
    forall i :: 0 <= i < |texts| ==> Parses(texts[i])
  }

  predicate Holds(texts: seq<IPText>, ip: Addr) {
    exists i :: 0 <= i < |texts| && Is(texts[i], ip)
  }

  predicate Clean(zone: Zone) {
    AllParse(Texts(zone))
  }

  predicate Contains(zone: Zone, ip: Addr) {
    Holds(Texts(zone), ip)
  }

  ghost predicate AllClean(zones: Config) {
    forall name :: name in zones ==> Clean(zones[name])
  }

  /** Zones are compared by the addresses they hold. */
  ghost predicate SameAddresses(a: Zone, b: Zone) {
    forall ip :: Contains(a, ip) <==> Contains(b, ip)
  }

  /** b holds what a holds, except that `gone` is out and `come` is in. */
  ghost predicate Exchanged(a: Zone, b: Zone, gone: set<Addr>, come: set<Addr>) {
    forall ip :: Contains(b, ip) <==> ip in come || (Contains(a, ip) && ip !in gone)
  }

  // ---- The edits ----

  function IPsOf(zone: Zone): seq<IPText> {
    if zone.Simple? then zone.ips else []
  }

  /** AddIP: the simple list that is sent, every simple entry first. */
  function Added(zone: Zone, ip: Addr): Zone {
    if Contains(zone, ip) then zone else Simple(IPsOf(zone) + [Canonical(ip)])
  }

  function IPsWithout(ips: seq<IPText>, ip: Addr): seq<IPText>
    requires AllParse(ips)
  {
    if ips == [] then []
    else
      var last := ips[|ips| - 1];
      IPsWithout(ips[..|ips| - 1], ip) + (if last.addr == ip then [] else [Canonical(last.addr)])
  }

  function NodesWithout(nodes: seq<ZoneNode>, ip: Addr): seq<ZoneNode> {
    if nodes == [] then []
    else
      var last := nodes[|nodes| - 1];
      NodesWithout(nodes[..|nodes| - 1], ip) + (if Is(last.ip, ip) then [] else [last])
  }

  /** MoveIP's source request: every entry for ip is dropped. */
  function Without(zone: Zone, ip: Addr): Zone
    requires Clean(zone)
  {
    match zone
    case Simple(ips) => Simple(IPsWithout(ips, ip))
    case Advanced(nodes) => Advanced(NodesWithout(nodes, ip))
  }

  /** The entry whose address field travels: the last one that holds ip. */
  function LastNode(nodes: seq<ZoneNode>, ip: Addr): Option<ZoneNode> {
    if nodes == [] then None
    else if Is(nodes[|nodes| - 1].ip, ip) then Some(nodes[|nodes| - 1])
    else LastNode(nodes[..|nodes| - 1], ip)
  }

  function Carried(zone: Zone, ip: Addr): Option<ZoneNode> {
    if zone.Advanced? then LastNode(zone.nodes, ip) else None
  }

  predicate SameFormat(a: Zone, b: Zone) {
    a.Advanced? <==> b.Advanced?
  }

  /** MoveIP's target request when the target does not hold ip yet. */
  function With(target: Zone, ip: Addr, carried: Option<ZoneNode>): Zone
    requires target.Advanced? ==> carried.Some?
  {
    match target
    case Simple(ips) => Simple(ips + [Canonical(ip)])
    case Advanced(nodes) => Advanced(nodes + [carried.value])
  }

  /** The compensating request. A nil slice is what copying an empty list gives, and
      a request whose node list is nil is encoded as an IP list. */
  function Snapshot(zone: Zone): Zone {
    if zone == Advanced([]) then Simple([]) else zone
  }

  function NodesReplaced(nodes: seq<ZoneNode>, oldIP: Addr, newIP: Addr, drop: bool): seq<ZoneNode> {
    if nodes == [] then []
    else
      var last := nodes[|nodes| - 1];
      NodesReplaced(nodes[..|nodes| - 1], oldIP, newIP, drop)
      + (if !Is(last.ip, oldIP) then [last] else if drop then [] else [last.(ip := Canonical(newIP))])
  }

  /** ReplaceIP's request, for a zone that holds `oldIP`. */
  function Replaced(zone: Zone, oldIP: Addr, newIP: Addr): Zone
    requires Clean(zone)
  {
    match zone
    case Simple(ips) =>
      Simple(IPsWithout(ips, oldIP) + (if Contains(zone, newIP) then [] else [Canonical(newIP)]))
    case Advanced(nodes) =>
      Advanced(NodesReplaced(nodes, oldIP, newIP, Contains(zone, newIP)))
  }

  // ---- What the edits mean ----

  /** A list holds what its front holds and what its last entry is. */
  lemma Snoc(front: seq<IPText>, last: IPText)
    ensures forall a :: Holds(front + [last], a) <==> Holds(front, a) || Is(last, a)
    ensures AllParse(front + [last]) <==> AllParse(front) && Parses(last)
  {
    var whole := front + [last];
    assert whole[|front|] == last;
    assert forall i :: 0 <= i < |front| ==> whole[i] == front[i];
    forall a ensures Holds(whole, a) <==> Holds(front, a) || Is(last, a) {
      if Holds(front, a) {
        var i :| 0 <= i < |front| && Is(front[i], a);
        assert Is(whole[i], a);
      }
    }
  }

  lemma SnocNode(front: seq<ZoneNode>, last: ZoneNode)
    ensures forall a :: Holds(NodeTexts(front + [last]), a) <==> Holds(NodeTexts(front), a) || Is(last.ip, a)
    ensures AllParse(NodeTexts(front + [last])) <==> AllParse(NodeTexts(front)) && Parses(last.ip)
  {
    assert NodeTexts(front + [last]) == NodeTexts(front) + [last.ip];
    Snoc(NodeTexts(front), last.ip);
  }

  // One more entry for each of the edits.

  lemma IPsWithoutSnoc(ips: seq<IPText>, last: IPText, ip: Addr)
    requires AllParse(ips) && Parses(last)
    ensures AllParse(ips + [last])
    ensures IPsWithout(ips + [last], ip) == IPsWithout(ips, ip) + (if last.addr == ip then [] else [Canonical(last.addr)])
  {
    Snoc(ips, last);
    assert (ips + [last])[..|ips|] == ips;
  }

  lemma NodesWithoutSnoc(nodes: seq<ZoneNode>, last: ZoneNode, ip: Addr)
    ensures NodesWithout(nodes + [last], ip) == NodesWithout(nodes, ip) + (if Is(last.ip, ip) then [] else [last])
    ensures LastNode(nodes + [last], ip) == if Is(last.ip, ip) then Some(last) else LastNode(nodes, ip)
  {
    assert (nodes + [last])[..|nodes|] == nodes;
  }

  lemma NodesReplacedSnoc(nodes: seq<ZoneNode>, last: ZoneNode, oldIP: Addr, newIP: Addr, drop: bool)
    ensures NodesReplaced(nodes + [last], oldIP, newIP, drop) ==
            NodesReplaced(nodes, oldIP, newIP, drop)
            + (if !Is(last.ip, oldIP) then [last] else if drop then [] else [last.(ip := Canonical(newIP))])
  {
    assert (nodes + [last])[..|nodes|] == nodes;
  }

  lemma {:induction false} IPsWithoutMeans(ips: seq<IPText>, ip: Addr)
    requires AllParse(ips)
    ensures AllParse(IPsWithout(ips, ip))
    ensures forall a :: Holds(IPsWithout(ips, ip), a) <==> a != ip && Holds(ips, a)
  {
    if ips != [] {
      var init, last := ips[..|ips| - 1], ips[|ips| - 1];
      IPsWithoutMeans(init, ip);
      Snoc(init, last);
      assert init + [last] == ips;
      Snoc(IPsWithout(init, ip), Canonical(last.addr));
      assert IPsWithout(init, ip) + [] == IPsWithout(init, ip);
    }
  }

  lemma {:induction false} NodesWithoutMeans(nodes: seq<ZoneNode>, ip: Addr)
    requires AllParse(NodeTexts(nodes))
    ensures AllParse(NodeTexts(NodesWithout(nodes, ip)))
    ensures forall a :: Holds(NodeTexts(NodesWithout(nodes, ip)), a) <==> a != ip && Holds(NodeTexts(nodes), a)
  {
    if nodes != [] {
      var init, last := nodes[..|nodes| - 1], nodes[|nodes| - 1];
      SnocNode(init, last);
      assert init + [last] == nodes;
      NodesWithoutMeans(init, ip);
      SnocNode(NodesWithout(init, ip), last);
      assert NodesWithout(init, ip) + [] == NodesWithout(init, ip);
    }
  }

  lemma {:induction false} NodesReplacedMeans(nodes: seq<ZoneNode>, oldIP: Addr, newIP: Addr, drop: bool)
    requires oldIP != newIP && AllParse(NodeTexts(nodes))
    ensures AllParse(NodeTexts(NodesReplaced(nodes, oldIP, newIP, drop)))
    ensures forall a :: Holds(NodeTexts(NodesReplaced(nodes, oldIP, newIP, drop)), a) <==>
                        || (a != oldIP && Holds(NodeTexts(nodes), a))
                        || (a == newIP && !drop && Holds(NodeTexts(nodes), oldIP))
  {
    if nodes != [] {
      var init, last := nodes[..|nodes| - 1], nodes[|nodes| - 1];
      SnocNode(init, last);
      assert init + [last] == nodes;
      NodesReplacedMeans(init, oldIP, newIP, drop);
      var front := NodesReplaced(init, oldIP, newIP, drop);
      SnocNode(front, last);
      SnocNode(front, last.(ip := Canonical(newIP)));
      assert front + [] == front;
    }
  }

  /** The source loses exactly ip. */
  lemma WithoutMeans(zone: Zone, ip: Addr)
    requires Clean(zone)
    ensures Clean(Without(zone, ip)) && Exchanged(zone, Without(zone, ip), {ip}, {})
  {
    match zone
    case Simple(ips) =>
      IPsWithoutMeans(ips, ip);
    case Advanced(nodes) =>
      NodesWithoutMeans(nodes, ip);
  }

  // Which entries of a list stay: those at the ascending places `at`.

  ghost predicate Ascending(at: seq<nat>, n: nat) {
    && (forall j :: 0 <= j < |at| ==> at[j] < n)
    && (forall j, k :: 0 <= j < k < |at| ==> at[j] < at[k])
  }

  lemma AscendingSnoc(at: seq<nat>, n: nat)
    requires Ascending(at, n)
    ensures Ascending(at, n + 1) && Ascending(at + [n], n + 1) && n !in at
    ensures forall i :: i in at + [n] <==> i in at || i == n
  {
  }

  /** The kept nodes are untouched, keep their order, and are those of the other
      addresses without exception. */
  ghost predicate KeptAt(nodes: seq<ZoneNode>, ip: Addr, kept: seq<ZoneNode>, at: seq<nat>) {
    && |at| == |kept| && Ascending(at, |nodes|)
    && (forall j :: 0 <= j < |at| ==> nodes[at[j]] == kept[j])
    && (forall i :: 0 <= i < |nodes| ==> (i in at <==> !Is(nodes[i].ip, ip)))
  }

  lemma KeptAtSnoc(init: seq<ZoneNode>, last: ZoneNode, ip: Addr, kept: seq<ZoneNode>, at: seq<nat>)
    requires KeptAt(init, ip, kept, at)
    ensures Is(last.ip, ip) ==> KeptAt(init + [last], ip, kept, at)
    ensures !Is(last.ip, ip) ==> KeptAt(init + [last], ip, kept + [last], at + [|init|])
  {
    AscendingSnoc(at, |init|);
  }

  /** The nodes that stay are untouched and keep their order. */
  lemma {:induction false} NodesWithoutKeeps(nodes: seq<ZoneNode>, ip: Addr) returns (at: seq<nat>)
    ensures KeptAt(nodes, ip, NodesWithout(nodes, ip), at)
  {
    at := [];
    if nodes != [] {
      var init, last := nodes[..|nodes| - 1], nodes[|nodes| - 1];
      at := NodesWithoutKeeps(init, ip);
      KeptAtSnoc(init, last, ip, NodesWithout(init, ip), at);
      assert init + [last] == nodes;
      if Is(last.ip, ip) {
        assert NodesWithout(init, ip) + [] == NodesWithout(init, ip);
      } else {
        at := at + [|init|];
      }
    }
  }

  /** The same of a simple list, whose addresses are printed anew. */
  ghost predicate IPsKeptAt(ips: seq<IPText>, ip: Addr, kept: seq<IPText>, at: seq<nat>) {
    && |at| == |kept| && Ascending(at, |ips|)
    && (forall j :: 0 <= j < |at| ==> kept[j].Canonical? && Is(ips[at[j]], kept[j].addr))
    && (forall i :: 0 <= i < |ips| ==> (i in at <==> !Is(ips[i], ip)))
  }

  lemma {:induction false} IPsWithoutKeeps(ips: seq<IPText>, ip: Addr) returns (at: seq<nat>)
    requires AllParse(ips)
    ensures IPsKeptAt(ips, ip, IPsWithout(ips, ip), at)
  {
    at := [];
    if ips != [] {
      var init, last := ips[..|ips| - 1], ips[|ips| - 1];
      at := IPsWithoutKeeps(init, ip);
      AscendingSnoc(at, |init|);
      assert init + [last] == ips;
      if last.addr == ip {
        assert IPsWithout(init, ip) + [] == IPsWithout(init, ip);
      } else {
        at := at + [|init|];
      }
    }
  }

  /** What a replacement makes of an advanced zone's entries: those of other addresses
      stay untouched, those of the old one get the new address and keep their own
      address field, or are dropped when `drop`; all in their order. */
  ghost predicate ReplacedAt(nodes: seq<ZoneNode>, oldIP: Addr, newIP: Addr, drop: bool, result: seq<ZoneNode>, at: seq<nat>) {
    && |at| == |result| && Ascending(at, |nodes|)
    && (forall j :: 0 <= j < |at| ==>
          && result[j].address == nodes[at[j]].address
          && result[j].ip == if Is(nodes[at[j]].ip, oldIP) then Canonical(newIP) else nodes[at[j]].ip)
    && (forall i :: 0 <= i < |nodes| ==> (i in at <==> !(drop && Is(nodes[i].ip, oldIP))))
  }

  lemma ReplacedAtSnoc(init: seq<ZoneNode>, last: ZoneNode, oldIP: Addr, newIP: Addr, drop: bool, result: seq<ZoneNode>, at: seq<nat>)
    requires ReplacedAt(init, oldIP, newIP, drop, result, at)
    ensures drop && Is(last.ip, oldIP) ==> ReplacedAt(init + [last], oldIP, newIP, drop, result, at)
    ensures !(drop && Is(last.ip, oldIP)) ==>
              var made := if Is(last.ip, oldIP) then last.(ip := Canonical(newIP)) else last;
              ReplacedAt(init + [last], oldIP, newIP, drop, result + [made], at + [|init|])
  {
    AscendingSnoc(at, |init|);
  }

  lemma {:induction false} NodesReplacedKeeps(nodes: seq<ZoneNode>, oldIP: Addr, newIP: Addr, drop: bool) returns (at: seq<nat>)
    ensures ReplacedAt(nodes, oldIP, newIP, drop, NodesReplaced(nodes, oldIP, newIP, drop), at)
  {
    at := [];
    if nodes != [] {
      var init, last := nodes[..|nodes| - 1], nodes[|nodes| - 1];
      at := NodesReplacedKeeps(init, oldIP, newIP, drop);
      ReplacedAtSnoc(init, last, oldIP, newIP, drop, NodesReplaced(init, oldIP, newIP, drop), at);
      assert init + [last] == nodes;
      if drop && Is(last.ip, oldIP) {
        assert NodesReplaced(init, oldIP, newIP, drop) + [] == NodesReplaced(init, oldIP, newIP, drop);
      } else {
        at := at + [|init|];
      }
    }
  }

  /** ReplaceIP, entry by entry: whatever is not of the old address stays as it is and
      where it is. The new address takes the old entries' places in an advanced zone
      and the end of a simple one, unless it was there already. */
  lemma ReplacedEntries(zone: Zone, oldIP: Addr, newIP: Addr) returns (at: seq<nat>)
    requires Clean(zone)
    ensures var r, there := Replaced(zone, oldIP, newIP), Contains(zone, newIP);
            && SameFormat(zone, r)
            && (zone.Advanced? ==> ReplacedAt(zone.nodes, oldIP, newIP, there, r.nodes, at))
            && (zone.Simple? ==>
                  && |at| <= |r.ips| && IPsKeptAt(zone.ips, oldIP, r.ips[..|at|], at)
                  && r.ips[|at|..] == if there then [] else [Canonical(newIP)])
  {
    match zone
    case Simple(ips) =>
      at := IPsWithoutKeeps(ips, oldIP);
      var kept, r := IPsWithout(ips, oldIP), Replaced(zone, oldIP, newIP);
      assert r.ips[..|at|] == kept;
    case Advanced(nodes) =>
      at := NodesReplacedKeeps(nodes, oldIP, newIP, Contains(zone, newIP));
  }

  /** Entry k is the last one that holds ip. */
  ghost predicate LastAt(nodes: seq<ZoneNode>, ip: Addr, k: nat) {
    && k < |nodes| && Is(nodes[k].ip, ip)
    && forall j :: k < j < |nodes| ==> !Is(nodes[j].ip, ip)
  }

  lemma {:induction false} LastNodeMeans(nodes: seq<ZoneNode>, ip: Addr)
    ensures LastNode(nodes, ip).Some? <==> Holds(NodeTexts(nodes), ip)
    ensures LastNode(nodes, ip).Some? ==> LastNode(nodes, ip).value in nodes && Is(LastNode(nodes, ip).value.ip, ip)
    ensures LastNode(nodes, ip).Some? ==> exists k: nat :: LastAt(nodes, ip, k) && nodes[k] == LastNode(nodes, ip).value
  {
    if nodes != [] {
      var init, last := nodes[..|nodes| - 1], nodes[|nodes| - 1];
      LastNodeMeans(init, ip);
      SnocNode(init, last);
      assert nodes == init + [last];
      if Is(last.ip, ip) {
        assert LastAt(nodes, ip, |nodes| - 1);
      } else if LastNode(init, ip).Some? {
        var k: nat :| LastAt(init, ip, k) && init[k] == LastNode(init, ip).value;
        assert LastAt(nodes, ip, k);
      }
    }
  }

  /** The target gains exactly ip at its end; an advanced target gains the source's own
      last entry for it, address field included. */
  lemma WithMeans(source: Zone, target: Zone, ip: Addr)
    requires Clean(source) && Clean(target) && SameFormat(source, target) && Contains(source, ip)
    ensures target.Advanced? ==> Carried(source, ip).Some?
    ensures var r := With(target, ip, Carried(source, ip));
            Clean(r) && SameFormat(r, target) && Exchanged(target, r, {}, {ip})
            && (target.Simple? ==> r.ips == target.ips + [Canonical(ip)])
            && (target.Advanced? ==> exists k: nat :: LastAt(source.nodes, ip, k) && r.nodes == target.nodes + [source.nodes[k]])
  {
    match target
    case Simple(ips) =>
      Snoc(ips, Canonical(ip));
    case Advanced(nodes) =>
      LastNodeMeans(source.nodes, ip);
      var carried := Carried(source, ip).value;
      SnocNode(nodes, carried);
  }

  /** A replacement takes `oldIP` out, puts `newIP` in and keeps everything else. */
  lemma ReplacedMeans(zone: Zone, oldIP: Addr, newIP: Addr)
    requires Clean(zone) && oldIP != newIP && Contains(zone, oldIP)
    ensures Clean(Replaced(zone, oldIP, newIP)) && SameFormat(zone, Replaced(zone, oldIP, newIP))
    ensures Exchanged(zone, Replaced(zone, oldIP, newIP), {oldIP}, {newIP})
  {
    match zone
    case Simple(ips) =>
      IPsWithoutMeans(ips, oldIP);
      Snoc(IPsWithout(ips, oldIP), Canonical(newIP));
      assert IPsWithout(ips, oldIP) + [] == IPsWithout(ips, oldIP);
    case Advanced(nodes) =>
      NodesReplacedMeans(nodes, oldIP, newIP, Contains(zone, newIP));
  }

  /** Replacing back gives the zone its addresses again exactly when it did not
      hold the new address in the first place. */
  lemma ReplaceBackRestores(zone: Zone, oldIP: Addr, newIP: Addr)
    requires Clean(zone) && oldIP != newIP && Contains(zone, oldIP)
    ensures Clean(Replaced(zone, oldIP, newIP)) && Contains(Replaced(zone, oldIP, newIP), newIP)
    ensures SameAddresses(Replaced(Replaced(zone, oldIP, newIP), newIP, oldIP), zone) <==> !Contains(zone, newIP)
  {
    ReplacedMeans(zone, oldIP, newIP);
    var there := Replaced(zone, oldIP, newIP);
    assert Contains(there, newIP);
    ReplacedMeans(there, newIP, oldIP);
    var back := Replaced(there, newIP, oldIP);
    assert !Contains(back, newIP);
  }

  /** AddIP puts ip in, at the end of a simple zone's own entries. It keeps every address that was there exactly when the zone
      held ip already or has no advanced entry: the list it sends has the simple
      entries only. */
  lemma AddedMeans(zone: Zone, ip: Addr)
    requires Clean(zone)
    ensures Clean(Added(zone, ip)) && Contains(Added(zone, ip), ip)
    ensures Contains(zone, ip) ==> Added(zone, ip) == zone
    ensures zone.Simple? && !Contains(zone, ip) ==> Added(zone, ip).Simple? && Added(zone, ip).ips == zone.ips + [Canonical(ip)]
    ensures Exchanged(zone, Added(zone, ip), {}, {ip})
            <==> Contains(zone, ip) || zone.Simple? || zone.nodes == []
  {
    if !Contains(zone, ip) {
      Snoc(IPsOf(zone), Canonical(ip));
      if zone.Advanced? && zone.nodes != [] {
        var lost := zone.nodes[0].ip;
        assert Is(Texts(zone)[0], lost.addr);
        assert Contains(zone, lost.addr) && !Contains(Added(zone, ip), lost.addr);
      }
    }
  }

  /** The compensating request is the zone itself, except for an empty advanced zone,
      which comes back as an empty simple one. */
  lemma SnapshotMeans(zone: Zone)
    ensures SameAddresses(Snapshot(zone), zone)
    ensures Snapshot(zone) == zone <==> zone != Advanced([])
  {
    forall ip ensures Contains(Snapshot(zone), ip) <==> Contains(zone, ip) {
    }
  }
}
