/** The panel's nodes, and the checks that keep a deployment from making a second
    one (internal/orchestrator/service.go, internal/remnawave/validation.go). */
module PanelNodes {
  import opened Wrappers
  import Names
  import opened DeploymentTables

  /** `address` is None when the text is no address; `mapped` says that it is spelled as
      an IPv4-mapped IPv6 address, which Unmap removes. */
  datatype PanelNode = PanelNode(uuid: string, name: string, address: Option<Addr>, mapped: bool, connected: bool, connecting: bool)

  /** A Host; `sni` is None when the Host has no deployable profile. */
  datatype Host = Host(uuid: string, disabled: bool, sni: Option<string>)

  datatype Check = Unique | DuplicateName | DuplicateAddress | DuplicateBoth

  predicate NameMatches(n: PanelNode, name: string) {
    Names.TrimSpace(n.name) == Names.TrimSpace(name)
  }

  predicate AddressMatches(n: PanelNode, ip: Addr) {
    n.address == Some(ip)
  }

  /** Names are compared trimmed, addresses as addresses. */
  lemma MatchesMean(n: PanelNode, name: string, ip: Addr)
    ensures NameMatches(n, name) <==> Names.TrimSpace(n.name) == Names.TrimSpace(name)
    ensures AddressMatches(n, ip) <==> n.address.Some? && n.address.value == ip
  {
  }

  /** The node of a deployment: its name and its address. */
  predicate Ours(n: PanelNode, name: string, ip: Addr) {
    NameMatches(n, name) && AddressMatches(n, ip)
  }

  function OurUUIDs(nodes: seq<PanelNode>, name: string, ip: Addr): set<string> {
    set n | n in nodes && Ours(n, name, ip) :: n.uuid
  }

  predicate UniqueUUIDs(nodes: seq<PanelNode>) {
    forall i, j :: 0 <= i < j < |nodes| ==> nodes[i].uuid != nodes[j].uuid
  }

  ghost predicate AtMostOne(nodes: seq<PanelNode>, name: string, ip: Addr) {
    forall i, j :: 0 <= i < |nodes| && 0 <= j < |nodes| && Ours(nodes[i], name, ip) && Ours(nodes[j], name, ip) ==> i == j
  }

  /** The node may stand beside a new or resumed deployment: it is its own, or, when
      `allowRecovery`, the one that an interrupted run has made, or it shares neither the
      name nor the address. */
  ghost predicate NodeFits(n: PanelNode, name: string, ip: Addr, own: Option<string>, allowRecovery: bool) {
    || own == Some(n.uuid)
    || (allowRecovery && own.None? && NameMatches(n, name) && AddressMatches(n, ip))
    || (!NameMatches(n, name) && !AddressMatches(n, ip))
  }

  ghost predicate NodesFit(nodes: seq<PanelNode>, name: string, ip: Addr, own: Option<string>, allowRecovery: bool) {
    forall n :: n in nodes ==> NodeFits(n, name, ip, own, allowRecovery)
  }

  /** The node at `i` is the first that does not fit, and `check` names what it shares. */
  ghost predicate FirstClash(nodes: seq<PanelNode>, i: int, check: Check, name: string, ip: Addr, own: Option<string>, allowRecovery: bool) {
    && 0 <= i < |nodes| && !NodeFits(nodes[i], name, ip, own, allowRecovery)
    && (forall j :: 0 <= j < i ==> NodeFits(nodes[j], name, ip, own, allowRecovery))
    && (check.DuplicateAddress? <==> !NameMatches(nodes[i], name))
    && (check.DuplicateName? <==> !AddressMatches(nodes[i], ip))
  }

  method CheckUnique(nodes: seq<PanelNode>, name: string, ip: Addr, own: Option<string>, allowRecovery: bool) returns (r: Check)
    ensures r.Unique? <==> NodesFit(nodes, name, ip, own, allowRecovery)
    ensures !r.Unique? ==> exists i :: FirstClash(nodes, i, r, name, ip, own, allowRecovery)
  {
    for i := 0 to |nodes|
      invariant forall j :: 0 <= j < i ==> NodeFits(nodes[j], name, ip, own, allowRecovery)
    {
      var n := nodes[i];
      if own == Some(n.uuid) {
        continue;
      }
      if allowRecovery && own.None? && Ours(n, name, ip) {
        continue;
      }
      if Ours(n, name, ip) {
        assert FirstClash(nodes, i, DuplicateBoth, name, ip, own, allowRecovery);
        return DuplicateBoth;
      }
      if NameMatches(n, name) {
        assert FirstClash(nodes, i, DuplicateName, name, ip, own, allowRecovery);
        return DuplicateName;
      }
      if AddressMatches(n, ip) {
        assert FirstClash(nodes, i, DuplicateAddress, name, ip, own, allowRecovery);
        return DuplicateAddress;
      }
    }
    return Unique;
  }

  datatype Recovered = Adopt(node: PanelNode) | NoneYet | Duplicate(check: Check)

  /** Two nodes share both the name and the address, or one shares only one of them. */
  ghost predicate Duplicated(nodes: seq<PanelNode>, name: string, ip: Addr) {
    || !AtMostOne(nodes, name, ip)
    || exists n :: n in nodes && !(NameMatches(n, name) <==> AddressMatches(n, ip))
  }

  /** The one node to adopt, if the panel has it already: any node that shares only
      the name or only the address, or a second full match, is a duplicate. */
  method RecoverableNode(nodes: seq<PanelNode>, name: string, ip: Addr) returns (r: Recovered)
    ensures r.Adopt? ==> r.node in nodes && Ours(r.node, name, ip) && AtMostOne(nodes, name, ip)
    ensures r.NoneYet? <==> forall n :: n in nodes ==> !NameMatches(n, name) && !AddressMatches(n, ip)
    ensures r.Duplicate? <==> Duplicated(nodes, name, ip)
  {
    var recovered := None;
    ghost var at := 0;
    for i := 0 to |nodes|
      invariant recovered.Some? ==> 0 <= at < i && nodes[at] == recovered.value && Ours(nodes[at], name, ip)
      invariant forall j :: 0 <= j < i && !(recovered.Some? && j == at) ==> !NameMatches(nodes[j], name) && !AddressMatches(nodes[j], ip)
    {
      var n := nodes[i];
      if Ours(n, name, ip) {
        if recovered.Some? {
          assert Ours(nodes[at], name, ip) && Ours(nodes[i], name, ip) && at != i;
          return Duplicate(DuplicateBoth);
        }
        recovered, at := Some(n), i;
        continue;
      }
      if NameMatches(n, name) {
        return Duplicate(DuplicateName);
      }
      if AddressMatches(n, ip) {
        return Duplicate(DuplicateAddress);
      }
    }
    if recovered.Some? {
      return Adopt(recovered.value);
    }
    return NoneYet;
  }

  /** CreateNode's own check, before it creates anything. It does not unmap the panel's
      addresses. */
  predicate NoDuplicates(nodes: seq<PanelNode>, name: string, ip: Addr) {
    forall n :: n in nodes ==> !NameMatches(n, name) && !(AddressMatches(n, ip) && !n.mapped)
  }

  /** It is weaker than the uniqueness that the workflow checks, but rules out a node
      with the same name and address. */
  lemma NoDuplicateIsOurs(nodes: seq<PanelNode>, name: string, ip: Addr)
    requires NoDuplicates(nodes, name, ip)
    ensures forall n :: n in nodes ==> !Ours(n, name, ip)
  {
  }

  /** Host i is the first with that UUID. */
  ghost predicate FirstWith(hosts: seq<Host>, i: nat, uuid: string)
    requires i < |hosts|
  {
    hosts[i].uuid == uuid && forall j :: 0 <= j < i ==> hosts[j].uuid != uuid
  }

  /** The first Host with that UUID, if it is enabled and deployable. */
  method SelectHost(hosts: seq<Host>, uuid: string) returns (r: Option<Host>)
    ensures r.Some? ==>
              && !r.value.disabled && r.value.sni.Some?
              && exists i :: 0 <= i < |hosts| && FirstWith(hosts, i, uuid) && hosts[i] == r.value
    ensures r.None? ==>
              || (forall h :: h in hosts ==> h.uuid != uuid)
              || (exists i :: 0 <= i < |hosts| && FirstWith(hosts, i, uuid) && (hosts[i].disabled || hosts[i].sni.None?))
  {
    for i := 0 to |hosts|
      invariant forall j :: 0 <= j < i ==> hosts[j].uuid != uuid
    {
      var host := hosts[i];
      if host.uuid != uuid {
        continue;
      }
      assert FirstWith(hosts, i, uuid);
      if host.disabled || host.sni.None? {
        break;
      }
      return Some(host);
    }
    return None;
  }

  /** GetNode. */
  method FindNode(nodes: seq<PanelNode>, uuid: string) returns (r: Option<PanelNode>)
    ensures r.Some? ==> r.value in nodes && r.value.uuid == uuid
    ensures r.None? ==> forall n :: n in nodes ==> n.uuid != uuid
  {
    for i := 0 to |nodes|
      invariant forall j :: 0 <= j < i ==> nodes[j].uuid != uuid
    {
      if nodes[i].uuid == uuid {
        return Some(nodes[i]);
      }
    }
    return None;
  }
}
