/** Grouping the nodes of every panel by how busy they are
    (classifyNodePanels of internal/telegram/node_inventory.go). */
module NodeGroups {
  import opened Wrappers
  import opened Sorting
  import N = Names

  datatype Node = Node(panel: string, uuid: string, name: string,
                       disabled: bool, connected: bool, onlineKnown: bool, online: int)

  datatype Group = Critical | Active | Disabled | Ignored

  datatype Snapshot = Snapshot(panel: string, all: seq<Node>, critical: seq<Node>, disabled: seq<Node>,
                               active: seq<Node>, ignored: seq<Node>)
  {
    function Of(g: Group): seq<Node> {
      match g
      case Critical => critical
      case Active => active
      case Disabled => disabled
      case Ignored => ignored
    }
  }

  function Threshold(policy: int): int {
    if policy < 1 then 50 else policy
  }

  function GroupOf(n: Node, threshold: int): Group {
    if n.disabled then Disabled
    else if !n.connected || !n.onlineKnown then Ignored
    else if n.online <= threshold then Critical
    else Active
  }

  // The groups by a node's own fields.

  ghost predicate Counted(n: Node) {
    !n.disabled && n.connected && n.onlineKnown
  }

  ghost predicate Belongs(n: Node, g: Group, threshold: int) {
    match g
    case Disabled => n.disabled
    case Ignored => !n.disabled && !(n.connected && n.onlineKnown)
    case Critical => Counted(n) && n.online <= threshold
    case Active => Counted(n) && n.online > threshold
  }

  lemma GroupOfMeans(n: Node, g: Group, threshold: int)
    ensures GroupOf(n, threshold) == g <==> Belongs(n, g, threshold)
  {
  }

  /** Where a panel ID is listed last. */
  function PanelIndex(panels: seq<string>, id: string): Option<nat> {
    if panels == [] then None
    else if panels[|panels| - 1] == id then Some(|panels| - 1)
    else PanelIndex(panels[..|panels| - 1], id)
  }

  /** The last panel with that ID. */
  ghost predicate ListedLast(panels: seq<string>, id: string, j: nat) {
    j < |panels| && panels[j] == id && forall k :: j < k < |panels| ==> panels[k] != id
  }

  lemma {:induction false} PanelIndexMeans(panels: seq<string>, id: string, j: nat)
    ensures PanelIndex(panels, id) == Some(j) <==> ListedLast(panels, id, j)
  {
    if panels != [] {
      PanelIndexMeans(panels[..|panels| - 1], id, j);
    }
  }

  function NameLess(a: Node, b: Node): bool {
    N.Less(a.name, b.name)
  }

  function FewerOnline(a: Node, b: Node): bool {
    a.online < b.online || (a.online == b.online && NameLess(a, b))
  }

  function MoreOnline(a: Node, b: Node): bool {
    a.online > b.online || (a.online == b.online && NameLess(a, b))
  }

  function OrderOf(g: Group): (Node, Node) -> bool {
    match g
    case Critical => FewerOnline
    case Active => MoreOnline
    case _ => NameLess
  }

  lemma NamesAreWeak(a: Node, b: Node, c: Node)
    ensures NameLess(a, b) ==> !NameLess(b, a)
    ensures NameLess(a, c) ==> NameLess(a, b) || NameLess(b, c)
  {
    if NameLess(a, b) && NameLess(b, a) {
      N.LessTransitive(a.name, b.name, a.name);
      N.LessIrreflexive(a.name);
    }
    if NameLess(a, c) && !NameLess(a, b) {
      N.LessTotal(a.name, b.name);
      if a.name != b.name {
        N.LessTransitive(b.name, a.name, c.name);
      }
    }
  }

  lemma OrdersAreWeak(g: Group)
    ensures WeakOrder(OrderOf(g))
  {
    var less := OrderOf(g);
    forall a, b, c
      ensures less(a, b) ==> !less(b, a)
      ensures less(a, c) ==> less(a, b) || less(b, c)
    {
      NamesAreWeak(a, b, c);
    }
    assert forall a, b {:trigger Compare(a, b, b)} :: less(a, b) ==> !less(b, a) by {
      forall a, b ensures less(a, b) ==> !less(b, a) {
        NamesAreWeak(a, b, b);
      }
    }
  }

  /** s lists the nodes of panel j that are in group g, each as often as `nodes` does. */
  ghost predicate Picks(s: seq<Node>, nodes: seq<Node>, panels: seq<string>, j: nat, g: Group, threshold: int) {
    forall n :: multiset(s)[n] ==
                if PanelIndex(panels, n.panel) == Some(j) && GroupOf(n, threshold) == g then multiset(nodes)[n] else 0
  }

  ghost predicate PicksPanel(s: seq<Node>, nodes: seq<Node>, panels: seq<string>, j: nat) {
    forall n :: multiset(s)[n] == if PanelIndex(panels, n.panel) == Some(j) then multiset(nodes)[n] else 0
  }

  /** Picks, from the nodes of one panel. */
  ghost predicate PicksGroup(s: seq<Node>, all: seq<Node>, g: Group, threshold: int) {
    forall n :: multiset(s)[n] == if GroupOf(n, threshold) == g then multiset(all)[n] else 0
  }

  /** The snapshot of panel j: every group has its nodes, in its display order. */
  ghost predicate PanelGroups(s: Snapshot, panels: seq<string>, j: nat, nodes: seq<Node>, threshold: int)
    requires j < |panels|
  {
    && s.panel == panels[j] && PicksPanel(s.all, nodes, panels, j)
    && forall g :: Picks(s.Of(g), nodes, panels, j, g, threshold) && Sorted(s.Of(g), OrderOf(g))
  }

  ghost predicate Grouped(panels: seq<string>, nodes: seq<Node>, threshold: int, result: seq<Snapshot>) {
    && |result| == |panels|
    && forall j :: 0 <= j < |result| ==> PanelGroups(result[j], panels, j, nodes, threshold)
  }

  method IndexPanels(panels: seq<string>) returns (byID: map<string, nat>)
    ensures forall id :: PanelIndex(panels, id) == if id in byID then Some(byID[id]) else None
    ensures forall id :: id in byID ==> byID[id] < |panels|
  {
    byID := map[];
    for i := 0 to |panels|
      invariant forall id :: PanelIndex(panels[..i], id) == if id in byID then Some(byID[id]) else None
      invariant forall id :: id in byID ==> byID[id] < i
    {
      assert panels[..i + 1][..i] == panels[..i];
      byID := byID[panels[i] := i];
    }
    assert panels[..|panels|] == panels;
  }

  // ---- One more node ----

  lemma PicksPanelSnoc(s: seq<Node>, nodes: seq<Node>, node: Node, panels: seq<string>, j: nat)
    requires PicksPanel(s, nodes, panels, j)
    ensures PicksPanel(if PanelIndex(panels, node.panel) == Some(j) then s + [node] else s, nodes + [node], panels, j)
  {
  }

  lemma PicksGroupSnoc(s: seq<Node>, all: seq<Node>, node: Node, g: Group, threshold: int)
    requires PicksGroup(s, all, g, threshold)
    ensures PicksGroup(if GroupOf(node, threshold) == g then s + [node] else s, all + [node], g, threshold)
  {
  }

  lemma PicksTogether(s: seq<Node>, all: seq<Node>, nodes: seq<Node>, panels: seq<string>, j: nat, g: Group, threshold: int)
    requires PicksPanel(all, nodes, panels, j) && PicksGroup(s, all, g, threshold)
    ensures Picks(s, nodes, panels, j, g, threshold)
  {
  }

  /** A snapshot while it is filled: the nodes of one panel among `seen`. */
  ghost predicate Collected(s: Snapshot, panels: seq<string>, j: nat, seen: seq<Node>, threshold: int)
    requires j < |panels|
  {
    && s.panel == panels[j] && s.critical == s.active == s.ignored == []
    && PicksPanel(s.all, seen, panels, j)
    && PicksGroup(s.disabled, s.all, Disabled, threshold)
  }

  /** The snapshot with one node more. */
  function Collect(s: Snapshot, node: Node): Snapshot {
    s.(all := s.all + [node], disabled := if node.disabled then s.disabled + [node] else s.disabled)
  }

  lemma CollectedSnoc(s: Snapshot, panels: seq<string>, j: nat, seen: seq<Node>, node: Node, threshold: int)
    requires j < |panels| && Collected(s, panels, j, seen, threshold)
    ensures PanelIndex(panels, node.panel) != Some(j) ==> Collected(s, panels, j, seen + [node], threshold)
    ensures PanelIndex(panels, node.panel) == Some(j) ==> Collected(Collect(s, node), panels, j, seen + [node], threshold)
  {
    PicksPanelSnoc(s.all, seen, node, panels, j);
    PicksGroupSnoc(s.disabled, s.all, node, Disabled, threshold);
  }

  ghost predicate AllCollected(result: seq<Snapshot>, panels: seq<string>, seen: seq<Node>, threshold: int) {
    && |result| == |panels|
    && forall j :: 0 <= j < |result| ==> Collected(result[j], panels, j, seen, threshold)
  }

  /** One node more, put into the snapshot of its panel. */
  lemma AllCollectedSnoc(result: seq<Snapshot>, panels: seq<string>, seen: seq<Node>, node: Node, threshold: int)
    requires AllCollected(result, panels, seen, threshold)
    ensures PanelIndex(panels, node.panel).None? ==> AllCollected(result, panels, seen + [node], threshold)
    ensures forall i :: PanelIndex(panels, node.panel) == Some(i) && i < |result| ==>
              AllCollected(result[i := Collect(result[i], node)], panels, seen + [node], threshold)
  {
    forall j | 0 <= j < |result| {
      CollectedSnoc(result[j], panels, j, seen, node, threshold);
    }
  }

  /** The first loop: every node to its panel, disabled nodes to their group. */
  method CollectNodes(panels: seq<string>, nodes: seq<Node>, threshold: int) returns (result: seq<Snapshot>)
    ensures AllCollected(result, panels, nodes, threshold)
  {
    var byID := IndexPanels(panels);
    result := seq(|panels|, i requires 0 <= i < |panels| => Snapshot(panels[i], [], [], [], [], []));
    for i := 0 to |nodes|
      invariant AllCollected(result, panels, nodes[..i], threshold)
    {
      var node := nodes[i];
      assert nodes[..i + 1] == nodes[..i] + [node];
      AllCollectedSnoc(result, panels, nodes[..i], node, threshold);
      if node.panel in byID {
        var index := byID[node.panel];
        result := result[index := Collect(result[index], node)];
      }
    }
    assert nodes[..|nodes|] == nodes;
  }

  /** Every node of a listed panel is in exactly one group of that panel's snapshot,
      and each group is in its display order. */
  method ClassifyNodePanels(panels: seq<string>, nodes: seq<Node>, policy: int) returns (result: seq<Snapshot>)
    ensures Grouped(panels, nodes, if policy < 1 then 50 else policy, result)
  {
    var threshold := Threshold(policy);
    result := CollectNodes(panels, nodes, threshold);
    for i := 0 to |result|
      invariant |result| == |panels|
      invariant forall j :: 0 <= j < i ==> PanelGroups(result[j], panels, j, nodes, threshold)
      invariant forall j :: i <= j < |result| ==> Collected(result[j], panels, j, nodes, threshold)
    {
      var filled := FillGroups(result[i], panels, i, nodes, threshold);
      result := result[i := filled];
    }
  }

  method FillGroups(s: Snapshot, ghost panels: seq<string>, ghost i: nat, ghost nodes: seq<Node>, threshold: int)
    returns (r: Snapshot)
    requires i < |panels| && Collected(s, panels, i, nodes, threshold)
    ensures PanelGroups(r, panels, i, nodes, threshold)
  {
    var split := SplitPanel(s, threshold);
    r := SortGroups(split);
    forall g ensures Picks(r.Of(g), nodes, panels, i, g, threshold) {
      PicksTogether(split.Of(g), s.all, nodes, panels, i, g, threshold);
      SameMultiset(split.Of(g), r.Of(g), nodes, panels, i, g, threshold);
    }
  }

  lemma SameMultiset(a: seq<Node>, b: seq<Node>, nodes: seq<Node>, panels: seq<string>, j: nat, g: Group, threshold: int)
    requires Picks(a, nodes, panels, j, g, threshold) && multiset(a) == multiset(b)
    ensures Picks(b, nodes, panels, j, g, threshold)
  {
  }

  /** The second loop's body: one panel's nodes into its groups. */
  method SplitPanel(s: Snapshot, threshold: int) returns (r: Snapshot)
    requires s.critical == s.active == s.ignored == [] && PicksGroup(s.disabled, s.all, Disabled, threshold)
    ensures r.panel == s.panel && r.all == s.all
    ensures forall g :: PicksGroup(r.Of(g), s.all, g, threshold)
  {
    var critical, active, ignored := s.critical, s.active, s.ignored;
    for i := 0 to |s.all|
      invariant PicksGroup(critical, s.all[..i], Critical, threshold)
      invariant PicksGroup(active, s.all[..i], Active, threshold)
      invariant PicksGroup(ignored, s.all[..i], Ignored, threshold)
    {
      var node := s.all[i];
      assert s.all[..i + 1] == s.all[..i] + [node];
      PicksGroupSnoc(critical, s.all[..i], node, Critical, threshold);
      PicksGroupSnoc(active, s.all[..i], node, Active, threshold);
      PicksGroupSnoc(ignored, s.all[..i], node, Ignored, threshold);
      if node.disabled {
      } else if !node.connected || !node.onlineKnown {
        ignored := ignored + [node];
      } else if node.online <= threshold {
        critical := critical + [node];
      } else {
        active := active + [node];
      }
    }
    assert s.all[..|s.all|] == s.all;
    r := s.(critical := critical, active := active, ignored := ignored);
    forall g ensures PicksGroup(r.Of(g), s.all, g, threshold) {
      match g case Critical => case Active => case Disabled => case Ignored =>
    }
  }

  ghost predicate IsSorted(sorted: seq<Node>, nodes: seq<Node>, g: Group) {
    multiset(sorted) == multiset(nodes) && Sorted(sorted, OrderOf(g))
  }

  lemma SortsGroup(nodes: seq<Node>, g: Group)
    ensures IsSorted(Sort(nodes, OrderOf(g)), nodes, g)
  {
    OrdersAreWeak(g);
    SortSorts(nodes, OrderOf(g));
    SortKeeps(nodes, OrderOf(g));
  }

  method SortGroups(s: Snapshot) returns (r: Snapshot)
    ensures r.panel == s.panel && r.all == s.all
    ensures forall g :: IsSorted(r.Of(g), s.Of(g), g)
  {
    r := s.(critical := Sort(s.critical, OrderOf(Critical)), active := Sort(s.active, OrderOf(Active)),
            disabled := Sort(s.disabled, OrderOf(Disabled)), ignored := Sort(s.ignored, OrderOf(Ignored)));
    forall g ensures IsSorted(r.Of(g), s.Of(g), g) {
      SortsGroup(s.Of(g), g);
    }
  }

  lemma AllOfPanel(panels: seq<string>, nodes: seq<Node>, threshold: int, result: seq<Snapshot>, j: nat, n: Node)
    requires Grouped(panels, nodes, threshold, result) && j < |result|
    ensures n in result[j].all <==> n in nodes && PanelIndex(panels, n.panel) == Some(j)
  {
    assert PanelGroups(result[j], panels, j, nodes, threshold);
    assert n in result[j].all <==> multiset(result[j].all)[n] > 0;
    assert n in nodes <==> multiset(nodes)[n] > 0;
  }

  lemma InGroup(panels: seq<string>, nodes: seq<Node>, threshold: int, result: seq<Snapshot>, j: nat, g: Group, n: Node)
    requires Grouped(panels, nodes, threshold, result) && j < |result|
    ensures n in result[j].Of(g) <==> n in nodes && PanelIndex(panels, n.panel) == Some(j) && GroupOf(n, threshold) == g
  {
    assert PanelGroups(result[j], panels, j, nodes, threshold);
    assert n in result[j].Of(g) <==> multiset(result[j].Of(g))[n] > 0;
    assert n in nodes <==> multiset(nodes)[n] > 0;
  }

  /** A node is in a group of a snapshot exactly when the snapshot is its panel's and its
      own fields say so: disabled; or enabled but not connected or without a count; or
      with a count up to the threshold; or with a greater one. */
  lemma OneGroupEach(panels: seq<string>, nodes: seq<Node>, threshold: int, result: seq<Snapshot>, j: nat, n: Node)
    requires Grouped(panels, nodes, threshold, result) && j < |result|
    ensures var here := n in nodes && ListedLast(panels, n.panel, j);
            && (n in result[j].disabled <==> here && n.disabled)
            && (n in result[j].ignored <==> here && !n.disabled && !(n.connected && n.onlineKnown))
            && (n in result[j].critical <==> here && !n.disabled && n.connected && n.onlineKnown && n.online <= threshold)
            && (n in result[j].active <==> here && !n.disabled && n.connected && n.onlineKnown && n.online > threshold)
  {
    PanelIndexMeans(panels, n.panel, j);
    forall g ensures n in result[j].Of(g) <==> n in nodes && ListedLast(panels, n.panel, j) && Belongs(n, g, threshold) {
      InGroup(panels, nodes, threshold, result, j, g, n);
      GroupOfMeans(n, g, threshold);
    }
    var s := result[j];
    assert s.Of(Disabled) == s.disabled && s.Of(Ignored) == s.ignored && s.Of(Critical) == s.critical && s.Of(Active) == s.active;
  }

  /** The order in which the groups are shown: the critical nodes with the fewest online
      first, the active ones with the most, the others and ties by name. */
  lemma DisplayOrder(panels: seq<string>, nodes: seq<Node>, threshold: int, result: seq<Snapshot>, j: nat, a: nat, b: nat)
    requires Grouped(panels, nodes, threshold, result) && j < |result| && a < b
    ensures b < |result[j].critical| ==>
              var x, y := result[j].critical[a], result[j].critical[b];
              x.online < y.online || (x.online == y.online && !N.Less(y.name, x.name))
    ensures b < |result[j].active| ==>
              var x, y := result[j].active[a], result[j].active[b];
              x.online > y.online || (x.online == y.online && !N.Less(y.name, x.name))
    ensures b < |result[j].disabled| ==> !N.Less(result[j].disabled[b].name, result[j].disabled[a].name)
    ensures b < |result[j].ignored| ==> !N.Less(result[j].ignored[b].name, result[j].ignored[a].name)
  {
    assert PanelGroups(result[j], panels, j, nodes, threshold);
    assert Sorted(result[j].Of(Critical), OrderOf(Critical)) && Sorted(result[j].Of(Active), OrderOf(Active));
    assert Sorted(result[j].Of(Disabled), OrderOf(Disabled)) && Sorted(result[j].Of(Ignored), OrderOf(Ignored));
  }
}
