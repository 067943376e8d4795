/** Classifying deployments that a restart left unfinished
    (internal/recovery/service.go). */
module Recovery {
  import opened Wrappers
  import Names
  import P = Process
  import Z = Zones
  import W = Workflow
  import opened DeploymentTables
  import opened PanelNodes

  datatype Class = SafeToRecheck | SafeToRetryDNS | RecoveredCompleted | NeedsManualReview

  datatype Row = Row(status: Status, step: Step, uuid: Option<string>, name: string, ip: Addr, panel: string)

  /** What the calls to the outside answer; None and a missing key are failures. */
  datatype World = World(listing: Option<seq<PanelNode>>, lookup: map<string, PanelNode>, zone: Option<Z.Zone>, dnsDisabled: bool)

  datatype Outcome = Outcome(kind: Class, row: Row)

  type Answer = Result<Class, ()>

  predicate IsExact(n: PanelNode, row: Row) {
    Names.TrimSpace(n.name) == row.name && n.address == Some(row.ip)
  }

  function Exact(nodes: seq<PanelNode>, row: Row): seq<PanelNode> {
    if nodes == [] then []
    else
      var last := nodes[|nodes| - 1];
      Exact(nodes[..|nodes| - 1], row) + (if IsExact(last, row) then [last] else [])
  }

  /** The node of a row: the stored one, or the only exact match on the panel. */
  function Identify(row: Row, world: World): Option<string> {
    if row.uuid.Some? then row.uuid
    else if world.listing.None? || |Exact(world.listing.value, row)| != 1 then None
    else Some(Exact(world.listing.value, row)[0].uuid)
  }

  function Reviewed(row: Row): Outcome {
    Outcome(NeedsManualReview, row.(status := MANUAL_REVIEW))
  }

  function Inspected(row: Row, world: World): Outcome {
    var uuid := Identify(row, world);
    if uuid.None? then Reviewed(row)
    else InspectedNode(row.(uuid := uuid), world)
  }

  function InspectedNode(row: Row, world: World): Outcome
    requires row.uuid.Some?
  {
    if row.uuid.value !in world.lookup then Reviewed(row)
    else
      var node := world.lookup[row.uuid.value];
      if !node.connected then
        if node.connecting then Outcome(SafeToRecheck, row.(status := WAITING_REMNAWAVE, step := WaitNodeStep))
        else Reviewed(row)
      else if world.dnsDisabled || (world.zone.Some? && Z.Contains(world.zone.value, row.ip)) then
        Outcome(RecoveredCompleted, row.(status := COMPLETED, step := CompletedStep))
      else if world.zone.None? then Reviewed(row)
      else Outcome(SafeToRetryDNS, row.(status := DNS_FAILED, step := AddDNSStep))
  }

  /** The statuses whose outside state is always looked at. */
  predicate InspectableStatus(status: Status) {
    match status
    case CREATING_REMNAWAVE_NODE => true
    case WAITING_REMNAWAVE => true
    case ADDING_TO_DNS => true
    case DNS_FAILED => true
    case _ => false
  }

  predicate InspectableStep(step: Step) {
    match step
    case CreateNodeStep => true
    case WaitNodeStep => true
    case AddDNSStep => true
    case _ => false
  }

  /** The rows whose outside state is looked at. */
  predicate Inspectable(status: Status, step: Step) {
    InspectableStatus(status) || ((status == FAILED || status == MANUAL_REVIEW) && InspectableStep(step))
  }

  function Classified(row: Row, world: World): Outcome {
    if row.status == COMPLETED then Outcome(RecoveredCompleted, row)
    else if Inspectable(row.status, row.step) then Inspected(row, world)
    else Reviewed(row)
  }

  // ---- What the classification promises ----

  lemma {:induction false} ExactMeans(nodes: seq<PanelNode>, row: Row)
    ensures forall n :: n in Exact(nodes, row) <==> n in nodes && IsExact(n, row)
    ensures |Exact(nodes, row)| == 1 ==>
              forall i, j :: 0 <= i < j < |nodes| ==> !(IsExact(nodes[i], row) && IsExact(nodes[j], row))
  {
    if nodes != [] {
      var init, last := nodes[..|nodes| - 1], nodes[|nodes| - 1];
      ExactMeans(init, row);
      assert nodes == init + [last];
      if |Exact(nodes, row)| == 1 && IsExact(last, row) {
        assert Exact(init, row) == [];
        forall i | 0 <= i < |init| ensures !IsExact(nodes[i], row) {
          assert init[i] in init;
        }
      }
    }
  }

  // Each class, by what the row says and the calls answered.

  /** The node is the stored one or, when none is stored, the only one on the panel with
      the row's name and address. */
  ghost predicate IsNodeOf(row: Row, world: World, uuid: string) {
    || row.uuid == Some(uuid)
    || (row.uuid.None? && world.listing.Some?
        && exists i :: 0 <= i < |world.listing.value| && OnlyMatch(world.listing.value, i, row) && world.listing.value[i].uuid == uuid)
  }

  ghost predicate OnlyMatch(nodes: seq<PanelNode>, i: nat, row: Row)
    requires i < |nodes|
  {
    forall j :: 0 <= j < |nodes| ==>
      (Names.TrimSpace(nodes[j].name) == row.name && nodes[j].address == Some(row.ip) <==> j == i)
  }

  /** The outside is looked at: the server was provisioned, or the deployment failed or
      was set aside at one of the last three steps. */
  ghost predicate LookedAt(row: Row) {
    || row.status in {CREATING_REMNAWAVE_NODE, WAITING_REMNAWAVE, ADDING_TO_DNS, DNS_FAILED}
    || (row.status in {FAILED, MANUAL_REVIEW} && row.step in {CreateNodeStep, WaitNodeStep, AddDNSStep})
  }

  ghost predicate AddressHeld(row: Row, world: World) {
    world.zone.Some? && exists t :: t in Z.Texts(world.zone.value) && !t.Garbage? && t.addr == row.ip
  }

  ghost predicate IsCompleted(row: Row, world: World) {
    || row.status == COMPLETED
    || (LookedAt(row) && exists u :: IsNodeOf(row, world, u) && u in world.lookup && world.lookup[u].connected
                                     && (world.dnsDisabled || AddressHeld(row, world)))
  }

  ghost predicate LacksAddress(row: Row, world: World) {
    && row.status != COMPLETED && LookedAt(row)
    && exists u :: IsNodeOf(row, world, u) && u in world.lookup && world.lookup[u].connected
                   && !world.dnsDisabled && world.zone.Some? && !AddressHeld(row, world)
  }

  ghost predicate StillConnecting(row: Row, world: World) {
    && row.status != COMPLETED && LookedAt(row)
    && exists u :: IsNodeOf(row, world, u) && u in world.lookup && !world.lookup[u].connected && world.lookup[u].connecting
  }

  lemma {:induction false} ExactIsOnly(nodes: seq<PanelNode>, row: Row, i: nat)
    requires i < |nodes| && OnlyMatch(nodes, i, row)
    ensures Exact(nodes, row) == [nodes[i]]
  {
    var init, last := nodes[..|nodes| - 1], nodes[|nodes| - 1];
    if i < |nodes| - 1 {
      assert OnlyMatch(init, i, row);
      ExactIsOnly(init, row, i);
    } else {
      ExactIsNone(init, row);
    }
  }

  lemma {:induction false} ExactIsNone(nodes: seq<PanelNode>, row: Row)
    requires forall j :: 0 <= j < |nodes| ==> !IsExact(nodes[j], row)
    ensures Exact(nodes, row) == []
  {
    if nodes != [] {
      ExactIsNone(nodes[..|nodes| - 1], row);
    }
  }

  lemma IdentifyMeans(row: Row, world: World)
    ensures forall u :: Identify(row, world) == Some(u) <==> IsNodeOf(row, world, u)
  {
    if row.uuid.None? && world.listing.Some? {
      var nodes := world.listing.value;
      if i :| 0 <= i < |nodes| && OnlyMatch(nodes, i, row) {
        ExactIsOnly(nodes, row, i);
      }
      if |Exact(nodes, row)| == 1 {
        ExactMeans(nodes, row);
        var n := Exact(nodes, row)[0];
        assert n in nodes && IsExact(n, row);
        var i :| 0 <= i < |nodes| && nodes[i] == n;
        assert OnlyMatch(nodes, i, row);
      }
    }
  }

  lemma HeldMeans(row: Row, world: World)
    ensures AddressHeld(row, world) <==> world.zone.Some? && Z.Contains(world.zone.value, row.ip)
  {
    if world.zone.Some? && Z.Contains(world.zone.value, row.ip) {
      var texts := Z.Texts(world.zone.value);
      var i :| 0 <= i < |texts| && Z.Is(texts[i], row.ip);
      assert texts[i] in texts;
    }
  }

  /** Exactly when a row is found to be completed, to lack its address only, or to be
      connecting still; all other rows are for a person to review. */
  lemma ClassesExactlyWhen(row: Row, world: World)
    ensures var kind := Classified(row, world).kind;
            && (kind == RecoveredCompleted <==> IsCompleted(row, world))
            && (kind == SafeToRetryDNS <==> LacksAddress(row, world))
            && (kind == SafeToRecheck <==> StillConnecting(row, world))
            && (kind == NeedsManualReview <==>
                  !IsCompleted(row, world) && !LacksAddress(row, world) && !StillConnecting(row, world))
  {
    IdentifyMeans(row, world);
    HeldMeans(row, world);
    assert LookedAt(row) <==> Inspectable(row.status, row.step);
    var uuid := Identify(row, world);
    if uuid.Some? {
      assert IsNodeOf(row, world, uuid.value);
    }
  }

  /** A classification changes the status, the step that goes with it and a missing UUID. */
  lemma ClassifiedKeeps(row: Row, world: World)
    ensures var after := Classified(row, world).row;
            && after == row.(status := after.status, step := after.step, uuid := after.uuid)
            && (row.uuid.Some? ==> after.uuid == row.uuid)
            && (after.status == MANUAL_REVIEW ==> after.step == row.step)
  {
  }

  /** A row becomes COMPLETED only with a connected node and its address in the zone,
      or DNS off; a UUID that is filled in is that of the only exact match. */
  lemma RecoveryIsSound(row: Row, world: World)
    ensures var after := Classified(row, world).row;
            && (after.status == COMPLETED && row.status != COMPLETED ==>
                  && after.uuid.Some? && after.uuid.value in world.lookup && world.lookup[after.uuid.value].connected
                  && (world.dnsDisabled || (world.zone.Some? && Z.Contains(world.zone.value, row.ip))))
            && (after.uuid != row.uuid ==>
                  && row.uuid.None? && world.listing.Some?
                  && exists n :: n in world.listing.value && IsExact(n, row) && after.uuid == Some(n.uuid)
                                 && forall m :: m in world.listing.value && IsExact(m, row) ==> m == n)
  {
    var after := Classified(row, world).row;
    if after.uuid != row.uuid {
      var nodes := world.listing.value;
      ExactMeans(nodes, row);
      var n := Exact(nodes, row)[0];
      assert n in nodes && IsExact(n, row) && after.uuid == Some(n.uuid);
      forall m | m in nodes && IsExact(m, row) ensures m == n {
        assert m in Exact(nodes, row);
      }
    }
  }

  /** Each class leaves the status that its follow-up wants: RetryDNS runs from
      DNS_FAILED with a node, a recheck from WAITING_REMNAWAVE with a node. */
  lemma ClassFitsStatus(row: Row, world: World)
    ensures var o := Classified(row, world);
            && (o.kind == SafeToRetryDNS <==> o.row.status == DNS_FAILED)
            && (o.kind == SafeToRetryDNS ==> o.row.step == AddDNSStep && o.row.uuid.Some?)
            && (o.kind == SafeToRecheck <==> o.row.status == WAITING_REMNAWAVE)
            && (o.kind == SafeToRecheck ==> o.row.step == WaitNodeStep && o.row.uuid.Some?)
            && (o.kind == RecoveredCompleted <==> o.row.status == COMPLETED)
            && (o.kind == NeedsManualReview <==> o.row.status == MANUAL_REVIEW)
  {
  }

  /** A status that is not looked at although its step is one of the last three. */
  predicate Mismatched(row: Row) {
    && InspectableStep(row.step) && !InspectableStatus(row.status)
    && row.status != FAILED && row.status != MANUAL_REVIEW && row.status != COMPLETED
  }

  ghost predicate Repeats(row: Row, world: World) {
    var first := Classified(row, world);
    Classified(first.row, world) == first
  }

  /** Classifying twice in one world gives the same class and the same row in every
      world exactly when the row's step fits its status. Rows store trimmed names. */
  lemma ClassifyTwice(row: Row)
    requires Names.TrimSpace(row.name) == row.name
    ensures (forall world :: Repeats(row, world)) <==> !Mismatched(row)
  {
    if Mismatched(row) {
      var node := PanelNode("u", row.name, Some(row.ip), false, false, true);
      var uuid := if row.uuid.Some? then row.uuid.value else "u";
      var world := World(Some([node.(uuid := uuid, name := row.name)]), map[uuid := node], None, false);
      MismatchShows(row, world, uuid);
    } else {
      forall world ensures Repeats(row, world) {
        FitRepeats(row, world);
      }
    }
  }

  lemma {:induction false} ExactSame(nodes: seq<PanelNode>, a: Row, b: Row)
    requires a.name == b.name && a.ip == b.ip
    ensures Exact(nodes, a) == Exact(nodes, b)
  {
    if nodes != [] {
      ExactSame(nodes[..|nodes| - 1], a, b);
    }
  }

  lemma MismatchShows(row: Row, world: World, uuid: string)
    requires Mismatched(row) && (row.uuid.Some? || Names.TrimSpace(row.name) == row.name)
    requires world.listing.Some? && |world.listing.value| == 1 && world.listing.value[0].uuid == uuid
    requires world.listing.value[0].name == row.name && world.listing.value[0].address == Some(row.ip)
    requires row.uuid.Some? ==> row.uuid.value == uuid
    requires uuid in world.lookup && !world.lookup[uuid].connected && world.lookup[uuid].connecting
    ensures !Repeats(row, world)
  {
    var nodes := world.listing.value;
    ExactSame(nodes, row, row.(status := MANUAL_REVIEW));
    assert nodes[..0] == [];
    if row.uuid.None? {
      assert Exact(nodes, row) == [nodes[0]];
    }
  }

  lemma FitRepeats(row: Row, world: World)
    requires !Mismatched(row)
    ensures Repeats(row, world)
  {
    if row.status != COMPLETED && Inspectable(row.status, row.step) {
      InspectedRepeats(row, world);
    }
  }

  lemma InspectedRepeats(row: Row, world: World)
    requires row.status != COMPLETED && Inspectable(row.status, row.step)
    ensures Repeats(row, world)
  {
    var uuid := Identify(row, world);
    if uuid.Some? {
      InspectedNodeRepeats(row.(uuid := uuid), world);
    } else if world.listing.Some? {
      ExactSame(world.listing.value, row, row.(status := MANUAL_REVIEW));
    }
  }

  lemma InspectedNodeRepeats(row: Row, world: World)
    requires row.uuid.Some?
    ensures var o := InspectedNode(row, world);
            o.row.status != COMPLETED ==> InspectedNode(o.row, world) == o && o.row.uuid == row.uuid
  {
  }

  /** The rows that recovery meets do repeat: the workflow writes only steps that fit
      their statuses, and what recovery makes of a row that repeats repeats too. */
  lemma RowsInPlayRepeat(row: Row, first: World, world: World)
    requires W.StepFits(row.status, row.step)
    ensures Repeats(row, world) && Repeats(Classified(row, first).row, world)
  {
    FitRepeats(row, world);
    FitRepeats(Classified(row, first).row, world);
  }

  /** A classification that was cut short after the UUID was stored ends as if it had
      not been. */
  lemma CutShortIsHarmless(row: Row, world: World)
    requires Identify(row, world).Some? && Classified(row, world) == Inspected(row, world)
    ensures Classified(row.(uuid := Identify(row, world)), world) == Classified(row, world)
  {
  }

  /** What an inspection writes fits. */
  lemma InspectedFits(row: Row, world: World, log: seq<W.Event>, bypassed: bool)
    requires row.uuid.Some? && row.status != COMPLETED
    requires W.Gated(row.status, row.step, row.uuid, log, bypassed) && W.StepFits(row.status, row.step)
    ensures var after := InspectedNode(row, world).row;
            && after == row.(status := after.status, step := after.step)
            && W.Gated(after.status, after.step, after.uuid, log, bypassed) && W.StepFits(after.status, after.step)
            && W.MovesOn(row.status, row.step, after.status, after.step)
            && (after.status == COMPLETED ==>
                  world.dnsDisabled || (world.zone.Some? && Z.Contains(world.zone.value, row.ip)))
  {
  }

  /** Recovery keeps the workflow's gating: no status or step that needs a server or a
      node is written without it, and no row comes back to provisioning. */
  lemma RecoveryKeepsGated(row: Row, world: World, log: seq<W.Event>, bypassed: bool)
    requires W.Gated(row.status, row.step, row.uuid, log, bypassed) && W.StepFits(row.status, row.step)
    ensures var after := Classified(row, world).row;
            && W.Gated(after.status, after.step, after.uuid, log, bypassed) && W.StepFits(after.status, after.step)
            && (W.Past(row.status, row.step) ==> W.Past(after.status, after.step))
  {
    var uuid := Identify(row, world);
    if row.status != COMPLETED && uuid.Some? && Inspectable(row.status, row.step) {
      InspectedFits(row.(uuid := uuid), world, log, bypassed);
    }
  }

  // ---- The service ----

  class Service {
    const process: P.Process
    const panelID: string
    /** The outside, which does not change while a classification runs. */
    const world: World
    /** The deployments table. */
    var rows: map<string, Row>

    constructor (process: P.Process, panelID: string, world: World, rows: map<string, Row>)
      ensures this.process == process && this.panelID == panelID && this.world == world && this.rows == rows
    {
      this.process, this.panelID, this.world, this.rows := process, panelID, world, rows;
    }

    method Update(id: string, row: Row) returns (ok: bool)
      requires id in rows
      modifies this`rows, process
      ensures rows == if ok then old(rows)[id := row] else old(rows)
      ensures process.failures == old(process.failures) + if ok then 0 else 1
    {
      ok := process.Attempt();
      if ok {
        rows := rows[id := row];
      }
    }

    method Manual(id: string, row: Row) returns (r: Answer)
      requires id in rows
      modifies this`rows, process
      ensures r.Ok? ==> r.value == NeedsManualReview && rows == old(rows)[id := Reviewed(row).row]
      ensures r.Err? ==> rows == old(rows)
      ensures process.failures == old(process.failures) + if r.Ok? then 0 else 1
    {
      var ok := Update(id, row.(status := MANUAL_REVIEW));
      return if ok then Ok(NeedsManualReview) else Err(());
    }

    /** Text that is no address is skipped. */
    method DNSContains(target: Addr) returns (r: Option<bool>)
      ensures r == if world.zone.None? then None else Some(Z.Contains(world.zone.value, target))
    {
      if world.zone.None? {
        return None;
      }
      var zone := world.zone.value;
      var ips := Z.IPsOf(zone);
      for i := 0 to |ips|
        invariant forall j :: 0 <= j < i ==> !Z.Is(ips[j], target)
      {
        if Z.Parses(ips[i]) && ips[i].addr == target {
          assert Z.Is(Z.Texts(zone)[i], target);
          return Some(true);
        }
      }
      var nodes := if zone.Advanced? then zone.nodes else [];
      for i := 0 to |nodes|
        invariant forall j :: 0 <= j < i ==> !Z.Is(nodes[j].ip, target)
      {
        if Z.Parses(nodes[i].ip) && nodes[i].ip.addr == target {
          assert Z.Is(Z.Texts(zone)[i], target);
          return Some(true);
        }
      }
      return Some(false);
    }

    /** The nodes that match a row exactly. */
    method FindExact(row: Row, nodes: seq<PanelNode>) returns (exact: seq<PanelNode>)
      ensures exact == Exact(nodes, row)
    {
      exact := [];
      for i := 0 to |nodes|
        invariant exact == Exact(nodes[..i], row)
      {
        assert nodes[..i + 1][..i] == nodes[..i];
        if IsExact(nodes[i], row) {
          exact := exact + [nodes[i]];
        }
      }
      assert nodes[..|nodes|] == nodes;
    }

    method InspectExternalState(id: string) returns (r: Answer)
      requires id in rows
      modifies this`rows, process
      ensures r.Ok? ==> id in rows && Outcome(r.value, rows[id]) == Inspected(old(rows)[id], world) && rows == old(rows)[id := rows[id]]
      ensures r.Err? ==> rows == old(rows)
                         || (Identify(old(rows)[id], world).Some?
                             && rows == old(rows)[id := old(rows)[id].(uuid := Identify(old(rows)[id], world))])
      ensures process.failures == old(process.failures) + if r.Ok? then 0 else 1
    {
      var item := rows[id];
      if item.uuid.None? {
        if world.listing.None? {
          r := Manual(id, item);
          return;
        }
        var exact := FindExact(item, world.listing.value);
        if |exact| != 1 {
          r := Manual(id, item);
          return;
        }
        item := item.(uuid := Some(exact[0].uuid));
        var stored := Update(id, item);
        if !stored {
          return Err(());
        }
      }
      r := InspectNode(id, item);
    }

    method InspectNode(id: string, item: Row) returns (r: Answer)
      requires id in rows && item == rows[id] && item.uuid.Some?
      modifies this`rows, process
      ensures r.Ok? ==> id in rows && Outcome(r.value, rows[id]) == InspectedNode(item, world) && rows == old(rows)[id := rows[id]]
      ensures r.Err? ==> rows == old(rows)
      ensures process.failures == old(process.failures) + if r.Ok? then 0 else 1
    {
      if item.uuid.value !in world.lookup {
        r := Manual(id, item);
        return;
      }
      var node := world.lookup[item.uuid.value];
      if !node.connected && node.connecting {
        var ok := Update(id, item.(status := WAITING_REMNAWAVE, step := WaitNodeStep));
        return if ok then Ok(SafeToRecheck) else Err(());
      }
      if !node.connected {
        r := Manual(id, item);
        return;
      }
      if world.dnsDisabled {
        var ok := Update(id, item.(status := COMPLETED, step := CompletedStep));
        return if ok then Ok(RecoveredCompleted) else Err(());
      }
      var contains := DNSContains(item.ip);
      if contains.None? {
        r := Manual(id, item);
        return;
      }
      if contains.value {
        var ok := Update(id, item.(status := COMPLETED, step := CompletedStep));
        return if ok then Ok(RecoveredCompleted) else Err(());
      }
      var ok := Update(id, item.(status := DNS_FAILED, step := AddDNSStep));
      return if ok then Ok(SafeToRetryDNS) else Err(());
    }

    method Classify(id: string) returns (r: Answer)
      requires id in rows
      modifies this`rows, process
      ensures r.Ok? ==> id in rows && Outcome(r.value, rows[id]) == Classified(old(rows)[id], world) && rows == old(rows)[id := rows[id]]
      ensures r.Err? ==> CutShort(old(rows), rows, id)
      ensures process.failures == old(process.failures) + if r.Ok? then 0 else 1
    {
      var item := rows[id];
      if item.status == COMPLETED {
        return Ok(RecoveredCompleted);
      }
      if Inspectable(item.status, item.step) {
        r := InspectExternalState(id);
      } else {
        r := Manual(id, item);
      }
    }

    /** A classification that failed may have stored the UUID; trying again gives what
        it would have given. */
    ghost predicate CutShort(before: map<string, Row>, after: map<string, Row>, id: string)
      requires id in before
    {
      && after.Keys == before.Keys
      && (forall other :: other in before && other != id ==> after[other] == before[other])
      && Classified(after[id], world) == Classified(before[id], world)
    }

    /** The rows after the first n items were classified, but for `except`. */
    ghost predicate RecoveredUpTo(before: map<string, Row>, now: map<string, Row>, items: seq<string>, n: nat, except: Option<string>)
      requires n <= |items|
    {
      && now.Keys == before.Keys
      && forall id :: id in now && Some(id) != except ==>
           now[id] == if id in items[..n] && Scoped(before[id]) then Classified(before[id], world).row else before[id]
    }

    ghost predicate Listed(before: map<string, Row>, items: seq<string>) {
      && (forall i :: 0 <= i < |items| ==> items[i] in before)
      && (forall i, j :: 0 <= i < j < |items| ==> items[i] != items[j])
    }

    lemma NextItem(before: map<string, Row>, items: seq<string>, i: nat)
      requires Listed(before, items) && i < |items|
      ensures items[i] in before && items[i] !in items[..i]
      ensures forall id :: id in items[..i + 1] <==> id in items[..i] || id == items[i]
      ensures Classes(before, items[..i + 1]) ==
              Classes(before, items[..i]) + (if Scoped(before[items[i]]) then [Classified(before[items[i]], world).kind] else [])
    {
      assert items[..i + 1] == items[..i] + [items[i]] && items[..i + 1][..i] == items[..i];
    }

    predicate Scoped(row: Row) {
      row.panel == "" || row.panel == panelID
    }

    function Classes(before: map<string, Row>, items: seq<string>): seq<Class>
      requires forall i :: 0 <= i < |items| ==> items[i] in before
    {
      if items == [] then []
      else
        var last := items[|items| - 1];
        Classes(before, items[..|items| - 1]) + (if Scoped(before[last]) then [Classified(before[last], world).kind] else [])
    }

    /** Classifies the unfinished deployments one after the other, up to the first
        failure. */
    method RecoverUnfinished(items: seq<string>) returns (ok: bool, results: seq<Class>, ghost done: nat)
      requires Listed(rows, items)
      modifies this`rows, process
      ensures done <= |items| && results == Classes(old(rows), items[..done])
      ensures ok ==> done == |items| && RecoveredUpTo(old(rows), rows, items, |items|, None)
      ensures process.failures == old(process.failures) + if ok then 0 else 1
      ensures !ok && done == |items| ==> items == [] && rows == old(rows)
      ensures !ok && done < |items| ==>
                && RecoveredUpTo(old(rows), rows, items, done, Some(items[done]))
                && Classified(rows[items[done]], world) == Classified(old(rows)[items[done]], world)
    {
      results, done := [], 0;
      var listed := process.Attempt();
      if !listed {
        return false, results, 0;
      }
      ghost var before := rows;
      for i := 0 to |items|
        modifies this`rows, process
        invariant process.failures == old(process.failures)
        invariant done == i && results == Classes(before, items[..i]) && RecoveredUpTo(before, rows, items, i, None)
      {
        NextItem(before, items, i);
        if rows[items[i]].panel != "" && rows[items[i]].panel != panelID {
          done := i + 1;
          continue;
        }
        var r := Classify(items[i]);
        if r.Err? {
          return false, results, i;
        }
        results := results + [r.value];
        done := i + 1;
      }
      assert items[..|items|] == items;
      ok := true;
    }
  }
}
