/** A deployment over its whole life: the operator's operations, process deaths, the
    recovery that every start runs (cmd/deployer/main.go, internal/recovery/service.go)
    and the operator's recheck. */
module Lifecycle {
  import opened Wrappers
  import Names
  import Z = Zones
  import ZC = ZoneClient
  import E = Provisioner
  import H = StageHistory
  import W = Workflow
  import R = Recovery
  import opened DeploymentTables
  import opened PanelNodes

  datatype Command =
    | DoPrepare | DoDeploy(input: W.StartInput) | DoRetryDNS | DoRetryFailedStep | DoCancel | DoRecheck | DoRestart(reached: bool)

  /** The node name is stored trimmed, and normalising the SNI again changes nothing. */
  predicate Stored(s: W.DeploymentService) {
    Names.TrimSpace(s.input.name) == s.input.name && ZC.Target(s.sni) == Names.NormalizeFQDN(s.sni)
  }

  /** The row, as recovery reads it. */
  function RowOf(s: W.DeploymentService): R.Row
    reads s.repo`status, s.repo`step, s.repo`uuid
  {
    R.Row(s.repo.status, s.repo.step, s.repo.uuid, s.input.name, s.input.ip, "")
  }

  /** A classification that failed: the UUID may have been stored. */
  predicate CutShort(before: R.Row, after: R.Row, world: R.World) {
    after == before.(uuid := after.uuid) && (after.uuid != before.uuid ==> after.uuid == R.Identify(before, world))
  }

  /** What the calls behind a world add to the history: the nodes, and the node. */
  ghost function ReadsOf(world: R.World, uuid: Option<string>): seq<W.Event> {
    (if world.listing.Some? then [W.NodesRead(world.listing.value)] else [])
    + (if uuid.Some? && uuid.value in world.lookup then W.NodeSeen(Some(world.lookup[uuid.value]), uuid.value) else [])
  }

  /** Everything that the row asks for was read: the nodes when no UUID is stored, the
      node, and the zone when the node is connected and DNS is on. */
  ghost predicate AllRead(before: R.Row, uuid: Option<string>, world: R.World, noZone: bool) {
    before.status != COMPLETED && R.Inspectable(before.status, before.step) ==>
      && (before.uuid.None? ==> world.listing.Some?)
      && (uuid.Some? ==> uuid.value in world.lookup)
      && (uuid.Some? && world.lookup[uuid.value].connected && !world.dnsDisabled ==> world.zone.Some? || noZone)
  }

  /** The history has the reads and nothing else; what was not read failed. */
  ghost predicate Shown(before: R.Row, uuid: Option<string>, world: R.World, past: seq<W.Event>, log: seq<W.Event>, failed: bool, noZone: bool) {
    log == past + ReadsOf(world, uuid) && (failed || AllRead(before, uuid, world, noZone))
  }

  /** The only row that recovery writes: a healthy node without DNS needs no change. */
  ghost predicate SkipsOnly(before: map<Step, StepStatus>, after: map<Step, StepStatus>, dnsDisabled: bool) {
    after == before || (dnsDisabled && after == before[AddDNSStep := SKIPPED])
  }

  lemma Looked(row: R.Row, uuid: string, node: Option<PanelNode>, world: R.World, past: seq<W.Event>, failed: bool, noZone: bool)
    requires row.uuid == Some(uuid) && world.listing.None? && world.lookup == (if node.Some? then map[uuid := node.value] else map[])
    requires node.None? ==> failed
    requires node.Some? && node.value.connected && !world.dnsDisabled && world.zone.None? ==> failed || noZone
    ensures Shown(row, row.uuid, world, past, past + W.NodeSeen(node, uuid), failed, noZone)
  {
  }

  lemma ListedFirst(before: R.Row, uuid: string, listing: seq<PanelNode>, answers: R.World, past: seq<W.Event>, log: seq<W.Event>, failed: bool, noZone: bool)
    requires before.uuid.None? && answers.listing.None?
    requires Shown(before.(uuid := Some(uuid)), Some(uuid), answers, past + [W.NodesRead(listing)], log, failed, noZone)
    ensures Shown(before, Some(uuid), answers.(listing := Some(listing)), past, log, failed, noZone)
  {
  }

  /** The only exact match is the deployment's node. */
  lemma ExactIsOurs(nodes: seq<PanelNode>, row: R.Row)
    requires Names.TrimSpace(row.name) == row.name && |R.Exact(nodes, row)| == 1
    ensures R.Exact(nodes, row)[0].uuid in OurUUIDs(nodes, row.name, row.ip)
  {
    R.ExactMeans(nodes, row);
    assert R.Exact(nodes, row)[0] in R.Exact(nodes, row);
  }

  /** The load balancer has no zone of that name, or one that no client reads. */
  ghost predicate NoZone(s: W.DeploymentService)
    reads s.dns`zones
  {
    ZC.Target(s.sni) !in s.dns.zones || !Z.AllClean(s.dns.zones)
  }

  /** The zone of the deployment's SNI; None when the call fails or there is none. */
  method ReadZone(s: W.DeploymentService) returns (zone: Option<Z.Zone>)
    requires s.Valid() && Stored(s)
    modifies s`nodes, s`hosts, s.dns`zones, s.process
    ensures s.Valid()
    ensures old(s.process.failures) <= s.process.failures
    ensures zone.None? ==> old(s.process.failures) < s.process.failures || NoZone(s)
    ensures zone.Some? ==> ZC.Target(s.sni) in s.dns.zones && s.dns.zones[ZC.Target(s.sni)] == zone.value
  {
    s.Environment();
    var domains := s.dns.GetDomains();
    zone := None;
    if domains.Ok? && Names.NormalizeFQDN(s.sni) in domains.value {
      zone := Some(domains.value[Names.NormalizeFQDN(s.sni)]);
    }
  }

  method Write(s: W.DeploymentService, status: Status, step: Step, kind: R.Class) returns (r: R.Answer)
    requires s.Valid() && s.created && W.Gated(status, step, s.repo.uuid, s.log, s.bypassed) && W.StepFits(status, step)
    requires W.Past(s.repo.status, s.repo.step) ==> W.Past(status, step)
    requires OwnStep(step) || step == s.repo.step
    requires status == COMPLETED ==> s.InZone()
    modifies s.repo`status, s.repo`step, s.process
    ensures s.Valid()
    ensures r.Ok? ==> r.value == kind && s.repo.status == status && s.repo.step == step
    ensures r.Err? ==> s.repo.status == old(s.repo.status) && s.repo.step == old(s.repo.step)
    ensures old(s.process.failures) <= s.process.failures
    ensures r.Err? ==> old(s.process.failures) < s.process.failures
  {
    var ok := s.UpdateState(status, step);
    r := if ok then Ok(kind) else Err(());
  }

  /** The row stays as it is but for its status. */
  method Manual(s: W.DeploymentService) returns (r: R.Answer)
    requires s.Valid() && s.created && s.repo.status != COMPLETED
    modifies s.repo`status, s.repo`step, s.process
    ensures s.Valid()
    ensures s.repo.step == old(s.repo.step)
    ensures s.repo.status == if r.Ok? then MANUAL_REVIEW else old(s.repo.status)
    ensures r.Ok? ==> r.value == R.NeedsManualReview
    ensures W.Past(old(s.repo.status), s.repo.step) ==> W.Past(s.repo.status, s.repo.step)
    ensures old(s.process.failures) <= s.process.failures
    ensures r.Err? ==> old(s.process.failures) < s.process.failures
  {
    if W.Past(s.repo.status, s.repo.step) {
      W.PastStays(s.repo.status, s.repo.step);
    }
    r := Write(s, MANUAL_REVIEW, s.repo.step, R.NeedsManualReview);
  }

  /** inspectExternalState. `world` is what the calls answered. */
  method Inspect(s: W.DeploymentService) returns (r: R.Answer, ghost world: R.World)
    requires s.Valid() && s.created && Stored(s) && s.repo.status != COMPLETED
    requires R.Inspectable(s.repo.status, s.repo.step)
    modifies s`nodes, s`hosts, s`log, s.repo`status, s.repo`step, s.repo`uuid, s.repo`steps, s.dns`zones, s.process
    ensures s.Valid() && W.MovesOn(old(s.repo.status), old(s.repo.step), s.repo.status, s.repo.step)
    ensures r.Ok? ==> R.Outcome(r.value, RowOf(s)) == R.Inspected(old(RowOf(s)), world)
    ensures r.Err? ==> CutShort(old(RowOf(s)), RowOf(s), world)
    ensures old(s.process.failures) <= s.process.failures
    ensures r.Err? ==> old(s.process.failures) < s.process.failures
    ensures Shown(old(RowOf(s)), s.repo.uuid, world, old(s.log), s.log, old(s.process.failures) < s.process.failures, NoZone(s))
    ensures world.dnsDisabled == s.dnsDisabled
    ensures world.zone.Some? ==> ZC.Target(s.sni) in s.dns.zones && s.dns.zones[ZC.Target(s.sni)] == world.zone.value
    ensures SkipsOnly(old(s.repo.steps), s.repo.steps, s.dnsDisabled)
  {
    if s.repo.uuid.Some? {
      r, world := InspectNode(s);
    } else {
      r, world := InspectUnknown(s);
    }
  }

  method InspectUnknown(s: W.DeploymentService) returns (r: R.Answer, ghost world: R.World)
    requires s.Valid() && s.created && Stored(s) && s.repo.status != COMPLETED && s.repo.uuid.None?
    requires W.Provisioned in s.log || s.bypassed
    modifies s`nodes, s`hosts, s`log, s.repo`status, s.repo`step, s.repo`uuid, s.repo`steps, s.dns`zones, s.process
    ensures s.Valid() && W.MovesOn(old(s.repo.status), old(s.repo.step), s.repo.status, s.repo.step)
    ensures r.Ok? ==> R.Outcome(r.value, RowOf(s)) == R.Inspected(old(RowOf(s)), world)
    ensures r.Err? ==> CutShort(old(RowOf(s)), RowOf(s), world)
    ensures old(s.process.failures) <= s.process.failures
    ensures r.Err? ==> old(s.process.failures) < s.process.failures
    ensures Shown(old(RowOf(s)), s.repo.uuid, world, old(s.log), s.log, old(s.process.failures) < s.process.failures, NoZone(s))
    ensures world.dnsDisabled == s.dnsDisabled
    ensures world.zone.Some? ==> ZC.Target(s.sni) in s.dns.zones && s.dns.zones[ZC.Target(s.sni)] == world.zone.value
    ensures SkipsOnly(old(s.repo.steps), s.repo.steps, s.dnsDisabled)
  {
    var done, listing := IdentifyOrGiveUp(s);
    world := R.World(listing, map[], None, s.dnsDisabled);
    if done.Some? {
      r := done.value;
    } else {
      ghost var found, seen := RowOf(s), world;
      r, world := InspectFound(s, old(RowOf(s)), listing.value, old(s.log));
      FoundIsInspected(old(RowOf(s)), found, seen, world);
    }
  }

  /** The part of the inspection that looks for the node; `done` is the answer when there
      is none to inspect. */
  method IdentifyOrGiveUp(s: W.DeploymentService) returns (done: Option<R.Answer>, ghost listing: Option<seq<PanelNode>>)
    requires s.Valid() && s.created && Stored(s) && s.repo.status != COMPLETED && s.repo.uuid.None?
    requires W.Provisioned in s.log || s.bypassed
    modifies s`nodes, s`hosts, s`log, s.repo`status, s.repo`step, s.repo`uuid, s.dns`zones, s.process
    ensures s.Valid() && W.MovesOn(old(s.repo.status), old(s.repo.step), s.repo.status, s.repo.step)
    ensures old(s.process.failures) <= s.process.failures
    ensures s.log == old(s.log) + if listing.Some? then [W.NodesRead(listing.value)] else []
    ensures done.Some? && done.value.Err? ==> RowOf(s) == old(RowOf(s)) && old(s.process.failures) < s.process.failures
    ensures done.Some? && listing.None? ==> old(s.process.failures) < s.process.failures
    ensures var world := R.World(listing, map[], None, s.dnsDisabled);
            if done.None? then
              && listing.Some? && s.repo.uuid.Some? && RowOf(s) == old(RowOf(s)).(uuid := s.repo.uuid)
              && s.repo.uuid == R.Identify(old(RowOf(s)), world)
            else
              && s.repo.uuid.None?
              && (done.value.Ok? ==> R.Outcome(done.value.value, RowOf(s)) == R.Inspected(old(RowOf(s)), world))
  {
    done := None;
    var identified, failed;
    identified, failed, listing := Identify(s);
    if failed {
      done := Some(Err(()));
    } else if !identified {
      var r := Manual(s);
      done := Some(r);
    }
  }

  /** The inspection of the node that a listing has just shown. */
  method InspectFound(s: W.DeploymentService, ghost before: R.Row, ghost listing: seq<PanelNode>, ghost past: seq<W.Event>)
    returns (r: R.Answer, ghost world: R.World)
    requires s.Valid() && s.created && Stored(s) && s.repo.status != COMPLETED && s.repo.uuid.Some?
    requires before.uuid.None? && RowOf(s) == before.(uuid := s.repo.uuid) && s.log == past + [W.NodesRead(listing)]
    modifies s`nodes, s`hosts, s`log, s.repo`status, s.repo`step, s.repo`steps, s.dns`zones, s.process
    ensures s.Valid() && W.MovesOn(old(s.repo.status), old(s.repo.step), s.repo.status, s.repo.step)
    ensures world.listing == Some(listing)
    ensures r.Ok? ==> R.Outcome(r.value, RowOf(s)) == R.InspectedNode(old(RowOf(s)), world)
    ensures r.Err? ==> RowOf(s) == old(RowOf(s))
    ensures old(s.process.failures) <= s.process.failures
    ensures r.Err? ==> old(s.process.failures) < s.process.failures
    ensures Shown(before, s.repo.uuid, world, past, s.log, old(s.process.failures) < s.process.failures, NoZone(s))
    ensures world.dnsDisabled == s.dnsDisabled
    ensures world.zone.Some? ==> ZC.Target(s.sni) in s.dns.zones && s.dns.zones[ZC.Target(s.sni)] == world.zone.value
    ensures SkipsOnly(old(s.repo.steps), s.repo.steps, s.dnsDisabled)
  {
    ghost var row := RowOf(s);
    ghost var answers;
    r, answers := InspectNode(s);
    world := answers.(listing := Some(listing));
    ListingIsNoMatter(row, answers, Some(listing));
    ListedFirst(before, row.uuid.value, listing, answers, past, s.log, old(s.process.failures) < s.process.failures, NoZone(s));
  }

  lemma FoundIsInspected(before: R.Row, found: R.Row, listing: R.World, world: R.World)
    requires found.uuid.Some? && found == before.(uuid := found.uuid)
    requires listing.listing == world.listing && R.Identify(before, listing) == found.uuid
    ensures R.Inspected(before, world) == R.InspectedNode(found, world) && R.Identify(before, world) == found.uuid
  {
  }

  lemma ListingIsNoMatter(row: R.Row, world: R.World, listing: Option<seq<PanelNode>>)
    requires row.uuid.Some?
    ensures R.InspectedNode(row, world.(listing := listing)) == R.InspectedNode(row, world)
  {
  }

  /** Looks for the only exact match and stores its UUID. */
  method Identify(s: W.DeploymentService) returns (identified: bool, failed: bool, ghost listing: Option<seq<PanelNode>>)
    requires s.Valid() && s.created && Stored(s) && s.repo.uuid.None? && (W.Provisioned in s.log || s.bypassed)
    modifies s`nodes, s`hosts, s`log, s.repo`uuid, s.dns`zones, s.process
    ensures s.Valid()
    ensures var world := R.World(listing, map[], None, s.dnsDisabled);
            && (identified ==> !failed && s.repo.uuid.Some? && s.repo.uuid == R.Identify(old(RowOf(s)), world))
            && (!identified ==> s.repo.uuid.None?)
            && (!identified && !failed ==> R.Identify(old(RowOf(s)), world).None?)
    ensures old(s.process.failures) <= s.process.failures
    ensures failed || listing.None? ==> old(s.process.failures) < s.process.failures
    ensures s.log == old(s.log) + if listing.Some? then [W.NodesRead(listing.value)] else []
    ensures identified ==> listing.Some?
  {
    identified, failed := false, false;
    ghost var row := RowOf(s);
    var listed := s.GetNodes();
    listing := listed;
    if listed.Some? {
      var exact := R.Exact(listed.value, RowOf(s));
      if |exact| == 1 {
        ExactIsOurs(listed.value, row);
        var ok := s.SetNodeUUID(exact[0].uuid);
        identified, failed := ok, !ok;
      }
    }
  }

  method InspectNode(s: W.DeploymentService) returns (r: R.Answer, ghost world: R.World)
    requires s.Valid() && s.created && Stored(s) && s.repo.uuid.Some? && s.repo.status != COMPLETED
    modifies s`nodes, s`hosts, s`log, s.repo`status, s.repo`step, s.repo`steps, s.dns`zones, s.process
    ensures s.Valid() && W.MovesOn(old(s.repo.status), old(s.repo.step), s.repo.status, s.repo.step)
    ensures r.Ok? ==> R.Outcome(r.value, RowOf(s)) == R.InspectedNode(old(RowOf(s)), world)
    ensures r.Err? ==> RowOf(s) == old(RowOf(s))
    ensures old(s.process.failures) <= s.process.failures
    ensures r.Err? ==> old(s.process.failures) < s.process.failures
    ensures Shown(old(RowOf(s)), s.repo.uuid, world, old(s.log), s.log, old(s.process.failures) < s.process.failures, NoZone(s))
    ensures world.dnsDisabled == s.dnsDisabled
    ensures world.zone.Some? ==> ZC.Target(s.sni) in s.dns.zones && s.dns.zones[ZC.Target(s.sni)] == world.zone.value
    ensures world.listing.None?
    ensures SkipsOnly(old(s.repo.steps), s.repo.steps, s.dnsDisabled)
  {
    var answers := Look(s);
    world := answers;
    r := Settle(s, answers);
  }

  /** The calls behind the inspection of a known node. */
  method Look(s: W.DeploymentService) returns (world: R.World)
    requires s.Valid() && s.created && Stored(s) && s.repo.uuid.Some? && s.repo.status != COMPLETED
    modifies s`nodes, s`hosts, s`log, s.repo`step, s.repo`steps, s.dns`zones, s.process
    ensures s.Valid() && s.repo.step == old(s.repo.step)
    ensures old(s.process.failures) <= s.process.failures
    ensures Shown(RowOf(s), s.repo.uuid, world, old(s.log), s.log, old(s.process.failures) < s.process.failures, NoZone(s))
    ensures world.dnsDisabled == s.dnsDisabled && world.listing.None?
    ensures world.zone.Some? ==> ZC.Target(s.sni) in s.dns.zones && s.dns.zones[ZC.Target(s.sni)] == world.zone.value
    ensures SkipsOnly(old(s.repo.steps), s.repo.steps, s.dnsDisabled)
  {
    var node := s.GetNode(s.repo.uuid.value);
    var zone := LookAtDNS(s, node.Some? && node.value.connected);
    world := R.World(None, if node.Some? then map[s.repo.uuid.value := node.value] else map[], zone, s.dnsDisabled);
    Looked(RowOf(s), s.repo.uuid.value, node, world, old(s.log), old(s.process.failures) < s.process.failures, NoZone(s));
  }

  /** The zone of a connected node, or a note that there is none to look at. */
  method LookAtDNS(s: W.DeploymentService, connected: bool) returns (zone: Option<Z.Zone>)
    requires s.Valid() && s.created && Stored(s) && s.repo.uuid.Some?
    modifies s`nodes, s`hosts, s.repo`step, s.repo`steps, s.dns`zones, s.process
    ensures s.Valid() && s.repo.step == old(s.repo.step)
    ensures zone.Some? ==> ZC.Target(s.sni) in s.dns.zones && s.dns.zones[ZC.Target(s.sni)] == zone.value
    ensures old(s.process.failures) <= s.process.failures
    ensures zone.None? ==> !connected || s.dnsDisabled || old(s.process.failures) < s.process.failures || NoZone(s)
    ensures SkipsOnly(old(s.repo.steps), s.repo.steps, s.dnsDisabled)
    ensures connected && s.dnsDisabled ==> s.repo.steps == old(s.repo.steps)[AddDNSStep := SKIPPED] || old(s.process.failures) < s.process.failures
  {
    zone := None;
    if connected && s.dnsDisabled {
      var _ := s.RecordStep(AddDNSStep, SKIPPED);
    } else if connected {
      zone := ReadZone(s);
    }
  }

  /** Writes what the answers make of the row. */
  method Settle(s: W.DeploymentService, world: R.World) returns (r: R.Answer)
    requires s.Valid() && s.created && s.repo.uuid.Some? && s.repo.status != COMPLETED && world.dnsDisabled == s.dnsDisabled
    requires world.zone.Some? ==> ZC.Target(s.sni) in s.dns.zones && s.dns.zones[ZC.Target(s.sni)] == world.zone.value
    modifies s.repo`status, s.repo`step, s.process
    ensures s.Valid() && W.MovesOn(old(s.repo.status), old(s.repo.step), s.repo.status, s.repo.step)
    ensures r.Ok? ==> R.Outcome(r.value, RowOf(s)) == R.InspectedNode(old(RowOf(s)), world)
    ensures r.Err? ==> RowOf(s) == old(RowOf(s))
    ensures old(s.process.failures) <= s.process.failures
    ensures r.Err? ==> old(s.process.failures) < s.process.failures
  {
    var outcome := R.InspectedNode(RowOf(s), world);
    R.InspectedFits(RowOf(s), world, s.log, s.bypassed);
    r := Write(s, outcome.row.status, outcome.row.step, outcome.kind);
  }

  /** RecheckRemnawave, and RecoverUnfinished for this row: the row becomes what the
      classification makes of it in the world that the calls showed. */
  method Recheck(s: W.DeploymentService) returns (r: R.Answer, ghost world: R.World)
    requires s.Valid() && Stored(s)
    modifies s`nodes, s`hosts, s`log, s.repo`status, s.repo`step, s.repo`uuid, s.repo`steps, s.dns`zones, s.process
    ensures s.Valid() && W.MovesOn(old(s.repo.status), old(s.repo.step), s.repo.status, s.repo.step)
    ensures r.Ok? ==> s.created && R.Outcome(r.value, RowOf(s)) == R.Classified(old(RowOf(s)), world)
    ensures r.Err? ==> CutShort(old(RowOf(s)), RowOf(s), world)
    ensures old(s.process.failures) <= s.process.failures
    ensures r.Err? ==> old(s.process.failures) < s.process.failures
    ensures Shown(old(RowOf(s)), s.repo.uuid, world, old(s.log), s.log, old(s.process.failures) < s.process.failures, NoZone(s))
    ensures world.dnsDisabled == s.dnsDisabled
    ensures world.zone.Some? ==> ZC.Target(s.sni) in s.dns.zones && s.dns.zones[ZC.Target(s.sni)] == world.zone.value
    ensures SkipsOnly(old(s.repo.steps), s.repo.steps, s.dnsDisabled)
  {
    world := R.World(None, map[], None, s.dnsDisabled);
    r := Err(());
    var loaded := s.GetDeployment();
    if loaded {
      r, world := Classify(s);
    }
  }

  method Classify(s: W.DeploymentService) returns (r: R.Answer, ghost world: R.World)
    requires s.Valid() && s.created && Stored(s)
    modifies s`nodes, s`hosts, s`log, s.repo`status, s.repo`step, s.repo`uuid, s.repo`steps, s.dns`zones, s.process
    ensures s.Valid() && W.MovesOn(old(s.repo.status), old(s.repo.step), s.repo.status, s.repo.step)
    ensures r.Ok? ==> R.Outcome(r.value, RowOf(s)) == R.Classified(old(RowOf(s)), world)
    ensures r.Err? ==> CutShort(old(RowOf(s)), RowOf(s), world)
    ensures old(s.process.failures) <= s.process.failures
    ensures r.Err? ==> old(s.process.failures) < s.process.failures
    ensures Shown(old(RowOf(s)), s.repo.uuid, world, old(s.log), s.log, old(s.process.failures) < s.process.failures, NoZone(s))
    ensures world.dnsDisabled == s.dnsDisabled
    ensures world.zone.Some? ==> ZC.Target(s.sni) in s.dns.zones && s.dns.zones[ZC.Target(s.sni)] == world.zone.value
    ensures SkipsOnly(old(s.repo.steps), s.repo.steps, s.dnsDisabled)
  {
    world := R.World(None, map[], None, s.dnsDisabled);
    if s.repo.status == COMPLETED {
      r := Ok(R.RecoveredCompleted);
    } else if R.Inspectable(s.repo.status, s.repo.step) {
      r, world := Inspect(s);
    } else {
      r := Manual(s);
    }
  }

  /** The statuses that no start looks at. */
  ghost predicate EndsThere(status: Status) {
    || status == COMPLETED || status == FAILED || status == CANCELLED
    || status == DNS_FAILED || status == MANUAL_REVIEW
  }

  /** FindUnfinishedDeploymentsByPanel. */
  predicate Unfinished(status: Status) {
    match status
    case COMPLETED => false
    case FAILED => false
    case CANCELLED => false
    case DNS_FAILED => false
    case MANUAL_REVIEW => false
    case _ => true
  }

  lemma UnfinishedMeans(status: Status)
    ensures Unfinished(status) <==> !EndsThere(status)
  {
  }

  /** A start classifies the unfinished deployments, as far as its limit reaches, and
      gives up when that fails. */
  method Start(s: W.DeploymentService, reached: bool) returns (r: Option<R.Answer>, ghost world: R.World)
    requires s.Valid() && Stored(s)
    modifies s`nodes, s`hosts, s`log, s.repo`status, s.repo`step, s.repo`uuid, s.repo`steps, s.dns`zones, s.process
    ensures s.Valid() && W.MovesOn(old(s.repo.status), old(s.repo.step), s.repo.status, s.repo.step)
    ensures r.Some? <==> old(s.created) && reached && !EndsThere(old(s.repo.status))
    ensures r.None? ==> s.process.alive && RowOf(s) == old(RowOf(s)) && s.log == old(s.log)
    ensures r.Some? && r.value.Ok? ==> R.Outcome(r.value.value, RowOf(s)) == R.Classified(old(RowOf(s)), world)
    ensures r.Some? && r.value.Err? ==> !s.process.alive && old(s.process.failures) < s.process.failures && CutShort(old(RowOf(s)), RowOf(s), world)
    ensures r.Some? ==> Shown(old(RowOf(s)), s.repo.uuid, world, old(s.log), s.log, old(s.process.failures) < s.process.failures, NoZone(s))
    ensures SkipsOnly(old(s.repo.steps), s.repo.steps, s.dnsDisabled)
  {
    UnfinishedMeans(s.repo.status);
    s.process.Restart();
    r, world := None, R.World(None, map[], None, s.dnsDisabled);
    if s.created && Unfinished(s.repo.status) && reached {
      var answer;
      answer, world := Recheck(s);
      r := Some(answer);
      if answer.Err? {
        s.process.Stop();
      }
    }
  }

  /** One command, after the world has changed. */
  method Do(s: W.DeploymentService, command: Command)
    requires s.Valid() && Stored(s)
    modifies s`created, s`nodes, s`hosts, s`log, s`bypassed, s.repo, s.engine`desired, s.engine`log, s.dns, s.process
    ensures s.Valid()
    ensures W.Kept(old(s.repo.steps), old(s.repo.step), s.repo.steps, s.repo.step)
    ensures W.Past(old(s.repo.status), old(s.repo.step)) ==>
              W.Past(s.repo.status, s.repo.step) && H.OnlyReopened(old(s.engine.log), s.engine.log)
    ensures s.bypassed != old(s.bypassed) ==>
              && s.bypassed && command.DoDeploy?
              && old(s.repo.status) == MANUAL_REVIEW && old(s.repo.uuid).None? && W.Provisioned !in old(s.log)
  {
    s.Environment();
    match command {
      case DoPrepare =>
        if !s.created {
          var _ := s.Prepare();
        }
      case DoDeploy(input) =>
        var _, _ := s.Deploy(input);
      case DoRetryDNS =>
        var _ := s.RetryDNS();
      case DoRetryFailedStep =>
        var _ := s.RetryFailedStep();
      case DoCancel =>
        var _ := s.Cancel();
      case DoRecheck =>
        var _, _ := Recheck(s);
      case DoRestart(reached) =>
        var _, _ := Start(s, reached);
    }
  }

  /** Every life of a deployment: any sequence of operations, rechecks, process deaths
      and starts with their recovery, with failures at every call and a changing world
      in between. */
  method Operate(s: W.DeploymentService, commands: seq<Command>)
    requires s.Valid() && Stored(s)
    modifies s`created, s`nodes, s`hosts, s`log, s`bypassed, s.repo, s.engine`desired, s.engine`log, s.dns, s.process
    ensures s.Valid()
    ensures s.created ==> AtMostOne(s.nodes, s.input.name, s.input.ip)
    ensures s.created && s.repo.status == COMPLETED ==> s.Delivered()
    ensures W.LogGated(s.log, s.bypassed) && W.Gated(s.repo.status, s.repo.step, s.repo.uuid, s.log, s.bypassed)
    ensures W.Kept(old(s.repo.steps), old(s.repo.step), s.repo.steps, s.repo.step)
    ensures H.Fits(s.engine.log) && H.EndsWhenFailed(s.engine.log)
    ensures W.Past(old(s.repo.status), old(s.repo.step)) ==>
              W.Past(s.repo.status, s.repo.step) && H.OnlyReopened(old(s.engine.log), s.engine.log)
  {
    for i := 0 to |commands|
      invariant s.Valid()
      invariant W.Kept(old(s.repo.steps), old(s.repo.step), s.repo.steps, s.repo.step)
      invariant W.Past(old(s.repo.status), old(s.repo.step)) ==>
                  W.Past(s.repo.status, s.repo.step) && H.OnlyReopened(old(s.engine.log), s.engine.log)
    {
      Do(s, commands[i]);
    }
    if s.created {
      s.OneNode();
    }
    if s.created && s.repo.status == COMPLETED {
      s.CompletedIsDelivered();
    }
  }
}
