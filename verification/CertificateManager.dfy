/** Issuance, activation, distribution and rollback of the certificate of one SNI
    (internal/certmanager/manager.go, distribution.go). Every method runs while the
    SNI's lock is held. */
module CertificateManager {
  import opened Wrappers
  import opened CertificateTables
  import P = Process
  import SF = SingleFlight

  datatype Error = NotFound | InvalidInput | InvalidMaterial | IssuanceFailed | StorageFailed | PersistenceFailed | DistributionError
  type Answer<+T> = Result<T, Error>

  datatype Review = ManualReview | LegacyAcknowledged

  /** A deployments row found for the SNI; `verified` says it has a node UUID and an
      SSH host key and is not cancelled. */
  datatype Deployment = Deployment(id: string, ip: Addr, verified: bool)

  datatype Target = Target(deployment: string, ip: Addr)

  /** The three-way split of a zone. */
  datatype Resolution = Resolution(managed: seq<Target>, unmanaged: set<Addr>, legacy: set<Addr>)

  datatype Current = Current(record: Record, material: Material)

  datatype Candidate = Candidate(version: string, material: Material)

  /** An activation and whether its gate held when the metadata was committed. */
  datatype Activation = Activation(version: string, gated: bool)

  /** What a failed activation did about the nodes. */
  datatype Compensation = NotNeeded | Restored | NotRestored

  datatype Command =
    | DoPrepare
    | DoRenew
    | DoBootstrap(operator: int)
    | DoRollback(version: string)
    | Restart
    | Environment(zone: set<Addr>, deployments: seq<Deployment>)

  predicate ManagedIP(deployments: seq<Deployment>, ip: Addr) {
    exists i :: 0 <= i < |deployments| && deployments[i].verified && deployments[i].ip == ip
  }

  /** Every address of the zone is a managed target that holds m, or an acknowledged
      legacy target. */
  ghost predicate Gate(zone: set<Addr>, deployments: seq<Deployment>, reviews: map<Addr, Review>,
                       nodes: map<Addr, Material>, m: Material)
  {
    forall ip :: ip in zone ==>
      if ManagedIP(deployments, ip) then ip in nodes && nodes[ip] == m
      else ip in reviews && reviews[ip] == LegacyAcknowledged
  }

  /** Every managed node of the zone holds m. */
  ghost predicate ManagedHold(zone: set<Addr>, deployments: seq<Deployment>, nodes: map<Addr, Material>, m: Material) {
    forall ip :: ip in zone && ManagedIP(deployments, ip) ==> ip in nodes && nodes[ip] == m
  }

  predicate Among(targets: seq<Target>, ip: Addr) {
    exists i :: 0 <= i < |targets| && targets[i].ip == ip
  }

  lemma AmongSnoc(targets: seq<Target>, t: Target)
    ensures forall ip :: Among(targets + [t], ip) <==> Among(targets, ip) || t.ip == ip
  {
    var all := targets + [t];
    assert all[|targets|] == t;
    forall ip ensures Among(all, ip) <==> Among(targets, ip) || t.ip == ip {
      if Among(targets, ip) {
        var i :| 0 <= i < |targets| && targets[i].ip == ip;
        assert all[i].ip == ip;
      }
    }
  }

  ghost predicate Splits(r: Resolution, zone: set<Addr>, deployments: seq<Deployment>, reviews: map<Addr, Review>) {
    && (forall ip :: Among(r.managed, ip) <==> ip in zone && ManagedIP(deployments, ip))
    && (forall ip :: ip in r.legacy <==>
          ip in zone && !ManagedIP(deployments, ip) && ip in reviews && reviews[ip] == LegacyAcknowledged)
    && (forall ip :: ip in r.unmanaged <==>
          ip in zone && !ManagedIP(deployments, ip) && !(ip in reviews && reviews[ip] == LegacyAcknowledged))
  }

  /** The nodes that differ have just been given m. */
  ghost predicate OnlyGiven(before: map<Addr, Material>, after: map<Addr, Material>, m: Material) {
    && before.Keys <= after.Keys
    && forall ip :: ip in after && !(ip in before && after[ip] == before[ip]) ==> after[ip] == m
  }

  /** Acknowledgements are never withdrawn. */
  ghost predicate AcknowledgementsStay(before: map<Addr, Review>, after: map<Addr, Review>) {
    forall ip :: ip in before && before[ip] == LegacyAcknowledged ==> ip in after && after[ip] == LegacyAcknowledged
  }

  /** Every saved version was sound and had begun when it was saved. */
  ghost predicate Begun(versions: Versions, staged: Staged, clock: int) {
    forall v :: v in versions ==> v in staged && staged[v].sound && staged[v].issuedAt <= clock
  }

  predicate NeverActive(versions: Versions, v: string) {
    v in versions && (versions[v].status == Pending || versions[v].status == DistributionFailed)
  }

  /** The versions that are not never active are those that were activated. */
  ghost predicate ActivatedOnly(versions: Versions, activations: seq<Activation>) {
    && (forall i :: 0 <= i < |activations| ==> activations[i].version in versions && !NeverActive(versions, activations[i].version))
    && (forall v :: v in versions && !NeverActive(versions, v) ==> WasActivated(activations, v))
  }

  ghost predicate WasActivated(activations: seq<Activation>, v: string) {
    exists i :: 0 <= i < |activations| && activations[i].version == v
  }

  lemma ActivationRecorded(versions: Versions, activations: seq<Activation>, a: Activation)
    requires ActivatedOnly(versions, activations) && a.version in versions
    ensures ActivatedOnly(Activated(versions, a.version), activations + [a])
  {
    var all, after := activations + [a], Activated(versions, a.version);
    forall v | v in after && !NeverActive(after, v) ensures WasActivated(all, v) {
      if v == a.version {
        assert all[|activations|].version == v;
      } else {
        var i :| 0 <= i < |activations| && activations[i].version == v;
        assert all[i].version == v;
      }
    }
  }

  lemma SavedIsNeverActive(versions: Versions, activations: seq<Activation>, version: string, m: Material)
    requires ActivatedOnly(versions, activations) && version !in versions
    ensures ActivatedOnly(Saved(versions, version, m), activations)
  {
    var after := Saved(versions, version, m);
    forall v | v in after && !NeverActive(after, v) ensures WasActivated(activations, v) {
      assert v in versions && !NeverActive(versions, v);
    }
  }

  lemma MarkedIsNeverActive(versions: Versions, activations: seq<Activation>, version: string)
    requires ActivatedOnly(versions, activations) && NeverActive(versions, version)
    ensures ActivatedOnly(Marked(versions, version, DistributionFailed), activations)
  {
    var after := Marked(versions, version, DistributionFailed);
    forall v | v in after && !NeverActive(after, v) ensures WasActivated(activations, v) {
      assert v in versions && !NeverActive(versions, v);
    }
  }

  /** No candidate: it was active once, could not be read, or has expired by now. */
  ghost predicate PassedOver(v: string, versions: Versions, staged: Staged, unread: seq<string>, now: int) {
    NeverActive(versions, v) ==> v in unread || (v in staged && staged[v].expiresAt <= now)
  }

  /** v was never active, and every version newer than v is no candidate. */
  ghost predicate Newest(order: seq<string>, versions: Versions, staged: Staged, unread: seq<string>, now: int, v: string) {
    && NeverActive(versions, v)
    && exists i :: 0 <= i < |order| && order[i] == v && AllPassedOver(order[..i], versions, staged, unread, now)
  }

  ghost predicate AllPassedOver(order: seq<string>, versions: Versions, staged: Staged, unread: seq<string>, now: int) {
    forall v :: v in order ==> PassedOver(v, versions, staged, unread, now)
  }

  lemma PassedOverStays(order: seq<string>, versions: Versions, staged: Staged, unread: seq<string>, now: int, more: seq<string>, later: int)
    requires AllPassedOver(order, versions, staged, unread, now)
    requires (forall v :: v in unread ==> v in more) && now <= later
    ensures AllPassedOver(order, versions, staged, more, later)
  {
  }

  lemma NewestStays(order: seq<string>, versions: Versions, staged: Staged, unread: seq<string>, now: int, more: seq<string>, later: int, v: string)
    requires Newest(order, versions, staged, unread, now, v)
    requires (forall u :: u in unread ==> u in more) && now <= later
    ensures Newest(order, versions, staged, more, later, v)
  {
    var i :| 0 <= i < |order| && order[i] == v && AllPassedOver(order[..i], versions, staged, unread, now);
    PassedOverStays(order[..i], versions, staged, unread, now, more, later);
  }

  function Expiry(record: Option<Record>): Option<int> {
    if record.Some? then Some(record.value.expiresAt) else None
  }

  class Manager {
    const process: P.Process
    const renewBefore: int
    const hasResolver: bool
    const hasDistributor: bool

    // certificate_versions, newest first in `order`; certificate_records; certificate_target_reviews
    var versions: Versions
    var order: seq<string>
    var record: Option<Record>
    var reviews: map<Addr, Review>
    // the store
    var staged: Staged
    var marker: Option<string>
    // DNS zone, deployment rows, and the certificate each node serves
    var zone: set<Addr>
    var deployments: seq<Deployment>
    var nodes: map<Addr, Material>
    var clock: int

    ghost var issuerCalls: nat
    /** What the issuer answered. */
    ghost var answers: seq<Material>
    /** Staged versions that could not be read when they were to be loaded. */
    ghost var failedLoads: seq<string>
    ghost var activations: seq<Activation>

    ghost predicate Valid()
      reads `versions, `order, `record, `staged, `marker, `activations, `clock
    {
      && Consistent(versions, record, staged, marker) && Begun(versions, staged, clock)
      && (forall v :: v in order <==> v in versions) && ActivatedOnly(versions, activations)
      && (hasResolver ==> forall i :: 0 <= i < |activations| ==> activations[i].gated)
      && renewBefore > 0
    }

    /** An address that nobody vouches for: neither managed nor acknowledged. */
    ghost predicate Unvouched(ip: Addr)
      reads `zone, `deployments, `reviews
    {
      ip in zone && !ManagedIP(deployments, ip) && !(ip in reviews && reviews[ip] == LegacyAcknowledged)
    }

    /** There are managed nodes and nothing to reach them with. */
    ghost predicate Unreachable()
      reads `zone, `deployments
    {
      !hasDistributor && exists ip :: ip in zone && ManagedIP(deployments, ip)
    }

    /** No version can be distributed, whatever calls go through. */
    ghost predicate Undistributable()
      reads `zone, `deployments, `reviews
    {
      hasResolver && (Unreachable() || exists ip :: Unvouched(ip))
    }

    /** The certificate of a record has expired. */
    ghost predicate Expired(r: Option<Record>)
      reads `staged, `clock
    {
      r.Some? && r.value.active in staged && staged[r.value.active].expiresAt <= clock
    }

    /** The issuer's last answer since is not valid at the time. */
    ghost predicate BadAnswer(before: seq<Material>, now: int)
      reads `answers
    {
      before < answers && !ValidAt(answers[|answers| - 1], now)
    }

    /** The marker is where it was or where it is wanted, unless the call that was to
        bring it back failed too. */
    ghost predicate MarkerBack(before: Option<string>, wanted: Option<string>, version: string, start: nat)
      reads `marker, `staged, process
    {
      || marker == before || (wanted.Some? && marker == wanted)
      || (marker == Some(version)
          && (start + 2 <= process.failures || wanted.None? || wanted.value !in staged))
    }

    /** The status of a version tells whether it was ever activated. */
    lemma NeverActiveMeans(v: string)
      requires Valid()
      ensures NeverActive(versions, v) <==> v in versions && forall i :: 0 <= i < |activations| ==> activations[i].version != v
    {
      if v in versions && !NeverActive(versions, v) {
        assert WasActivated(activations, v);
      }
    }

    ghost predicate GateHolds(m: Material)
      reads `zone, `deployments, `reviews, `nodes
    {
      Gate(zone, deployments, reviews, nodes, m)
    }

    constructor (process: P.Process, renewBefore: int, hasResolver: bool, hasDistributor: bool)
      requires renewBefore > 0
      ensures Valid() && this.process == process && fresh(this)
      ensures this.renewBefore == renewBefore && this.hasResolver == hasResolver && this.hasDistributor == hasDistributor
    {
      this.process, this.renewBefore := process, renewBefore;
      this.hasResolver, this.hasDistributor := hasResolver, hasDistributor;
      versions, order, record, reviews := map[], [], None, map[];
      staged, marker := map[], None;
      zone, deployments, nodes, clock := {}, [], map[], 0;
      issuerCalls, answers, failedLoads, activations := 0, [], [], [];
    }

    method Now() returns (t: int)
      modifies this`clock
      ensures t == clock >= old(clock)
    {
      var passed: int := *;
      if passed > 0 {
        clock := clock + passed;
      }
      t := clock;
    }

    // ---- Single calls ----

    method StoreActivate(version: string) returns (ok: bool)
      modifies this`marker, process
      ensures ok ==> version in staged && marker == Some(version)
      ensures !ok ==> marker == old(marker)
      ensures process.failures == old(process.failures) + if ok then 0 else 1
    {
      ok := process.Attempt();
      if ok && version !in staged {
        process.Refused();
        ok := false;
      }
      if ok {
        marker := Some(version);
      }
    }

    method StoreLoad(version: string) returns (r: Answer<Material>)
      modifies this`failedLoads, process
      ensures r.Ok? ==> version in staged && r.value == staged[version]
      ensures r.Err? ==> r.error == StorageFailed
      ensures failedLoads == old(failedLoads) + if r.Err? && version in staged then [version] else []
      ensures process.failures == old(process.failures) + if r.Ok? then 0 else 1
    {
      var ok := process.Attempt();
      if ok && version in staged {
        return Ok(staged[version]);
      }
      if ok {
        process.Refused();
      }
      if version in staged {
        failedLoads := failedLoads + [version];
      }
      return Err(StorageFailed);
    }

    /** Renaming onto a version directory that exists fails. */
    method StoreStage(m: Material) returns (r: Answer<string>)
      modifies this`staged, process
      ensures r.Ok? ==> r.value !in old(staged) && staged == old(staged)[r.value := m]
      ensures r.Err? ==> r.error == StorageFailed && staged == old(staged)
      ensures process.failures == old(process.failures) + if r.Ok? then 0 else 1
    {
      var ok := process.Attempt();
      var version: string := *;
      if ok && version in staged {
        process.Refused();
        ok := false;
      }
      if !ok {
        return Err(StorageFailed);
      }
      staged := staged[version := m];
      return Ok(version);
    }

    method SaveVersion(version: string, m: Material) returns (ok: bool)
      modifies this`versions, this`order, process
      ensures ok ==> version !in old(versions) && versions == Saved(old(versions), version, m) && order == [version] + old(order)
      ensures !ok ==> versions == old(versions) && order == old(order)
      ensures process.failures == old(process.failures) + if ok then 0 else 1
    {
      ok := process.Attempt();
      if ok && version in versions {
        process.Refused();
        ok := false;
      }
      if ok {
        versions := Saved(versions, version, m);
        order := [version] + order;
      }
    }

    method SetVersionStatus(version: string, status: VersionStatus)
      modifies this`versions, process
      ensures versions == old(versions) || (version in old(versions) && versions == Marked(old(versions), version, status))
      ensures old(process.failures) <= process.failures
      ensures process.failures == old(process.failures) ==>
                version in old(versions) && versions == Marked(old(versions), version, status)
    {
      var ok := process.Attempt();
      if ok && version !in versions {
        process.Refused();
        ok := false;
      }
      if ok {
        versions := Marked(versions, version, status);
      }
    }

    method ActivateVersion(version: string) returns (ok: bool)
      modifies this`versions, this`record, this`activations, process
      ensures ok ==>
                && version in old(versions)
                && versions == Activated(old(versions), version)
                && record == Some(ActiveRecord(old(versions), version))
                && activations == old(activations) + [Activation(version, version in staged && GateHolds(staged[version]))]
      ensures !ok ==> versions == old(versions) && record == old(record) && activations == old(activations)
      ensures process.failures == old(process.failures) + if ok then 0 else 1
    {
      ok := process.Attempt();
      if ok && version !in versions {
        process.Refused();
        ok := false;
      }
      if ok {
        record := Some(ActiveRecord(versions, version));
        versions := Activated(versions, version);
        activations := activations + [Activation(version, version in staged && GateHolds(staged[version]))];
      }
    }

    method RecordTargetReview(ip: Addr, review: Review) returns (ok: bool)
      modifies this`reviews, process
      ensures reviews == if ok then old(reviews)[ip := review] else old(reviews)
      ensures process.failures == old(process.failures) + if ok then 0 else 1
    {
      ok := process.Attempt();
      if ok {
        reviews := reviews[ip := review];
      }
    }

    // ---- Targets ----

    /** The addresses of the zone, split into managed targets, acknowledged legacy
        targets and the rest. */
    method Resolve() returns (r: Answer<Resolution>)
      modifies process
      ensures r.Ok? ==> Splits(r.value, zone, deployments, reviews)
      ensures r.Err? ==> r.error == DistributionError
      ensures if r.Ok? then process.failures == old(process.failures) else old(process.failures) < process.failures
    {
      var zoneRead := process.Attempt();
      if !zoneRead {
        return Err(DistributionError);
      }
      if zone == {} {
        return Ok(Resolution([], {}, {}));
      }
      var deploymentsRead := process.Attempt();
      var reviewsRead := process.Attempt();
      if !deploymentsRead || !reviewsRead {
        return Err(DistributionError);
      }
      var byIP: map<Addr, string> := map[];
      for i := 0 to |deployments|
        modifies {}
        invariant forall ip :: ip in byIP <==> ManagedIP(deployments[..i], ip)
      {
        var item := deployments[i];
        assert deployments[..i + 1] == deployments[..i] + [item];
        if item.verified && item.ip !in byIP {
          byIP := byIP[item.ip := item.id];
        }
        forall ip ensures ip in byIP <==> ManagedIP(deployments[..i + 1], ip) {
          if item.verified && item.ip == ip {
            assert deployments[..i + 1][i] == item;
          } else if ManagedIP(deployments[..i], ip) {
            var j :| 0 <= j < i && deployments[..i][j].verified && deployments[..i][j].ip == ip;
            assert deployments[..i + 1][j] == deployments[..i][j];
          }
        }
      }
      assert deployments[..|deployments|] == deployments;
      var managed: seq<Target>, unmanaged: set<Addr>, legacy: set<Addr> := [], {}, {};
      var todo := zone;
      while todo != {}
        modifies {}
        invariant todo <= zone
        invariant Splits(Resolution(managed, unmanaged, legacy), zone - todo, deployments, reviews)
      {
        var ip :| ip in todo;
        if ip in byIP {
          AmongSnoc(managed, Target(byIP[ip], ip));
          managed := managed + [Target(byIP[ip], ip)];
        } else if ip in reviews && reviews[ip] == LegacyAcknowledged {
          legacy := legacy + {ip};
        } else {
          unmanaged := unmanaged + {ip};
        }
        todo := todo - {ip};
      }
      assert zone - todo == zone;
      return Ok(Resolution(managed, unmanaged, legacy));
    }

    /** One result per target: a node either serves m afterwards or is as it was. */
    method Distribute(m: Material, targets: seq<Target>) returns (results: seq<bool>)
      modifies this`nodes, process
      ensures |results| == |targets|
      ensures forall i :: 0 <= i < |targets| && results[i] ==> targets[i].ip in nodes && nodes[targets[i].ip] == m
      ensures OnlyGiven(old(nodes), nodes, m)
      ensures forall ip :: ip in nodes && !(ip in old(nodes) && nodes[ip] == old(nodes)[ip]) ==>
                Among(targets, ip)
      ensures old(process.failures) <= process.failures
      ensures process.failures == old(process.failures) ==> forall i :: 0 <= i < |results| ==> results[i]
    {
      results := [];
      for i := 0 to |targets|
        invariant |results| == i
        invariant forall j :: 0 <= j < i && results[j] ==> targets[j].ip in nodes && nodes[targets[j].ip] == m
        invariant OnlyGiven(old(nodes), nodes, m)
        invariant old(process.failures) <= process.failures
        invariant process.failures == old(process.failures) ==> forall j :: 0 <= j < i ==> results[j]
        invariant forall ip :: ip in nodes && !(ip in old(nodes) && nodes[ip] == old(nodes)[ip]) ==>
                    Among(targets, ip)
      {
        var ok := process.Attempt();
        if ok {
          nodes := nodes[targets[i].ip := m];
          assert targets[i] in targets;
        }
        results := results + [ok];
      }
    }

    method DistributeTargets(m: Material, targets: seq<Target>) returns (ok: bool)
      modifies this`nodes, process
      ensures ok ==> forall ip :: Among(targets, ip) ==> ip in nodes && nodes[ip] == m
      ensures OnlyGiven(old(nodes), nodes, m)
      ensures old(process.failures) <= process.failures
      ensures !ok ==> old(process.failures) < process.failures || (!hasDistributor && targets != [])
    {
      if |targets| == 0 {
        return true;
      }
      if !hasDistributor {
        return false;
      }
      var results := Distribute(m, targets);
      var failed := |results| != |targets|;
      for i := 0 to |results|
        modifies process
        invariant !failed ==> forall j :: 0 <= j < i ==> results[j]
        invariant failed ==> old(process.failures) < process.failures
        invariant old(process.failures) <= process.failures
        invariant process.failures == old(process.failures) ==> forall j :: 0 <= j < |results| ==> results[j]
      {
        var recorded := process.Attempt();
        if !recorded {
          return false;
        }
        if !results[i] {
          failed := true;
        }
      }
      return !failed;
    }

    /** Gives m to every managed node, unless the zone has an address nobody vouches
        for. */
    method DistributeVersion(m: Material) returns (ok: bool)
      modifies this`nodes, this`reviews, process
      ensures ok && hasResolver ==> GateHolds(m)
      ensures OnlyGiven(old(nodes), nodes, m)
      ensures AcknowledgementsStay(old(reviews), reviews)
      ensures forall ip :: old(Unvouched(ip)) <==> Unvouched(ip)
      ensures old(process.failures) <= process.failures
      ensures !ok ==> old(process.failures) < process.failures || Undistributable()
      ensures !ok && process.failures == old(process.failures) ==> forall ip :: Unvouched(ip) ==> ip in reviews && reviews[ip] == ManualReview
    {
      if !hasResolver {
        return true;
      }
      var resolved := Resolve();
      if resolved.Err? {
        return false;
      }
      var resolution := resolved.value;
      if resolution.unmanaged != {} {
        ghost var someone :| someone in resolution.unmanaged;
        assert Unvouched(someone);
        var todo := resolution.unmanaged;
        while todo != {}
          modifies `reviews, process
          invariant todo <= resolution.unmanaged && process.failures == old(process.failures)
          invariant forall ip :: ip in resolution.unmanaged - todo ==> ip in reviews && reviews[ip] == ManualReview
          invariant forall ip :: ip in todo ==> (ip in reviews <==> ip in old(reviews)) && (ip in reviews ==> reviews[ip] == old(reviews)[ip])
          invariant forall ip :: ip !in resolution.unmanaged ==> (ip in reviews <==> ip in old(reviews)) && (ip in reviews ==> reviews[ip] == old(reviews)[ip])
        {
          var ip :| ip in todo;
          var saved := RecordTargetReview(ip, ManualReview);
          if !saved {
            return false;
          }
          todo := todo - {ip};
        }
        assert Unvouched(someone);
        return false;
      }
      ok := DistributeTargets(m, resolution.managed);
      assert resolution.managed != [] ==> Among(resolution.managed, resolution.managed[0].ip);
    }

    /** Best effort: brings the nodes back to the previously active material. */
    method RestoreDistributedVersion(previous: Option<Record>) returns (ghost done: bool)
      requires Valid()
      requires previous.Some? ==> previous == record
      modifies this`nodes, this`reviews, this`clock, this`failedLoads, process
      ensures Valid() && clock >= old(clock) && AcknowledgementsStay(old(reviews), reviews)
      ensures old(process.failures) <= process.failures && forall ip :: old(Unvouched(ip)) <==> Unvouched(ip)
      ensures !done && previous.Some? ==> old(process.failures) < process.failures || Expired(previous) || Undistributable()
      ensures done ==> previous.Some? && previous.value.active in staged
      ensures done ==> old(clock) < staged[previous.value.active].expiresAt
      ensures old(Expired(previous)) ==> nodes == old(nodes)
      ensures done && hasResolver ==> GateHolds(staged[previous.value.active])
      ensures previous.None? ==> nodes == old(nodes) && !done
    {
      if previous.None? {
        return false;
      }
      var loaded := StoreLoad(previous.value.active);
      if loaded.Err? {
        return false;
      }
      var now := Now();
      if !ValidAt(loaded.value, now) || loaded.value.fingerprint != previous.value.fingerprint {
        return false;
      }
      var ok := DistributeVersion(loaded.value);
      done := ok;
    }

    // ---- The active certificate ----

    /** Loads what the metadata says is active, after repairing the marker. */
    method LoadActive(repairMarker: bool) returns (r: Answer<Current>)
      requires Valid()
      modifies this`marker, this`clock, this`failedLoads, process
      ensures Valid() && clock >= old(clock) && old(failedLoads) <= failedLoads && old(process.failures) <= process.failures
      ensures r.Err? && r.error != NotFound && r.error != InvalidMaterial ==> old(process.failures) < process.failures || !repairMarker
      ensures r.Ok? ==>
                && record == Some(r.value.record) && marker == Some(r.value.record.active)
                && r.value.record.active in staged && r.value.material == staged[r.value.record.active]
                && r.value.material.sound && r.value.material.issuedAt <= clock && old(clock) < r.value.material.expiresAt
      ensures r == Err(NotFound) ==> record.None?
      ensures r == Err(InvalidMaterial) ==> record.Some? && exists t :: old(clock) <= t <= clock && !ValidAt(staged[record.value.active], t)
      ensures marker == old(marker) || (repairMarker && record.Some? && marker == Some(record.value.active))
    {
      var read := process.Attempt();
      if !read {
        return Err(PersistenceFailed);
      }
      if record.None? {
        return Err(NotFound);
      }
      var current := record.value;
      var markerRead := process.Attempt();
      if !markerRead || marker != Some(current.active) {
        if !repairMarker {
          return Err(StorageFailed);
        }
        var repaired := StoreActivate(current.active);
        if !repaired {
          return Err(StorageFailed);
        }
      }
      var loaded := StoreLoad(current.active);
      if loaded.Err? {
        return Err(loaded.error);
      }
      var now := Now();
      if !ValidAt(loaded.value, now) || loaded.value.fingerprint != current.fingerprint {
        return Err(InvalidMaterial);
      }
      return Ok(Current(current, loaded.value));
    }

    /** Moves the marker and commits the metadata; when the commit fails the marker goes
        back to `oldMarker`. */
    method Commit(version: string, oldMarker: Option<string>) returns (ok: bool)
      requires Valid() && version in versions
      requires hasResolver ==> GateHolds(staged[version])
      modifies `marker, `versions, `record, `activations, process
      ensures Valid()
      ensures ok ==>
                && record == Some(ActiveRecord(old(versions), version)) && marker == Some(version)
                && versions == Activated(old(versions), version)
                && |activations| == |old(activations)| + 1 && activations[|old(activations)|].version == version
      ensures !ok ==> record == old(record) && versions == old(versions) && activations == old(activations)
      ensures !ok ==> marker == old(marker) || marker == Some(version) || (oldMarker.Some? && marker == oldMarker)
      ensures if ok then process.failures == old(process.failures) else old(process.failures) < process.failures
      ensures !ok && process.failures == old(process.failures) + 1 && oldMarker.Some? && oldMarker.value in staged ==>
                marker == old(marker) || marker == oldMarker
    {
      var moved := StoreActivate(version);
      if !moved {
        return false;
      }
      ok := RecordActivation(version);
      if !ok && oldMarker.Some? {
        var _ := StoreActivate(oldMarker.value);
      }
    }

    /** The activation in the tables. */
    method RecordActivation(version: string) returns (ok: bool)
      requires Valid() && version in versions && (hasResolver ==> GateHolds(staged[version]))
      modifies `versions, `record, `activations, process
      ensures Valid()
      ensures ok ==>
                && record == Some(ActiveRecord(old(versions), version)) && versions == Activated(old(versions), version)
                && |activations| == |old(activations)| + 1 && activations[|old(activations)|].version == version
      ensures !ok ==> record == old(record) && versions == old(versions) && activations == old(activations)
      ensures process.failures == old(process.failures) + if ok then 0 else 1
    {
      ghost var rows, history := versions, activations;
      ActivatingKeeps(versions, record, staged, marker, version);
      ok := ActivateVersion(version);
      if ok {
        ActivationRecorded(rows, history, activations[|history|]);
      }
    }

    /** The same, after the marker that is to come back was read, if it could be. */
    method CommitOver(version: string) returns (ok: bool)
      requires Valid() && version in versions
      requires hasResolver ==> GateHolds(staged[version])
      modifies `marker, `versions, `record, `activations, process
      ensures Valid() && old(process.failures) <= process.failures
      ensures ok ==>
                && record == Some(ActiveRecord(old(versions), version)) && marker == Some(version)
                && versions == Activated(old(versions), version)
      ensures !ok ==> record == old(record) && versions == old(versions) && activations == old(activations)
      ensures !ok ==> old(process.failures) < process.failures
      ensures !ok ==> MarkerBack(old(marker), old(marker), version, old(process.failures))
    {
      var markerRead := process.Attempt();
      ok := Commit(version, if markerRead then marker else None);
    }

    /** The steps after a candidate is saved: distribute, move the marker, commit. */
    method Promote(version: string, m: Material, previous: Option<Record>) returns (ok: bool, ghost compensation: Compensation)
      requires Valid() && version in versions && staged[version] == m
      requires previous.Some? ==> previous == record
      modifies `nodes, `reviews, `marker, `versions, `record, `activations, `clock, `failedLoads, process
      ensures Valid() && clock >= old(clock) && AcknowledgementsStay(old(reviews), reviews)
      ensures ok ==>
                && record == Some(ActiveRecord(old(versions), version)) && marker == Some(version)
                && (hasResolver ==> GateHolds(m))
      ensures !ok ==> record == old(record) && versions == old(versions) && activations == old(activations)
      ensures !ok ==> compensation != NotNeeded
      ensures !ok && compensation == Restored ==> previous.Some? && previous.value.active in staged
      ensures !ok && compensation == Restored && hasResolver ==>
                ManagedHold(zone, deployments, nodes, staged[previous.value.active])
      ensures old(process.failures) <= process.failures
      ensures !ok ==> old(process.failures) < process.failures || Undistributable()
      ensures !ok && compensation == NotRestored ==>
                previous.None? || old(process.failures) + 2 <= process.failures || Expired(previous) || Undistributable()
      ensures !ok ==> MarkerBack(old(marker), if previous.Some? then Some(previous.value.active) else None, version, old(process.failures))
    {
      compensation := NotNeeded;
      ok := DistributeVersion(m);
      if ok {
        ok := Commit(version, if previous.Some? then Some(previous.value.active) else None);
      }
      if !ok {
        ghost var done := RestoreDistributedVersion(previous);
        compensation := if done then Restored else NotRestored;
      }
    }

    /** The order itself; the issuer answers with whatever it made. */
    method Issue() returns (r: Option<Material>)
      modifies `issuerCalls, `answers, process
      ensures issuerCalls == old(issuerCalls) + 1
      ensures answers == old(answers) + if r.Some? then [r.value] else []
      ensures process.failures == old(process.failures) + if r.Some? then 0 else 1
    {
      issuerCalls := issuerCalls + 1;
      var issued := process.Attempt();
      var material: Material := *;
      if !issued {
        return None;
      }
      answers := answers + [material];
      return Some(material);
    }

    /** Orders a certificate, validates it, stages it and saves its metadata. */
    method IssueCandidate() returns (r: Answer<Candidate>)
      requires Valid()
      modifies `staged, `versions, `order, `clock, `issuerCalls, `answers, process
      ensures Valid() && clock >= old(clock)
      ensures old(staged.Keys) <= staged.Keys && forall v :: v in old(staged) ==> staged[v] == old(staged)[v]
      ensures issuerCalls == old(issuerCalls) + 1 && old(answers) <= answers
      ensures r.Ok? ==>
                && var c := r.value;
                && c.version !in old(versions) && c.version in versions && staged[c.version] == c.material
                && versions == Saved(old(versions), c.version, c.material)
                && c.material.sound && c.material.issuedAt <= clock && old(clock) < c.material.expiresAt
      ensures r.Err? ==> versions == old(versions) && r.error != DistributionError
      ensures if r.Ok? then process.failures == old(process.failures)
              else old(process.failures) < process.failures || (r.error == InvalidMaterial && BadAnswer(old(answers), clock))
      ensures old(process.failures) <= process.failures
    {
      var issued := Issue();
      if issued.None? {
        return Err(IssuanceFailed);
      }
      var material := issued.value;
      var now := Now();
      if !ValidAt(material, now) {
        return Err(InvalidMaterial);
      }
      var staging := StoreStage(material);
      if staging.Err? {
        return Err(StorageFailed);
      }
      var version := staging.value;
      StagingKeeps(versions, record, old(staged), marker, version, material);
      ghost var rows := versions;
      var saved := SaveVersion(version, material);
      if saved {
        SavedIsNeverActive(rows, activations, version, material);
      }
      if !saved {
        return Err(PersistenceFailed);
      }
      SavingKeeps(old(versions), record, staged, marker, version, material);
      return Ok(Candidate(version, material));
    }

    method IssueAndActivate(previous: Option<Record>) returns (r: Answer<Material>, ghost compensation: Compensation)
      requires Valid()
      requires previous.Some? ==> previous == record
      modifies `staged, `versions, `order, `record, `reviews, `marker, `nodes, `activations, `clock, `failedLoads, `issuerCalls, `answers, process
      ensures Valid() && clock >= old(clock) && AcknowledgementsStay(old(reviews), reviews)
      ensures old(staged.Keys) <= staged.Keys && forall v :: v in old(staged) ==> staged[v] == old(staged)[v]
      ensures issuerCalls == old(issuerCalls) + 1 && old(answers) <= answers && old(process.failures) <= process.failures
      ensures r.Err? ==> old(process.failures) < process.failures || BadAnswer(old(answers), clock) || Undistributable()
      ensures FailsWith(r, DistributionError) && process.failures == old(process.failures) ==> exists v :: GivenUp(old(versions), v)
      ensures r.Err? && compensation == NotRestored ==>
                previous.None? || old(process.failures) + 2 <= process.failures || Expired(previous) || Undistributable()
      ensures r.Ok? ==>
                && record.Some? && record.value.active !in old(versions) && marker == Some(record.value.active)
                && record.value.active in staged && staged[record.value.active] == r.value && r.value.sound
                && r.value.issuedAt <= clock && old(clock) < r.value.expiresAt
      ensures r.Err? ==> record == old(record) && activations == old(activations)
      ensures r.Err? && compensation == NotNeeded ==> nodes == old(nodes) && marker == old(marker)
      ensures r.Err? && compensation == Restored ==> previous.Some? && previous.value.active in staged
      ensures r.Err? && compensation == Restored && hasResolver ==>
                ManagedHold(zone, deployments, nodes, staged[previous.value.active])
    {
      var candidate := IssueCandidate();
      if candidate.Err? {
        return Err(candidate.error), NotNeeded;
      }
      r, compensation := ActivateCandidate(candidate.value, old(versions), previous);
    }

    /** What follows once a candidate is saved. */
    method ActivateCandidate(c: Candidate, ghost before: Versions, previous: Option<Record>) returns (r: Answer<Material>, ghost compensation: Compensation)
      requires Valid() && c.version !in before && c.version in versions && staged[c.version] == c.material && c.material.sound
      requires versions == Saved(before, c.version, c.material)
      requires previous.Some? ==> previous == record
      modifies `versions, `record, `reviews, `marker, `nodes, `activations, `clock, `failedLoads, process
      ensures Valid() && clock >= old(clock) && AcknowledgementsStay(old(reviews), reviews)
      ensures old(process.failures) <= process.failures
      ensures r.Ok? ==> r.value == c.material && record.Some? && record.value.active == c.version && marker == Some(c.version)
      ensures r.Err? ==>
                && r.error == DistributionError && record == old(record) && activations == old(activations) && compensation != NotNeeded
                && (old(process.failures) < process.failures || (Undistributable() && GivenUp(before, c.version)))
      ensures r.Err? && compensation == Restored ==> previous.Some? && previous.value.active in staged
      ensures r.Err? && compensation == Restored && hasResolver ==>
                ManagedHold(zone, deployments, nodes, staged[previous.value.active])
      ensures r.Err? && compensation == NotRestored ==>
                previous.None? || old(process.failures) + 2 <= process.failures || Expired(previous) || Undistributable()
    {
      var ok;
      ok, compensation := Promote(c.version, c.material, previous);
      if ok {
        return Ok(c.material), compensation;
      }
      MarkFailed(c.version);
      return Err(DistributionError), compensation;
    }

    /** The new version was saved and then marked as not distributed. */
    ghost predicate GivenUp(before: Versions, version: string)
      reads `versions, `staged
    {
      && version !in before && version in staged
      && versions == before[version := Version(staged[version].fingerprint, staged[version].issuedAt, staged[version].expiresAt, DistributionFailed)]
    }

    method MarkFailed(version: string)
      requires Valid() && version in versions && versions[version].status == Pending
      modifies `versions, process
      ensures Valid() && old(process.failures) <= process.failures
      ensures process.failures == old(process.failures) ==> versions == Marked(old(versions), version, DistributionFailed)
    {
      MarkingKeeps(versions, record, staged, marker, version, DistributionFailed);
      MarkedIsNeverActive(versions, activations, version);
      SetVersionStatus(version, DistributionFailed);
    }

    // ---- The four operations ----

    /** A usable certificate: the active one while it is fresh, a renewed one near its
        end, and the active one again when the renewal fails before it has expired.
        `seen` is when the active one was found fresh or not. */
    method Prepare() returns (r: Answer<Material>, ghost compensation: Compensation, ghost seen: int)
      requires Valid()
      modifies `staged, `versions, `order, `record, `reviews, `marker, `nodes, `activations, `clock, `failedLoads, `issuerCalls, `answers, process
      ensures Valid() && clock >= old(clock) && AcknowledgementsStay(old(reviews), reviews)
      ensures r.Ok? ==>
                && record.Some? && record.value.active in staged && r.value == staged[record.value.active]
                && r.value.sound && r.value.issuedAt <= clock && old(clock) < r.value.expiresAt
      ensures r.Err? ==> record == old(record)
      ensures old(record).Some? && old(record).value.expiresAt - clock > renewBefore
              ==> issuerCalls == old(issuerCalls) && record == old(record)
      ensures r.Ok? ==> record == old(record) || (record.Some? && record.value.active !in old(versions))
      ensures r.Ok? && record == old(record) ==> clock < r.value.expiresAt
      ensures issuerCalls >= old(issuerCalls)
      ensures old(clock) <= seen <= clock
      ensures SF.Section(Expiry(old(record)), seen, Expiry(record), issuerCalls - old(issuerCalls),
                         if issuerCalls > old(issuerCalls) && record == old(record) then 1 else 0, renewBefore, r.Err?)
      ensures r.Ok? && issuerCalls == old(issuerCalls) ==> old(record).Some? && old(record).value.expiresAt - seen > renewBefore
      ensures r.Err? && issuerCalls == old(issuerCalls) ==> old(process.failures) < process.failures
      ensures r.Err? && issuerCalls > old(issuerCalls) ==>
                && (old(record).None? || Expired(old(record)) || !ValidAt(staged[old(record).value.active], seen))
                && (old(process.failures) < process.failures || Undistributable() || AnsweredBadly(old(answers)))
      ensures old(process.failures) <= process.failures
      ensures old(record).None? && r.Ok? ==> issuerCalls == old(issuerCalls) + 1
      ensures issuerCalls == old(issuerCalls) ==> record == old(record) && nodes == old(nodes)
      ensures old(staged.Keys) <= staged.Keys && forall v :: v in old(staged) ==> staged[v] == old(staged)[v]
    {
      compensation, seen := NotNeeded, clock;
      var loaded := LoadActive(true);
      if loaded.Ok? {
        var active := loaded.value;
        var now := Now();
        seen := now;
        if active.record.expiresAt - now > renewBefore {
          return Ok(active.material), compensation, seen;
        }
        r, compensation := RenewOrKeep(active);
        return;
      }
      if loaded.error == InvalidMaterial {
        seen :| old(clock) <= seen <= clock && !ValidAt(staged[record.value.active], seen);
      } else if loaded.error != NotFound {
        return Err(loaded.error), compensation, seen;
      }
      r, compensation := IssueAndActivate(None);
    }

    /** A renewal near the end of the active certificate, which serves on until then. */
    method RenewOrKeep(active: Current) returns (r: Answer<Material>, ghost compensation: Compensation)
      requires Valid() && record == Some(active.record) && active.record.active in staged && active.material == staged[active.record.active]
      requires active.material.sound && active.material.issuedAt <= clock
      modifies `staged, `versions, `order, `record, `reviews, `marker, `nodes, `activations, `clock, `failedLoads, `issuerCalls, `answers, process
      ensures Valid() && clock >= old(clock) && AcknowledgementsStay(old(reviews), reviews)
      ensures old(staged.Keys) <= staged.Keys && forall v :: v in old(staged) ==> staged[v] == old(staged)[v]
      ensures issuerCalls == old(issuerCalls) + 1 && old(process.failures) <= process.failures
      ensures r.Ok? ==>
                && record.Some? && record.value.active in staged && r.value == staged[record.value.active]
                && r.value.sound && r.value.issuedAt <= clock
                && (record == old(record) || (record.value.active !in old(versions) && old(clock) < r.value.expiresAt))
                && (record == old(record) ==> clock < r.value.expiresAt)
      ensures r.Err? ==>
                && record == old(record) && Expired(record)
                && (old(process.failures) < process.failures || Undistributable() || AnsweredBadly(old(answers)))
    {
      r, compensation := IssueAndActivate(Some(active.record));
      if r.Ok? {
        return;
      }
      ghost var at := clock;
      var now := Now();
      assert BadAnswer(old(answers), at) ==> AnsweredBadly(old(answers));
      if now < active.record.expiresAt {
        r := Ok(active.material);
      }
    }

    /** The issuer's last answer since was not valid when it came. */
    ghost predicate AnsweredBadly(before: seq<Material>)
      reads `answers, `clock
    {
      exists t :: t <= clock && BadAnswer(before, t)
    }

    /** Orders a new certificate whatever the active one's age. */
    method Renew() returns (r: Answer<()>, ghost compensation: Compensation)
      requires Valid()
      modifies `staged, `versions, `order, `record, `reviews, `marker, `nodes, `activations, `clock, `failedLoads, `issuerCalls, `answers, process
      ensures Valid() && clock >= old(clock) && AcknowledgementsStay(old(reviews), reviews)
      ensures r.Err? ==> record == old(record) && activations == old(activations)
      ensures old(process.failures) <= process.failures
      ensures issuerCalls == old(issuerCalls) + 1 || (r.Err? && issuerCalls == old(issuerCalls) && old(process.failures) < process.failures)
      ensures r.Err? ==> old(process.failures) < process.failures || BadAnswer(old(answers), clock) || Undistributable()
      ensures r.Err? && compensation == NotRestored ==>
                || old(record).None? || old(process.failures) + 2 <= process.failures || Expired(old(record)) || Undistributable()
      ensures r.Ok? ==> record.Some? && record.value.active !in old(versions) && marker == Some(record.value.active)
      ensures r.Err? && compensation == Restored && hasResolver ==>
                && record.Some? && record.value.active in staged
                && ManagedHold(zone, deployments, nodes, staged[record.value.active])
    {
      var previous: Option<Record> := None;
      var loaded := LoadActive(true);
      if loaded.Ok? {
        previous := Some(loaded.value.record);
      } else if loaded.error != NotFound && loaded.error != InvalidMaterial {
        return Err(loaded.error), NotNeeded;
      }
      var issued;
      issued, compensation := IssueAndActivate(previous);
      r := if issued.Ok? then Ok(()) else Err(issued.error);
    }

    method AcknowledgeLegacyTargets(resolution: Resolution) returns (r: Answer<nat>)
      modifies `reviews, process
      ensures AcknowledgementsStay(old(reviews), reviews)
      ensures r.Ok? ==>
                && (forall ip :: ip in resolution.unmanaged ==> ip in reviews && reviews[ip] == LegacyAcknowledged)
                && r.value == |resolution.unmanaged| + |resolution.legacy|
      ensures r.Err? ==> r.error == PersistenceFailed
      ensures if r.Ok? then process.failures == old(process.failures) else old(process.failures) < process.failures
    {
      var todo := resolution.unmanaged;
      while todo != {}
        invariant todo <= resolution.unmanaged && process.failures == old(process.failures)
        invariant AcknowledgementsStay(old(reviews), reviews)
        invariant forall ip :: ip in resolution.unmanaged - todo ==> ip in reviews && reviews[ip] == LegacyAcknowledged
      {
        var ip :| ip in todo;
        var saved := RecordTargetReview(ip, LegacyAcknowledged);
        if !saved {
          return Err(PersistenceFailed);
        }
        todo := todo - {ip};
      }
      return Ok(|resolution.unmanaged| + |resolution.legacy|);
    }

    ghost predicate EveryoneVouchedFor()
      reads `zone, `deployments, `reviews
    {
      forall ip :: ip in zone && !ManagedIP(deployments, ip) ==> ip in reviews && reviews[ip] == LegacyAcknowledged
    }

    /** Resolves the zone and records the operator's acknowledgement. */
    method VouchForTargets() returns (r: Answer<seq<Target>>)
      modifies `reviews, process
      ensures AcknowledgementsStay(old(reviews), reviews)
      ensures r.Ok? ==> EveryoneVouchedFor() && forall ip :: Among(r.value, ip) <==> ip in zone && ManagedIP(deployments, ip)
      ensures r.Err? ==> r.error != NotFound && r.error != InvalidInput
      ensures if r.Ok? then process.failures == old(process.failures) else old(process.failures) < process.failures
    {
      var targets := Resolve();
      if targets.Err? {
        return Err(DistributionError);
      }
      var known := AcknowledgeLegacyTargets(targets.value);
      if known.Err? {
        return Err(known.error);
      }
      return Ok(targets.value.managed);
    }

    /** The newest staged version that was never active and is still valid. */
    method FindCandidate() returns (r: Option<Candidate>)
      requires Valid()
      modifies `clock, `failedLoads, process
      ensures Valid() && clock >= old(clock) && old(failedLoads) <= failedLoads && old(process.failures) <= process.failures
      ensures |failedLoads| - |old(failedLoads)| <= process.failures - old(process.failures)
      ensures r.Some? ==>
                && r.value.version in versions && r.value.material == staged[r.value.version] && r.value.material.sound
                && old(clock) < r.value.material.expiresAt
                && Newest(order, versions, staged, failedLoads[|old(failedLoads)|..], clock, r.value.version)
      ensures r.None? ==> AllPassedOver(order, versions, staged, failedLoads[|old(failedLoads)|..], clock)
    {
      for i := 0 to |order|
        invariant clock >= old(clock) && old(failedLoads) <= failedLoads && old(process.failures) <= process.failures
        invariant |failedLoads| - |old(failedLoads)| <= process.failures - old(process.failures)
        invariant AllPassedOver(order[..i], versions, staged, failedLoads[|old(failedLoads)|..], clock)
      {
        var loaded := Consider(order[i]);
        if loaded.Some? {
          return Some(Candidate(order[i], loaded.value));
        }
        assert order[..i + 1] == order[..i] + [order[i]];
      }
      assert order[..|order|] == order;
      return None;
    }

    /** One version as a candidate. */
    method Consider(v: string) returns (r: Option<Material>)
      requires Valid() && v in order
      modifies `clock, `failedLoads, process
      ensures Valid() && clock >= old(clock) && old(failedLoads) <= failedLoads && old(process.failures) <= process.failures
      ensures |failedLoads| - |old(failedLoads)| <= process.failures - old(process.failures)
      ensures r.Some? ==> NeverActive(versions, v) && r.value == staged[v] && r.value.sound && old(clock) < r.value.expiresAt
      ensures r.None? && NeverActive(versions, v) ==> v in failedLoads[|old(failedLoads)|..] || staged[v].expiresAt <= clock
    {
      if !NeverActive(versions, v) {
        return None;
      }
      var loaded := StoreLoad(v);
      if loaded.Err? {
        return None;
      }
      var now := Now();
      if !ValidAt(loaded.value, now) || loaded.value.fingerprint != versions[v].fingerprint {
        return None;
      }
      return Some(loaded.value);
    }

    /** Activates a staged version after the operator vouches for the addresses nobody
        manages. */
    method Bootstrap(operator: int) returns (r: Answer<string>)
      requires Valid()
      modifies `versions, `record, `reviews, `marker, `nodes, `activations, `clock, `failedLoads, process
      ensures Valid() && clock >= old(clock) && AcknowledgementsStay(old(reviews), reviews)
      ensures FailsWith(r, InvalidInput) <==> operator <= 0
      ensures operator > 0 && r.Err? && r.error != NotFound ==> old(process.failures) < process.failures || !hasResolver || Unreachable()
      ensures r.Ok? ==> hasResolver && record.Some? && record.value.active == r.value && marker == Some(r.value)
      ensures old(failedLoads) <= failedLoads
      ensures r.Ok? && record != old(record) ==>
                Newest(order, old(versions), staged, failedLoads[|old(failedLoads)|..], clock, r.value)
      ensures r == Err(NotFound) ==> AllPassedOver(order, versions, staged, failedLoads[|old(failedLoads)|..], clock)
      ensures r.Ok? ==> EveryoneVouchedFor()
      ensures r.Err? ==> record == old(record) && versions == old(versions)
    {
      if operator <= 0 {
        return Err(InvalidInput);
      }
      if !hasResolver {
        return Err(DistributionError);
      }
      var loaded := LoadActive(true);
      if loaded.Ok? {
        var vouched := VouchForTargets();
        return if vouched.Err? then Err(vouched.error) else Ok(loaded.value.record.active);
      }
      if loaded.error != NotFound && loaded.error != InvalidMaterial {
        return Err(PersistenceFailed);
      }
      ghost var rows, loads := versions, failedLoads;
      r := BootstrapNewest();
      ghost var unread, all := failedLoads[|loads|..], failedLoads[|old(failedLoads)|..];
      forall v | v in unread ensures v in all {
        assert all[|loads| - |old(failedLoads)|..] == unread;
      }
      if r.Ok? {
        NewestStays(order, rows, staged, unread, clock, all, clock, r.value);
      }
    }

    method BootstrapNewest() returns (r: Answer<string>)
      requires Valid() && hasResolver
      modifies `versions, `record, `reviews, `marker, `nodes, `activations, `clock, `failedLoads, process
      ensures Valid() && clock >= old(clock) && AcknowledgementsStay(old(reviews), reviews)
      ensures old(failedLoads) <= failedLoads
      ensures r.Ok? ==>
                && record.Some? && record.value.active == r.value && marker == Some(r.value) && EveryoneVouchedFor()
                && Newest(order, old(versions), staged, failedLoads[|old(failedLoads)|..], clock, r.value)
      ensures r.Err? ==> record == old(record) && versions == old(versions) && r.error != InvalidInput
      ensures old(process.failures) <= process.failures
      ensures r.Err? && r.error != NotFound ==> old(process.failures) < process.failures || Unreachable()
      ensures r == Err(NotFound) ==> AllPassedOver(order, versions, staged, failedLoads[|old(failedLoads)|..], clock)
    {
      var listed := process.Attempt();
      if !listed {
        return Err(PersistenceFailed);
      }
      var candidate := FindCandidate();
      if candidate.None? {
        return Err(NotFound);
      }
      r := BootstrapCandidate(candidate.value.version, candidate.value.material);
    }

    method BootstrapCandidate(version: string, material: Material) returns (r: Answer<string>)
      requires Valid() && version in versions && staged[version] == material && hasResolver
      modifies `versions, `record, `reviews, `marker, `nodes, `activations, process
      ensures Valid() && AcknowledgementsStay(old(reviews), reviews)
      ensures r.Ok? ==>
                && r.value == version && record == Some(ActiveRecord(old(versions), version)) && marker == Some(version)
                && GateHolds(material) && EveryoneVouchedFor()
      ensures r.Err? ==> record == old(record) && versions == old(versions) && r.error != NotFound && r.error != InvalidInput
      ensures old(process.failures) <= process.failures
      ensures r.Err? ==> old(process.failures) < process.failures || Unreachable()
      ensures r.Err? ==> MarkerBack(old(marker), old(marker), version, old(process.failures))
    {
      var targets := VouchForTargets();
      if targets.Err? {
        return Err(targets.error);
      }
      var accepted := DistributeTargets(material, targets.value);
      if !accepted {
        assert targets.value != [] ==> Among(targets.value, targets.value[0].ip);
        return Err(DistributionError);
      }
      var committed := CommitOver(version);
      return if committed then Ok(version) else Err(PersistenceFailed);
    }

    /** Redistributes and activates a version saved before. */
    method Rollback(version: string) returns (r: Answer<()>, ghost compensation: Compensation)
      requires Valid()
      modifies `versions, `record, `reviews, `marker, `nodes, `activations, `clock, `failedLoads, process
      ensures Valid() && clock >= old(clock) && AcknowledgementsStay(old(reviews), reviews)
      ensures r.Ok? ==>
                && version in old(versions) && marker == Some(version)
                && record == Some(ActiveRecord(old(versions), version))
                && (hasResolver ==> GateHolds(staged[version]))
      ensures r.Err? ==> record == old(record) && versions == old(versions)
      ensures r.Err? && compensation == NotNeeded ==> nodes == old(nodes) && marker == old(marker)
      ensures r.Err? && compensation == Restored && hasResolver ==>
                && record.Some? && record.value.active in staged
                && ManagedHold(zone, deployments, nodes, staged[record.value.active])
      ensures r.Err? && compensation == NotRestored ==>
                old(record).None? || old(process.failures) + 2 <= process.failures || Expired(old(record)) || Undistributable()
      ensures r.Err? ==>
                || old(process.failures) < process.failures || Undistributable()
                || (r.error == NotFound && version !in versions)
                || (r.error == InvalidMaterial && version in staged && staged[version].expiresAt <= clock)
      ensures r.Err? ==> MarkerBack(old(marker), old(marker), version, old(process.failures))
    {
      compensation := NotNeeded;
      var listed := process.Attempt();
      if !listed {
        return Err(PersistenceFailed), compensation;
      }
      if version !in versions {
        return Err(NotFound), compensation;
      }
      var read := process.Attempt();
      var previous := if read then record else None;
      var loaded := StoreLoad(version);
      if loaded.Err? {
        return Err(loaded.error), compensation;
      }
      var now := Now();
      if !ValidAt(loaded.value, now) {
        return Err(InvalidMaterial), compensation;
      }
      r, compensation := RollbackTo(version, loaded.value, previous);
    }

    /** The steps of a rollback once the version is loaded. */
    method RollbackTo(version: string, m: Material, previous: Option<Record>) returns (r: Answer<()>, ghost compensation: Compensation)
      requires Valid() && version in versions && staged[version] == m
      requires previous.Some? ==> previous == record
      modifies `versions, `record, `reviews, `marker, `nodes, `activations, `clock, `failedLoads, process
      ensures Valid() && clock >= old(clock) && AcknowledgementsStay(old(reviews), reviews)
      ensures r.Ok? ==>
                && marker == Some(version) && record == Some(ActiveRecord(old(versions), version))
                && (hasResolver ==> GateHolds(m))
      ensures r.Err? ==> record == old(record) && versions == old(versions) && compensation != NotNeeded
      ensures old(process.failures) <= process.failures
      ensures r.Err? ==> old(process.failures) < process.failures || Undistributable()
      ensures r.Err? && compensation == NotRestored ==>
                previous.None? || old(process.failures) + 2 <= process.failures || Expired(previous) || Undistributable()
      ensures r.Err? && compensation == Restored && hasResolver ==>
                && record.Some? && record.value.active in staged
                && ManagedHold(zone, deployments, nodes, staged[record.value.active])
      ensures r.Err? ==> MarkerBack(old(marker), old(marker), version, old(process.failures))
    {
      compensation := NotNeeded;
      var done := DistributeVersion(m);
      if done {
        done := CommitOver(version);
      }
      if done {
        return Ok(()), compensation;
      }
      ghost var restored := RestoreDistributedVersion(previous);
      return Err(DistributionError), if restored then Restored else NotRestored;
    }

    // ---- Every run ----

    /** Any commands in any order, each failing or crashing anywhere, with the zone and
        the deployment rows changing between them: the tables and the store stay
        consistent, every activation passed its gate, and no acknowledgement is lost. */
    method Operate(commands: seq<Command>)
      requires Valid()
      modifies this, process
      ensures Valid()
      ensures AcknowledgementsStay(old(reviews), reviews)
    {
      for i := 0 to |commands|
        invariant Valid() && AcknowledgementsStay(old(reviews), reviews)
      {
        match commands[i] {
          case DoPrepare =>
            var _, _, _ := Prepare();
          case DoRenew =>
            var _, _ := Renew();
          case DoBootstrap(operator) =>
            var _ := Bootstrap(operator);
          case DoRollback(version) =>
            var _, _ := Rollback(version);
          case Restart =>
            process.Restart();
          case Environment(newZone, rows) =>
            zone, deployments := newZone, rows;
        }
      }
    }
  }
}
