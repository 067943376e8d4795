# A model of the node deployment bot's durable state

The service deploys VPN nodes. Each of its operations changes several systems that
share no transaction: the Remnawave panel, a DNS balancer, a PostgreSQL database, a
certificate store and the servers themselves. This project models those operations as
they are interrupted, retried, cancelled, crashed and run against each other, and
proves what holds in every such run.

`Process.dfy` fixes the world: every external call (HTTP, SQL, SSH, file rename) is one
attempt that takes effect and reports success, or has no effect and reports failure. A
crash between two calls is an attempt that finds the process dead; from then on nothing
takes effect until a restart. A method's postcondition therefore speaks of every point
at which the code can stop.

| files | part |
|---|---|
| `Names`, `Zones`, `ZoneLocator`, `ZoneClient` | names, zones and the DNS-balancer client's whole-list edits |
| `KeyedLock`, `MemoryLocker`, `ZoneProtocol` | the reference-counted keyed lock, its code, and zone edits run concurrently under it |
| `CertificateTables`, `CertificateManager`, `SingleFlight` | certificate issuance, activation, distribution and rollback |
| `DeploymentTables`, `StageHistory`, `Provisioner`, `PanelNodes`, `Workflow`, `Recovery`, `Lifecycle` | the deployment workflow, its provisioning engine, the recovery classifier, and a deployment's whole life with the recovery that every start runs |
| `IPChange`, `Profiles`, `HostMove`, `DNSSync` | edits of a live node that compensate on failure |
| `Sorting`, `NodeGroups`, `AlertHistory`, `NodeMonitor` | the node monitor |
| `ShellQuote` | quoting for remote shell commands |
| `Process`, `Wrappers` | the running service and its calls; small shared types |

Code that updates state is modelled as classes and methods with the same order of calls;
pure code as functions. Concurrency is modelled as state machines over the steps
(`KeyedLock`, `ZoneProtocol`, `SingleFlight`), for any number of threads.

No operation reports on itself. The process counts the calls that failed or were refused
and the cancellations that were seen (`failures`), and the
client keeps every PATCH that it sent with its outcome (`calls`). An error, and a rollback
that is not complete, are tied to these: a contract gives an error's reason in terms of the
state, or else says that the count has grown, and a rollback leaves no more systems changed
(`left`) than calls have failed during it.

## Assumptions

- All writers of the zones share one client, and so one locker.
- Where a name is used as a lock key or a configured zone name, normalising it once more
  changes nothing. `Names.NormalizeIsSettled` says exactly which names are like that.
  In a deployment's life this is the SNI's zone, and the node name is stored trimmed
  (`Lifecycle.Stored`).
- A zone has one of the two formats. A PATCH replaces the list it carries; a null list,
  which is what copying an empty one sends, is read as an empty list of addresses. Zones
  are compared by the addresses they hold.
- Certificates are opaque values with a fingerprint and a validity interval; a
  provisioning stage does not undo the desired states of the stages before it, and its
  inspection and validation tell the truth.
- Nobody else makes, removes, renames or readdresses the panel node of a deployment, or
  takes its address out of the zone, while the deployment exists. Everything else on the
  panel and in the zones may change at any call.
- An SNI has at most 100 deployment rows. The resolver reads no more
  (`internal/certmanager/distribution.go:81-85`), so an address that only a later row
  manages counts as unmanaged, and passes the gate when it was acknowledged once.
- The monitor's nodes have different keys within one sample (panel ID and UUID;
  `NodeMonitor.KeyNamesNode` shows that the key string tells them apart).

## Where the code does not do what its texts promise

Each of these is a theorem with its exact condition, and the model follows the code.

- `AddIP` promises to keep every entry (`internal/dnsbalancer/client.go:145-146`). On an
  advanced zone that has entries it sends a list of simple addresses, and the entries are
  gone: `Zones.AddedMeans`.
- The guard of `MoveIP` compares names that were normalised once, the zones are located
  by names normalised twice. When these name one zone a successful move drops the
  address: `ZoneClient.MoveKeepsAddressIffTwoZones`; such names exist:
  `Names.TwoDotsAreNotSettled`.
- The compensating request for an empty advanced zone turns it into an empty simple one:
  `Zones.SnapshotMeans`.
- A node IP change that is rolled back restores the zones exactly when none of the
  changed zones held the new address: `IPChange.RollbackRestoresIff`. A Host move that is
  rolled back restores them exactly when the target zone did not hold the node's address:
  `HostMove.MovedBackRestoresIff`.
- The engine trusts completed stages (`internal/provisioner/engine.go:83-84`), but a
  check that fails before the workflow reaches its stages is recorded under the current
  step (`internal/orchestrator/service.go:263,270`), which may be a completed stage. That
  record, if its write goes through, is the one that is lost, and no other:
  `Workflow.DeploymentService.Deploy`. The stage is worked on again exactly when that
  happened and the deployment stayed at PROVISIONING, because the status write failed:
  `StageHistory.RedoneExactlyWhen`. It takes a process that lives on after the record of
  the completed provisioning step could not be written; the state and the history are in
  `Provisioner.CompletedStageIsLost`. After a process death the next start's recovery moves
  the row out of PROVISIONING.
- Deploy refuses four statuses, but not MANUAL_REVIEW
  (`internal/orchestrator/service.go:248-256`), from which it goes on to creating the node
  when no UUID is stored. A node is created for a server that was never provisioned
  exactly when that happened (`Workflow.DeploymentService.UnprovisionedExactlyWhen`), and
  `Lifecycle.Do` says from which rows alone it can: MANUAL_REVIEW, no stored UUID, never
  provisioned. At most one node, and delivery at COMPLETED, hold there too.

## Model

| member | source | states |
|---|---|---|
| Names.NormalizeIsSettled | internal/dnsbalancer/matching.go:64-66 | normalising twice equals normalising once exactly when the name left after one trimming ends in neither a dot nor a space; this is when a zone's lock key and its location agree |
| Names.TwoDotsAreNotSettled | internal/dnsbalancer/matching.go:64-66 | a name with two trailing dots whose lock key and zone name differ |
| Names.TrimSpaceMeans | internal/dnsbalancer/matching.go:64-66 | spaces go at both ends and nothing else goes |
| Names.CaseDoesNotMatter | internal/dnsbalancer/matching.go:64-66 | names that differ in the case of their letters only are normalised to one name, which has no upper-case letter |
| Zones.AddedMeans | internal/dnsbalancer/client.go:147-199 | the zone holds the address afterwards; every earlier address is kept if and only if it was there already, the zone is simple, or it is an advanced zone without entries |
| Zones.ReplacedMeans | internal/dnsbalancer/client.go:203-296 | the old address is out, the new one in, every other address is where it was, the format is kept |
| Zones.ReplacedEntries | internal/dnsbalancer/client.go:222-287 | entry by entry: what is not of the old address stays as it is and in its order; in an advanced zone an entry of the old address changes its address only, in a simple one the new address comes last; the old one's entries just go when the new address was there |
| Zones.ReplaceBackRestores | internal/dnsbalancer/client.go:203-296 | replacing there and back gives the same addresses if and only if the new one was not in the zone |
| Zones.WithoutMeans | internal/dnsbalancer/client.go:366-398 | the source loses exactly the address and stays well formed |
| Zones.NodesWithoutKeeps | internal/dnsbalancer/client.go:366-398 | the advanced entries of other addresses are all there, untouched and in their order |
| Zones.WithMeans | internal/dnsbalancer/client.go:400-430 | the target gains exactly the address; an advanced target keeps its entries and gains one of the source's own, address field included |
| ZoneLocator.LocateZone | internal/dnsbalancer/matching.go:21-50 | the one zone with that full name, or not found, ambiguous or invalid, each exactly in its case |
| ZoneLocator.ZoneFQDNMeans | internal/dnsbalancer/matching.go:52-62 | `@` stands for the domain itself; any other full name begins with the zone's normalised name, ends with the domain's, and has a dot between them; it is empty when one of them is |
| ZoneLocator.ZoneFQDNIgnoresCase | internal/dnsbalancer/matching.go:52-62 | the case of the letters matters in neither name |
| ZoneLocator.ZoneFQDNTellsApart | internal/dnsbalancer/matching.go:52-62 | two zones of one domain share a full name only under one normalised name |
| ZoneLocator.MatchesMeans | internal/dnsbalancer/matching.go:21-50 | its matches are what the configuration has under that full name: none, the only one with its domain, name and zone, or two at different places |
| ZoneLocator.PatchReplacesOneZone | internal/dnsbalancer/client.go:439-448 | a PATCH to the path of a located zone replaces that zone and, seen by full names, no other |
| ZoneClient.ZoneWithoutIP | internal/dnsbalancer/client.go:366-398 | the loop's request, found flag and carried entry, or the rejection of text that is no address |
| ZoneClient.ZoneWithIP | internal/dnsbalancer/client.go:400-430 | the unchanged zone when the address is there, a missing entry rejected for an advanced zone, else one more entry |
| ZoneClient.ReplacedAdvanced | internal/dnsbalancer/client.go:222-252 | the two passes over an advanced zone compute the replacement and both found flags, or reject text that is no address, in exactly that case |
| ZoneClient.ReplacedSimple | internal/dnsbalancer/client.go:262-287 | the same for a simple zone |
| ZoneClient.Client.FindZonesByIP | internal/dnsbalancer/client.go:41-80 | exactly the zones that hold the address, each once |
| ZoneClient.Client.AddIP | internal/dnsbalancer/client.go:147-199 | no effect on failure, with the reason of each error; on success the one zone becomes the edited one by one PATCH, or none when the address was there, and the result says which |
| ZoneClient.Client.ReplaceIP | internal/dnsbalancer/client.go:203-296 | no effect on failure, with the reason of each error; changed exactly when the old address was there; unchanged only when the new one is; what is sent is the replacement |
| ZoneClient.Client.MoveIP | internal/dnsbalancer/client.go:300-364 | every way a move can go, as the PATCHes it sent with their bodies and outcomes: where the target's went through and the source's did not, the target's former content is sent last; without that being accepted at least two calls have failed; the reason of each refusal |
| ZoneClient.MoveSucceeds | internal/dnsbalancer/client.go:300-364 | a reported change took the address out of the source and put it into the target, with an advanced entry carried over, every other entry of both and every other zone kept |
| ZoneClient.MoveUndone | internal/dnsbalancer/client.go:300-364 | a failure whose compensating PATCH was accepted leaves every zone its addresses |
| ZoneClient.MoveConserves | internal/dnsbalancer/client.go:300-364 | an address that starts in the source is in the source or the target after every PATCH and every failure, and nothing else changes |
| ZoneClient.MoveKeepsAddressIffTwoZones | internal/dnsbalancer/client.go:300-364 | a successful move keeps the address if and only if the twice normalised names differ |
| KeyedLock.StepKeepsInv | internal/dnsbalancer/lock.go:31-58 | refs is the number of waiters, holders and leavers, token plus holders is one, and the map lists exactly the entries in use, after every step |
| KeyedLock.RunsKeepInv | internal/dnsbalancer/lock.go:31-58 | the same in every run of any number of calls |
| KeyedLock.MutualExclusion | internal/dnsbalancer/lock.go:31-58 | two calls that hold tokens hold different keys, whether their entries are still in the map or not |
| KeyedLock.ReturnNeverBlocks | internal/dnsbalancer/lock.go:46-53 | the send that returns a token finds the channel empty |
| KeyedLock.ReleaseDeletesItsOwnEntry | internal/dnsbalancer/lock.go:60-67 | an entry whose count falls to zero is the one in the map, and nobody uses it |
| KeyedLock.IdleMapIsEmpty | internal/dnsbalancer/lock.go:60-67 | the map is empty if and only if nobody waits, holds or leaves |
| KeyedLock.BlockedByHolder | internal/dnsbalancer/lock.go:45-57 | a waiting call that cannot take the token is blocked by a holder of the same key |
| MemoryLocker.MemoryZoneLocker.Register | internal/dnsbalancer/lock.go:31-43 | the critical section before the select is the machine's registration |
| MemoryLocker.MemoryZoneLocker.Receive | internal/dnsbalancer/lock.go:45-47 | receiving the token in the select is the machine's step |
| MemoryLocker.MemoryZoneLocker.Cancel | internal/dnsbalancer/lock.go:54-55 | seeing the context done in the select is the machine's step |
| MemoryLocker.MemoryZoneLocker.Release | internal/dnsbalancer/lock.go:60-67 | the critical section that drops a reference is the machine's release |
| MemoryLocker.MemoryZoneLocker.Send | internal/dnsbalancer/lock.go:48-53 | returning the token is the machine's step, and does not block |
| ZoneProtocol.StepIsAtomicEdit | internal/dnsbalancer/client.go:147-364 | every PATCH is an edit computed from the zones as they are at that moment; a compensating one puts back the target as it was filled from and takes out the moved address only |
| ZoneProtocol.RunsRefineAtomicEdits | internal/dnsbalancer/client.go:147-364 | no lost updates: every run of any number of operations, with failures and crashes, is a run of atomic edits |
| ZoneProtocol.ConcurrentAddsLoseNothing | internal/dnsbalancer/client.go:147-199 | under concurrent AddIP calls, the zones that they are called on being simple, an address that any zone holds is there at every later step |
| ZoneProtocol.MoveEditsConserve | internal/dnsbalancer/client.go:300-364 | every atomic edit of a move leaves its address in one of its zones, every other address of the two where it was, and the other zones alone |
| ZoneProtocol.EditKeepsOthers | internal/dnsbalancer/client.go:147-364 | no edit touches an address that its operation does not mention, advanced zones under AddIP excepted |
| ZoneProtocol.OtherAddressesStay | internal/dnsbalancer/client.go:147-364 | in every concurrent run in which AddIP is called on simple zones only, with advanced zones elsewhere, failures, crashes and compensations included, an address that no operation mentions stays in exactly its zones |
| ZoneProtocol.AddLosesAdvanced | internal/dnsbalancer/client.go:147-199 | that condition is needed: one AddIP on an advanced zone that lacks its address takes out every other |
| ZoneProtocol.AddsAlone | internal/dnsbalancer/client.go:147-199 | one thread's steps of an AddIP change the zones as the client's AddIP does |
| ZoneProtocol.ReplacesAlone | internal/dnsbalancer/client.go:203-296 | the same for ReplaceIP |
| ZoneProtocol.MovesAlone | internal/dnsbalancer/client.go:300-364 | one thread's steps of a MoveIP, whatever fails, send the PATCHes that the client's MoveIP sends, compensation included, and none exactly when the zones could not be read or the move is refused |
| ZoneProtocol.NoDeadlock | internal/dnsbalancer/client.go:305-318 | in every reachable state with an unfinished operation some operation can step |
| CertificateTables.ActivatingKeeps | internal/repository/postgres/certificates.go:94-136 | activation keeps the active version saved, staged with its fingerprint and alone marked ACTIVE, and touches the status of no other version but the one that was active |
| CertificateTables.SavingKeeps | internal/repository/postgres/certificates.go:41-70 | saving a version keeps that |
| CertificateTables.MarkingKeeps | internal/repository/postgres/certificates.go:76-88 | a status other than ACTIVE on a version that is not the active one keeps that |
| CertificateTables.RecordIsOfMaterial | internal/repository/postgres/certificates.go:94-136 | the record carries the fingerprint and the expiry of the material that is active |
| CertificateManager.Manager.Resolve | internal/certmanager/distribution.go:57-134 | the zone's addresses split exactly into managed, acknowledged and unmanaged ones |
| CertificateManager.Manager.Distribute | internal/certmanager/distribution.go:164-203 | one result a target, and a node serves the new material or what it served |
| CertificateManager.Manager.DistributeVersion | internal/certmanager/manager.go:360-380 | succeeds only when every address of the zone is an acknowledged legacy target or a managed one that holds the version; fails only for a failed call, an address nobody vouches for or a node that does not take it |
| CertificateManager.Manager.LoadActive | internal/certmanager/manager.go:430-454 | material is returned only for the recorded active version, after the marker was repaired |
| CertificateManager.Manager.IssueAndActivate | internal/certmanager/manager.go:304-358 | a new version is active, or the active one is unchanged; a failure after distribution says whether the managed nodes hold the previous version again, which fails only with a failed call; every error has its reason |
| CertificateManager.Manager.Promote | internal/certmanager/manager.go:324-358 | activation only through the gate; a compensation that succeeds gives every managed node the previous version |
| CertificateManager.Manager.RestoreDistributedVersion | internal/certmanager/manager.go:413-428 | when it succeeds the previous version passes the gate again |
| CertificateManager.Manager.Prepare | internal/certmanager/manager.go:75-111 | the material is the active version's and valid; a certificate that is valid for longer than the renewal margin is not ordered again, and one that is not is: nothing was ordered only when it is fresh or a call failed; the active version is unchanged or a new one; what it does is a section of the concurrent model |
| CertificateManager.Manager.Renew | internal/certmanager/manager.go:115-141 | a new active version, or the old one unchanged |
| CertificateManager.Manager.FindCandidate | internal/certmanager/manager.go:179-199 | the newest version that was never active, could be read and is valid; every newer one was active, could not be read or has expired, and so have all when there is none |
| CertificateManager.Manager.NeverActiveMeans | internal/repository/postgres/certificates.go:94-136 | in every such state, the status of a saved version tells exactly whether it was ever activated, which is what a candidate must not have been |
| CertificateManager.Manager.Bootstrap | internal/certmanager/manager.go:147-228 | activates the newest version that was never active, could be read and has not expired, every newer one failing one of these, after every unmanaged address was acknowledged; finds none only when all of them fail |
| CertificateManager.Manager.Rollback | internal/certmanager/manager.go:246-302 | the chosen version is active and distributed, or tables unchanged and the nodes compensated |
| CertificateManager.Manager.AcknowledgeLegacyTargets | internal/certmanager/manager.go:230-242 | every unmanaged address is acknowledged, and counted |
| CertificateManager.Manager.Operate | internal/certmanager/manager.go:75-454 | after any sequence of operations, failures and crashes: one ACTIVE version, staged with the recorded fingerprint, every activation gated, no acknowledgement lost |
| SingleFlight.IssuerCallsAreBounded | internal/certmanager/manager.go:75-111 | any number of concurrent Prepare calls order at most one certificate more than orders failed |
| SingleFlight.SectionIsSteps | internal/certmanager/manager.go:75-111 | what one Prepare does under the lock is one or two steps of the concurrent system, none of them an order only when the certificate was fresh or could not be read |
| SingleFlight.NoDeadlock | internal/certmanager/manager.go:75-111 | in every reachable state with a caller that has not finished, some caller can go on without a failure or a cancellation |
| Provisioner.Engine.RunStage | internal/provisioner/engine.go:147-172 | the stage is inspected, and applied exactly when it was not found in its desired state; success means that state holds and no call failed; failure means a failed call or a state that does not hold; earlier stages are untouched |
| Provisioner.Engine.Run | internal/provisioner/engine.go:91-139 | completed stages stay a prefix at every point and are neither inspected nor applied; success means all are completed, their desired states hold and no call failed; the reports are in order and say what was done; the row of a stage that failed says so when its write went through |
| Provisioner.Retry | internal/provisioner/engine.go:91-139 | the same over any sequence of runs, crashes and restarts |
| Provisioner.FailingCurrentStepKeepsPrefix | internal/orchestrator/service.go:828-852 | a failure recorded for the current step takes the completed record of that step and of no other, and leaves the completed stages a prefix |
| Provisioner.CompletedStageIsLost | internal/orchestrator/service.go:828-852 | an input for that: every stage completed in a first run, provisioning not recorded as completed; the failed check takes the last stage's record, and with the status write failed too the stage is inspected again |
| StageHistory.RedoneExactlyWhen | internal/provisioner/engine.go:91-139 | a completed stage is worked on again before it is completed for good if and only if its record was overwritten while the deployment stayed at PROVISIONING |
| StageHistory.RedoneOnlyWhenReopened | internal/provisioner/engine.go:91-139 | whether it is completed again or not, only then |
| DeploymentTables.StepNamesDiffer | internal/orchestrator/service.go:20-27 | no workflow step and no stage share a stored name |
| DeploymentTables.Repository.RecordDeploymentStep | internal/repository/postgres/postgres.go:259-330 | one transaction: the step's row, and the current step when it starts |
| PanelNodes.CheckUnique | internal/orchestrator/service.go:743-772 | passes if and only if each node is the own one, the one to recover, or shares neither name nor address; otherwise the answer names what the first other one shares |
| PanelNodes.RecoverableNode | internal/orchestrator/service.go:774-795 | adopts the only full match; nothing to adopt if and only if nothing matches; otherwise a duplicate |
| PanelNodes.SelectHost | internal/orchestrator/service.go:719-741 | the first Host with the UUID, when enabled and deployable |
| Workflow.DeploymentService.CreateNode | internal/remnawave/client.go:170-208 | a node it creates is the deployment's, added to a panel where none shared its name, or its address as the panel spells it |
| Workflow.DeploymentService.AdoptOrCreate | internal/orchestrator/service.go:393-437 | on success the UUID of the deployment's only node is stored |
| Workflow.DeploymentService.RunEngine | internal/orchestrator/service.go:364-388 | provisioning succeeded means every stage is completed and its desired state holds |
| Workflow.DeploymentService.CheckHost | internal/orchestrator/service.go:258-264 | from any status that Deploy goes on from, MANUAL_REVIEW included: reads the Hosts once and goes on only when the first one with the stored UUID is enabled and deploys the stored SNI; refuses only when it is not or a call failed; then the current step's record, a completed stage's included, is lost when its write went through, and no other is |
| Workflow.DeploymentService.CheckNode | internal/orchestrator/service.go:265-271 | the same with the nodes: goes on only when each is the own one, one to adopt, or shares neither name nor address |
| Workflow.DeploymentService.PollNode | internal/orchestrator/service.go:675-709 | every read but the last found the node connecting; success means the last one found it connected, failure that it found it neither, that the run was cancelled, or that the time was used up |
| Workflow.DeploymentService.WaitForHealthyNode | internal/orchestrator/service.go:439-468 | success means the node was read as connected during this call |
| Workflow.DeploymentService.AddAddress | internal/orchestrator/service.go:491-503 | the zone is changed only right after the deployment's own node was read as connected; success means it holds the address |
| Workflow.DeploymentService.FailStage | internal/orchestrator/service.go:828-852 | each of the two writes takes effect or leaves what was there, and the stage's own error is returned only when both did and it has a reason |
| Workflow.DeploymentService.FailCurrentStep | internal/orchestrator/service.go:828-852 | the same with the current step, a provisioning stage included: that completed record is lost if the step write goes through, and no other |
| Workflow.DeploymentService.Prepare | internal/orchestrator/service.go:85-184 | the deployment is created only after the Host and then the nodes were read and pass; success leaves it at PREFLIGHT without a failed call; without one it fails only when one of the reads does not pass |
| Workflow.DeploymentService.Deploy | internal/orchestrator/service.go:218-315 | from every row, MANUAL_REVIEW included: nothing is done before the Host and then the nodes were read and pass; success means COMPLETED, one node with name and address whose UUID is stored, the address in the zone or DNS off, and completed records of the steps it went through and of no other; an error leaves the status and step that belong to it, and has a failed call, the last read, the server's state or the zones as its reason; refused statuses change nothing and are named; of the completed stages only the current step's can be lost, in a failed call whose step write went through |
| Workflow.DeploymentService.RetryDNS | internal/orchestrator/service.go:516-544 | the same, from its two statuses only, any other but COMPLETED being refused |
| Workflow.DeploymentService.RetryFailedStep | internal/orchestrator/service.go:549-579 | the same: it goes on from exactly the five steps that can be repeated, a failed DNS change being stored as DNS_FAILED; a deployment that did not fail, or failed at preflight or inside a stage, is refused unchanged |
| Workflow.DeploymentService.Cancel | internal/orchestrator/service.go:652-673 | cancels anything but a completed deployment, unless a call fails |
| Workflow.DeploymentService.CompletedIsDelivered | internal/orchestrator/service.go:470-512 | COMPLETED is never stored without the node, its UUID and the address in the zone |
| Workflow.DeploymentService.StageRedoneExactlyWhen | internal/orchestrator/service.go:216-579 | in every state that a life reaches: a completed stage is worked on again exactly when a failed check overwrote its record and the deployment stayed at PROVISIONING |
| Workflow.DeploymentService.UnprovisionedExactlyWhen | internal/orchestrator/service.go:230-262 | in every such state with a created node, the server was never provisioned if and only if Deploy went on from MANUAL_REVIEW without a UUID |
| Workflow.DeploymentService.OneNode | internal/orchestrator/service.go:393-437 | in every such state the panel has at most one node with the deployment's name and address |
| Workflow.LogSnoc | internal/orchestrator/service.go:216-579 | one more event keeps the gating of the whole history |
| Workflow.FirstOurs | internal/orchestrator/service.go:393-437 | creating the node where none clashes keeps the panel at one node, known as created |
| Recovery.RecoveryIsSound | internal/recovery/service.go:130-187 | COMPLETED only with a connected node and the address in the zone, or DNS off; an adopted UUID is that of the only exact match |
| Recovery.ClassesExactlyWhen | internal/recovery/service.go:110-128 | each of the four classes exactly when: completed, lacking the address only, connecting still, or none of these, by the row's status and step, the stored UUID or the only exact match, the node's connection, DNS off, and the addresses that the zone was read to hold |
| Recovery.ClassifiedKeeps | internal/recovery/service.go:110-213 | a classification writes the status, the step that goes with it and a missing UUID, and nothing else |
| Recovery.ClassFitsStatus | internal/recovery/service.go:110-187 | each class leaves the status its follow-up runs from, with a UUID |
| Recovery.ClassifyTwice | internal/recovery/service.go:110-128 | two classifications agree in every world if and only if the row's step fits its status |
| Recovery.RowsInPlayRepeat | internal/recovery/service.go:110-128 | no row that the workflow writes is of the other kind: each of them, and every row that recovery makes of one, is classified alike twice |
| Recovery.CutShortIsHarmless | internal/recovery/service.go:146-151 | a classification cut short after the UUID was stored ends as if it had not been |
| Recovery.RecoveryKeepsGated | internal/recovery/service.go:110-213 | recovery writes no status or step that needs a server or a node without it, keeps the step fitting the status, and takes no row back to provisioning |
| Recovery.Service.DNSContains | internal/recovery/service.go:189-205 | whether the zone holds the address, skipping text that is none |
| Recovery.Service.Classify | internal/recovery/service.go:110-128 | the row and class are the classification's (whose cases are Recovery.ClassesExactlyWhen); only a failed write keeps it from that, and leaves a row that classifies the same |
| Recovery.Service.RecoverUnfinished | internal/recovery/service.go:72-97 | every item up to the first failure is classified, no other row is touched |
| Lifecycle.Recheck | internal/recovery/service.go:99-213 | on the deployment itself: the row becomes what the classification makes of it in the world that the calls showed, and that world is what was read: what is missing in it failed, and no other call was made; a UUID that is filled in is the deployment's own node's, COMPLETED is written only with node and address in place, and a failed recheck has a failed call and leaves all but a found UUID as it was |
| Lifecycle.Start | cmd/deployer/main.go:207-214 | a start runs the recovery of an unfinished deployment that its limit reaches, and only then; it gives up exactly when that fails; the invariants hold either way |
| Lifecycle.Do | internal/orchestrator/service.go:216-579 | one operation, recheck, process death or start keeps them too, loses no completed stage but the current one, and creates a node without provisioning from no row but one in MANUAL_REVIEW without a UUID |
| Lifecycle.Operate | internal/orchestrator/service.go:216-579 | over every life, with the recovery of every start: at most one node, COMPLETED only when delivered, provisioning only with a certificate, node creation only after provisioning (or from MANUAL_REVIEW, as stated) and at most once, DNS changes only right after the created node was read as connected, the late statuses and steps only with a stored UUID; completed stages stay so but for the one that was current at the start; a deployment past provisioning is not provisioned again |
| IPChange.Service.SelectNode | internal/orchestrator/ip_change.go:113-133 | passes exactly when the node has the expected address and no other node has the new one |
| IPChange.Service.ReplaceNodeIP | internal/orchestrator/ip_change.go:95-168 | panel, every zone and the stored address change without a failed call; or they are rolled back, no more of them left changed than calls failed while rolling back, and with none panel and stored address are as before and the zones were replaced there and back; every error has its reason |
| IPChange.SwappedMeans | internal/orchestrator/ip_change.go:150-160 | every zone that held the old address holds the new one and not the old, with all others kept |
| IPChange.RollbackRestoresIff | internal/orchestrator/ip_change.go:170-175 | the rollback restores the zones if and only if no changed zone held the new address |
| Profiles.CanonicalUUIDs | internal/orchestrator/node_host_move.go:286-295 | the trimmed, non-empty values in order |
| Profiles.SameNodeProfile | internal/orchestrator/node_host_move.go:297-311 | equal exactly when the trimmed UUIDs are equal and the inbounds are the same multiset |
| Profiles.FingerprintIsSame | internal/orchestrator/node_host_move.go:278-284 | a fingerprint is the same profile as what it was taken of |
| HostMove.MatchingMeans | internal/orchestrator/node_host_move.go:263-276 | exactly the enabled Hosts that deploy the node's profile |
| HostMove.Service.MoveNodeToHost | internal/orchestrator/node_host_move.go:119-231 | server SNI, profile, zones and binding are all the target's; or they are rolled back, no more left changed than calls failed while rolling back, and with none SNI, profile and binding are as before; the node's address is never written; every error has its reason |
| HostMove.MovedBackRestoresIff | internal/orchestrator/node_host_move.go:233-248 | moving there and back restores the zones if and only if the target did not hold the address |
| DNSSync.Service.InferLegacyDNSZone | internal/orchestrator/dns_sync.go:220-267 | a zone is inferred exactly when all Hosts that speak for the node agree on it |
| DNSSync.InfersExactlyWhen | internal/orchestrator/dns_sync.go:220-267 | by the Hosts' own fields: a name is inferred exactly when the node's profile is complete, some enabled Host deploys that profile through the one inbound that is active on the node, and every such Host whose SNI is a name has that name |
| DNSSync.Service.KnownMeans | internal/orchestrator/dns_sync.go:88-121 | a zone can take the address exactly when it is simple, has no entries, or has one for that address or for the stored one |
| DNSSync.Service.ZoneContainsIP | internal/orchestrator/dns_sync.go:321-339 | whether the zone holds the address |
| DNSSync.Service.FindNodeForDNSSync | internal/orchestrator/dns_sync.go:57-132 | CanSync if and only if the target zone is known and can take the address |
| DNSSync.Service.SyncNodeDNS | internal/orchestrator/dns_sync.go:137-215 | fails with an unknown target in exactly that case; success puts the panel's address in, takes a different stored one out, keeps the rest and stores the address |
| DNSSync.SecondRunChangesNoZone | internal/orchestrator/dns_sync.go:207-213 | after a success, or a failure to store, another run leaves the zones as they are and repairs the stored address |
| NodeGroups.ClassifyNodePanels | internal/telegram/node_inventory.go:50-98 | every group of every panel lists the nodes that belong to it by their own fields, each as often as it came, in display order; a panel listed twice gets them where it is listed last |
| NodeGroups.OneGroupEach | internal/telegram/node_inventory.go:50-98 | a node of a listed panel is in exactly one group there: disabled; not disabled, and not connected or without a count; connected with a count of at most the threshold; or above it |
| NodeGroups.DisplayOrder | internal/telegram/node_inventory.go:82-95 | the critical nodes with the fewest online come first, the active ones with the most, the others and ties by name |
| NodeMonitor.KeyNamesNode | internal/telegram/node_monitor.go:164-166 | two keys are equal if and only if panel and UUID are |
| NodeMonitor.NewNodeMonitor | internal/telegram/node_monitor.go:34-70 | the settings, with their defaults where none are given |
| NodeMonitor.Monitor.TakeSample | internal/telegram/node_monitor.go:89-162 | each sample is one more turn of every node's history, from that node's own fields and the threshold; a failed one changes nothing |
| NodeMonitor.MessagesSpeakOfNodes | internal/telegram/node_monitor.go:89-162 | an alert about a key needs an enabled, connected node with that key in the sample whose known count is at most the threshold; a recovery message one whose count is above it |
| AlertHistory.AlertedExactlyWhen | internal/telegram/node_monitor.go:105-134 | an alert goes out if and only if the sample is critical, enough critical ones came with none between that ends the incident, and the user was not told within the repeat interval |
| AlertHistory.SamplesCount | internal/telegram/node_monitor.go:105-124 | a critical sample counts one more, an ignored one changes nothing, and any other starts over |
| AlertHistory.RepeatsAreSpaced | internal/telegram/node_monitor.go:125-133 | two delivered alerts of one incident are the repeat interval apart |
| AlertHistory.RecoveredExactlyWhen | internal/telegram/node_monitor.go:135-148 | a recovery message goes out if and only if an active sample ends an incident the user was told of |
| AlertHistory.RecoveredOncePerIncident | internal/telegram/node_monitor.go:135-148 | between two recovery messages to a user there is another delivered alert |
| AlertHistory.OneMessageEach | internal/telegram/node_monitor.go:125-146 | a user gets at most one message about a node from one sample |
| ShellQuote.QuoteRoundTrip | internal/provisioner/remote.go:155-160 | every string without CR, LF and NUL is quoted and reads back as one word, itself; the others are refused |
| ShellQuote.ArgumentIsOneWord | internal/provisioner/remote.go:155-160 | after any readable text a quoted value is one more word, and reading goes on unaffected |
| ShellQuote.PathRoundTrip | internal/provisioner/remote.go:148-153 | exactly the safe absolute paths are accepted, and they read back as they are |

## Left out

- HTTP, JSON, SQL text, SSH, YAML, ACME and X.509: calls that succeed or fail as described above.
- Calls that take effect but report failure: the compensation properties are not claimed there.
- Shell scripts that run on the servers: installing and switching the SNI, provisioning a stage and installing a certificate are atomic calls.
- Invalid netip.Addr inputs, zone TTL and proxied flags, and the full name that FindZonesByIP builds from raw names; zones are keyed by the name that LocateZone computes.
- Lower-casing of letters outside ASCII, and EqualFold beyond it.
- The validation of operator input (node name length, public address ranges, UUID syntax): a node name and an address are given; whether an address is public is a parameter.
- FindNodeForIPChange and the query half of FindNodeForDNSSync: reading only; the node they resolve is a parameter.
- The running map and the semaphore of DeploymentService (beginExecution, acquire): operations on one deployment follow one another here, as the map enforces; other deployments are part of the environment.
- Lifecycle.Operate: leaves out a Cancel or a recheck whose writes race with those of a running operation. The recovery of several rows in one start is Recovery.Service; here a start handles the one deployment, or its limit does not reach it.
- Workflow.DeploymentService.PrepareAndProvision: Prepare of the certificate manager and SSH connections are single calls there; CertificateManager proves what the former promises.
- CertificateManager.Manager.Distribute: the worker goroutines run one after the other; each writes its own result and node only.
- The order in which Resolve lists its targets, the certificate record's own status column, distribution records, and the reading side (Readiness, ListExpiring, renewal ticker).
- The lock of internal/certmanager/lock.go is the same algorithm as the zone locker's; SingleFlight runs on KeyedLock.
- IPChange, HostMove and DNSSync against concurrent writers of the same zones: each runs alone here; ZoneProtocol covers the zone edits themselves.
- Timestamps, error codes and safe messages stored with a row.
- Telegram rendering, keyboards, callbacks, localisation, metrics, logging, health server, configuration and secret redaction.
- Cherry and Royal IP services: remote commands and a rollback timed on the server.
- Liveness in wall-clock time: time is a parameter.
