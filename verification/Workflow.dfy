/** The deployment workflow (internal/orchestrator/service.go): a persisted status
    machine that is resumed after failures, cancellations and crashes. */
module Workflow {
  import opened Wrappers
  import Names
  import P = Process
  import Z = Zones
  import ZC = ZoneClient
  import opened DeploymentTables
  import opened PanelNodes
  import E = Provisioner
  import H = StageHistory

  datatype Error =
    | Interrupted | InvalidInput | Persistence | NotRunnable | DNSRetryRequired | HostUnavailable | DuplicateNode
    | PreflightFailed | CertificateUnavailable | ProvisioningFailed | CreationFailed | ConnectionFailed | DNSUpdateFailed
  type Outcome = Result<(), Error>

  /** What one deployment read on the panel and did to the world. */
  datatype Event =
    | HostsRead(hosts: seq<Host>) | NodesRead(nodes: seq<PanelNode>)
    | CertificateReady | Provisioned | Created(uuid: string)
    | ReadConnected(uuid: string) | ReadOther(uuid: string, connecting: bool) | AddingIP

  datatype StartInput = StartInput(operator: int, host: string, name: string, ip: Addr)

  // ---- What every Deploy checks first ----

  ghost predicate Extends(before: seq<Event>, after: seq<Event>) {
    before <= after
  }

  /** The Host with that UUID, the first of its kind, is enabled and deployable, with the
      same SNI where that is fixed already. */
  ghost predicate HostFits(hosts: seq<Host>, uuid: string, sni: Option<string>) {
    exists i :: 0 <= i < |hosts| && FirstWith(hosts, i, uuid) && !hosts[i].disabled && hosts[i].sni.Some?
                && (sni.Some? ==> Names.NormalizeFQDN(hosts[i].sni.value) == Names.NormalizeFQDN(sni.value))
  }

  /** What a Deploy has to find on the panel. */
  datatype Wanted = Wanted(input: StartInput, sni: Option<string>, own: Option<string>, allowRecovery: bool)

  ghost predicate HostsPass(e: Event, w: Wanted) {
    e.HostsRead? && HostFits(e.hosts, w.input.host, w.sni)
  }

  ghost predicate NodesPass(e: Event, w: Wanted) {
    e.NodesRead? && NodesFit(e.nodes, w.input.name, w.input.ip, w.own, w.allowRecovery)
  }

  /** Since `before` the Hosts were read first, and anything came after that only when the
      Host fits; then the nodes, and anything came after that only when they fit. */
  ghost predicate Vetted(before: seq<Event>, after: seq<Event>, w: Wanted) {
    && before <= after
    && (|after| > |before| ==> after[|before|].HostsRead?)
    && (|after| > |before| + 1 ==> HostsPass(after[|before|], w) && after[|before| + 1].NodesRead?)
    && (|after| > |before| + 2 ==> NodesPass(after[|before| + 1], w))
  }

  /** Both checks were made, and passed. */
  ghost predicate Passed(before: seq<Event>, after: seq<Event>, w: Wanted) {
    && before <= after && |after| >= |before| + 2
    && HostsPass(after[|before|], w) && NodesPass(after[|before| + 1], w)
  }

  /** One of the checks was made, and did not pass. */
  ghost predicate Refuted(before: seq<Event>, after: seq<Event>, w: Wanted) {
    && before <= after && |after| > |before|
    && var last := after[|after| - 1];
       if |after| == |before| + 1 then last.HostsRead? && !HostFits(last.hosts, w.input.host, w.sni)
       else last.NodesRead? && !NodesFit(last.nodes, w.input.name, w.input.ip, w.own, w.allowRecovery)
  }

  /** One read: it failed, or it is in the history and what it showed decides, but that a
      failed call stops as well. */
  ghost predicate Saw(before: seq<Event>, after: seq<Event>, e: Event, pass: bool, ok: bool, failed: bool) {
    if after == before then !ok && failed
    else after == before + [e] && (if ok then pass else failed || !pass)
  }

  /** Both checks passed, or a call failed, or one of them did not pass. */
  ghost predicate Verdict(before: seq<Event>, after: seq<Event>, w: Wanted, ok: bool, failed: bool) {
    Vetted(before, after, w) && (if ok then Passed(before, after, w) else failed || Refuted(before, after, w))
  }

  lemma VerdictTried(before: seq<Event>, after: seq<Event>, w: Wanted, r: Outcome, was: nat, now: nat)
    requires Verdict(before, after, w, r.Ok?, was < now)
    ensures Vetted(before, after, w) && (r.Ok? ==> Passed(before, after, w)) && Tried(r, was, now, before, after)
  {
  }

  lemma HostsSeen(before: seq<Event>, after: seq<Event>, e: Event, w: Wanted, ok: bool, failed: bool)
    requires e.HostsRead? && Saw(before, after, e, HostsPass(e, w), ok, failed)
    ensures !ok ==> Verdict(before, after, w, false, failed)
  {
  }

  lemma BothSeen(before: seq<Event>, mid: seq<Event>, after: seq<Event>, h: Event, n: Event, w: Wanted, ok: bool, failed: bool, missed: bool)
    requires h.HostsRead? && Saw(before, mid, h, HostsPass(h, w), true, missed)
    requires n.NodesRead? && Saw(mid, after, n, NodesPass(n, w), ok, failed)
    ensures Verdict(before, after, w, ok, failed)
  {
  }

  lemma PassedGrows(before: seq<Event>, mid: seq<Event>, after: seq<Event>, w: Wanted)
    requires Passed(before, mid, w) && Extends(mid, after)
    ensures Passed(before, after, w) && Vetted(before, after, w) && before < after
  {
    assert after[|before|] == mid[|before|] && after[|before| + 1] == mid[|before| + 1];
  }

  /** What reading a node adds to the history. */
  ghost function NodeSeen(r: Option<PanelNode>, uuid: string): seq<Event> {
    match r
    case None => []
    case Some(n) => [if n.connected then ReadConnected(uuid) else ReadOther(uuid, n.connecting)]
  }

  // ---- What an error leaves ----

  /** Where an error leaves the row: some stage's failure is stored, unless writing itself
      failed or the run was cancelled. */
  ghost predicate Explained(e: Error, status: Status, step: Step, steps: map<Step, StepStatus>) {
    if e.Interrupted? || e.Persistence? then true
    else if e.NotRunnable? then status == MANUAL_REVIEW
    else StoredAs(e, status, step) && E.Row(steps, step) == Some(STEP_FAILED)
  }

  /** Why there is an error: a call failed or a cancellation was seen, or else what was
      read last, the server or the zones forbid to go on. */
  ghost predicate Blamed(e: Error, input: StartInput, log: seq<Event>, failed: bool, unsatisfied: bool, refused: bool) {
    || failed
    || (e.HostUnavailable? && log != [] && log[|log| - 1].HostsRead?)
    || (e.DuplicateNode? && log != [] && log[|log| - 1].NodesRead? && Shared(log[|log| - 1].nodes, input.name, input.ip))
    || (e.CreationFailed? && log != [] && log[|log| - 1].NodesRead? && !NoDuplicates(log[|log| - 1].nodes, input.name, input.ip))
    || (e.ConnectionFailed? && log != [] && log[|log| - 1].ReadOther?)
    || (e.ProvisioningFailed? && unsatisfied)
    || (e.DNSUpdateFailed? && refused)
    || e.NotRunnable?
  }

  lemma NotFitting(nodes: seq<PanelNode>, name: string, ip: Addr, own: Option<string>, allowRecovery: bool)
    requires !NodesFit(nodes, name, ip, own, allowRecovery)
    ensures Shared(nodes, name, ip)
  {
  }

  /** Some node shares the name or the address. */
  ghost predicate Shared(nodes: seq<PanelNode>, name: string, ip: Addr) {
    exists n :: n in nodes && (NameMatches(n, name) || AddressMatches(n, ip))
  }

  /** The status and the step that a failed stage leaves. */
  ghost predicate StoredAs(e: Error, status: Status, step: Step) {
    match e
    case HostUnavailable => status == FAILED
    case DuplicateNode => status == FAILED
    case PreflightFailed => status == FAILED && step == PreflightStep
    case CertificateUnavailable => status == FAILED && step == PrepareCertificateStep
    case ProvisioningFailed => status == FAILED && step == ProvisioningStep
    case CreationFailed => status == FAILED && step == CreateNodeStep
    case ConnectionFailed => status == FAILED && (step == WaitNodeStep || step == AddDNSStep)
    case DNSUpdateFailed => status == DNS_FAILED && step == AddDNSStep
    case _ => false
  }

  /** Something was done about it, or a call failed. */
  ghost predicate Tried(r: Outcome, before: nat, now: nat, past: seq<Event>, log: seq<Event>) {
    r.Ok? || before < now || past < log
  }

  /** What the panel's users see of the workflow's own steps. */
  datatype OwnRows = OwnRows(certificate: Option<StepStatus>, provisioning: Option<StepStatus>, creating: Option<StepStatus>,
                             waiting: Option<StepStatus>, dns: Option<StepStatus>)

  function RowsOf(steps: map<Step, StepStatus>): OwnRows {
    OwnRows(E.Row(steps, PrepareCertificateStep), E.Row(steps, ProvisioningStep), E.Row(steps, CreateNodeStep),
            E.Row(steps, WaitNodeStep), E.Row(steps, AddDNSStep))
  }

  function Put(rows: OwnRows, step: Step, status: StepStatus): OwnRows {
    match step
    case PrepareCertificateStep => rows.(certificate := Some(status))
    case ProvisioningStep => rows.(provisioning := Some(status))
    case CreateNodeStep => rows.(creating := Some(status))
    case WaitNodeStep => rows.(waiting := Some(status))
    case AddDNSStep => rows.(dns := Some(status))
    case _ => rows
  }

  lemma RowsPut(steps: map<Step, StepStatus>, step: Step, status: StepStatus)
    ensures RowsOf(steps[step := status]) == Put(RowsOf(steps), step, status)
  {
  }

  /** A successful Deploy completes the steps from where it went on, and no other. */
  ghost function Finished(rows: OwnRows, status: Status, dnsDisabled: bool): OwnRows {
    var done := Some(STEP_COMPLETED);
    var dns := rows.(dns := if dnsDisabled then Some(SKIPPED) else done);
    var waited := dns.(waiting := done);
    var created := waited.(creating := done);
    var provisioned := created.(provisioning := done);
    match status
    case ADDING_TO_DNS => dns
    case DNS_FAILED => dns
    case WAITING_REMNAWAVE => waited
    case CREATING_REMNAWAVE_NODE => created
    case MANUAL_REVIEW => created
    case PROVISIONING => provisioned
    case _ => provisioned.(certificate := done)
  }

  lemma DNSFinishes(before: OwnRows, begun: OwnRows, after: OwnRows, dnsDisabled: bool)
    requires begun == Put(before, AddDNSStep, RUNNING)
    requires after == begun.(dns := Some(if dnsDisabled then SKIPPED else STEP_COMPLETED))
    ensures after == Finished(before, DNS_FAILED, dnsDisabled)
  {
  }

  lemma NodeFinishes(before: OwnRows, status: Status, missing: bool, mid: OwnRows, midStatus: Status, after: OwnRows, dnsDisabled: bool)
    requires missing ==> (status == CREATING_REMNAWAVE_NODE || status == MANUAL_REVIEW) && midStatus == WAITING_REMNAWAVE
    requires missing ==> mid == before.(creating := Some(STEP_COMPLETED), waiting := Some(RUNNING))
    requires !missing ==> mid == before && midStatus == status
    requires after == Finished(mid, midStatus, dnsDisabled)
    ensures after == Finished(before, status, dnsDisabled)
  {
  }

  // ---- Gating ----

  /** How far a deployment has come: 1 needs a provisioned server, 2 a known node. */
  function StatusLevel(status: Status): nat {
    match status
    case CREATING_REMNAWAVE_NODE => 1
    case WAITING_REMNAWAVE => 2
    case ADDING_TO_DNS => 2
    case DNS_FAILED => 2
    case COMPLETED => 2
    case _ => 0
  }

  function StepLevel(step: Step): nat {
    if step.CreateNodeStep? then 1 else if step.WaitNodeStep? || step.AddDNSStep? then 2 else 0
  }

  /** `bypassed` says that a node was to be created although the server was never
      provisioned. */
  ghost predicate Gated(status: Status, step: Step, uuid: Option<string>, log: seq<Event>, bypassed: bool) {
    && (StatusLevel(status) >= 1 || StepLevel(step) >= 1 || uuid.Some? ==> Provisioned in log || bypassed)
    && (StatusLevel(status) == 2 || StepLevel(step) == 2 ==> uuid.Some?)
  }

  /** The steps that are current in a status. */
  predicate StepFits(status: Status, step: Step) {
    match status
    case CREATED => step.CreatedStep?
    case PREFLIGHT => step.PreflightStep? || step.PrepareCertificateStep?
    case PREPARING_CERTIFICATE => step.PrepareCertificateStep?
    case PROVISIONING => step.ProvisioningStep? || !OwnStep(step)
    case CREATING_REMNAWAVE_NODE => step.CreateNodeStep?
    case WAITING_REMNAWAVE => step.WaitNodeStep?
    case ADDING_TO_DNS => step.AddDNSStep?
    case DNS_FAILED => step.AddDNSStep?
    case COMPLETED => step.CompletedStep?
    case FAILED => !step.CompletedStep?
    case CANCELLED => step.CancelledStep?
    case MANUAL_REVIEW => !step.CompletedStep?
  }

  /** The server is not provisioned again from here. */
  predicate Past(status: Status, step: Step) {
    && status != CREATED && status != PREFLIGHT && status != PREPARING_CERTIFICATE && status != PROVISIONING
    && (status == FAILED || status == MANUAL_REVIEW ==> !step.PrepareCertificateStep? && !step.ProvisioningStep?)
  }

  lemma PastStays(status: Status, step: Step)
    requires Past(status, step) && StepFits(status, step)
    ensures Past(FAILED, step) && Past(MANUAL_REVIEW, step)
  {
  }

  /** The current step moves to steps of the workflow, and the status not back to one
      from which the server is provisioned. */
  ghost predicate MovesOn(status: Status, step: Step, nextStatus: Status, nextStep: Step) {
    && (OwnStep(nextStep) || nextStep == step)
    && (Past(status, step) ==> Past(nextStatus, nextStep))
  }

  /** The node came last, onto a panel that held no duplicate of it. */
  ghost predicate AddedLast(nodes: seq<PanelNode>, node: PanelNode, name: string, ip: Addr) {
    && nodes != [] && nodes[|nodes| - 1] == node
    && NoDuplicates(nodes[..|nodes| - 1], name, ip)
  }

  /** Something has happened, and the node was read as connected last. */
  ghost predicate JustRead(before: seq<Event>, after: seq<Event>, uuid: string) {
    before < after && after[|after| - 1] == ReadConnected(uuid)
  }

  /** The statuses in which an interrupted run may have made the node. */
  predicate AllowsRecovery(status: Status) {
    status == CREATING_REMNAWAVE_NODE || status == WAITING_REMNAWAVE || status == ADDING_TO_DNS
  }

  /** The statuses that Deploy goes on from. */
  predicate Resumable(status: Status) {
    match status
    case CREATED => false
    case COMPLETED => false
    case FAILED => false
    case CANCELLED => false
    case DNS_FAILED => false
    case _ => true
  }

  /** The statuses that Deploy neither refuses nor finds done. */
  ghost predicate GoesOn(status: Status) {
    && status != CREATED && status != COMPLETED
    && status != FAILED && status != CANCELLED && status != DNS_FAILED
  }

  lemma ResumableMeans(status: Status)
    ensures Resumable(status) <==> GoesOn(status)
  {
  }

  /** E.LosesCurrentOnly, of the provisioning stages. */
  ghost predicate LosesStageOnly(before: map<Step, StepStatus>, step: Step, after: map<Step, StepStatus>, wrote: bool) {
    forall s :: !OwnStep(s) ==> (E.Lost(before, after, s) <==> E.IsCompleted(before, s) && s == step && wrote)
  }

  /** The failed steps that RetryFailedStep goes on from. */
  predicate Repeatable(step: Step) {
    step.PrepareCertificateStep? || step.ProvisioningStep? || step.CreateNodeStep? || step.WaitNodeStep? || step.AddDNSStep?
  }

  /** Where it goes on. */
  function ResumeStatus(step: Step): Option<Status> {
    match step
    case PrepareCertificateStep => Some(PREFLIGHT)
    case ProvisioningStep => Some(PROVISIONING)
    case CreateNodeStep => Some(CREATING_REMNAWAVE_NODE)
    case WaitNodeStep => Some(WAITING_REMNAWAVE)
    case AddDNSStep => Some(DNS_FAILED)
    case _ => None
  }

  lemma ResumeFits(step: Step, uuid: Option<string>, log: seq<Event>, bypassed: bool)
    requires ResumeStatus(step).Some? && Gated(FAILED, step, uuid, log, bypassed)
    ensures var status := ResumeStatus(step).value;
            && StepFits(status, step) && OwnStep(step) && Gated(status, step, uuid, log, bypassed)
            && (Past(FAILED, step) <==> Past(status, step))
  {
  }

  /** Completed stages stay so, and the current step moves to a step of the workflow or
      to a stage that was not completed. */
  ghost predicate Steady(before: map<Step, StepStatus>, step: Step, after: map<Step, StepStatus>, now: Step) {
    && (forall s :: !OwnStep(s) && E.IsCompleted(before, s) ==> E.IsCompleted(after, s))
    && (OwnStep(now) || now == step || !E.IsCompleted(before, now))
  }

  /** The same, but for the stage that is current. */
  ghost predicate Kept(before: map<Step, StepStatus>, step: Step, after: map<Step, StepStatus>, now: Step) {
    && (forall s :: !OwnStep(s) && E.IsCompleted(before, s) && s != step ==> E.IsCompleted(after, s))
    && (OwnStep(now) || now == step || !E.IsCompleted(before, now))
  }

  lemma OwnRowIsSteady(before: map<Step, StepStatus>, step: Step, after: map<Step, StepStatus>, now: Step, own: Step)
    requires OwnStep(own) && (OwnStep(now) || now == step) && (after == before || after == before[own := STEP_FAILED])
    ensures Steady(before, step, after, now)
  {
  }

  lemma SteadyLosesNothing(before: map<Step, StepStatus>, after: map<Step, StepStatus>, step: Step, now: Step)
    requires Steady(before, step, after, now)
    ensures LosesStageOnly(before, step, after, false)
  {
  }

  lemma StaysInPlace(before: seq<H.Event>, after: seq<H.Event>)
    requires H.ReopenedInPlace(before) && before <= after
    requires forall k :: |before| <= k < |after| ==> !after[k].Reopened?
    ensures H.ReopenedInPlace(after) && H.EndsWhenFailed(after)
  {
    forall k | 0 <= k < |after| && after[k].Reopened? ensures after[k].status == PROVISIONING {
      assert k < |before| && after[k] == before[k];
    }
  }

  ghost predicate HasCreated(log: seq<Event>) {
    exists k :: 0 <= k < |log| && log[k].Created?
  }

  /** Provisioning succeeds only with a certificate. Every node creation comes after a
      successful provisioning, unless that was bypassed, and after no other creation;
      only the created node is read as connected, and every DNS change comes right
      after such a read. */
  ghost predicate EventGated(log: seq<Event>, k: nat, bypassed: bool)
    requires k < |log|
  {
    && (log[k].Provisioned? ==> CertificateReady in log[..k])
    && (log[k].Created? ==> (Provisioned in log[..k] || bypassed) && !HasCreated(log[..k]))
    && (log[k].ReadConnected? ==> Created(log[k].uuid) in log[..k])
    && (log[k].AddingIP? ==> k > 0 && log[k - 1].ReadConnected?)
  }

  /** Nothing was done yet. */
  ghost predicate OnlyReads(log: seq<Event>) {
    forall k :: 0 <= k < |log| ==> log[k].HostsRead? || log[k].NodesRead?
  }

  ghost predicate LogGated(log: seq<Event>, bypassed: bool) {
    forall k :: 0 <= k < |log| ==> EventGated(log, k, bypassed)
  }

  lemma BypassingKeepsGated(log: seq<Event>, bypassed: bool)
    requires LogGated(log, bypassed)
    ensures LogGated(log, true)
  {
    forall k | 0 <= k < |log| ensures EventGated(log, k, true) {
      assert EventGated(log, k, bypassed);
    }
  }

  /** The panel holds at most one node of the deployment, only if the deployment
      created it, and the stored UUID is that node's. */
  ghost predicate PanelGated(ours: set<string>, uuid: Option<string>, log: seq<Event>) {
    && (forall u, v :: u in ours && v in ours ==> u == v)
    && (HasCreated(log) <==> ours != {})
    && (uuid.Some? ==> uuid.value in ours)
    && (forall u :: u in ours ==> Created(u) in log)
  }

  lemma LogSnoc(log: seq<Event>, e: Event, bypassed: bool)
    requires LogGated(log, bypassed)
    requires e.Provisioned? ==> CertificateReady in log
    requires e.Created? ==> (Provisioned in log || bypassed) && !HasCreated(log)
    requires e.ReadConnected? ==> Created(e.uuid) in log
    requires e.AddingIP? ==> log != [] && log[|log| - 1].ReadConnected?
    ensures LogGated(log + [e], bypassed)
    ensures HasCreated(log + [e]) <==> HasCreated(log) || e.Created?
    ensures forall other :: other in log + [e] <==> other in log || other == e
  {
    var all := log + [e];
    assert all[..|log|] == log;
    forall k | 0 <= k < |all| ensures EventGated(all, k, bypassed) {
      if k < |log| {
        assert EventGated(log, k, bypassed) && all[..k] == log[..k];
      }
    }
    assert all[|log|] == e;
    assert forall k :: 0 <= k < |log| ==> all[k] == log[k];
  }

  /** The panel does not care which events other than creations are added. */
  lemma PanelSnoc(ours: set<string>, uuid: Option<string>, log: seq<Event>, e: Event)
    requires PanelGated(ours, uuid, log) && !e.Created?
    ensures PanelGated(ours, uuid, log + [e])
  {
    var all := log + [e];
    assert all[|log|] == e;
    assert forall k :: 0 <= k < |log| ==> all[k] == log[k];
  }

  /** With different UUIDs, one UUID is one node. */
  lemma OneUUIDOneNode(nodes: seq<PanelNode>, name: string, ip: Addr)
    requires UniqueUUIDs(nodes)
    requires forall u, v :: u in OurUUIDs(nodes, name, ip) && v in OurUUIDs(nodes, name, ip) ==> u == v
    ensures AtMostOne(nodes, name, ip)
  {
    forall i, j | 0 <= i < |nodes| && 0 <= j < |nodes| && Ours(nodes[i], name, ip) && Ours(nodes[j], name, ip)
      ensures i == j
    {
      assert nodes[i].uuid in OurUUIDs(nodes, name, ip) && nodes[j].uuid in OurUUIDs(nodes, name, ip);
    }
  }

  lemma FirstOurs(nodes: seq<PanelNode>, n: PanelNode, name: string, ip: Addr, uuid: Option<string>, log: seq<Event>)
    requires PanelGated(OurUUIDs(nodes, name, ip), uuid, log) && UniqueUUIDs(nodes)
    requires forall m :: m in nodes ==> !Ours(m, name, ip)
    requires Ours(n, name, ip) && forall m :: m in nodes ==> m.uuid != n.uuid
    ensures UniqueUUIDs(nodes + [n]) && OurUUIDs(nodes + [n], name, ip) == {n.uuid}
    ensures PanelGated({n.uuid}, uuid, log + [Created(n.uuid)])
    ensures !HasCreated(log) && uuid.None?
  {
    assert OurUUIDs(nodes, name, ip) == {};
    assert n in nodes + [n];
    assert (log + [Created(n.uuid)])[|log|].Created?;
  }

  lemma StagesAreNotOwn(s: Step)
    ensures s in E.StageNames <==> !OwnStep(s)
  {
    if !OwnStep(s) {
      var i := match s
        case SystemStage => 0 case DockerStage => 1 case SysctlStage => 2 case LimitsStage => 3
        case FirewallStage => 4 case Fail2banStage => 5 case RemnanodeStage => 6 case NodeExporterStage => 7
        case SpeedtestExporterStage => 8 case LogrotateStage => 9 case XraySNIStage => 10 case HealthcheckStage => 11
        case _ => 0;
      assert E.StageNames[i] == s;
    }
  }

  class DeploymentService {
    const process: P.Process
    const repo: Repository
    const engine: E.Engine
    const dns: ZC.Client
    const dnsDisabled: bool
    /** The immutable columns of the deployment row. */
    const input: StartInput
    const sni: string

    /** The row has been created. */
    var created: bool
    // The panel.
    var nodes: seq<PanelNode>
    var hosts: seq<Host>
    ghost var log: seq<Event>
    ghost var bypassed: bool

    ghost predicate Wired()
    {
      && repo.process == process && dns.process == process
      && engine.repo == repo && (forall s :: s in engine.stages <==> !OwnStep(s))
    }

    ghost predicate InZone()
      reads dns`zones
    {
      dnsDisabled || (ZC.Target(sni) in dns.zones && Z.Contains(dns.zones[ZC.Target(sni)], input.ip))
    }

    /** The panel's nodes with the deployment's name and address. */
    function OurIDs(): set<string>
      reads this`nodes
    {
      OurUUIDs(nodes, input.name, input.ip)
    }

    ghost predicate RowValid()
      reads this`log, this`bypassed, this`created, repo`status, repo`step, repo`uuid
    {
      && Gated(repo.status, repo.step, repo.uuid, log, bypassed) && LogGated(log, bypassed) && StepFits(repo.status, repo.step)
      && (bypassed ==> Past(repo.status, repo.step) && Provisioned !in log)
      && (!created ==> repo.status == CREATED && repo.step == CreatedStep && repo.uuid == None && OnlyReads(log))
    }

    ghost predicate PanelValid()
      reads this`nodes, this`log, this`created, repo`uuid
    {
      UniqueUUIDs(nodes) && (created ==> PanelGated(OurIDs(), repo.uuid, log))
    }

    /** A completed stage was reopened only while the deployment stayed at PROVISIONING. */
    ghost predicate InPlace()
      reads engine`log
    {
      H.ReopenedInPlace(engine.log) && H.EndsWhenFailed(engine.log)
    }

    /** Nothing has happened that keeps the server from being provisioned. */
    ghost predicate Free()
      reads this`bypassed, engine`log
    {
      InPlace() && !bypassed
    }

    ghost predicate HistoryValid()
      reads engine`log, repo`status, repo`step, repo`steps
    {
      && H.EndsWhenFailed(engine.log)
      && (InPlace() || (Past(repo.status, repo.step) && (OwnStep(repo.step) || !E.IsCompleted(repo.steps, repo.step))))
    }

    ghost predicate Valid()
      reads this, repo, engine, dns
    {
      && Wired() && engine.Valid() && dns.Valid() && RowValid() && PanelValid() && HistoryValid()
      && (repo.status == COMPLETED ==> InZone())
    }

    constructor (process: P.Process, repo: Repository, engine: E.Engine, dns: ZC.Client, dnsDisabled: bool, input: StartInput, sni: string)
      requires repo.process == process && dns.process == process && engine.repo == repo && engine.stages == E.StageNames
      requires repo.status == CREATED && repo.step == CreatedStep && repo.uuid == None
      requires engine.Valid() && dns.Valid() && engine.log == []
      ensures Valid() && !created && log == [] && !bypassed && fresh(this)
      ensures this.process == process && this.repo == repo && this.engine == engine && this.dns == dns
      ensures this.dnsDisabled == dnsDisabled && this.input == input && this.sni == sni
    {
      forall s ensures s in E.StageNames <==> !OwnStep(s) {
        StagesAreNotOwn(s);
      }
      this.process, this.repo, this.engine, this.dns := process, repo, engine, dns;
      this.dnsDisabled, this.input, this.sni := dnsDisabled, input, sni;
      created, nodes, hosts, log, bypassed := false, [], [], [], false;
    }

    // ---- The world ----

    /** Hosts, zones and nodes change, but nobody else makes, removes, renames or
        readdresses a node of this deployment or takes its address out of the zone. */
    method Environment()
      requires Valid()
      modifies this`nodes, this`hosts, dns`zones
      ensures Valid()
      ensures created ==> OurIDs() == old(OurIDs())
      ensures old(InZone()) ==> InZone()
    {
      var newHosts: seq<Host> := *;
      hosts := newHosts;
      PanelChanges();
      ZonesChange();
    }

    method PanelChanges()
      requires Valid()
      modifies this`nodes
      ensures Valid()
      ensures created ==> OurIDs() == old(OurIDs())
    {
      var newNodes: seq<PanelNode> := *;
      if UniqueUUIDs(newNodes) && (created ==> OurUUIDs(newNodes, input.name, input.ip) == OurIDs()) {
        nodes := newNodes;
      }
    }

    method ZonesChange()
      requires Valid()
      modifies dns`zones
      ensures Valid() && (old(InZone()) ==> InZone())
    {
      var newZones: Z.Config := *;
      var target := ZC.Target(sni);
      if newZones.Keys == dns.zones.Keys
         && (target in newZones && Z.Contains(dns.zones[target], input.ip) ==> Z.Contains(newZones[target], input.ip)) {
        dns.zones := newZones;
      }
    }

    /** One more event, but for those that need a node. */
    ghost method Note(e: Event)
      requires Valid()
      requires e.HostsRead? || e.NodesRead? || (created && (e.ReadOther? || e.CertificateReady? || (e.Provisioned? && CertificateReady in log && !bypassed)))
      modifies this`log
      ensures Valid() && log == old(log) + [e]
    {
      LogSnoc(log, e, bypassed);
      if created {
        PanelSnoc(OurIDs(), repo.uuid, log, e);
      }
      log := log + [e];
    }

    method GetNodes() returns (r: Option<seq<PanelNode>>)
      requires Valid()
      modifies this`nodes, this`hosts, this`log, dns`zones, process
      ensures Valid() && (process.alive ==> old(process.alive)) && old(process.failures) <= process.failures
      ensures if r.Some? then r.value == nodes && log == old(log) + [NodesRead(nodes)] else log == old(log)
      ensures r.None? ==> old(process.failures) < process.failures
      ensures created ==> OurIDs() == old(OurIDs())
      ensures r.Some? ==> process.failures == old(process.failures)
    {
      Environment();
      var ok := Call();
      if !ok {
        return None;
      }
      Note(NodesRead(nodes));
      return Some(nodes);
    }

    method GetNode(uuid: string) returns (r: Option<PanelNode>)
      requires Valid() && created && repo.uuid == Some(uuid)
      modifies this`nodes, this`hosts, this`log, dns`zones, process
      ensures Valid() && (process.alive ==> old(process.alive)) && old(process.failures) <= process.failures
      ensures r.Some? ==> r.value in nodes && r.value.uuid == uuid
      ensures log == old(log) + NodeSeen(r, uuid)
      ensures r.None? ==> old(process.failures) < process.failures
      ensures r.Some? ==> process.failures == old(process.failures)
    {
      Environment();
      var ok := Call();
      if !ok {
        return None;
      }
      assert uuid in OurIDs();
      r := FindNode(nodes, uuid);
      if r.value.connected {
        LogSnoc(log, ReadConnected(uuid), bypassed);
        PanelSnoc(OurIDs(), repo.uuid, log, ReadConnected(uuid));
        log := log + [ReadConnected(uuid)];
      } else {
        Note(ReadOther(uuid, r.value.connecting));
      }
    }

    /** The panel's client checks for duplicates itself before it creates a node. */
    method CreateNode() returns (r: Option<PanelNode>)
      requires Valid() && created && (Provisioned in log || bypassed)
      modifies this`nodes, this`hosts, this`log, dns`zones, process
      ensures Valid() && (process.alive ==> old(process.alive)) && old(process.failures) <= process.failures
      ensures Provisioned in log <==> Provisioned in old(log)
      ensures r.None? ==> IsBlamed(CreationFailed, old(process.failures))
      ensures Extends(old(log), log)
      ensures r.Some? ==>
                r.value.uuid in OurIDs() && AddedLast(nodes, r.value, input.name, input.ip)
      ensures r.Some? ==> process.failures == old(process.failures)
    {
      var listed := GetNodes();
      if listed.None? || !NoDuplicates(listed.value, input.name, input.ip) {
        return None;
      }
      r := PostNode();
    }

    /** The request itself; the panel chooses a UUID that is new. */
    method PostNode() returns (r: Option<PanelNode>)
      requires Valid() && created && (Provisioned in log || bypassed) && NoDuplicates(nodes, input.name, input.ip)
      modifies this`nodes, this`log, process
      ensures Valid() && (process.alive ==> old(process.alive)) && old(process.failures) <= process.failures
      ensures Provisioned in log <==> Provisioned in old(log)
      ensures r.None? ==> old(process.failures) < process.failures && nodes == old(nodes) && log == old(log)
      ensures r.Some? ==> log == old(log) + [Created(r.value.uuid)]
      ensures r.Some? ==> !r.value.mapped && !r.value.connected
      ensures r.Some? ==> r.value.uuid in OurIDs() && AddedLast(nodes, r.value, input.name, input.ip)
      ensures r.Some? ==> process.failures == old(process.failures)
    {
      r := None;
      var ok := process.Attempt();
      var uuid: string := *;
      if ok && forall n | n in nodes :: n.uuid != uuid {
        var connecting: bool := *;
        r := Some(PanelNode(uuid, input.name, Some(input.ip), false, false, connecting));
        AddNode(r.value);
      } else if ok {
        process.Refused();
      }
    }

    /** The new node, on the panel and in the history. */
    method AddNode(node: PanelNode)
      requires Valid() && created && (Provisioned in log || bypassed)
      requires Ours(node, input.name, input.ip) && NoDuplicates(nodes, input.name, input.ip)
      requires forall n :: n in nodes ==> n.uuid != node.uuid
      modifies this`nodes, this`log
      ensures Valid() && nodes == old(nodes) + [node] && log == old(log) + [Created(node.uuid)]
      ensures node.uuid in OurIDs() && AddedLast(nodes, node, input.name, input.ip)
    {
      NoDuplicateIsOurs(nodes, input.name, input.ip);
      FirstOurs(nodes, node, input.name, input.ip, repo.uuid, log);
      LogSnoc(log, Created(node.uuid), bypassed);
      nodes, log := nodes + [node], log + [Created(node.uuid)];
      assert nodes[..|nodes| - 1] == old(nodes);
    }

    // ---- Persisted transitions ----

    /** Whether ctx is cancelled where the code looks. */
    method IsCancelled() returns (cancelled: bool)
      requires Valid()
      modifies process
      ensures Valid() && process.alive == old(process.alive)
      ensures process.failures == old(process.failures) + if cancelled then 1 else 0
    {
      cancelled := process.Cancelled();
    }

    /** One external call that changes nothing here. */
    method Call() returns (ok: bool)
      requires Valid()
      modifies process
      ensures Valid() && (process.alive ==> old(process.alive))
      ensures process.failures == old(process.failures) + if ok then 0 else 1
    {
      ok := process.Attempt();
    }

    method GetDeployment() returns (ok: bool)
      requires Valid()
      modifies process
      ensures Valid() && old(process.failures) <= process.failures
      ensures ok ==> created
      ensures !ok ==> old(process.failures) < process.failures
      ensures process.alive ==> old(process.alive)
      ensures old(process.failures) <= process.failures
      ensures ok ==> process.failures == old(process.failures)
    {
      ok := process.Attempt();
      if ok && !created {
        process.Refused();
        ok := false;
      }
    }

    method SetState(status: Status, step: Step) returns (ok: bool)
      requires Valid() && created && Gated(status, step, repo.uuid, log, bypassed) && StepFits(status, step)
      requires Free() || Past(status, step)
      requires OwnStep(step) || step == repo.step
      requires status == COMPLETED ==> InZone()
      modifies repo`status, repo`step, process
      ensures Valid() && (process.alive ==> old(process.alive)) && old(process.failures) <= process.failures
      ensures if ok then repo.status == status && repo.step == step
              else repo.status == old(repo.status) && repo.step == old(repo.step)
      ensures !ok ==> old(process.failures) < process.failures
      ensures ok ==> process.failures == old(process.failures)
    {
      var cancelled := IsCancelled();
      if cancelled {
        return false;
      }
      ok := UpdateState(status, step);
    }

    method RecordStep(step: Step, status: StepStatus) returns (ok: bool)
      requires Valid() && created && OwnStep(step)
      requires status == RUNNING ==> Gated(repo.status, step, repo.uuid, log, bypassed) && StepFits(repo.status, step)
      requires Free() || Past(repo.status, step)
      modifies repo`steps, repo`step, process
      ensures Valid() && (process.alive ==> old(process.alive)) && old(process.failures) <= process.failures
      ensures repo.step == if ok && status == RUNNING then step else old(repo.step)
      ensures repo.steps == if ok then old(repo.steps)[step := status] else old(repo.steps)
      ensures !ok ==> old(process.failures) < process.failures
      ensures ok ==> process.failures == old(process.failures)
    {
      var cancelled := IsCancelled();
      if cancelled {
        return false;
      }
      ok := repo.RecordDeploymentStep(step, status);
    }

    method BeginStage(status: Status, step: Step) returns (ok: bool)
      requires Valid() && created && Gated(status, step, repo.uuid, log, bypassed) && OwnStep(step) && status != COMPLETED
      requires StepFits(status, step) && (Free() || Past(status, step))
      modifies repo`status, repo`step, repo`steps, process
      ensures Valid() && (process.alive ==> old(process.alive)) && old(process.failures) <= process.failures
      ensures OwnStep(repo.step) || repo.step == old(repo.step)
      ensures Past(status, step) ==> MovesOn(old(repo.status), old(repo.step), repo.status, repo.step)
      ensures ok ==> repo.status == status && repo.step == step
      ensures !ok ==> old(process.failures) < process.failures
      ensures ok ==> RowsOf(repo.steps) == Put(old(RowsOf(repo.steps)), step, RUNNING)
      ensures ok ==> process.failures == old(process.failures)
    {
      var stored := SetState(status, step);
      if !stored {
        return false;
      }
      ok := RecordStep(step, RUNNING);
      RowsPut(old(repo.steps), step, RUNNING);
    }

    /** failStage with a step of the workflow: both writes are tried. */
    method FailStage(step: Step, status: Status, error: Error, ghost start: nat) returns (r: Outcome)
      requires Valid() && created && Gated(status, step, repo.uuid, log, bypassed) && status != COMPLETED
      requires StepFits(status, step) && OwnStep(step) && (Free() || Past(status, step))
      requires StoredAs(error, status, step) && start <= process.failures && IsBlamed(error, start)
      modifies repo`status, repo`step, repo`steps, process
      ensures Valid() && (process.alive ==> old(process.alive)) && old(process.failures) <= process.failures
      ensures r.Err?
      ensures OwnStep(repo.step) || repo.step == old(repo.step)
      ensures Past(status, step) ==> MovesOn(old(repo.status), old(repo.step), repo.status, repo.step)
      ensures if r.error == error
              then repo.status == status && repo.step == step && E.Row(repo.steps, step) == Some(STEP_FAILED)
              else (r.error == Interrupted || r.error == Persistence) && old(process.failures) < process.failures
      ensures Says(r, start)
      ensures repo.steps == old(repo.steps) || repo.steps == old(repo.steps)[step := STEP_FAILED]
    {
      assert error != Interrupted && error != Persistence;
      ghost var wrote, updated;
      r, wrote, updated := FailOwnStage(step, status, error);
    }

    /** The two writes: `wrote` and `updated` say which of them went through. */
    method FailOwnStage(step: Step, status: Status, error: Error) returns (r: Outcome, ghost wrote: bool, ghost updated: bool)
      requires Valid() && created && Gated(status, step, repo.uuid, log, bypassed) && status != COMPLETED
      requires StepFits(status, step) && OwnStep(step) && (Free() || Past(status, step)) && error != Interrupted && error != Persistence
      modifies repo`status, repo`step, repo`steps, process
      ensures Valid() && (process.alive ==> old(process.alive)) && old(process.failures) <= process.failures
      ensures repo.steps == if wrote then old(repo.steps)[step := STEP_FAILED] else old(repo.steps)
      ensures repo.status == if updated then status else old(repo.status)
      ensures repo.step == if updated then step else old(repo.step)
      ensures r.Err?
      ensures if wrote && updated then r.error == error else r.error == Interrupted || r.error == Persistence
      ensures (wrote && updated) || old(process.failures) < process.failures
    {
      r, wrote, updated := Err(Interrupted), false, false;
      var cancelled := IsCancelled();
      if !cancelled {
        var recorded, stored := WriteFailure(step, status);
        r := Err(if recorded && stored then error else Persistence);
        wrote, updated := recorded, stored;
      }
    }

    method WriteFailure(step: Step, status: Status) returns (recorded: bool, stored: bool)
      requires Valid() && created && Gated(status, step, repo.uuid, log, bypassed) && status != COMPLETED
      requires StepFits(status, step) && OwnStep(step) && (Free() || Past(status, step))
      modifies repo`status, repo`step, repo`steps, process
      ensures Valid() && (process.alive ==> old(process.alive)) && old(process.failures) <= process.failures
      ensures (recorded && stored) || old(process.failures) < process.failures
      ensures repo.steps == if recorded then old(repo.steps)[step := STEP_FAILED] else old(repo.steps)
      ensures repo.status == if stored then status else old(repo.status)
      ensures repo.step == if stored then step else old(repo.step)
    {
      recorded := RecordFailure(step);
      stored := UpdateState(status, step);
    }

    method RecordFailure(step: Step) returns (ok: bool)
      requires Valid() && created && OwnStep(step)
      modifies repo`steps, repo`step, process
      ensures Valid() && (process.alive ==> old(process.alive)) && old(process.failures) <= process.failures && repo.step == old(repo.step)
      ensures repo.steps == if ok then old(repo.steps)[step := STEP_FAILED] else old(repo.steps)
      ensures !ok ==> old(process.failures) < process.failures
    {
      ok := repo.RecordDeploymentStep(step, STEP_FAILED);
    }

    /** failStage with the current step, which may be a provisioning stage, and even a
        completed one: that record is the one that is lost. */
    method FailCurrentStep(error: Error) returns (r: Outcome, ghost wrote: bool, ghost updated: bool)
      requires Valid() && created && Resumable(repo.status)
      requires error != Interrupted && error != Persistence
      modifies repo`status, repo`step, repo`steps, engine`log, process
      ensures Valid() && (process.alive ==> old(process.alive)) && old(process.failures) <= process.failures
      ensures r.Err? && repo.step == old(repo.step)
      ensures repo.status == if updated then FAILED else old(repo.status)
      ensures repo.steps == if wrote then old(repo.steps)[repo.step := STEP_FAILED] else old(repo.steps)
      ensures if wrote && updated then r.error == error else r.error == Interrupted || r.error == Persistence
      ensures E.LosesCurrentOnly(old(repo.steps), old(repo.step), repo.steps, wrote)
      ensures H.OnlyReopened(old(engine.log), engine.log)
      ensures (wrote && updated) || old(process.failures) < process.failures
    {
      ghost var before := repo.steps;
      if OwnStep(repo.step) {
        r, wrote, updated := FailOwnCurrent(error);
      } else {
        r, wrote, updated := FailProvisioningStage(error);
      }
      E.LosingCurrent(before, repo.step, wrote);
    }

    method FailOwnCurrent(error: Error) returns (r: Outcome, ghost wrote: bool, ghost updated: bool)
      requires Valid() && created && Resumable(repo.status) && OwnStep(repo.step)
      requires error != Interrupted && error != Persistence
      modifies repo`status, repo`step, repo`steps, process
      ensures Valid() && (process.alive ==> old(process.alive)) && old(process.failures) <= process.failures
      ensures r.Err? && repo.step == old(repo.step)
      ensures repo.status == if updated then FAILED else old(repo.status)
      ensures repo.steps == if wrote then old(repo.steps)[repo.step := STEP_FAILED] else old(repo.steps)
      ensures if wrote && updated then r.error == error else r.error == Interrupted || r.error == Persistence
      ensures (wrote && updated) || old(process.failures) < process.failures
    {
      if Past(repo.status, repo.step) {
        PastStays(repo.status, repo.step);
      }
      r, wrote, updated := FailOwnStage(repo.step, FAILED, error);
    }

    method FailProvisioningStage(error: Error) returns (r: Outcome, ghost wrote: bool, ghost updated: bool)
      requires Valid() && created && Resumable(repo.status) && !OwnStep(repo.step)
      requires error != Interrupted && error != Persistence
      modifies repo`status, repo`step, repo`steps, engine`log, process
      ensures Valid() && (process.alive ==> old(process.alive)) && old(process.failures) <= process.failures
      ensures r.Err? && repo.step == old(repo.step)
      ensures repo.status == if updated then FAILED else old(repo.status)
      ensures repo.steps == if wrote then old(repo.steps)[repo.step := STEP_FAILED] else old(repo.steps)
      ensures if wrote && updated then r.error == error else r.error == Interrupted || r.error == Persistence
      ensures H.OnlyReopened(old(engine.log), engine.log)
      ensures (wrote && updated) || old(process.failures) < process.failures
    {
      r, wrote, updated := Err(Interrupted), false, false;
      var cancelled := IsCancelled();
      if !cancelled {
        var recorded, stored := WriteStageFailure();
        r := Err(if recorded && stored then error else Persistence);
        wrote, updated := recorded, stored;
      }
    }

    /** Both writes, and what they mean for the history of the stage. */
    method WriteStageFailure() returns (recorded: bool, stored: bool)
      requires Valid() && created && Resumable(repo.status) && !OwnStep(repo.step)
      modifies repo`status, repo`step, repo`steps, engine`log, process
      ensures Valid() && (process.alive ==> old(process.alive)) && old(process.failures) <= process.failures
      ensures repo.step == old(repo.step)
      ensures repo.status == if stored then FAILED else old(repo.status)
      ensures repo.steps == if recorded then old(repo.steps)[repo.step := STEP_FAILED] else old(repo.steps)
      ensures H.OnlyReopened(old(engine.log), engine.log)
      ensures (recorded && stored) || old(process.failures) < process.failures
    {
      ghost var step, steps, history := repo.step, repo.steps, engine.log;
      recorded, stored := WriteBoth(repo.step);
      E.StageFails(engine.stages, steps, step, recorded, history, repo.status);
      engine.log := E.AfterFailure(history, steps, step, recorded, repo.status);
    }

    method WriteBoth(step: Step) returns (recorded: bool, stored: bool)
      modifies repo`status, repo`step, repo`steps, repo.process
      ensures repo.process.alive ==> old(repo.process.alive)
      ensures old(repo.process.failures) + (if recorded && stored then 0 else 1) <= repo.process.failures
      ensures repo.steps == if recorded then old(repo.steps)[step := STEP_FAILED] else old(repo.steps)
      ensures repo.status == if stored then FAILED else old(repo.status)
      ensures repo.step == if stored then step else old(repo.step)
    {
      recorded := repo.RecordDeploymentStep(step, STEP_FAILED);
      stored := repo.UpdateDeploymentState(FAILED, step);
    }

    method UpdateState(status: Status, step: Step) returns (ok: bool)
      requires Valid() && created && Gated(status, step, repo.uuid, log, bypassed) && StepFits(status, step)
      requires Free() || Past(status, step)
      requires OwnStep(step) || step == repo.step
      requires status == COMPLETED ==> InZone()
      modifies repo`status, repo`step, process
      ensures Valid() && (process.alive ==> old(process.alive)) && old(process.failures) <= process.failures
      ensures if ok then repo.status == status && repo.step == step
              else repo.status == old(repo.status) && repo.step == old(repo.step)
      ensures !ok ==> old(process.failures) < process.failures
      ensures ok ==> process.failures == old(process.failures)
    {
      ok := repo.UpdateDeploymentState(status, step);
    }

    /** What a Deploy that starts from the row has to find on the panel. */
    ghost function Wants(): Wanted
      reads repo`status, repo`uuid
    {
      Wanted(input, Some(sni), repo.uuid,
             repo.status == CREATING_REMNAWAVE_NODE || repo.status == WAITING_REMNAWAVE || repo.status == ADDING_TO_DNS)
    }

    /** What an operation that began with `before` failures says when it ends. */
    ghost predicate Says(r: Outcome, before: nat)
      reads repo`status, repo`step, repo`steps, process`failures, this`log, engine`desired, dns`zones
    {
      r.Err? ==> Explained(r.error, repo.status, repo.step, repo.steps) && IsBlamed(r.error, before)
    }

    ghost predicate IsBlamed(e: Error, before: nat)
      reads process`failures, this`log, engine`desired, dns`zones
    {
      Blamed(e, input, log, before < process.failures, Unsatisfied(), ZoneRefuses())
    }

    /** Some stage does not find what it is there for. */
    ghost predicate Unsatisfied()
      reads engine`desired
    {
      exists i :: 0 <= i < |engine.desired| && !engine.desired[i]
    }

    /** There is no such zone, or some zone holds text that is no address. */
    ghost predicate ZoneRefuses()
      reads dns`zones
    {
      !Z.AllClean(dns.zones) || ZC.Target(sni) !in dns.zones || Names.NormalizeFQDN(sni) == ""
    }

    lemma SaysSince(r: Outcome, before: nat, mid: nat)
      requires before <= mid && Says(r, mid)
      ensures Says(r, before)
    {
    }

    // ---- The operations ----

    /** The first Host with that UUID, enabled and deployable. */
    ghost predicate Selected(all: seq<Host>, uuid: string, h: Host) {
      !h.disabled && h.sni.Some? && exists i :: 0 <= i < |all| && FirstWith(all, i, uuid) && all[i] == h
    }

    lemma SelectedFits(h: Host, sni: Option<string>)
      requires Selected(hosts, input.host, h)
      ensures HostFits(hosts, input.host, sni) <==> sni.None? || Names.NormalizeFQDN(h.sni.value) == Names.NormalizeFQDN(sni.value)
    {
    }

    method GetHosts() returns (ok: bool)
      requires Valid()
      modifies this`nodes, this`hosts, this`log, dns`zones, process
      ensures Valid() && (process.alive ==> old(process.alive)) && old(process.failures) <= process.failures
      ensures created ==> OurIDs() == old(OurIDs())
      ensures log == if ok then old(log) + [HostsRead(hosts)] else old(log)
      ensures !ok ==> old(process.failures) < process.failures
      ensures ok ==> process.failures == old(process.failures)
    {
      Environment();
      ok := Call();
      if ok {
        Note(HostsRead(hosts));
      }
    }

    method SelectedHost() returns (r: Option<Host>)
      requires Valid()
      modifies this`nodes, this`hosts, this`log, dns`zones, process
      ensures Valid() && (process.alive ==> old(process.alive)) && old(process.failures) <= process.failures
      ensures r.Some? ==> r.value in hosts && r.value.uuid == input.host && !r.value.disabled && r.value.sni.Some?
      ensures created ==> OurIDs() == old(OurIDs())
      ensures log == old(log) || log == old(log) + [HostsRead(hosts)]
      ensures r.Some? ==> log == old(log) + [HostsRead(hosts)] && Selected(hosts, input.host, r.value)
      ensures r.None? ==> if log == old(log) then old(process.failures) < process.failures else !HostFits(hosts, input.host, None)
      ensures r.Some? ==> process.failures == old(process.failures)
    {
      r := None;
      var ok := GetHosts();
      if ok {
        r := SelectHost(hosts, input.host);
      }
    }

    /** Creates the deployment row and runs preflight. */
    method Prepare() returns (r: Outcome)
      requires Valid() && !created
      modifies this`created, this`nodes, this`hosts, this`log, repo`status, repo`step, repo`steps, dns`zones, process
      ensures Valid() && (process.alive ==> old(process.alive)) && old(process.failures) <= process.failures
      ensures r.Ok? ==> created && repo.status == PREFLIGHT && repo.step == PreflightStep
      ensures created ==> forall n :: n in nodes ==> !NameMatches(n, input.name) && !AddressMatches(n, input.ip)
      ensures OwnStep(repo.step)
      ensures Vetted(old(log), log, Wanted(input, None, None, false)) && (created ==> Passed(old(log), log, Wanted(input, None, None, false)))
      ensures r.Err? ==> old(process.failures) < process.failures || Refuted(old(log), log, Wanted(input, None, None, false))
      ensures created ==> Says(r, old(process.failures))
      ensures r.Ok? ==> process.failures == old(process.failures)
      ensures r.Ok? ==> E.Row(repo.steps, PreflightStep) == Some(STEP_COMPLETED)
    {
      var host := SelectedHost();
      if host.None? {
        if log != old(log) {
          assert !HostFits(hosts, input.host, None);
        }
        return Err(HostUnavailable);
      }
      SelectedFits(host.value, None);
      r := Insert();
      if r.Ok? {
        r := Preflight();
      }
    }

    /** The deployment is created only where no node shares its name or address. */
    method Insert() returns (r: Outcome)
      requires Valid() && !created
      modifies this`created, this`nodes, this`hosts, this`log, dns`zones, process
      ensures Valid() && (process.alive ==> old(process.alive)) && old(process.failures) <= process.failures
      ensures created <==> r.Ok?
      ensures created ==> forall n :: n in nodes ==> !NameMatches(n, input.name) && !AddressMatches(n, input.ip)
      ensures log == old(log) || log == old(log) + [NodesRead(nodes)]
      ensures created ==> log == old(log) + [NodesRead(nodes)] && NodesFit(nodes, input.name, input.ip, None, false)
      ensures r.Err? ==> old(process.failures) < process.failures || (log == old(log) + [NodesRead(nodes)] && !NodesFit(nodes, input.name, input.ip, None, false))
      ensures r.Ok? ==> process.failures == old(process.failures)
    {
      var listed := GetNodes();
      if listed.None? {
        return Err(CreationFailed);
      }
      var check := CheckUnique(listed.value, input.name, input.ip, None, false);
      if !check.Unique? {
        return Err(DuplicateNode);
      }
      var inserted := Call();
      if !inserted {
        return Err(Persistence);
      }
      assert forall n :: n in nodes ==> !Ours(n, input.name, input.ip);
      created := true;
      return Ok(());
    }

    method Preflight() returns (r: Outcome)
      requires Valid() && created && Free()
      modifies repo`status, repo`step, repo`steps, process
      ensures Valid() && (process.alive ==> old(process.alive)) && old(process.failures) <= process.failures
      ensures OwnStep(repo.step) || repo.step == old(repo.step)
      ensures r.Ok? ==> repo.status == PREFLIGHT && repo.step == PreflightStep
      ensures (r.Err? ==> old(process.failures) < process.failures) && Says(r, old(process.failures))
      ensures r.Ok? ==> process.failures == old(process.failures)
      ensures r.Ok? ==> E.Row(repo.steps, PreflightStep) == Some(STEP_COMPLETED)
    {
      var begun := BeginStage(PREFLIGHT, PreflightStep);
      if !begun {
        return Err(Persistence);
      }
      r := CheckServer();
    }

    /** The preflight checks on the server. */
    method CheckServer() returns (r: Outcome)
      requires Valid() && created && Free() && repo.status == PREFLIGHT && repo.step == PreflightStep
      modifies repo`status, repo`step, repo`steps, process
      ensures Valid() && (process.alive ==> old(process.alive)) && old(process.failures) <= process.failures
      ensures OwnStep(repo.step)
      ensures r.Ok? ==> repo.status == PREFLIGHT && repo.step == PreflightStep
      ensures (r.Err? ==> old(process.failures) < process.failures) && Says(r, old(process.failures))
      ensures r.Ok? ==> process.failures == old(process.failures)
      ensures r.Ok? ==> E.Row(repo.steps, PreflightStep) == Some(STEP_COMPLETED)
    {
      var connected := Call();
      var cancelled := IsCancelled();
      if cancelled {
        return Err(Interrupted);
      }
      var passed: bool := *;
      if connected && !passed {
        process.Refused();
      }
      if !connected || !passed {
        r := FailStage(PreflightStep, FAILED, PreflightFailed, old(process.failures));
        return;
      }
      var completed := RecordStep(PreflightStep, STEP_COMPLETED);
      if !completed {
        return Err(Persistence);
      }
      var loaded := Call();
      if !loaded {
        return Err(Persistence);
      }
      return Ok(());
    }

    /** Deploy up to the node: certificate, key and the provisioning engine. */
    method PrepareAndProvision(status: Status) returns (r: Outcome)
      requires Valid() && created && Free() && status == repo.status
      modifies this`log, repo`status, repo`step, repo`steps, engine`desired, engine`log, process
      ensures Valid() && (process.alive ==> old(process.alive)) && old(process.failures) <= process.failures && InPlace()
      ensures Steady(old(repo.steps), old(repo.step), repo.steps, repo.step)
      ensures r.Ok? ==> repo.status == CREATING_REMNAWAVE_NODE
      ensures Says(r, old(process.failures))
      ensures Extends(old(log), log)
      ensures r.Ok? ==>
                RowsOf(repo.steps) == (if status == PROVISIONING then old(RowsOf(repo.steps)) else old(RowsOf(repo.steps)).(certificate := Some(STEP_COMPLETED)))
                                      .(provisioning := Some(STEP_COMPLETED), creating := Some(RUNNING))
      ensures r.Ok? ==> process.failures == old(process.failures)
    {
      r := PrepareCertificate(status);
      if r.Ok? {
        r := Provision();
      }
    }

    method PrepareCertificate(status: Status) returns (r: Outcome)
      requires Valid() && created && Free()
      modifies this`log, repo`status, repo`step, repo`steps, process
      ensures Valid() && (process.alive ==> old(process.alive)) && old(process.failures) <= process.failures
      ensures OwnStep(repo.step) || repo.step == old(repo.step)
      ensures r.Ok? ==> CertificateReady in log
      ensures Says(r, old(process.failures))
      ensures Extends(old(log), log)
      ensures r.Ok? ==> RowsOf(repo.steps) == if status == PROVISIONING then old(RowsOf(repo.steps)) else old(RowsOf(repo.steps)).(certificate := Some(STEP_COMPLETED))
      ensures r.Ok? ==> process.failures == old(process.failures)
    {
      if status != PROVISIONING {
        var begun := BeginStage(PREPARING_CERTIFICATE, PrepareCertificateStep);
        if !begun {
          return Err(Persistence);
        }
      }
      r := ObtainCertificate();
      if r.Ok? && status != PROVISIONING {
        ghost var rows := repo.steps;
        var completed := RecordStep(PrepareCertificateStep, STEP_COMPLETED);
        RowsPut(rows, PrepareCertificateStep, STEP_COMPLETED);
        if !completed {
          return Err(Persistence);
        }
      }
    }

    method ObtainCertificate() returns (r: Outcome)
      requires Valid() && created && Free()
      modifies this`log, repo`status, repo`step, repo`steps, process
      ensures Valid() && (process.alive ==> old(process.alive)) && old(process.failures) <= process.failures
      ensures OwnStep(repo.step) || repo.step == old(repo.step)
      ensures r.Ok? ==> CertificateReady in log
      ensures Says(r, old(process.failures))
      ensures Extends(old(log), log)
      ensures r.Ok? ==> repo.steps == old(repo.steps)
      ensures r.Ok? ==> process.failures == old(process.failures)
    {
      var prepared := Call();
      var cancelled := IsCancelled();
      if cancelled {
        return Err(Interrupted);
      }
      if !prepared {
        r := FailStage(PrepareCertificateStep, FAILED, CertificateUnavailable, old(process.failures));
        return;
      }
      Note(CertificateReady);
      return Ok(());
    }

    method Provision() returns (r: Outcome)
      requires Valid() && created && Free() && CertificateReady in log
      modifies this`log, repo`status, repo`step, repo`steps, engine`desired, engine`log, process
      ensures Valid() && (process.alive ==> old(process.alive)) && old(process.failures) <= process.failures && InPlace()
      ensures Steady(old(repo.steps), old(repo.step), repo.steps, repo.step)
      ensures r.Ok? ==> repo.status == CREATING_REMNAWAVE_NODE
      ensures Says(r, old(process.failures))
      ensures Extends(old(log), log)
      ensures r.Ok? ==> RowsOf(repo.steps) == old(RowsOf(repo.steps)).(provisioning := Some(STEP_COMPLETED), creating := Some(RUNNING))
      ensures r.Ok? ==> process.failures == old(process.failures)
    {
      var begun := BeginStage(PROVISIONING, ProvisioningStep);
      if !begun {
        return Err(Persistence);
      }
      r := ProvisionWithKey();
    }

    /** The key is the server's, and then vps.Provision is called. */
    method ProvisionWithKey() returns (r: Outcome)
      requires Valid() && created && Free() && CertificateReady in log && repo.status == PROVISIONING
      modifies this`log, repo`status, repo`step, repo`steps, engine`desired, engine`log, process
      ensures Valid() && (process.alive ==> old(process.alive)) && old(process.failures) <= process.failures && InPlace()
      ensures Steady(old(repo.steps), old(repo.step), repo.steps, repo.step)
      ensures r.Ok? ==> repo.status == CREATING_REMNAWAVE_NODE
      ensures Says(r, old(process.failures))
      ensures Extends(old(log), log)
      ensures r.Ok? ==> RowsOf(repo.steps) == old(RowsOf(repo.steps)).(provisioning := Some(STEP_COMPLETED), creating := Some(RUNNING))
      ensures r.Ok? ==> process.failures == old(process.failures)
    {
      var keyed := Call();
      var cancelled := IsCancelled();
      if cancelled {
        return Err(Interrupted);
      }
      if !keyed {
        r := FailStage(ProvisioningStep, FAILED, ProvisioningFailed, old(process.failures));
        return;
      }
      r := ProvisionServer();
    }

    /** vps.Provision and what follows it. */
    method ProvisionServer() returns (r: Outcome)
      requires Valid() && created && Free() && CertificateReady in log && repo.status == PROVISIONING
      modifies this`log, repo`status, repo`step, repo`steps, engine`desired, engine`log, process
      ensures Valid() && (process.alive ==> old(process.alive)) && old(process.failures) <= process.failures && InPlace()
      ensures Steady(old(repo.steps), old(repo.step), repo.steps, repo.step)
      ensures r.Ok? ==> repo.status == CREATING_REMNAWAVE_NODE
      ensures Says(r, old(process.failures))
      ensures Extends(old(log), log)
      ensures FailsWith(r, ProvisioningFailed) ==> old(process.failures) < process.failures || Unsatisfied()
      ensures r.Ok? ==> RowsOf(repo.steps) == old(RowsOf(repo.steps)).(provisioning := Some(STEP_COMPLETED), creating := Some(RUNNING))
      ensures r.Ok? ==> process.failures == old(process.failures)
    {
      var provisioned := RunEngine();
      r := AfterEngine(provisioned, old(process.failures));
    }

    method AfterEngine(provisioned: bool, ghost start: nat) returns (r: Outcome)
      requires Valid() && created && Free() && (provisioned ==> Provisioned in log)
      requires start <= process.failures && (!provisioned ==> IsBlamed(ProvisioningFailed, start))
      modifies repo`status, repo`step, repo`steps, process
      ensures Valid() && (process.alive ==> old(process.alive)) && old(process.failures) <= process.failures
      ensures Steady(old(repo.steps), old(repo.step), repo.steps, repo.step)
      ensures r.Ok? ==> provisioned && repo.status == CREATING_REMNAWAVE_NODE
      ensures Says(r, start)
      ensures r.Ok? ==> RowsOf(repo.steps) == old(RowsOf(repo.steps)).(provisioning := Some(STEP_COMPLETED), creating := Some(RUNNING))
      ensures r.Ok? ==> process.failures == old(process.failures)
    {
      var cancelled := IsCancelled();
      if cancelled {
        r := Err(Interrupted);
      } else if !provisioned {
        ghost var rows, at := repo.steps, repo.step;
        r := FailStage(ProvisioningStep, FAILED, ProvisioningFailed, start);
        OwnRowIsSteady(rows, at, repo.steps, repo.step, ProvisioningStep);
      } else {
        r := FinishProvisioning();
      }
    }

    method FinishProvisioning() returns (r: Outcome)
      requires Valid() && created && Free() && Provisioned in log
      modifies repo`status, repo`step, repo`steps, process
      ensures Valid() && (process.alive ==> old(process.alive)) && old(process.failures) <= process.failures
      ensures MovesOn(old(repo.status), old(repo.step), repo.status, repo.step)
      ensures r.Ok? ==> repo.status == CREATING_REMNAWAVE_NODE
      ensures r.Err? ==> r.error == Persistence && old(process.failures) < process.failures
      ensures r.Ok? ==> RowsOf(repo.steps) == old(RowsOf(repo.steps)).(provisioning := Some(STEP_COMPLETED), creating := Some(RUNNING))
      ensures Steady(old(repo.steps), old(repo.step), repo.steps, repo.step)
      ensures r.Ok? ==> process.failures == old(process.failures)
    {
      ghost var rows := repo.steps;
      var completed := RecordStep(ProvisioningStep, STEP_COMPLETED);
      RowsPut(rows, ProvisioningStep, STEP_COMPLETED);
      if !completed {
        return Err(Persistence);
      }
      var begun := BeginStage(CREATING_REMNAWAVE_NODE, CreateNodeStep);
      return if begun then Ok(()) else Err(Persistence);
    }

    /** Connects and runs the engine; a success is what `Provisioned` stands for. */
    method RunEngine() returns (ok: bool)
      requires Valid() && created && Free() && CertificateReady in log && repo.status == PROVISIONING
      modifies this`log, repo`step, repo`steps, engine`desired, engine`log, process
      ensures Valid() && (process.alive ==> old(process.alive)) && old(process.failures) <= process.failures && InPlace()
      ensures Steady(old(repo.steps), old(repo.step), repo.steps, repo.step)
      ensures ok ==> Provisioned in log && E.Finished(engine.stages, repo.steps, engine.desired)
      ensures Extends(old(log), log)
      ensures !ok ==> old(process.failures) < process.failures || Unsatisfied()
      ensures RowsOf(repo.steps) == old(RowsOf(repo.steps))
      ensures ok ==> process.failures == old(process.failures)
    {
      ok := Call();
      if !ok {
        return;
      }
      var reports;
      assert Names.TrimSpace("deployment") == "deployment";
      ok, reports := engine.Run("deployment");
      StaysInPlace(old(engine.log), engine.log);
      if ok {
        Note(Provisioned);
      }
    }

    method SetNodeUUID(uuid: string) returns (ok: bool)
      requires Valid() && created && (Provisioned in log || bypassed) && uuid in OurIDs()
      modifies repo`uuid, process
      ensures Valid() && (process.alive ==> old(process.alive)) && old(process.failures) <= process.failures
      ensures repo.uuid == if ok then Some(uuid) else old(repo.uuid)
      ensures !ok ==> old(process.failures) < process.failures
      ensures ok ==> process.failures == old(process.failures)
    {
      ok := repo.SetRemnawaveNodeUUID(uuid);
    }

    /** beginStage of the node creation. From MANUAL_REVIEW it is reached without
        provisioning, and then that is bypassed if the server never was. */
    method BeginCreating() returns (ok: bool)
      requires Valid() && created && repo.status == MANUAL_REVIEW
      modifies this`bypassed, repo`status, repo`step, repo`steps, process
      ensures Valid() && (process.alive ==> old(process.alive)) && old(process.failures) <= process.failures
      ensures MovesOn(old(repo.status), old(repo.step), repo.status, repo.step)
      ensures ok ==> Provisioned in log || bypassed
      ensures bypassed != old(bypassed) ==> bypassed && Provisioned !in log
      ensures !ok ==> old(process.failures) < process.failures
      ensures ok ==> RowsOf(repo.steps) == old(RowsOf(repo.steps)).(creating := Some(RUNNING))
      ensures ok ==> process.failures == old(process.failures)
    {
      ok := SetCreating();
      if ok {
        ok := RecordStep(CreateNodeStep, RUNNING);
        RowsPut(old(repo.steps), CreateNodeStep, RUNNING);
      }
    }

    method SetCreating() returns (ok: bool)
      requires Valid() && created && repo.status == MANUAL_REVIEW
      modifies this`bypassed, repo`status, repo`step, process
      ensures Valid() && (process.alive ==> old(process.alive)) && old(process.failures) <= process.failures
      ensures ok ==> repo.status == CREATING_REMNAWAVE_NODE && repo.step == CreateNodeStep && (Provisioned in log || bypassed)
      ensures !ok ==> repo.status == old(repo.status) && repo.step == old(repo.step)
      ensures bypassed != old(bypassed) ==> bypassed && Provisioned !in log
      ensures !ok ==> old(process.failures) < process.failures
      ensures ok ==> process.failures == old(process.failures)
    {
      var cancelled := IsCancelled();
      if cancelled {
        return false;
      }
      ok := repo.UpdateDeploymentState(CREATING_REMNAWAVE_NODE, CreateNodeStep);
      if ok && Provisioned !in log {
        BypassingKeepsGated(log, bypassed);
        bypassed := true;
      }
      assert OwnStep(CreateNodeStep) && CreateNodeStep !in engine.stages;
    }

    /** Adopts the node that an interrupted run created, or creates it. */
    method CreateNodeStage(status: Status, uuid: Option<string>) returns (r: Outcome)
      requires Valid() && created && uuid == repo.uuid && status == repo.status
      requires status == CREATING_REMNAWAVE_NODE || status == MANUAL_REVIEW
      modifies this`nodes, this`hosts, this`log, this`bypassed, repo`status, repo`step, repo`steps, repo`uuid, dns`zones, process
      ensures Valid() && (process.alive ==> old(process.alive)) && old(process.failures) <= process.failures
      ensures MovesOn(old(repo.status), old(repo.step), repo.status, repo.step)
      ensures r.Ok? ==> repo.uuid.Some? && repo.status == WAITING_REMNAWAVE
      ensures bypassed != old(bypassed) ==> bypassed && status == MANUAL_REVIEW && Provisioned !in old(log)
      ensures Says(r, old(process.failures))
      ensures Extends(old(log), log)
      ensures r.Ok? ==> RowsOf(repo.steps) == old(RowsOf(repo.steps)).(creating := Some(STEP_COMPLETED), waiting := Some(RUNNING))
      ensures r.Ok? ==> process.failures == old(process.failures)
    {
      if status != CREATING_REMNAWAVE_NODE {
        var begun := BeginCreating();
        if !begun {
          return Err(Persistence);
        }
      }
      ghost var failed := process.failures;
      r := CreateAndRecord(uuid);
      SaysSince(r, old(process.failures), failed);
    }

    method CreateAndRecord(uuid: Option<string>) returns (r: Outcome)
      requires Valid() && created && uuid == repo.uuid && (Provisioned in log || bypassed)
      modifies this`nodes, this`hosts, this`log, repo`status, repo`step, repo`steps, repo`uuid, dns`zones, process
      ensures Valid() && (process.alive ==> old(process.alive)) && old(process.failures) <= process.failures
      ensures MovesOn(old(repo.status), old(repo.step), repo.status, repo.step)
      ensures r.Ok? ==> repo.uuid.Some? && repo.status == WAITING_REMNAWAVE
      ensures Says(r, old(process.failures))
      ensures Extends(old(log), log)
      ensures r.Ok? ==> RowsOf(repo.steps) == old(RowsOf(repo.steps)).(creating := Some(STEP_COMPLETED), waiting := Some(RUNNING))
      ensures r.Ok? ==> process.failures == old(process.failures)
    {
      if uuid.None? {
        r := AdoptOrCreate();
        if r.Err? {
          return;
        }
      }
      r := FinishCreating();
    }

    method FinishCreating() returns (r: Outcome)
      requires Valid() && created && repo.uuid.Some?
      modifies repo`status, repo`step, repo`steps, process
      ensures Valid() && (process.alive ==> old(process.alive)) && old(process.failures) <= process.failures
      ensures MovesOn(old(repo.status), old(repo.step), repo.status, repo.step)
      ensures r.Err? ==> r.error == Persistence && old(process.failures) < process.failures
      ensures r.Ok? ==> repo.status == WAITING_REMNAWAVE
      ensures r.Ok? ==> RowsOf(repo.steps) == old(RowsOf(repo.steps)).(creating := Some(STEP_COMPLETED), waiting := Some(RUNNING))
      ensures r.Ok? ==> process.failures == old(process.failures)
    {
      ghost var rows := repo.steps;
      var completed := RecordStep(CreateNodeStep, STEP_COMPLETED);
      RowsPut(rows, CreateNodeStep, STEP_COMPLETED);
      if !completed {
        return Err(Persistence);
      }
      var begun := BeginStage(WAITING_REMNAWAVE, WaitNodeStep);
      return if begun then Ok(()) else Err(Persistence);
    }

    method AdoptOrCreate() returns (r: Outcome)
      requires Valid() && created && (Provisioned in log || bypassed)
      modifies this`nodes, this`hosts, this`log, repo`status, repo`step, repo`steps, repo`uuid, dns`zones, process
      ensures Valid() && (process.alive ==> old(process.alive)) && old(process.failures) <= process.failures
      ensures MovesOn(old(repo.status), old(repo.step), repo.status, repo.step)
      ensures r.Ok? ==> repo.uuid.Some?
      ensures Says(r, old(process.failures))
      ensures Extends(old(log), log)
      ensures r.Ok? ==> repo.steps == old(repo.steps)
      ensures r.Ok? ==> process.failures == old(process.failures)
    {
      var listed := GetNodes();
      var cancelled := IsCancelled();
      if cancelled {
        r := Err(Interrupted);
      } else if listed.None? {
        r := FailCreating(CreationFailed, old(process.failures));
      } else {
        r := AdoptOrCreateAmong(listed.value);
      }
    }

    method AdoptOrCreateAmong(listed: seq<PanelNode>) returns (r: Outcome)
      requires Valid() && created && (Provisioned in log || bypassed) && log != [] && log[|log| - 1] == NodesRead(listed) && listed == nodes
      modifies this`nodes, this`hosts, this`log, repo`status, repo`step, repo`steps, repo`uuid, dns`zones, process
      ensures Valid() && (process.alive ==> old(process.alive)) && old(process.failures) <= process.failures
      ensures MovesOn(old(repo.status), old(repo.step), repo.status, repo.step)
      ensures r.Ok? ==> repo.uuid.Some?
      ensures Says(r, old(process.failures))
      ensures Extends(old(log), log)
      ensures FailsWith(r, DuplicateNode) ==> Duplicated(listed, input.name, input.ip)
      ensures r.Ok? ==> repo.steps == old(repo.steps)
      ensures r.Ok? ==> process.failures == old(process.failures)
    {
      var recovered := RecoverableNode(listed, input.name, input.ip);
      if recovered.Duplicate? {
        r := FailCreating(DuplicateNode, old(process.failures));
      } else if recovered.NoneYet? {
        r := CreateOurs();
      } else {
        assert recovered.node.uuid in OurIDs();
        r := Adopt(recovered.node.uuid);
      }
    }

    method Adopt(uuid: string) returns (r: Outcome)
      requires Valid() && created && (Provisioned in log || bypassed) && uuid in OurIDs()
      modifies repo`uuid, process
      ensures Valid() && (process.alive ==> old(process.alive)) && old(process.failures) <= process.failures
      ensures if r.Ok? then repo.uuid == Some(uuid) else r.error == Persistence && old(process.failures) < process.failures
      ensures MovesOn(old(repo.status), old(repo.step), repo.status, repo.step)
      ensures r.Ok? ==> process.failures == old(process.failures)
    {
      var persisted := SetNodeUUID(uuid);
      r := if persisted then Ok(()) else Err(Persistence);
    }

    method FailCreating(error: Error, ghost start: nat) returns (r: Outcome)
      requires Valid() && created && (Provisioned in log || bypassed)
      requires error == CreationFailed || error == DuplicateNode
      requires start <= process.failures && IsBlamed(error, start)
      modifies repo`status, repo`step, repo`steps, process
      ensures Valid() && (process.alive ==> old(process.alive)) && old(process.failures) <= process.failures
      ensures MovesOn(old(repo.status), old(repo.step), repo.status, repo.step)
      ensures r.Err?
      ensures Says(r, start)
      ensures r.error == error || r.error == Interrupted || r.error == Persistence
    {
      assert StoredAs(error, FAILED, CreateNodeStep);
      r := FailStage(CreateNodeStep, FAILED, error, start);
    }

    method CreateOurs() returns (r: Outcome)
      requires Valid() && created && (Provisioned in log || bypassed)
      modifies this`nodes, this`hosts, this`log, repo`status, repo`step, repo`steps, repo`uuid, dns`zones, process
      ensures Valid() && (process.alive ==> old(process.alive)) && old(process.failures) <= process.failures
      ensures MovesOn(old(repo.status), old(repo.step), repo.status, repo.step)
      ensures r.Ok? ==> repo.uuid.Some?
      ensures Says(r, old(process.failures))
      ensures Extends(old(log), log)
      ensures !FailsWith(r, DuplicateNode)
      ensures r.Ok? ==> repo.steps == old(repo.steps)
      ensures r.Ok? ==> process.failures == old(process.failures)
    {
      var node := CreateNode();
      var cancelled := IsCancelled();
      if cancelled {
        r := Err(Interrupted);
      } else if node.None? {
        r := FailCreating(CreationFailed, old(process.failures));
      } else {
        r := Adopt(node.value.uuid);
      }
    }

    /** Every read so far found the node connecting. */
    ghost predicate OnlyConnecting(before: seq<Event>, after: seq<Event>, uuid: string) {
      before <= after && forall k :: |before| <= k < |after| ==> after[k] == ReadOther(uuid, true)
    }

    /** The last read, after others that found the node connecting. */
    ghost predicate EndsPolling(before: seq<Event>, after: seq<Event>, uuid: string, last: Event) {
      before < after && after[|after| - 1] == last && OnlyConnecting(before, after[..|after| - 1], uuid)
    }

    /** How polling ends: connected, no longer connecting, cancelled, or after `budget`
        rounds, of which `missed` could not read the node. */
    ghost predicate Polled(before: seq<Event>, after: seq<Event>, uuid: string, r: Outcome, missed: int, budget: nat) {
      if r.Ok? then EndsPolling(before, after, uuid, ReadConnected(uuid))
      else if r.error == Interrupted then OnlyConnecting(before, after, uuid) && missed > 0
      else
        && r.error == ConnectionFailed
        && (EndsPolling(before, after, uuid, ReadOther(uuid, false))
            || (OnlyConnecting(before, after, uuid) && |after| - |before| + missed >= budget))
    }

    lemma PollSnoc(before: seq<Event>, log: seq<Event>, uuid: string, e: Event)
      requires OnlyConnecting(before, log, uuid)
      ensures EndsPolling(before, log + [e], uuid, e)
      ensures e == ReadOther(uuid, true) ==> OnlyConnecting(before, log + [e], uuid)
    {
      assert (log + [e])[..|log|] == log;
    }

    lemma PolledBlames(before: seq<Event>, uuid: string, r: Outcome, start: nat, budget: nat)
      requires budget > 0 && Polled(before, log, uuid, r, process.failures - start, budget)
      ensures r.Err? ==> IsBlamed(ConnectionFailed, start)
    {
      if r.Err? && process.failures <= start && !EndsPolling(before, log, uuid, ReadOther(uuid, false)) {
        assert log[|log| - 1] == ReadOther(uuid, true);
      }
    }

    /** Polls until the node is connected, is no longer connecting, or time is up. */
    method PollNode(uuid: string, budget: nat) returns (r: Outcome)
      requires Valid() && created && repo.uuid == Some(uuid)
      modifies this`nodes, this`hosts, this`log, dns`zones, process
      ensures Valid() && (process.alive ==> old(process.alive)) && old(process.failures) <= process.failures
      ensures Extends(old(log), log)
      ensures Polled(old(log), log, uuid, r, process.failures - old(process.failures), budget)
      ensures r.Ok? ==> JustRead(old(log), log, uuid)
    {
      for i := 0 to budget
        modifies this`nodes, this`hosts, this`log, dns`zones, process
        invariant Valid() && (process.alive ==> old(process.alive)) && old(process.failures) <= process.failures && OnlyConnecting(old(log), log, uuid)
        invariant |log| - |old(log)| + process.failures - old(process.failures) >= i
      {
        ghost var seen := log;
        var node := GetNode(uuid);
        if node.Some? {
          PollSnoc(old(log), seen, uuid, log[|seen|]);
          if node.value.connected {
            return Ok(());
          }
          if !node.value.connecting {
            return Err(ConnectionFailed);
          }
        }
        var cancelled := IsCancelled();
        if cancelled {
          return Err(Interrupted);
        }
      }
      return Err(ConnectionFailed);
    }

    /** A missing UUID fails the stage in the code; here it is known to be there. */
    method WaitForHealthyNode(status: Status, uuid: string) returns (r: Outcome)
      requires Valid() && created && repo.uuid == Some(uuid)
      modifies this`nodes, this`hosts, this`log, repo`status, repo`step, repo`steps, dns`zones, process
      ensures Valid() && (process.alive ==> old(process.alive)) && old(process.failures) <= process.failures
      ensures MovesOn(old(repo.status), old(repo.step), repo.status, repo.step)
      ensures r.Ok? ==> JustRead(old(log), log, uuid)
      ensures Says(r, old(process.failures))
      ensures Extends(old(log), log)
      ensures r.Ok? ==> repo.status == ADDING_TO_DNS
      ensures r.Ok? ==> RowsOf(repo.steps) == old(RowsOf(repo.steps)).(waiting := Some(STEP_COMPLETED), dns := Some(RUNNING))
    {
      var begun := BeginWaiting(status);
      if !begun {
        return Err(Persistence);
      }
      r := Wait(uuid);
    }

    method BeginWaiting(status: Status) returns (ok: bool)
      requires Valid() && created && repo.uuid.Some?
      modifies repo`status, repo`step, repo`steps, process
      ensures Valid() && (process.alive ==> old(process.alive)) && old(process.failures) <= process.failures
      ensures MovesOn(old(repo.status), old(repo.step), repo.status, repo.step)
      ensures !ok ==> old(process.failures) < process.failures
      ensures ok ==> RowsOf(repo.steps) == if status == WAITING_REMNAWAVE then old(RowsOf(repo.steps)) else old(RowsOf(repo.steps)).(waiting := Some(RUNNING))
    {
      ok := true;
      if status != WAITING_REMNAWAVE {
        ok := BeginStage(WAITING_REMNAWAVE, WaitNodeStep);
      }
    }

    method Wait(uuid: string) returns (r: Outcome)
      requires Valid() && created && repo.uuid == Some(uuid)
      modifies this`nodes, this`hosts, this`log, repo`status, repo`step, repo`steps, dns`zones, process
      ensures Valid() && (process.alive ==> old(process.alive)) && old(process.failures) <= process.failures
      ensures MovesOn(old(repo.status), old(repo.step), repo.status, repo.step)
      ensures r.Ok? ==> JustRead(old(log), log, uuid)
      ensures Says(r, old(process.failures))
      ensures Extends(old(log), log)
      ensures r.Ok? ==> repo.status == ADDING_TO_DNS
      ensures r.Ok? ==> RowsOf(repo.steps) == old(RowsOf(repo.steps)).(waiting := Some(STEP_COMPLETED), dns := Some(RUNNING))
    {
      r := AwaitConnection(uuid);
      r := FinishWaiting(r);
    }

    method AwaitConnection(uuid: string) returns (r: Outcome)
      requires Valid() && created && repo.uuid == Some(uuid)
      modifies this`nodes, this`hosts, this`log, repo`status, repo`step, repo`steps, dns`zones, process
      ensures Valid() && (process.alive ==> old(process.alive)) && old(process.failures) <= process.failures
      ensures MovesOn(old(repo.status), old(repo.step), repo.status, repo.step)
      ensures r.Ok? ==> JustRead(old(log), log, uuid)
      ensures Says(r, old(process.failures))
      ensures Extends(old(log), log)
      ensures r.Ok? ==> repo.steps == old(repo.steps)
    {
      var more: int := *;
      var budget := if more > 0 then more else 1;
      r := PollNode(uuid, budget);
      PolledBlames(old(log), uuid, r, old(process.failures), budget);
      r := StopWaiting(r, old(process.failures));
    }

    /** What the polling found, unless the run was cancelled. */
    method StopWaiting(polled: Outcome, ghost start: nat) returns (r: Outcome)
      requires Valid() && created && repo.uuid.Some?
      requires start <= process.failures && (polled.Err? ==> IsBlamed(ConnectionFailed, start))
      modifies repo`status, repo`step, repo`steps, process
      ensures Valid() && (process.alive ==> old(process.alive)) && old(process.failures) <= process.failures
      ensures MovesOn(old(repo.status), old(repo.step), repo.status, repo.step)
      ensures r.Ok? ==> polled.Ok?
      ensures Says(r, start)
      ensures r.Ok? ==> repo.steps == old(repo.steps)
    {
      r := polled;
      var cancelled := IsCancelled();
      if cancelled {
        r := Err(Interrupted);
      } else if polled.Err? {
        r := FailWaiting(start);
      }
    }

    method FailWaiting(ghost start: nat) returns (r: Outcome)
      requires Valid() && created && repo.uuid.Some?
      requires start <= process.failures && IsBlamed(ConnectionFailed, start)
      modifies repo`status, repo`step, repo`steps, process
      ensures Valid() && (process.alive ==> old(process.alive)) && old(process.failures) <= process.failures
      ensures MovesOn(old(repo.status), old(repo.step), repo.status, repo.step)
      ensures r.Err?
      ensures Says(r, start)
    {
      r := FailStage(WaitNodeStep, FAILED, ConnectionFailed, start);
    }

    method FinishWaiting(waited: Outcome) returns (r: Outcome)
      requires Valid() && created && repo.uuid.Some?
      modifies repo`status, repo`step, repo`steps, process
      ensures Valid() && (process.alive ==> old(process.alive)) && old(process.failures) <= process.failures
      ensures MovesOn(old(repo.status), old(repo.step), repo.status, repo.step)
      ensures r.Ok? ==> waited.Ok?
      ensures r.Err? ==> r == waited || (r.error == Persistence && old(process.failures) < process.failures)
      ensures waited.Err? ==> repo.status == old(repo.status) && repo.step == old(repo.step) && repo.steps == old(repo.steps) && process.failures == old(process.failures)
      ensures r.Ok? ==> repo.status == ADDING_TO_DNS
      ensures r.Ok? ==> RowsOf(repo.steps) == old(RowsOf(repo.steps)).(waiting := Some(STEP_COMPLETED), dns := Some(RUNNING))
    {
      if waited.Err? {
        return waited;
      }
      ghost var rows := repo.steps;
      var completed := RecordStep(WaitNodeStep, STEP_COMPLETED);
      RowsPut(rows, WaitNodeStep, STEP_COMPLETED);
      if !completed {
        return Err(Persistence);
      }
      var begun := BeginStage(ADDING_TO_DNS, AddDNSStep);
      return if begun then Ok(()) else Err(Persistence);
    }

    /** A missing UUID is refused in the code; here it is known to be there. */
    method AddDNS(status: Status, uuid: Option<string>) returns (r: Outcome)
      requires Valid() && created && uuid == repo.uuid && uuid.Some?
      modifies this`nodes, this`hosts, this`log, repo`status, repo`step, repo`steps, dns, process
      ensures Valid() && (process.alive ==> old(process.alive)) && old(process.failures) <= process.failures
      ensures MovesOn(old(repo.status), old(repo.step), repo.status, repo.step)
      ensures r.Ok? ==> repo.status == COMPLETED
      ensures Says(r, old(process.failures))
      ensures Extends(old(log), log)
      ensures Tried(r, old(process.failures), process.failures, old(log), log)
      ensures r.Ok? ==> RowsOf(repo.steps) == old(RowsOf(repo.steps)).(dns := Some(if dnsDisabled then SKIPPED else STEP_COMPLETED))
      ensures r.Ok? ==> process.failures == old(process.failures)
    {
      if status != ADDING_TO_DNS {
        var begun := BeginStage(ADDING_TO_DNS, AddDNSStep);
        if !begun {
          return Err(Persistence);
        }
      }
      ghost var failed := process.failures;
      r := ChangeDNS(uuid.value);
      SaysSince(r, old(process.failures), failed);
    }

    method ChangeDNS(uuid: string) returns (r: Outcome)
      requires Valid() && created && repo.uuid == Some(uuid)
      modifies this`nodes, this`hosts, this`log, repo`status, repo`step, repo`steps, dns, process
      ensures Valid() && (process.alive ==> old(process.alive)) && old(process.failures) <= process.failures
      ensures MovesOn(old(repo.status), old(repo.step), repo.status, repo.step)
      ensures r.Ok? ==> repo.status == COMPLETED
      ensures Says(r, old(process.failures))
      ensures Extends(old(log), log)
      ensures Tried(r, old(process.failures), process.failures, old(log), log)
      ensures r.Ok? ==> RowsOf(repo.steps) == old(RowsOf(repo.steps)).(dns := Some(if dnsDisabled then SKIPPED else STEP_COMPLETED))
      ensures r.Ok? ==> process.failures == old(process.failures)
    {
      r := Ok(());
      if !dnsDisabled {
        r := AddAddress(uuid);
      }
      if r.Ok? {
        r := FinishDNS();
      }
    }

    method FinishDNS() returns (r: Outcome)
      requires Valid() && created && repo.uuid.Some? && InZone()
      modifies repo`status, repo`step, repo`steps, process
      ensures Valid() && (process.alive ==> old(process.alive)) && old(process.failures) <= process.failures
      ensures MovesOn(old(repo.status), old(repo.step), repo.status, repo.step)
      ensures r.Ok? ==> repo.status == COMPLETED
      ensures r.Err? ==> r.error == Persistence && old(process.failures) < process.failures
      ensures r.Ok? ==> RowsOf(repo.steps) == old(RowsOf(repo.steps)).(dns := Some(if dnsDisabled then SKIPPED else STEP_COMPLETED))
      ensures r.Ok? ==> process.failures == old(process.failures)
    {
      ghost var rows := repo.steps;
      var completed := RecordStep(AddDNSStep, if dnsDisabled then SKIPPED else STEP_COMPLETED);
      RowsPut(rows, AddDNSStep, if dnsDisabled then SKIPPED else STEP_COMPLETED);
      if !completed {
        return Err(Persistence);
      }
      var done := SetState(COMPLETED, CompletedStep);
      return if done then Ok(()) else Err(Persistence);
    }

    /** The DNS change itself, gated by a fresh look at the node. */
    method AddAddress(uuid: string) returns (r: Outcome)
      requires Valid() && created && repo.uuid == Some(uuid) && !dnsDisabled
      modifies this`nodes, this`hosts, this`log, repo`status, repo`step, repo`steps, dns, process
      ensures Valid() && (process.alive ==> old(process.alive)) && old(process.failures) <= process.failures
      ensures MovesOn(old(repo.status), old(repo.step), repo.status, repo.step)
      ensures r.Ok? ==> InZone()
      ensures Says(r, old(process.failures))
      ensures Extends(old(log), log)
      ensures Tried(r, old(process.failures), process.failures, old(log), log)
      ensures r.Ok? ==> repo.steps == old(repo.steps)
      ensures r.Ok? ==> process.failures == old(process.failures)
    {
      var node := GetNode(uuid);
      r := AddAddressOf(node, old(process.failures));
    }

    /** What follows on the look at the node. */
    method AddAddressOf(node: Option<PanelNode>, ghost start: nat) returns (r: Outcome)
      requires Valid() && created && repo.uuid.Some? && !dnsDisabled && start <= process.failures
      requires node.None? ==> start < process.failures
      requires node.Some? ==>
                 && log != []
                 && log[|log| - 1] == if node.value.connected then ReadConnected(repo.uuid.value) else ReadOther(repo.uuid.value, node.value.connecting)
      modifies this`log, repo`status, repo`step, repo`steps, dns, process
      ensures Valid() && (process.alive ==> old(process.alive)) && old(process.failures) <= process.failures
      ensures MovesOn(old(repo.status), old(repo.step), repo.status, repo.step)
      ensures r.Ok? ==> node.Some? && node.value.connected && InZone()
      ensures Says(r, start)
      ensures Extends(old(log), log)
      ensures r.Ok? ==> repo.steps == old(repo.steps)
      ensures r.Ok? ==> process.failures == old(process.failures)
    {
      var cancelled := IsCancelled();
      if cancelled {
        r := Err(Interrupted);
      } else if node.None? || !node.value.connected {
        r := FailConnection(start);
      } else {
        ghost var failed := process.failures;
        r := AddAddressNow();
        SaysSince(r, start, failed);
      }
    }

    method FailConnection(ghost start: nat) returns (r: Outcome)
      requires Valid() && created && repo.uuid.Some?
      requires start <= process.failures && IsBlamed(ConnectionFailed, start)
      modifies repo`status, repo`step, repo`steps, process
      ensures Valid() && (process.alive ==> old(process.alive)) && old(process.failures) <= process.failures
      ensures MovesOn(old(repo.status), old(repo.step), repo.status, repo.step)
      ensures r.Err?
      ensures Says(r, start)
    {
      r := FailStage(AddDNSStep, FAILED, ConnectionFailed, start);
    }

    method AddAddressNow() returns (r: Outcome)
      requires Valid() && created && repo.uuid.Some? && !dnsDisabled
      requires log != [] && log[|log| - 1].ReadConnected?
      modifies this`log, repo`status, repo`step, repo`steps, dns, process
      ensures Valid() && (process.alive ==> old(process.alive)) && old(process.failures) <= process.failures
      ensures MovesOn(old(repo.status), old(repo.step), repo.status, repo.step)
      ensures r.Ok? ==> InZone()
      ensures Says(r, old(process.failures))
      ensures Extends(old(log), log)
      ensures r.Ok? ==> repo.steps == old(repo.steps)
      ensures r.Ok? ==> process.failures == old(process.failures)
    {
      var added := AddToZone();
      r := Ok(());
      if !added {
        r := FailDNS(old(process.failures));
      }
    }

    method FailDNS(ghost start: nat) returns (r: Outcome)
      requires Valid() && created && repo.uuid.Some?
      requires start <= process.failures && IsBlamed(DNSUpdateFailed, start)
      modifies repo`status, repo`step, repo`steps, process
      ensures Valid() && (process.alive ==> old(process.alive)) && old(process.failures) <= process.failures
      ensures MovesOn(old(repo.status), old(repo.step), repo.status, repo.step)
      ensures r.Err?
      ensures Says(r, start)
    {
      var cancelled := IsCancelled();
      if cancelled {
        return Err(Interrupted);
      }
      r := FailStage(AddDNSStep, DNS_FAILED, DNSUpdateFailed, start);
    }

    method AddToZone() returns (ok: bool)
      requires Valid() && created && !dnsDisabled
      requires log != [] && log[|log| - 1].ReadConnected?
      modifies this`log, dns, process
      ensures Valid() && (process.alive ==> old(process.alive)) && old(process.failures) <= process.failures
      ensures ok ==> InZone()
      ensures Extends(old(log), log)
      ensures !ok ==> old(process.failures) < process.failures || ZoneRefuses()
      ensures log == old(log) + [AddingIP]
      ensures ok ==> process.failures == old(process.failures)
    {
      LogSnoc(log, AddingIP, bypassed);
      PanelSnoc(OurIDs(), repo.uuid, log, AddingIP);
      log := log + [AddingIP];
      ghost var before := dns.zones;
      var added := dns.AddIP(sni, input.ip);
      if added.Ok? {
        Z.AddedMeans(before[ZC.Target(sni)], input.ip);
      }
      assert added.Err? && process.failures == old(process.failures) ==>
        added.error.InvalidInput? || added.error.InvalidResponse? || added.error.NotFound?;
      ok := added.Ok?;
    }

    /** What a deployment that is done amounts to. */
    ghost predicate Delivered()
      reads this`nodes, repo`status, repo`uuid, dns`zones
    {
      && repo.status == COMPLETED
      && repo.uuid.Some? && OurIDs() == {repo.uuid.value}
      && AtMostOne(nodes, input.name, input.ip)
      && InZone()
    }

    lemma OneNode()
      requires Valid() && created
      ensures AtMostOne(nodes, input.name, input.ip)
    {
      OneUUIDOneNode(nodes, input.name, input.ip);
    }

    /** A node was created for a server that was never provisioned exactly when that
        was bypassed: Deploy went on from MANUAL_REVIEW without a stored UUID. */
    lemma UnprovisionedExactlyWhen()
      requires Valid() && HasCreated(log)
      ensures Provisioned !in log <==> bypassed
    {
      var k :| 0 <= k < |log| && log[k].Created?;
      assert EventGated(log, k, bypassed);
    }

    lemma CompletedIsDelivered()
      requires Valid() && created && repo.status == COMPLETED
      ensures Delivered()
    {
      OneUUIDOneNode(nodes, input.name, input.ip);
      assert OurIDs() == {repo.uuid.value};
    }

    ghost predicate Unmoved(status: Status, step: Step)
      reads repo`status, repo`step
    {
      repo.status == status && repo.step == step
    }

    ghost predicate Unchanged(status: Status, step: Step, history: seq<H.Event>)
      reads repo`status, repo`step, engine`log
    {
      repo.status == status && repo.step == step && engine.log == history
    }

    /** Resumes the deployment from its persisted status. `wrote` says that a check has
        failed and its step write went through. */
    method Deploy(start: StartInput) returns (r: Outcome, ghost wrote: bool)
      requires Valid()
      modifies this`nodes, this`hosts, this`log, this`bypassed, repo, engine`desired, engine`log, dns, process
      ensures Valid() && (process.alive ==> old(process.alive)) && old(process.failures) <= process.failures
      ensures r.Ok? ==> created && Delivered()
      ensures start != input || old(repo.status) == DNS_FAILED || old(repo.status) == FAILED || old(repo.status) == CANCELLED || old(repo.status) == CREATED
              ==> r.Err? && Unchanged(old(repo.status), old(repo.step), old(engine.log)) && nodes == old(nodes) && dns.zones == old(dns.zones)
      ensures wrote ==> r.Err?
      ensures LosesStageOnly(old(repo.steps), old(repo.step), repo.steps, wrote)
      ensures OwnStep(repo.step) || repo.step == old(repo.step) || !E.IsCompleted(old(repo.steps), repo.step)
      ensures Past(old(repo.status), old(repo.step)) ==>
                Past(repo.status, repo.step) && H.OnlyReopened(old(engine.log), engine.log)
      ensures bypassed != old(bypassed) ==>
                bypassed && old(repo.status) == MANUAL_REVIEW && old(repo.uuid).None? && Provisioned !in old(log)
      ensures Vetted(old(log), log, old(Wants()))
      ensures r.Ok? && old(repo.status) != COMPLETED ==> Passed(old(log), log, old(Wants()))
      ensures start == input && GoesOn(old(repo.status)) ==> Says(r, old(process.failures))
      ensures r.Err? && !(start == input && GoesOn(old(repo.status))) ==>
                || old(process.failures) < process.failures
                || r.error == (if start != input then InvalidInput else if old(repo.status) == DNS_FAILED then DNSRetryRequired else NotRunnable)
      ensures start == input && GoesOn(old(repo.status)) ==> Tried(r, old(process.failures), process.failures, old(log), log)
      ensures r.Ok? ==>
                RowsOf(repo.steps) == if old(repo.status) == COMPLETED then old(RowsOf(repo.steps)) else Finished(old(RowsOf(repo.steps)), old(repo.status), dnsDisabled)
    {
      r, wrote := Err(Persistence), false;
      ResumableMeans(repo.status);
      var loaded := GetDeployment();
      if loaded && start != input {
        r := Err(InvalidInput);
      } else if loaded && repo.status == COMPLETED {
        CompletedIsDelivered();
        r := Ok(());
      } else if loaded && !Resumable(repo.status) {
        r := Err(if repo.status == DNS_FAILED then DNSRetryRequired else NotRunnable);
      } else if loaded {
        r, wrote := Continue();
      }
    }

    method Continue() returns (r: Outcome, ghost wrote: bool)
      requires Valid() && created && Resumable(repo.status)
      modifies this`nodes, this`hosts, this`log, this`bypassed, repo, engine`desired, engine`log, dns, process
      ensures Valid() && (process.alive ==> old(process.alive)) && old(process.failures) <= process.failures
      ensures r.Ok? ==> Delivered()
      ensures wrote ==> r.Err?
      ensures LosesStageOnly(old(repo.steps), old(repo.step), repo.steps, wrote)
      ensures OwnStep(repo.step) || repo.step == old(repo.step) || !E.IsCompleted(old(repo.steps), repo.step)
      ensures Past(old(repo.status), old(repo.step)) ==>
                Past(repo.status, repo.step) && H.OnlyReopened(old(engine.log), engine.log)
      ensures bypassed != old(bypassed) ==>
                bypassed && old(repo.status) == MANUAL_REVIEW && old(repo.uuid).None? && Provisioned !in old(log)
      ensures Vetted(old(log), log, old(Wants())) && (r.Ok? ==> Passed(old(log), log, old(Wants())))
      ensures Says(r, old(process.failures))
      ensures Tried(r, old(process.failures), process.failures, old(log), log)
      ensures r.Ok? ==> RowsOf(repo.steps) == Finished(old(RowsOf(repo.steps)), old(repo.status), dnsDisabled)
    {
      if Past(repo.status, repo.step) {
        PastStays(repo.status, repo.step);
      }
      ghost var w := Wants();
      r, wrote := Check();
      VerdictTried(old(log), log, w, r, old(process.failures), process.failures);
      if r.Ok? {
        ghost var failed := process.failures;
        r := GoOn(old(log), w);
        SaysSince(r, old(process.failures), failed);
      }
    }

    /** What follows on checks that passed. */
    method GoOn(ghost before: seq<Event>, ghost w: Wanted) returns (r: Outcome)
      requires Valid() && created && Resumable(repo.status) && Passed(before, log, w)
      modifies this`nodes, this`hosts, this`log, this`bypassed, repo, engine`desired, engine`log, dns, process
      ensures Valid() && (process.alive ==> old(process.alive)) && old(process.failures) <= process.failures
      ensures r.Ok? ==> Delivered()
      ensures LosesStageOnly(old(repo.steps), old(repo.step), repo.steps, false)
      ensures OwnStep(repo.step) || repo.step == old(repo.step) || !E.IsCompleted(old(repo.steps), repo.step)
      ensures Past(old(repo.status), old(repo.step)) ==> Past(repo.status, repo.step) && engine.log == old(engine.log)
      ensures bypassed != old(bypassed) ==>
                bypassed && old(repo.status) == MANUAL_REVIEW && old(repo.uuid).None? && Provisioned !in old(log)
      ensures Passed(before, log, w) && Vetted(before, log, w) && before < log
      ensures Says(r, old(process.failures))
      ensures r.Ok? ==> RowsOf(repo.steps) == Finished(old(RowsOf(repo.steps)), old(repo.status), dnsDisabled)
    {
      ghost var steps, seen := repo.steps, log;
      r := Proceed();
      PassedGrows(before, seen, log, w);
      SteadyLosesNothing(steps, repo.steps, old(repo.step), repo.step);
      if r.Ok? {
        CompletedIsDelivered();
      }
    }

    method Check() returns (r: Outcome, ghost wrote: bool)
      requires Valid() && created && Resumable(repo.status)
      modifies this`nodes, this`hosts, this`log, repo`status, repo`step, repo`steps, engine`log, dns`zones, process
      ensures Valid() && (process.alive ==> old(process.alive)) && old(process.failures) <= process.failures
      ensures r.Ok? ==> !wrote && repo.status == old(repo.status) && repo.steps == old(repo.steps) && engine.log == old(engine.log)
      ensures repo.step == old(repo.step) && (repo.status == FAILED || repo.status == old(repo.status))
      ensures E.LosesCurrentOnly(old(repo.steps), old(repo.step), repo.steps, wrote)
      ensures H.OnlyReopened(old(engine.log), engine.log)
      ensures Says(r, old(process.failures))
      ensures Verdict(old(log), log, old(Wants()), r.Ok?, old(process.failures) < process.failures)
      ensures r.Ok? ==> process.failures == old(process.failures)
    {
      ghost var w, failures := Wants(), process.failures;
      r, wrote := CheckHost();
      HostsSeen(old(log), log, HostsRead(hosts), w, r.Ok?, failures < process.failures);
      if r.Ok? {
        ghost var read, hostsRead := log, HostsRead(hosts);
        assert Wants() == w;
        r, wrote := CheckNode();
        BothSeen(old(log), read, log, hostsRead, NodesRead(nodes), w, r.Ok?, failures < process.failures, false);
      }
    }

    /** The Host must still be deployable, with the deployment's own SNI. */
    method CheckHost() returns (r: Outcome, ghost wrote: bool)
      requires Valid() && created && Resumable(repo.status)
      modifies this`nodes, this`hosts, this`log, repo`status, repo`step, repo`steps, engine`log, dns`zones, process
      ensures Valid() && (process.alive ==> old(process.alive)) && old(process.failures) <= process.failures
      ensures r.Ok? ==> !wrote && repo.status == old(repo.status) && repo.steps == old(repo.steps) && engine.log == old(engine.log)
      ensures repo.step == old(repo.step) && (repo.status == FAILED || repo.status == old(repo.status))
      ensures E.LosesCurrentOnly(old(repo.steps), old(repo.step), repo.steps, wrote)
      ensures H.OnlyReopened(old(engine.log), engine.log)
      ensures Says(r, old(process.failures))
      ensures Saw(old(log), log, HostsRead(hosts), HostsPass(HostsRead(hosts), old(Wants())), r.Ok?, old(process.failures) < process.failures)
      ensures r.Ok? ==> process.failures == old(process.failures)
    {
      wrote := false;
      var fits := HostStillFits();
      var cancelled := IsCancelled();
      if cancelled {
        return Err(Interrupted), wrote;
      }
      if !fits {
        ghost var updated;
        r, wrote, updated := FailCurrentStep(HostUnavailable);
        return;
      }
      return Ok(()), wrote;
    }

    method HostStillFits() returns (ok: bool)
      requires Valid() && created
      modifies this`nodes, this`hosts, this`log, dns`zones, process
      ensures Valid() && (process.alive ==> old(process.alive)) && old(process.failures) <= process.failures
      ensures Saw(old(log), log, HostsRead(hosts), HostsPass(HostsRead(hosts), old(Wants())), ok, old(process.failures) < process.failures)
      ensures ok ==> process.failures == old(process.failures)
    {
      var host := SelectedHost();
      if host.Some? {
        SelectedFits(host.value, Some(sni));
      } else if log != old(log) {
        assert HostsPass(HostsRead(hosts), old(Wants())) ==> HostFits(hosts, input.host, None);
      }
      ok := host.Some? && Names.NormalizeFQDN(host.value.sni.value) == Names.NormalizeFQDN(sni);
    }
    /** The node's name and address must still be unique, but for the node that an
        interrupted run has made. */
    method CheckNode() returns (r: Outcome, ghost wrote: bool)
      requires Valid() && created && Resumable(repo.status)
      modifies this`nodes, this`hosts, this`log, repo`status, repo`step, repo`steps, engine`log, dns`zones, process
      ensures Valid() && (process.alive ==> old(process.alive)) && old(process.failures) <= process.failures
      ensures r.Ok? ==> !wrote && repo.status == old(repo.status) && repo.steps == old(repo.steps) && engine.log == old(engine.log)
      ensures repo.step == old(repo.step) && (repo.status == FAILED || repo.status == old(repo.status))
      ensures E.LosesCurrentOnly(old(repo.steps), old(repo.step), repo.steps, wrote)
      ensures H.OnlyReopened(old(engine.log), engine.log)
      ensures Says(r, old(process.failures))
      ensures Saw(old(log), log, NodesRead(nodes), NodesPass(NodesRead(nodes), old(Wants())), r.Ok?, old(process.failures) < process.failures)
      ensures r.Ok? ==> process.failures == old(process.failures)
    {
      r, wrote := Ok(()), false;
      var allowRecovery := AllowsRecovery(repo.status);
      var unique := NoOtherNode(allowRecovery);
      if !unique {
        r, wrote := RefuseNode(old(process.failures));
      }
    }

    method RefuseNode(ghost start: nat) returns (r: Outcome, ghost wrote: bool)
      requires Valid() && created && Resumable(repo.status) && start <= process.failures && IsBlamed(DuplicateNode, start)
      modifies repo`status, repo`step, repo`steps, engine`log, process
      ensures Valid() && (process.alive ==> old(process.alive)) && old(process.failures) <= process.failures
      ensures r.Err? && repo.step == old(repo.step) && (repo.status == FAILED || repo.status == old(repo.status))
      ensures E.LosesCurrentOnly(old(repo.steps), old(repo.step), repo.steps, wrote)
      ensures H.OnlyReopened(old(engine.log), engine.log)
      ensures Says(r, start)
    {
      r, wrote := Err(Interrupted), false;
      var cancelled := IsCancelled();
      if !cancelled {
        ghost var updated;
        r, wrote, updated := FailCurrentStep(DuplicateNode);
      }
    }

    method NoOtherNode(allowRecovery: bool) returns (ok: bool)
      requires Valid() && created
      modifies this`nodes, this`hosts, this`log, dns`zones, process
      ensures Valid() && (process.alive ==> old(process.alive)) && old(process.failures) <= process.failures
      ensures Saw(old(log), log, NodesRead(nodes), NodesFit(nodes, input.name, input.ip, repo.uuid, allowRecovery), ok, old(process.failures) < process.failures)
      ensures !ok ==> IsBlamed(DuplicateNode, old(process.failures))
      ensures ok ==> process.failures == old(process.failures)
    {
      var listed := GetNodes();
      if listed.None? {
        return false;
      }
      var check := CheckUnique(listed.value, input.name, input.ip, repo.uuid, allowRecovery);
      ok := check.Unique?;
      if !ok {
        NotFitting(nodes, input.name, input.ip, repo.uuid, allowRecovery);
      }
    }

    /** The stages that are left; the row is read again after each of them. */
    method Proceed() returns (r: Outcome)
      requires Valid() && created
      requires Resumable(repo.status)
      modifies this`nodes, this`hosts, this`log, this`bypassed, repo, engine`desired, engine`log, dns, process
      ensures Valid() && (process.alive ==> old(process.alive)) && old(process.failures) <= process.failures
      ensures Steady(old(repo.steps), old(repo.step), repo.steps, repo.step)
      ensures r.Ok? ==> repo.status == COMPLETED
      ensures bypassed != old(bypassed) ==>
                bypassed && old(repo.status) == MANUAL_REVIEW && old(repo.uuid).None? && Provisioned !in old(log)
      ensures Past(old(repo.status), old(repo.step)) ==> Past(repo.status, repo.step) && engine.log == old(engine.log)
      ensures Says(r, old(process.failures))
      ensures Extends(old(log), log)
      ensures r.Ok? ==> RowsOf(repo.steps) == Finished(old(RowsOf(repo.steps)), old(repo.status), dnsDisabled)
    {
      var status := repo.status;
      if status == PREFLIGHT || status == PREPARING_CERTIFICATE || status == PROVISIONING {
        r := PrepareAndProvision(status);
        if r.Err? {
          return;
        }
        var loaded := GetDeployment();
        if !loaded {
          return Err(Persistence);
        }
      }
      r := ProceedFromNode();
    }

    method ProceedFromNode() returns (r: Outcome)
      requires Valid() && created && (AllowsRecovery(repo.status) || repo.status == MANUAL_REVIEW)
      modifies this`nodes, this`hosts, this`log, this`bypassed, repo, dns, process
      ensures Valid() && (process.alive ==> old(process.alive)) && old(process.failures) <= process.failures
      ensures MovesOn(old(repo.status), old(repo.step), repo.status, repo.step)
      ensures r.Ok? ==> repo.status == COMPLETED
      ensures bypassed != old(bypassed) ==>
                bypassed && old(repo.status) == MANUAL_REVIEW && old(repo.uuid).None? && Provisioned !in old(log)
      ensures Says(r, old(process.failures))
      ensures Extends(old(log), log)
      ensures r.Ok? ==> RowsOf(repo.steps) == Finished(old(RowsOf(repo.steps)), old(repo.status), dnsDisabled)
    {
      ghost var rows, status, missing := RowsOf(repo.steps), repo.status, repo.status == CREATING_REMNAWAVE_NODE || repo.uuid.None?;
      r := CreateMissingNode();
      if r.Ok? {
        ghost var failed, midRows, midStatus := process.failures, RowsOf(repo.steps), repo.status;
        r := ProceedFromWait();
        if r.Ok? {
          NodeFinishes(rows, status, missing, midRows, midStatus, RowsOf(repo.steps), dnsDisabled);
        }
        SaysSince(r, old(process.failures), failed);
      }
    }

    method CreateMissingNode() returns (r: Outcome)
      requires Valid() && created && (AllowsRecovery(repo.status) || repo.status == MANUAL_REVIEW)
      modifies this`nodes, this`hosts, this`log, this`bypassed, repo`status, repo`step, repo`steps, repo`uuid, dns`zones, process
      ensures Valid() && (process.alive ==> old(process.alive)) && old(process.failures) <= process.failures
      ensures MovesOn(old(repo.status), old(repo.step), repo.status, repo.step)
      ensures r.Ok? ==> repo.uuid.Some?
      ensures bypassed != old(bypassed) ==>
                bypassed && old(repo.status) == MANUAL_REVIEW && old(repo.uuid).None? && Provisioned !in old(log)
      ensures Says(r, old(process.failures))
      ensures Extends(old(log), log)
      ensures r.Ok? ==>
                if old(repo.status) == CREATING_REMNAWAVE_NODE || old(repo.uuid).None?
                then repo.status == WAITING_REMNAWAVE && RowsOf(repo.steps) == old(RowsOf(repo.steps)).(creating := Some(STEP_COMPLETED), waiting := Some(RUNNING))
                else repo.status == old(repo.status) && RowsOf(repo.steps) == old(RowsOf(repo.steps))
      ensures r.Ok? ==> process.failures == old(process.failures)
    {
      r := Ok(());
      if repo.status == CREATING_REMNAWAVE_NODE || repo.uuid.None? {
        r := CreateNodeStage(repo.status, repo.uuid);
        if r.Ok? {
          var loaded := GetDeployment();
          if !loaded {
            r := Err(Persistence);
          }
        }
      }
    }

    method ProceedFromWait() returns (r: Outcome)
      requires Valid() && created && repo.uuid.Some?
      requires repo.status == WAITING_REMNAWAVE || repo.status == ADDING_TO_DNS || repo.status == MANUAL_REVIEW
      modifies this`nodes, this`hosts, this`log, repo, dns, process
      ensures Valid() && (process.alive ==> old(process.alive)) && old(process.failures) <= process.failures
      ensures MovesOn(old(repo.status), old(repo.step), repo.status, repo.step)
      ensures r.Ok? ==> repo.status == COMPLETED && old(repo.status) != MANUAL_REVIEW
      ensures Says(r, old(process.failures))
      ensures Extends(old(log), log)
      ensures r.Ok? ==> RowsOf(repo.steps) == Finished(old(RowsOf(repo.steps)), old(repo.status), dnsDisabled)
    {
      r := WaitWhereDue();
      if r.Ok? {
        ghost var failed := process.failures;
        r := AddDNSWhereDue();
        SaysSince(r, old(process.failures), failed);
      }
    }

    method WaitWhereDue() returns (r: Outcome)
      requires Valid() && created && repo.uuid.Some?
      modifies this`nodes, this`hosts, this`log, repo`status, repo`step, repo`steps, dns`zones, process
      ensures Valid() && (process.alive ==> old(process.alive)) && old(process.failures) <= process.failures
      ensures MovesOn(old(repo.status), old(repo.step), repo.status, repo.step)
      ensures Says(r, old(process.failures))
      ensures Extends(old(log), log)
      ensures r.Ok? ==>
                if old(repo.status) == WAITING_REMNAWAVE || old(repo.status) == CREATING_REMNAWAVE_NODE
                then repo.status == ADDING_TO_DNS && RowsOf(repo.steps) == old(RowsOf(repo.steps)).(waiting := Some(STEP_COMPLETED), dns := Some(RUNNING))
                else repo.status == old(repo.status) && RowsOf(repo.steps) == old(RowsOf(repo.steps))
    {
      r := Ok(());
      if repo.status == WAITING_REMNAWAVE || repo.status == CREATING_REMNAWAVE_NODE {
        r := WaitForHealthyNode(repo.status, repo.uuid.value);
        if r.Ok? {
          var loaded := GetDeployment();
          if !loaded {
            r := Err(Persistence);
          }
        }
      }
    }

    method AddDNSWhereDue() returns (r: Outcome)
      requires Valid() && created && repo.uuid.Some? && (repo.status == ADDING_TO_DNS || repo.status == MANUAL_REVIEW)
      modifies this`nodes, this`hosts, this`log, repo`status, repo`step, repo`steps, dns, process
      ensures Valid() && (process.alive ==> old(process.alive)) && old(process.failures) <= process.failures
      ensures MovesOn(old(repo.status), old(repo.step), repo.status, repo.step)
      ensures r.Ok? ==> repo.status == COMPLETED && old(repo.status) == ADDING_TO_DNS
      ensures Says(r, old(process.failures))
      ensures Extends(old(log), log)
      ensures r.Ok? ==> RowsOf(repo.steps) == old(RowsOf(repo.steps)).(dns := Some(if dnsDisabled then SKIPPED else STEP_COMPLETED))
    {
      if repo.status == ADDING_TO_DNS || repo.status == WAITING_REMNAWAVE {
        r := AddDNS(repo.status, repo.uuid);
      } else {
        r := Err(NotRunnable);
      }
    }

    method RetryDNS() returns (r: Outcome)
      requires Valid()
      modifies this`nodes, this`hosts, this`log, repo, dns, process
      ensures Valid() && (process.alive ==> old(process.alive)) && old(process.failures) <= process.failures
      ensures r.Ok? ==> created && Delivered()
      ensures MovesOn(old(repo.status), old(repo.step), repo.status, repo.step)
      ensures if old(repo.status) == DNS_FAILED || old(repo.status) == ADDING_TO_DNS
              then Says(r, old(process.failures)) && Tried(r, old(process.failures), process.failures, old(log), log)
              else Unmoved(old(repo.status), old(repo.step)) && nodes == old(nodes) && dns.zones == old(dns.zones)
                   && (old(process.failures) < process.failures || r == if old(repo.status) == COMPLETED then Ok(()) else Err(NotRunnable))
      ensures Extends(old(log), log)
      ensures r.Ok? ==>
                RowsOf(repo.steps) == if old(repo.status) == COMPLETED then old(RowsOf(repo.steps)) else Finished(old(RowsOf(repo.steps)), DNS_FAILED, dnsDisabled)
    {
      r := Err(Persistence);
      var loaded := GetDeployment();
      if loaded && repo.status == COMPLETED {
        CompletedIsDelivered();
        r := Ok(());
      } else if loaded && repo.status != DNS_FAILED && repo.status != ADDING_TO_DNS {
        r := Err(NotRunnable);
      } else if loaded {
        r := AddDNSAgain();
      }
    }

    method AddDNSAgain() returns (r: Outcome)
      requires Valid() && created && (repo.status == DNS_FAILED || repo.status == ADDING_TO_DNS)
      modifies this`nodes, this`hosts, this`log, repo, dns, process
      ensures Valid() && (process.alive ==> old(process.alive)) && old(process.failures) <= process.failures
      ensures r.Ok? ==> Delivered()
      ensures MovesOn(old(repo.status), old(repo.step), repo.status, repo.step)
      ensures Says(r, old(process.failures)) && Tried(r, old(process.failures), process.failures, old(log), log)
      ensures Extends(old(log), log)
      ensures r.Ok? ==> RowsOf(repo.steps) == Finished(old(RowsOf(repo.steps)), DNS_FAILED, dnsDisabled)
    {
      var uuid := repo.uuid;
      ghost var rows := RowsOf(repo.steps);
      var begun := BeginStage(ADDING_TO_DNS, AddDNSStep);
      if !begun {
        return Err(Persistence);
      }
      ghost var failed, begunRows := process.failures, RowsOf(repo.steps);
      r := AddDNS(ADDING_TO_DNS, uuid);
      SaysSince(r, old(process.failures), failed);
      if r.Ok? {
        DNSFinishes(rows, begunRows, RowsOf(repo.steps), dnsDisabled);
        CompletedIsDelivered();
      }
    }

    /** Only a failed deployment, and only at a step that can be repeated. */
    method RetryFailedStep() returns (r: Outcome)
      requires Valid()
      modifies this`nodes, this`hosts, this`log, this`bypassed, repo, engine`desired, engine`log, dns, process
      ensures Valid() && (process.alive ==> old(process.alive)) && old(process.failures) <= process.failures
      ensures r.Ok? ==> created && Delivered()
      ensures Kept(old(repo.steps), old(repo.step), repo.steps, repo.step)
      ensures if old(repo.status) == FAILED && Repeatable(old(repo.step))
              then Says(r, old(process.failures)) && Tried(r, old(process.failures), process.failures, old(log), log)
              else Unchanged(old(repo.status), old(repo.step), old(engine.log)) && nodes == old(nodes) && dns.zones == old(dns.zones)
                   && (FailsWith(r, NotRunnable) || (r.Err? && old(process.failures) < process.failures))
      ensures Past(old(repo.status), old(repo.step)) ==>
                Past(repo.status, repo.step) && H.OnlyReopened(old(engine.log), engine.log)
      ensures bypassed == old(bypassed)
      ensures r.Ok? ==> RowsOf(repo.steps) == Finished(old(RowsOf(repo.steps)), ResumeStatus(old(repo.step)).value, dnsDisabled)
    {
      r := Err(Persistence);
      var loaded := GetDeployment();
      if loaded && (repo.status != FAILED || ResumeStatus(repo.step).None?) {
        r := Err(NotRunnable);
      } else if loaded {
        r := ResumeFrom(ResumeStatus(repo.step).value);
      }
    }

    method ResumeFrom(status: Status) returns (r: Outcome)
      requires Valid() && created && repo.status == FAILED && ResumeStatus(repo.step) == Some(status)
      modifies this`nodes, this`hosts, this`log, this`bypassed, repo, engine`desired, engine`log, dns, process
      ensures Valid() && (process.alive ==> old(process.alive)) && old(process.failures) <= process.failures
      ensures r.Ok? ==> Delivered()
      ensures Kept(old(repo.steps), old(repo.step), repo.steps, repo.step)
      ensures Says(r, old(process.failures)) && Tried(r, old(process.failures), process.failures, old(log), log)
      ensures Past(old(repo.status), old(repo.step)) ==>
                Past(repo.status, repo.step) && H.OnlyReopened(old(engine.log), engine.log)
      ensures bypassed == old(bypassed)
      ensures r.Ok? ==> RowsOf(repo.steps) == Finished(old(RowsOf(repo.steps)), status, dnsDisabled)
    {
      if status == DNS_FAILED {
        r := ResumeDNS();
      } else {
        ResumeFits(repo.step, repo.uuid, log, bypassed);
        r := Resume(status);
      }
    }

    method Resume(status: Status) returns (r: Outcome)
      requires Valid() && created && (Free() || Past(status, repo.step)) && OwnStep(repo.step)
      requires Gated(status, repo.step, repo.uuid, log, bypassed) && StepFits(status, repo.step) && Resumable(status) && status != MANUAL_REVIEW
      modifies this`nodes, this`hosts, this`log, this`bypassed, repo, engine`desired, engine`log, dns, process
      ensures Valid() && (process.alive ==> old(process.alive)) && old(process.failures) <= process.failures
      ensures r.Ok? ==> created && Delivered()
      ensures Kept(old(repo.steps), old(repo.step), repo.steps, repo.step)
      ensures Past(old(repo.status), old(repo.step)) && Past(status, old(repo.step)) ==>
                Past(repo.status, repo.step) && H.OnlyReopened(old(engine.log), engine.log)
      ensures bypassed == old(bypassed)
      ensures Tried(r, old(process.failures), process.failures, old(log), log)
      ensures Says(r, old(process.failures))
      ensures Extends(old(log), log)
      ensures r.Ok? ==> RowsOf(repo.steps) == Finished(old(RowsOf(repo.steps)), status, dnsDisabled)
    {
      ResumableMeans(status);
      var stored := SetState(status, repo.step);
      if !stored {
        return Err(Persistence);
      }
      ghost var wrote;
      r, wrote := Deploy(input);
    }

    method ResumeDNS() returns (r: Outcome)
      requires Valid() && created && repo.status == FAILED && repo.step == AddDNSStep
      modifies this`nodes, this`hosts, this`log, repo, dns, process
      ensures Valid() && (process.alive ==> old(process.alive)) && old(process.failures) <= process.failures
      ensures r.Ok? ==> created && Delivered()
      ensures OwnStep(repo.step) && Past(repo.status, repo.step)
      ensures Tried(r, old(process.failures), process.failures, old(log), log)
      ensures Says(r, old(process.failures))
      ensures Extends(old(log), log)
      ensures r.Ok? ==> RowsOf(repo.steps) == Finished(old(RowsOf(repo.steps)), DNS_FAILED, dnsDisabled)
    {
      var stored := SetState(DNS_FAILED, AddDNSStep);
      if !stored {
        return Err(Persistence);
      }
      r := RetryDNS();
    }

    method Cancel() returns (r: Outcome)
      requires Valid()
      modifies repo`status, repo`step, process
      ensures Valid() && (process.alive ==> old(process.alive)) && old(process.failures) <= process.failures
      ensures r.Ok? ==> created && (repo.status == CANCELLED || (repo.status == COMPLETED && old(repo.status) == COMPLETED))
      ensures old(repo.status) == COMPLETED ==> repo.status == COMPLETED
      ensures MovesOn(old(repo.status), old(repo.step), repo.status, repo.step)
      ensures r.Err? ==> old(process.failures) < process.failures
    {
      var loaded := GetDeployment();
      if !loaded {
        return Err(Persistence);
      }
      if repo.status == COMPLETED || repo.status == CANCELLED {
        return Ok(());
      }
      var stored := SetState(CANCELLED, CancelledStep);
      return if stored then Ok(()) else Err(Persistence);
    }

    /** Exactly when a completed stage is worked on again before it is completed for
        good: a failed check overwrote its record and the deployment stayed at
        PROVISIONING. */
    lemma StageRedoneExactlyWhen(s: Step, j: nat)
      requires Valid() && !OwnStep(s) && E.IsCompleted(repo.steps, s)
      requires j < |engine.log| && engine.log[j] == H.Completed(s)
      ensures (exists k :: j < k < |engine.log| && H.Works(engine.log[k], s)) <==>
              (exists m :: j < m < |engine.log| && engine.log[m] == H.Reopened(s, PROVISIONING))
    {
      H.RedoneExactlyWhen(engine.log, s, j);
    }
  }
}
