/** The deployments and deployment_steps rows of one deployment
    (internal/deployment/deployment.go, internal/repository/postgres/postgres.go). */
module DeploymentTables {
  import opened Wrappers
  import P = Process

  datatype Status =
    | CREATED | PREFLIGHT | PREPARING_CERTIFICATE | PROVISIONING
    | CREATING_REMNAWAVE_NODE | WAITING_REMNAWAVE | ADDING_TO_DNS
    | COMPLETED | FAILED | CANCELLED | DNS_FAILED | MANUAL_REVIEW

  /** The names in current_step and deployment_steps: the workflow's own steps, then
      the provisioning stages. */
  datatype Step =
    | CreatedStep | PreflightStep | PrepareCertificateStep | ProvisioningStep
    | CreateNodeStep | WaitNodeStep | AddDNSStep | CompletedStep | CancelledStep
    | SystemStage | DockerStage | SysctlStage | LimitsStage | FirewallStage | Fail2banStage | RemnanodeStage
    | NodeExporterStage | SpeedtestExporterStage | LogrotateStage | XraySNIStage | HealthcheckStage

  /** A step of the workflow itself. */
  predicate OwnStep(s: Step) {
    match s
    case SystemStage => false
    case DockerStage => false
    case SysctlStage => false
    case LimitsStage => false
    case FirewallStage => false
    case Fail2banStage => false
    case RemnanodeStage => false
    case NodeExporterStage => false
    case SpeedtestExporterStage => false
    case LogrotateStage => false
    case XraySNIStage => false
    case HealthcheckStage => false
    case _ => true
  }

  function StepName(s: Step): string {
    match s
    case CreatedStep => "created"
    case PreflightStep => "preflight"
    case PrepareCertificateStep => "prepare_certificate"
    case ProvisioningStep => "provisioning"
    case CreateNodeStep => "create_remnawave_node"
    case WaitNodeStep => "wait_remnawave"
    case AddDNSStep => "add_dns"
    case CompletedStep => "completed"
    case CancelledStep => "cancelled"
    case SystemStage => "system"
    case DockerStage => "docker"
    case SysctlStage => "sysctl"
    case LimitsStage => "limits"
    case FirewallStage => "firewall"
    case Fail2banStage => "fail2ban"
    case RemnanodeStage => "remnanode"
    case NodeExporterStage => "node_exporter"
    case SpeedtestExporterStage => "speedtest_exporter"
    case LogrotateStage => "logrotate"
    case XraySNIStage => "xray_sni"
    case HealthcheckStage => "healthcheck"
  }

  lemma StepNamesAreLong(s: Step)
    ensures |StepName(s)| > 4
  {
  }

  /** No step of the workflow is stored under the name of a provisioning stage, nor
      any two steps under one name. */
  lemma StepNamesDiffer(a: Step, b: Step)
    ensures StepName(a) == StepName(b) <==> a == b
  {
    StepNamesAreLong(a);
    StepNamesAreLong(b);
    if StepName(a) == StepName(b) {
      assert |StepName(a)| == |StepName(b)| && StepName(a)[0] == StepName(b)[0] && StepName(a)[3] == StepName(b)[3];
    }
  }

  datatype StepStatus = RUNNING | STEP_COMPLETED | STEP_FAILED | SKIPPED

  class Repository {
    const process: P.Process
    var status: Status
    var step: Step
    var uuid: Option<string>
    var steps: map<Step, StepStatus>

    constructor (process: P.Process)
      ensures this.process == process && status == CREATED && step == CreatedStep && uuid == None && steps == map[]
    {
      this.process := process;
      status, step, uuid, steps := CREATED, CreatedStep, None, map[];
    }

    method UpdateDeploymentState(status: Status, step: Step) returns (ok: bool)
      modifies this`status, this`step, process
      ensures process.alive ==> old(process.alive)
      ensures process.failures == old(process.failures) + if ok then 0 else 1
      ensures this.status == if ok then status else old(this.status)
      ensures this.step == if ok then step else old(this.step)
    {
      ok := process.Attempt();
      if ok {
        this.status, this.step := status, step;
      }
    }

    /** One transaction: the step row, and current_step when the step starts. */
    method RecordDeploymentStep(name: Step, status: StepStatus) returns (ok: bool)
      modifies this`steps, this`step, process
      ensures process.alive ==> old(process.alive)
      ensures process.failures == old(process.failures) + if ok then 0 else 1
      ensures steps == if ok then old(steps)[name := status] else old(steps)
      ensures step == if ok && status == RUNNING then name else old(step)
    {
      ok := process.Attempt();
      if ok {
        steps := steps[name := status];
        if status == RUNNING {
          step := name;
        }
      }
    }

    method SetRemnawaveNodeUUID(uuid: string) returns (ok: bool)
      modifies this`uuid, process
      ensures process.alive ==> old(process.alive)
      ensures process.failures == old(process.failures) + if ok then 0 else 1
      ensures this.uuid == if ok then Some(uuid) else old(this.uuid)
    {
      ok := process.Attempt();
      if ok {
        this.uuid := Some(uuid);
      }
    }
  }
}
