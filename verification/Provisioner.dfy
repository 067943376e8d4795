/** The resumable provisioning engine (internal/provisioner/engine.go). */
module Provisioner {
  import opened Wrappers
  import Names
  import opened DeploymentTables
  import opened StageHistory

  const StageNames: seq<Step> := [
    SystemStage, DockerStage, SysctlStage, LimitsStage, FirewallStage, Fail2banStage, RemnanodeStage,
    NodeExporterStage, SpeedtestExporterStage, LogrotateStage, XraySNIStage, HealthcheckStage
  ]

  datatype Report = Report(name: Step, status: StepStatus, changed: bool)

  predicate IsCompleted(steps: map<Step, StepStatus>, name: Step) {
    name in steps && steps[name] == STEP_COMPLETED
  }

  /** A completed stage has only completed stages before it. */
  ghost predicate PrefixClosed(stages: seq<Step>, steps: map<Step, StepStatus>) {
    forall i, j :: 0 <= i < j < |stages| && IsCompleted(steps, stages[j]) ==> IsCompleted(steps, stages[i])
  }

  /** The records say of the stages what the history says. */
  ghost predicate Recorded(stages: seq<Step>, steps: map<Step, StepStatus>, log: seq<Event>) {
    forall s :: s in stages ==> (IsCompleted(steps, s) <==> SaysCompleted(log, |log|, s))
  }

  lemma RecordedSnoc(stages: seq<Step>, before: map<Step, StepStatus>, after: map<Step, StepStatus>, log: seq<Event>, e: Event)
    requires Recorded(stages, before, log)
    requires forall s :: s in stages ==>
               (IsCompleted(after, s) <==> if s == e.stage && (e.Completed? || e.Reopened?) then e.Completed? else IsCompleted(before, s))
    ensures Recorded(stages, after, log + [e])
  {
    forall s | s in stages ensures IsCompleted(after, s) <==> SaysCompleted(log + [e], |log| + 1, s) {
      SaysSnoc(log, e, s);
    }
  }

  /** What was added to the log since is about stages that were not completed then. */
  ghost predicate Untouched(stages: seq<Step>, completed: map<Step, StepStatus>, before: seq<Event>, after: seq<Event>) {
    && before <= after
    && forall k :: |before| <= k < |after| ==>
         after[k].stage in stages && !after[k].Reopened? && !IsCompleted(completed, after[k].stage)
  }

  /** current_step can name a stage; no later stage is completed then. */
  ghost predicate StepIsLatest(stages: seq<Step>, steps: map<Step, StepStatus>, step: Step) {
    forall i, j :: 0 <= i < j < |stages| && stages[i] == step ==> !IsCompleted(steps, stages[j])
  }

  /** One report a stage, in order; only the last one can be a failure. */
  ghost predicate InOrder(stages: seq<Step>, reports: seq<Report>) {
    && |reports| <= |stages|
    && (forall i :: 0 <= i < |reports| ==> reports[i].name == stages[i])
    && (forall i :: 0 <= i < |reports| - 1 ==> reports[i].status != STEP_FAILED)
  }

  ghost predicate SkippedWereCompleted(stages: seq<Step>, steps: map<Step, StepStatus>, reports: seq<Report>) {
    forall i :: 0 <= i < |reports| && i < |stages| ==>
      (reports[i].status == SKIPPED <==> IsCompleted(steps, stages[i])) && (reports[i].status == SKIPPED ==> !reports[i].changed)
  }

  /** What was done for a stage, as its report has it: nothing for one that was completed;
      else it was inspected, and applied exactly when it was changed. */
  ghost function WorkOf(r: Report): seq<Event> {
    if r.status == SKIPPED then []
    else [Inspected(r.name)] + (if r.changed then [Applied(r.name)] else []) + (if r.status == STEP_COMPLETED then [Completed(r.name)] else [])
  }

  ghost function WorkOfAll(reports: seq<Report>): seq<Event> {
    if reports == [] then [] else WorkOfAll(reports[..|reports| - 1]) + WorkOf(reports[|reports| - 1])
  }

  lemma WorkSnoc(before: seq<Event>, reports: seq<Report>, r: Report)
    ensures before + WorkOfAll(reports + [r]) == before + WorkOfAll(reports) + WorkOf(r)
  {
    assert (reports + [r])[..|reports|] == reports;
  }

  /** The reports account for all that was done since, but for a stage that the last of
      them is missing for. */
  ghost predicate Accounts(before: seq<Event>, after: seq<Event>, reports: seq<Report>, complete: bool) {
    && before + WorkOfAll(reports) <= after
    && (complete ==> after == before + WorkOfAll(reports))
  }

  /** The last report is of a stage that failed. */
  predicate EndsInFailure(reports: seq<Report>) {
    reports != [] && reports[|reports| - 1].status == STEP_FAILED
  }

  /** The reports of a run that went well so far. */
  ghost predicate Reported(stages: seq<Step>, completed: map<Step, StepStatus>, reports: seq<Report>) {
    && InOrder(stages, reports) && SkippedWereCompleted(stages, completed, reports)
    && (reports != [] ==> reports[|reports| - 1].status != STEP_FAILED)
  }

  lemma ReportedSnoc(stages: seq<Step>, completed: map<Step, StepStatus>, reports: seq<Report>, report: Report)
    requires Reported(stages, completed, reports) && |reports| < |stages| && report.name == stages[|reports|]
    requires report.status == SKIPPED <==> IsCompleted(completed, report.name)
    requires report.status == SKIPPED ==> !report.changed
    ensures InOrder(stages, reports + [report]) && SkippedWereCompleted(stages, completed, reports + [report])
    ensures report.status != STEP_FAILED ==> Reported(stages, completed, reports + [report])
  {
  }

  /** The first i stages are completed, and none that was not completed at the start
      is after them. */
  ghost predicate Reached(stages: seq<Step>, completed: map<Step, StepStatus>, steps: map<Step, StepStatus>, i: nat) {
    forall j :: 0 <= j < |stages| ==> (IsCompleted(steps, stages[j]) <==> j < i || IsCompleted(completed, stages[j]))
  }

  ghost predicate Finished(stages: seq<Step>, steps: map<Step, StepStatus>, desired: seq<bool>) {
    && |desired| == |stages|
    && forall i :: 0 <= i < |stages| ==> IsCompleted(steps, stages[i]) && desired[i]
  }

  /** Only rows of stages change, and no stage stops being completed. */
  ghost predicate Advances(stages: seq<Step>, before: map<Step, StepStatus>, after: map<Step, StepStatus>) {
    && (forall name :: IsCompleted(before, name) ==> IsCompleted(after, name))
    && (forall name :: name !in stages ==> Row(before, name) == Row(after, name))
  }

  function Row(steps: map<Step, StepStatus>, name: Step): Option<StepStatus> {
    if name in steps then Some(steps[name]) else None
  }

  /** A completed record that the second set of records no longer has. */
  predicate Lost(before: map<Step, StepStatus>, after: map<Step, StepStatus>, s: Step) {
    IsCompleted(before, s) && !IsCompleted(after, s)
  }

  /** A failure of the current step takes its completed record, if it wrote that step,
      and no other. */
  ghost predicate LosesCurrentOnly(before: map<Step, StepStatus>, step: Step, after: map<Step, StepStatus>, wrote: bool) {
    forall s :: Lost(before, after, s) <==> IsCompleted(before, s) && s == step && wrote
  }

  ghost function StepsAfterFailure(steps: map<Step, StepStatus>, step: Step, wrote: bool): map<Step, StepStatus> {
    if wrote then steps[step := STEP_FAILED] else steps
  }

  lemma LosingCurrent(before: map<Step, StepStatus>, step: Step, wrote: bool)
    ensures LosesCurrentOnly(before, step, StepsAfterFailure(before, step, wrote), wrote)
  {
    var after := StepsAfterFailure(before, step, wrote);
    forall s ensures Lost(before, after, s) <==> IsCompleted(before, s) && s == step && wrote {
      assert s != step ==> (IsCompleted(after, s) <==> IsCompleted(before, s));
    }
  }

  /** A failure recorded for the current step, even for a stage that was completed,
      leaves a prefix completed and takes that record only. */
  lemma FailingCurrentStepKeepsPrefix(stages: seq<Step>, steps: map<Step, StepStatus>, step: Step)
    requires PrefixClosed(stages, steps) && StepIsLatest(stages, steps, step)
    ensures PrefixClosed(stages, steps[step := STEP_FAILED]) && StepIsLatest(stages, steps[step := STEP_FAILED], step)
    ensures LosesCurrentOnly(steps, step, steps[step := STEP_FAILED], true)
  {
    LosingCurrent(steps, step, true);
  }

  /** The history after a failure of the current stage, whose record was overwritten or
      not. */
  ghost function AfterFailure(log: seq<Event>, steps: map<Step, StepStatus>, step: Step, wrote: bool, status: Status): seq<Event> {
    if wrote && IsCompleted(steps, step) then log + [Reopened(step, status)] else log
  }

  /** A failure of the current stage keeps the engine and the history sound. */
  lemma StageFails(stages: seq<Step>, steps: map<Step, StepStatus>, step: Step, wrote: bool, log: seq<Event>, status: Status)
    requires PrefixClosed(stages, steps) && StepIsLatest(stages, steps, step)
    requires Fits(log) && Recorded(stages, steps, log) && EndsWhenFailed(log) && step in stages
    requires ReopenedInPlace(log) || !IsCompleted(steps, step)
    ensures var after, history := StepsAfterFailure(steps, step, wrote), AfterFailure(log, steps, step, wrote, status);
            && PrefixClosed(stages, after) && StepIsLatest(stages, after, step)
            && (forall s :: IsCompleted(after, s) ==> IsCompleted(steps, s))
            && LosesCurrentOnly(steps, step, after, wrote)
            && Fits(history) && Recorded(stages, after, history) && EndsWhenFailed(history)
            && OnlyReopened(log, history)
            && (ReopenedInPlace(log) && (status == PROVISIONING || history == log) ==> ReopenedInPlace(history))
            && (history != log ==> !IsCompleted(after, step))
  {
    LosingCurrent(steps, step, wrote);
    if wrote {
      FailingCurrentStepKeepsPrefix(stages, steps, step);
    }
    if wrote && IsCompleted(steps, step) {
      var e := Reopened(step, status);
      FitsSnoc(log, e);
      InPlaceSnoc(log, e);
      RecordedSnoc(stages, steps, steps[step := STEP_FAILED], log, e);
    }
  }

  /** The records and the history of a first run that has completed these stages. */
  ghost function FirstSteps(stages: seq<Step>): map<Step, StepStatus> {
    if stages == [] then map[] else FirstSteps(stages[..|stages| - 1])[stages[|stages| - 1] := STEP_COMPLETED]
  }

  ghost function FirstHistory(stages: seq<Step>): seq<Event> {
    if stages == [] then []
    else
      var s := stages[|stages| - 1];
      FirstHistory(stages[..|stages| - 1]) + [Inspected(s)] + [Completed(s)]
  }

  lemma {:induction false} FirstRunFits(all: seq<Step>, n: nat)
    requires Distinct(all) && n <= |all|
    ensures var steps, log := FirstSteps(all[..n]), FirstHistory(all[..n]);
            && (forall s :: IsCompleted(steps, s) <==> s in all[..n])
            && Fits(log) && Recorded(all, steps, log) && ReopenedInPlace(log)
  {
    if n > 0 {
      FirstRunFits(all, n - 1);
      assert all[..n][..n - 1] == all[..n - 1];
      var s, steps, log := all[n - 1], FirstSteps(all[..n - 1]), FirstHistory(all[..n - 1]);
      assert all[..n] == all[..n - 1] + [s];
      OneMoreStage(all, steps, log, s);
    }
  }

  lemma OneMoreStage(all: seq<Step>, steps: map<Step, StepStatus>, log: seq<Event>, s: Step)
    requires Fits(log) && Recorded(all, steps, log) && ReopenedInPlace(log) && s in all && !IsCompleted(steps, s)
    ensures var after, history := steps[s := STEP_COMPLETED], log + [Inspected(s)] + [Completed(s)];
            Fits(history) && Recorded(all, after, history) && ReopenedInPlace(history)
  {
    var begun := log + [Inspected(s)];
    FitsSnoc(log, Inspected(s));
    RecordedSnoc(all, steps, steps, log, Inspected(s));
    InPlaceSnoc(log, Inspected(s));
    FitsSnoc(begun, Completed(s));
    RecordedSnoc(all, steps, steps[s := STEP_COMPLETED], begun, Completed(s));
    InPlaceSnoc(begun, Completed(s));
  }

  /** Where a first run ends that completed every stage, but could not record that
      provisioning is: the failure of a check takes the last stage's record, and when
      the status write fails that stage is inspected again. The process must live on
      meanwhile: the recovery of the next start takes the row out of PROVISIONING. */
  lemma {:induction false} CompletedStageIsLost(stages: seq<Step>, last: Step)
    requires Distinct(stages) && stages != [] && stages[|stages| - 1] == last
    ensures var steps, log := FirstSteps(stages), FirstHistory(stages);
            && PrefixClosed(stages, steps) && StepIsLatest(stages, steps, last)
            && Fits(log) && Recorded(stages, steps, log) && ReopenedInPlace(log)
            && Lost(steps, steps[last := STEP_FAILED], last)
            && var history := log + [Reopened(last, PROVISIONING)] + [Inspected(last)];
               Fits(history) && EndsWhenFailed(history)
  {
    var steps, log, reopened := FirstSteps(stages), FirstHistory(stages), Reopened(last, PROVISIONING);
    FirstRunFits(stages, |stages|);
    assert stages[..|stages|] == stages;
    SaysSnoc(log, reopened, last);
    FitsSnoc(log, reopened);
    InPlaceSnoc(log, reopened);
    FitsSnoc(log + [reopened], Inspected(last));
    InPlaceSnoc(log + [reopened], Inspected(last));
  }

  class Engine {
    const repo: Repository
    const stages: seq<Step>
    /** Which stages' desired states hold on the server. */
    var desired: seq<bool>
    ghost var log: seq<Event>

    ghost predicate Valid()
      reads this, repo`steps, repo`step
    {
      && Distinct(stages) && |desired| == |stages|
      && PrefixClosed(stages, repo.steps)
      && (forall i :: 0 <= i < |stages| && IsCompleted(repo.steps, stages[i]) ==> desired[i])
      && StepIsLatest(stages, repo.steps, repo.step)
      && Fits(log) && Recorded(stages, repo.steps, log)
    }

    /** NewEngine accepts the stable order only. */
    constructor (repo: Repository, stages: seq<Step>)
      requires stages == StageNames && repo.steps == map[] && repo.step !in StageNames
      ensures Valid() && this.repo == repo && this.stages == stages && log == []
    {
      this.repo, this.stages := repo, stages;
      desired := seq(|stages|, i => false);
      log := [];
    }

    /** Inspect says truly whether the desired state holds, or fails. */
    method Inspect(i: nat) returns (ok: bool, satisfied: bool)
      requires i < |desired| == |stages| && Fits(log) && Recorded(stages, repo.steps, log) && !IsCompleted(repo.steps, stages[i])
      modifies repo.process, this`log
      ensures repo.process.alive ==> old(repo.process.alive)
      ensures ok ==> satisfied == desired[i]
      ensures repo.process.failures == old(repo.process.failures) + if ok then 0 else 1
      ensures log == old(log) + [Inspected(stages[i])] && Fits(log) && Recorded(stages, repo.steps, log)
    {
      FitsSnoc(log, Inspected(stages[i]));
      RecordedSnoc(stages, repo.steps, repo.steps, log, Inspected(stages[i]));
      log := log + [Inspected(stages[i])];
      ok := repo.process.Attempt();
      satisfied := desired[i];
    }

    /** Apply may do anything to its own stage and to later ones, also when it fails. */
    method Apply(i: nat) returns (ok: bool)
      requires i < |desired| == |stages| && Fits(log) && Recorded(stages, repo.steps, log) && !IsCompleted(repo.steps, stages[i])
      modifies repo.process, this`desired, this`log
      ensures repo.process.alive ==> old(repo.process.alive)
      ensures |desired| == |old(desired)| && desired[..i] == old(desired)[..i]
      ensures repo.process.failures == old(repo.process.failures) + if ok then 0 else 1
      ensures log == old(log) + [Applied(stages[i])] && Fits(log) && Recorded(stages, repo.steps, log)
    {
      FitsSnoc(log, Applied(stages[i]));
      RecordedSnoc(stages, repo.steps, repo.steps, log, Applied(stages[i]));
      log := log + [Applied(stages[i])];
      var done := repo.process.Attempt();
      if done {
        var j := i;
        while j < |desired|
          modifies this`desired
          invariant i <= j <= |desired| == |old(desired)| && desired[..i] == old(desired)[..i]
          decreases |desired| - j
        {
          var holds: bool := *;
          desired := desired[j := holds];
          j := j + 1;
        }
      }
      ok := *;
      ok := ok && done;
      if done && !ok {
        repo.process.Refused();
      }
    }

    /** Validate succeeds only when the desired state holds. */
    method Validate(i: nat) returns (ok: bool)
      requires i < |desired| == |stages|
      modifies repo.process
      ensures repo.process.alive ==> old(repo.process.alive)
      ensures ok ==> desired[i]
      ensures old(repo.process.failures) <= repo.process.failures
      ensures if ok then repo.process.failures == old(repo.process.failures) else old(repo.process.failures) < repo.process.failures || !desired[i]
    {
      ok := repo.process.Attempt();
      ok := ok && desired[i];
    }

    /** Inspect, and where that is not satisfied Apply and Validate. */
    method RunStage(i: nat) returns (ok: bool, changed: bool)
      requires Valid() && i < |stages| && !IsCompleted(repo.steps, stages[i])
      modifies repo.process, this`desired, this`log
      ensures Valid() && (repo.process.alive ==> old(repo.process.alive))
      ensures ok ==> desired[i]
      ensures desired[..i] == old(desired)[..i]
      ensures !changed ==> desired == old(desired)
      ensures changed ==> !old(desired)[i]
      ensures log == old(log) + [Inspected(stages[i])] + if changed then [Applied(stages[i])] else []
      ensures old(repo.process.failures) <= repo.process.failures
      ensures !ok ==> old(repo.process.failures) < repo.process.failures || (changed && !desired[i])
      ensures Untouched(stages, old(repo.steps), old(log), log)
      ensures ok ==> repo.process.failures == old(repo.process.failures)
    {
      var inspected, satisfied := Inspect(i);
      if !inspected {
        return false, false;
      }
      if satisfied {
        return true, false;
      }
      var applied := Apply(i);
      EarlierKept(old(desired), desired, i);
      if !applied {
        return false, true;
      }
      ok := Validate(i);
      return ok, true;
    }

    /** Completed stages are skipped, the others run in order until one fails. */
    method Run(deploymentID: string) returns (ok: bool, reports: seq<Report>)
      requires Valid()
      modifies repo.process, repo`steps, repo`step, this`desired, this`log
      ensures Valid() && (repo.process.alive ==> old(repo.process.alive))
      ensures ok ==> Finished(stages, repo.steps, desired) && |reports| == |stages|
      ensures InOrder(stages, reports) && SkippedWereCompleted(stages, old(repo.steps), reports)
      ensures Advances(stages, old(repo.steps), repo.steps)
      ensures repo.step == old(repo.step) || (repo.step in stages && !IsCompleted(old(repo.steps), repo.step))
      ensures Untouched(stages, old(repo.steps), old(log), log)
      ensures Accounts(old(log), log, reports, ok || EndsInFailure(reports))
      ensures old(repo.process.failures) <= repo.process.failures
      ensures !ok ==>
                || old(repo.process.failures) < repo.process.failures || Names.TrimSpace(deploymentID) == ""
                || (EndsInFailure(reports) && !desired[|reports| - 1])
      ensures ok ==> repo.process.failures == old(repo.process.failures)
    {
      reports := [];
      if Names.TrimSpace(deploymentID) == "" {
        return false, reports;
      }
      var listed := repo.process.Attempt();
      if !listed {
        return false, reports;
      }
      var completed := repo.steps;
      for i := 0 to |stages|
        modifies repo.process, repo`steps, repo`step, this`desired, this`log
        invariant Valid() && (repo.process.alive ==> old(repo.process.alive))
        invariant Reached(stages, completed, repo.steps, i)
        invariant |reports| == i && Reported(stages, completed, reports)
        invariant Advances(stages, completed, repo.steps)
        invariant repo.step == old(repo.step) || (repo.step in stages && !IsCompleted(completed, repo.step))
        invariant Untouched(stages, completed, old(log), log)
        invariant Accounts(old(log), log, reports, true)
        invariant repo.process.failures == old(repo.process.failures)
      {
        ok, reports := Next(i, completed, reports, old(log));
        if !ok {
          return;
        }
      }
      ok := true;
    }

    method Next(i: nat, completed: map<Step, StepStatus>, before: seq<Report>, ghost start: seq<Event>) returns (ok: bool, reports: seq<Report>)
      requires Valid() && i < |stages| && Reached(stages, completed, repo.steps, i)
      requires |before| == i && Reported(stages, completed, before) && Accounts(start, log, before, true)
      modifies repo.process, repo`steps, repo`step, this`desired, this`log
      ensures Valid() && (repo.process.alive ==> old(repo.process.alive))
      ensures ok ==> Reached(stages, completed, repo.steps, i + 1) && |reports| == i + 1 && Reported(stages, completed, reports)
      ensures InOrder(stages, reports) && SkippedWereCompleted(stages, completed, reports)
      ensures Advances(stages, old(repo.steps), repo.steps)
      ensures repo.step == old(repo.step) || (repo.step in stages && !IsCompleted(old(repo.steps), repo.step))
      ensures Untouched(stages, old(repo.steps), old(log), log)
      ensures Accounts(start, log, reports, ok || EndsInFailure(reports))
      ensures old(repo.process.failures) <= repo.process.failures
      ensures !ok ==>
                old(repo.process.failures) < repo.process.failures || (EndsInFailure(reports) && |reports| == i + 1 && !desired[i])
      ensures ok ==> repo.process.failures == old(repo.process.failures)
    {
      if IsCompleted(completed, stages[i]) {
        var skipped := Report(stages[i], SKIPPED, false);
        ReportedSnoc(stages, completed, before, skipped);
        WorkSnoc(start, before, skipped);
        return true, before + [skipped];
      }
      var done, report := RunOne(i);
      reports := before;
      if report.Some? {
        ReportedSnoc(stages, completed, before, report.value);
        WorkSnoc(start, before, report.value);
        reports := before + [report.value];
      }
      return done, reports;
    }

    /** One stage that is not completed: ctx, RUNNING, the stage itself, its end. */
    method RunOne(i: nat) returns (ok: bool, report: Option<Report>)
      requires Valid() && i < |stages| && !IsCompleted(repo.steps, stages[i])
      requires forall j :: 0 <= j < i ==> IsCompleted(repo.steps, stages[j])
      modifies repo.process, repo`steps, repo`step, this`desired, this`log
      ensures Valid() && (repo.process.alive ==> old(repo.process.alive))
      ensures ok ==> IsCompleted(repo.steps, stages[i]) && report.Some?
      ensures report.Some? ==> report.value.name == stages[i] && report.value.status == if ok then STEP_COMPLETED else STEP_FAILED
      ensures forall j :: 0 <= j < |stages| && j != i ==> (IsCompleted(repo.steps, stages[j]) <==> IsCompleted(old(repo.steps), stages[j]))
      ensures Advances(stages, old(repo.steps), repo.steps)
      ensures repo.step == old(repo.step) || (repo.step in stages && !IsCompleted(old(repo.steps), repo.step))
      ensures Untouched(stages, old(repo.steps), old(log), log)
      ensures old(log) <= log && (report.Some? ==> log == old(log) + WorkOf(report.value))
      ensures old(repo.process.failures) <= repo.process.failures
      ensures report.None? ==> old(repo.process.failures) < repo.process.failures
      ensures !ok ==> old(repo.process.failures) < repo.process.failures || !desired[i]
      ensures report.Some? && !ok ==>
                || Row(repo.steps, stages[i]) == Some(STEP_FAILED)
                || (Row(repo.steps, stages[i]) == Some(RUNNING)
                    && old(repo.process.failures) + (if desired[i] then 2 else 1) <= repo.process.failures)
      ensures ok ==> repo.process.failures == old(repo.process.failures)
    {
      var cancelled := repo.process.Cancelled();
      if cancelled {
        return false, None;
      }
      var started := Record(i, RUNNING);
      if !started {
        return false, None;
      }
      ok, report := RunStarted(i);
    }

    /** The stage itself and its end. */
    method RunStarted(i: nat) returns (ok: bool, report: Option<Report>)
      requires Valid() && i < |stages| && repo.step == stages[i] && Row(repo.steps, stages[i]) == Some(RUNNING)
      requires forall j :: 0 <= j < i ==> IsCompleted(repo.steps, stages[j])
      modifies repo.process, repo`steps, repo`step, this`desired, this`log
      ensures Valid() && (repo.process.alive ==> old(repo.process.alive)) && repo.step == old(repo.step)
      ensures ok ==> IsCompleted(repo.steps, stages[i]) && report.Some?
      ensures report.Some? ==> report.value.name == stages[i] && report.value.status == if ok then STEP_COMPLETED else STEP_FAILED
      ensures forall j :: 0 <= j < |stages| && j != i ==> (IsCompleted(repo.steps, stages[j]) <==> IsCompleted(old(repo.steps), stages[j]))
      ensures Advances(stages, old(repo.steps), repo.steps)
      ensures Untouched(stages, old(repo.steps), old(log), log)
      ensures old(log) <= log && (report.Some? ==> log == old(log) + WorkOf(report.value))
      ensures old(repo.process.failures) <= repo.process.failures
      ensures report.None? ==> old(repo.process.failures) < repo.process.failures
      ensures !ok ==> old(repo.process.failures) < repo.process.failures || !desired[i]
      ensures report.Some? && !ok ==>
                || Row(repo.steps, stages[i]) == Some(STEP_FAILED)
                || (Row(repo.steps, stages[i]) == Some(RUNNING)
                    && old(repo.process.failures) + (if desired[i] then 2 else 1) <= repo.process.failures)
      ensures ok ==> repo.process.failures == old(repo.process.failures)
    {
      var done, changed := RunStage(i);
      if !done {
        var recorded := Record(i, STEP_FAILED);
        return false, Some(Report(stages[i], STEP_FAILED, changed));
      }
      var recorded := Complete(i);
      if !recorded {
        return false, None;
      }
      return true, Some(Report(stages[i], STEP_COMPLETED, changed));
    }

    /** RUNNING or FAILED for a stage that is not completed. */
    method Record(i: nat, status: StepStatus) returns (ok: bool)
      requires Valid() && i < |stages| && !IsCompleted(repo.steps, stages[i])
      requires status == RUNNING || status == STEP_FAILED
      modifies repo.process, repo`steps, repo`step
      ensures Valid() && (repo.process.alive ==> old(repo.process.alive))
      ensures repo.steps == if ok then old(repo.steps)[stages[i] := status] else old(repo.steps)
      ensures forall j :: 0 <= j < |stages| && j != i ==> (IsCompleted(repo.steps, stages[j]) <==> IsCompleted(old(repo.steps), stages[j]))
      ensures !IsCompleted(repo.steps, stages[i]) && (ok && status == RUNNING ==> repo.step == stages[i])
      ensures repo.process.failures == old(repo.process.failures) + if ok then 0 else 1
      ensures Advances(stages, old(repo.steps), repo.steps)
      ensures repo.step == old(repo.step) || repo.step == stages[i]
    {
      ok := repo.RecordDeploymentStep(stages[i], status);
      assert forall j :: 0 <= j < |stages| ==> (IsCompleted(repo.steps, stages[j]) <==> IsCompleted(old(repo.steps), stages[j]));
    }

    /** COMPLETED for the first stage that is not. */
    method Complete(i: nat) returns (ok: bool)
      requires Valid() && i < |stages| && !IsCompleted(repo.steps, stages[i]) && desired[i] && repo.step == stages[i]
      requires forall j :: 0 <= j < i ==> IsCompleted(repo.steps, stages[j])
      requires log != [] && Works(log[|log| - 1], stages[i])
      modifies repo.process, repo`steps, repo`step, this`log
      ensures Valid() && (repo.process.alive ==> old(repo.process.alive))
      ensures forall j :: 0 <= j < |stages| ==>
                (IsCompleted(repo.steps, stages[j]) <==> (ok && j == i) || IsCompleted(old(repo.steps), stages[j]))
      ensures Advances(stages, old(repo.steps), repo.steps)
      ensures repo.step == old(repo.step)
      ensures log == old(log) + if ok then [Completed(stages[i])] else []
      ensures repo.process.failures == old(repo.process.failures) + if ok then 0 else 1
    {
      ok := repo.RecordDeploymentStep(stages[i], STEP_COMPLETED);
      if ok {
        FitsSnoc(log, Completed(stages[i]));
        RecordedSnoc(stages, old(repo.steps), repo.steps, log, Completed(stages[i]));
        log := log + [Completed(stages[i])];
      }
      assert forall j :: 0 <= j < |stages| ==>
        (IsCompleted(repo.steps, stages[j]) <==> (ok && j == i) || IsCompleted(old(repo.steps), stages[j]));
    }
  }

  lemma EarlierKept(before: seq<bool>, after: seq<bool>, i: nat)
    requires i <= |before| == |after| && before[..i] == after[..i]
    ensures forall j :: 0 <= j < i ==> after[j] == before[j]
  {
    forall j | 0 <= j < i ensures after[j] == before[j] {
      assert after[..i][j] == before[..i][j];
    }
  }

  /** Whatever runs, failures and crashes came before, the next run that succeeds
      leaves every stage completed and in its desired state, and no stage that was
      completed at the start is inspected or applied again. */
  method Retry(engine: Engine, runs: nat) returns (done: bool)
    requires engine.Valid()
    modifies engine, engine.repo, engine.repo.process
    ensures engine.Valid() && Untouched(engine.stages, old(engine.repo.steps), old(engine.log), engine.log)
    ensures !done ==> runs == 0 || old(engine.repo.process.failures) < engine.repo.process.failures || exists j :: 0 <= j < |engine.desired| && !engine.desired[j]
    ensures done ==> Finished(engine.stages, engine.repo.steps, engine.desired)
    ensures Advances(engine.stages, old(engine.repo.steps), engine.repo.steps)
  {
    done := false;
    for i := 0 to runs
      invariant engine.Valid() && Untouched(engine.stages, old(engine.repo.steps), old(engine.log), engine.log)
      invariant old(engine.repo.process.failures) <= engine.repo.process.failures
      invariant !done ==> i == 0 || old(engine.repo.process.failures) < engine.repo.process.failures || exists j :: 0 <= j < |engine.desired| && !engine.desired[j]
      invariant done ==> Finished(engine.stages, engine.repo.steps, engine.desired)
      invariant Advances(engine.stages, old(engine.repo.steps), engine.repo.steps)
    {
      assert Names.TrimSpace("deployment") == "deployment";
      var ok, reports := engine.Run("deployment");
      done := ok;
      if * {
        engine.repo.process.Restart();
      }
    }
  }
}
