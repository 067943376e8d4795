/** What has happened to the provisioning stages of a deployment, and exactly when a
    stage that was completed is worked on again (internal/provisioner/engine.go,
    internal/orchestrator/service.go). */
module StageHistory {
  import opened DeploymentTables

  /** Reopened: the record of a completed stage was overwritten with FAILED; `status`
      is the deployment's status afterwards. */
  datatype Event = Inspected(stage: Step) | Applied(stage: Step) | Completed(stage: Step) | Reopened(stage: Step, status: Status)

  predicate Works(e: Event, s: Step) {
    (e.Inspected? || e.Applied?) && e.stage == s
  }

  /** Whether the record of s says COMPLETED after the first n events. */
  predicate SaysCompleted(log: seq<Event>, n: nat, s: Step)
    requires n <= |log|
  {
    n > 0 &&
    (if log[n - 1].stage == s && (log[n - 1].Completed? || log[n - 1].Reopened?) then log[n - 1].Completed?
     else SaysCompleted(log, n - 1, s))
  }

  /** A stage is worked on only while its record does not say COMPLETED, is completed
      right after it was worked on, and can be reopened only when it was completed. */
  ghost predicate EventFits(log: seq<Event>, k: nat)
    requires k < |log|
  {
    match log[k]
    case Inspected(s) => !SaysCompleted(log, k, s)
    case Applied(s) => !SaysCompleted(log, k, s)
    case Completed(s) => k > 0 && Works(log[k - 1], s)
    case Reopened(s, _) => SaysCompleted(log, k, s)
  }

  ghost predicate Fits(log: seq<Event>) {
    forall k :: 0 <= k < |log| ==> EventFits(log, k)
  }

  /** Every stage was reopened while the deployment stayed at PROVISIONING. */
  ghost predicate ReopenedInPlace(log: seq<Event>) {
    forall k :: 0 <= k < |log| && log[k].Reopened? ==> log[k].status == PROVISIONING
  }

  /** After a reopening that changed the deployment's status nothing happens any more. */
  ghost predicate EndsWhenFailed(log: seq<Event>) {
    forall k :: 0 <= k < |log| - 1 && log[k].Reopened? ==> log[k].status == PROVISIONING
  }

  /** Nothing but reopenings was added. */
  ghost predicate OnlyReopened(before: seq<Event>, after: seq<Event>) {
    before <= after && forall k :: |before| <= k < |after| ==> after[k].Reopened?
  }

  lemma {:induction false} SaysOfPrefix(log: seq<Event>, e: Event, n: nat, s: Step)
    requires n <= |log|
    ensures SaysCompleted(log + [e], n, s) == SaysCompleted(log, n, s)
  {
    if n > 0 {
      SaysOfPrefix(log, e, n - 1, s);
    }
  }

  lemma SaysSnoc(log: seq<Event>, e: Event, s: Step)
    ensures SaysCompleted(log + [e], |log| + 1, s) ==
            if s == e.stage && (e.Completed? || e.Reopened?) then e.Completed? else SaysCompleted(log, |log|, s)
  {
    SaysOfPrefix(log, e, |log|, s);
    assert (log + [e])[|log|] == e;
  }

  /** One more event. */
  lemma FitsSnoc(log: seq<Event>, e: Event)
    requires Fits(log)
    requires e.Inspected? || e.Applied? ==> !SaysCompleted(log, |log|, e.stage)
    requires e.Completed? ==> log != [] && Works(log[|log| - 1], e.stage)
    requires e.Reopened? ==> SaysCompleted(log, |log|, e.stage)
    ensures Fits(log + [e])
  {
    var all := log + [e];
    forall k | 0 <= k < |all| ensures EventFits(all, k) {
      SaysOfPrefix(log, e, k, all[k].stage);
      if k < |log| {
        assert EventFits(log, k);
      }
    }
  }

  lemma InPlaceSnoc(log: seq<Event>, e: Event)
    requires ReopenedInPlace(log)
    ensures EndsWhenFailed(log + [e])
    ensures (e.Reopened? && e.status != PROVISIONING) || ReopenedInPlace(log + [e])
  {
  }

  /** A record that stopped saying COMPLETED was reopened in between. */
  lemma {:induction false} ReopenedBetween(log: seq<Event>, s: Step, j: nat, k: nat) returns (m: nat)
    requires j < k <= |log| && log[j] == Completed(s) && !SaysCompleted(log, k, s)
    ensures j < m < k && log[m].Reopened? && log[m].stage == s
    decreases k
  {
    if log[k - 1].Reopened? && log[k - 1].stage == s {
      m := k - 1;
    } else {
      m := ReopenedBetween(log, s, j, k - 1);
    }
  }

  /** A record that says COMPLETED again was completed again in between. */
  lemma {:induction false} CompletedBetween(log: seq<Event>, s: Step, m: nat, k: nat) returns (n: nat)
    requires m < k <= |log| && log[m].Reopened? && log[m].stage == s && SaysCompleted(log, k, s)
    ensures m < n < k && log[n] == Completed(s)
    decreases k
  {
    if log[k - 1] == Completed(s) {
      n := k - 1;
    } else {
      n := CompletedBetween(log, s, m, k - 1);
    }
  }

  /** A completed stage is worked on again only after its record was overwritten while
      the deployment stayed at PROVISIONING. */
  lemma RedoneOnlyWhenReopened(log: seq<Event>, s: Step, j: nat, k: nat) returns (m: nat)
    requires Fits(log) && EndsWhenFailed(log)
    requires j < k < |log| && log[j] == Completed(s) && Works(log[k], s)
    ensures j < m < k && log[m] == Reopened(s, PROVISIONING)
  {
    assert EventFits(log, k);
    m := ReopenedBetween(log, s, j, k);
  }

  /** Exactly when a completed stage is worked on again before it is completed for
      good: its record was overwritten while the deployment stayed at PROVISIONING. */
  lemma RedoneExactlyWhen(log: seq<Event>, s: Step, j: nat)
    requires Fits(log) && EndsWhenFailed(log)
    requires j < |log| && log[j] == Completed(s) && SaysCompleted(log, |log|, s)
    ensures (exists k :: j < k < |log| && Works(log[k], s)) <==> (exists m :: j < m < |log| && log[m] == Reopened(s, PROVISIONING))
  {
    if k :| j < k < |log| && Works(log[k], s) {
      var m := RedoneOnlyWhenReopened(log, s, j, k);
    }
    if m :| j < m < |log| && log[m] == Reopened(s, PROVISIONING) {
      var n := CompletedBetween(log, s, m, |log|);
      assert EventFits(log, n);
      assert j < n - 1 && Works(log[n - 1], s);
    }
  }
}
