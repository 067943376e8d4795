/** Any number of concurrent Prepare calls for one SNI (internal/certmanager/
    manager.go, lock.go): lock, look at the active certificate, order one if there is
    none that is fresh, unlock. CertificateManager.Manager.Prepare promises that what
    it does is a `Section`, and a section is steps of this system. */
module SingleFlight {
  import opened Wrappers
  import L = KeyedLock

  datatype Pc =
    | Enter      // before Lock
    | Await      // in its select
    | Abandon    // cancelled there
    | Check      // lock held, before the active certificate is loaded
    | Issuing    // the issuer has been called
    | Unlock
    | Drop
    | Finished

  /** `expiry` is that of the active certificate. */
  datatype System = System(lock: L.State, pcs: map<nat, Pc>, expiry: Option<int>, clock: int, calls: nat, failed: nat)

  datatype Event =
    | Arrive(thread: nat)
    | LockStep(thread: nat, step: L.Step)
    | FoundFresh(thread: nat)             // a fresh certificate
    | LoadFailed(thread: nat)             // the active certificate could not be loaded
    | Order(thread: nat)                  // none, invalid, or near its end
    | Issued(thread: nat, expiry: int)
    | IssueFailed(thread: nat)
    | Tick(clock: int)

  function Me(t: nat): L.Call {
    L.Call(t, 0)
  }

  predicate At(s: System, t: nat, pc: Pc) {
    t in s.pcs && s.pcs[t] == pc
  }

  /** The certificate would be returned from the cache. */
  predicate Fresh(s: System, renewBefore: int) {
    s.expiry.Some? && s.expiry.value - s.clock > renewBefore
  }

  function AfterLock(pc: Pc, step: L.Step): Pc {
    match step
    case Register(_) => Await
    case Take => Check
    case GiveUp => Abandon
    case ReturnToken => Drop
    case Release => Finished
  }

  predicate LockStepFits(pc: Pc, step: L.Step, sni: string) {
    match step
    case Register(key) => pc == Enter && key == sni
    case Take => pc == Await
    case GiveUp => pc == Await
    case ReturnToken => pc == Unlock
    case Release => pc == Drop || pc == Abandon
  }

  /** Within the horizon an issued certificate is further from its end than
      renewBefore. */
  predicate Possible(s: System, e: Event, sni: string, renewBefore: int, horizon: int) {
    match e
    case Arrive(t) => t !in s.pcs
    case LockStep(t, step) => t in s.pcs && LockStepFits(s.pcs[t], step, sni) && L.Enabled(s.lock, Me(t), step)
    case FoundFresh(t) => At(s, t, Check) && Fresh(s, renewBefore)
    case LoadFailed(t) => At(s, t, Check)
    case Order(t) => At(s, t, Check) && !Fresh(s, renewBefore)
    case Issued(t, expiry) => At(s, t, Issuing) && expiry - horizon > renewBefore
    case IssueFailed(t) => At(s, t, Issuing)
    case Tick(clock) => s.clock <= clock <= horizon
  }

  function After(s: System, e: Event, sni: string, renewBefore: int, horizon: int): System
    requires Possible(s, e, sni, renewBefore, horizon)
  {
    match e
    case Arrive(t) => s.(pcs := s.pcs[t := Enter])
    case LockStep(t, step) => s.(lock := L.Next(s.lock, Me(t), step), pcs := s.pcs[t := AfterLock(s.pcs[t], step)])
    case FoundFresh(t) => s.(pcs := s.pcs[t := Unlock])
    case LoadFailed(t) => s.(pcs := s.pcs[t := Unlock])
    case Order(t) => s.(pcs := s.pcs[t := Issuing], calls := s.calls + 1)
    case Issued(t, expiry) => s.(pcs := s.pcs[t := Unlock], expiry := Some(expiry))
    case IssueFailed(t) => s.(pcs := s.pcs[t := Unlock], failed := s.failed + 1)
    case Tick(clock) => s.(clock := clock)
  }

  /** Event i takes the run from its i-th state to the next. */
  ghost predicate StepAt(run: seq<System>, events: seq<Event>, i: nat, sni: string, renewBefore: int, horizon: int)
    requires i < |events| && i + 1 < |run|
  {
    && Possible(run[i], events[i], sni, renewBefore, horizon)
    && run[i + 1] == After(run[i], events[i], sni, renewBefore, horizon)
  }

  ghost predicate IsRun(run: seq<System>, events: seq<Event>, sni: string, renewBefore: int, horizon: int) {
    && |run| == |events| + 1
    && run[0] == System(L.Empty, map[], None, run[0].clock, 0, 0) && run[0].clock <= horizon
    && forall i :: 0 <= i < |events| ==> StepAt(run, events, i, sni, renewBefore, horizon)
  }

  // ---- The invariant ----

  predicate InPhase(s: System, t: nat, phase: L.Phase, sni: string) {
    L.UsedAs(s.lock, Me(t), phase) && L.KeyOf(s.lock, Me(t)) == sni
  }

  predicate Agrees(s: System, t: nat, sni: string)
    requires t in s.pcs
  {
    match s.pcs[t]
    case Enter => Me(t) !in s.lock.uses
    case Finished => Me(t) !in s.lock.uses
    case Await => InPhase(s, t, L.Waiting, sni)
    case Abandon => InPhase(s, t, L.Leaving, sni)
    case Drop => InPhase(s, t, L.Leaving, sni)
    case _ => InPhase(s, t, L.Holding, sni)
  }

  function IssuingThreads(s: System): set<nat> {
    set t | t in s.pcs && s.pcs[t] == Issuing
  }

  lemma OneHolder(s: System, t: nat, u: nat, sni: string)
    requires L.Inv(s.lock) && InPhase(s, t, L.Holding, sni) && InPhase(s, u, L.Holding, sni)
    ensures t == u
  {
    L.MutualExclusion(s.lock, Me(t), Me(u));
  }

  /** One Prepare while it holds the lock: `before` and `after` are the expiries of the
      active certificate, `clock` is a time at which it was looked at. Nothing is ordered
      only when it was found fresh, or `unread`. */
  predicate Section(before: Option<int>, clock: int, after: Option<int>, ordered: nat, failed: nat, renewBefore: int, unread: bool) {
    || (ordered == 0 && failed == 0 && after == before && (unread || (before.Some? && before.value - clock > renewBefore)))
    || (&& ordered == 1 && !(before.Some? && before.value - clock > renewBefore)
        && if failed == 0 then after.Some? else failed == 1 && after == before)
  }

  /** A section is one or two steps from Check to Unlock, provided an issued
      certificate lasts. */
  lemma SectionIsSteps(s: System, t: nat, after: Option<int>, ordered: nat, failed: nat, unread: bool, sni: string, renewBefore: int, horizon: int)
    requires At(s, t, Check) && Section(s.expiry, s.clock, after, ordered, failed, renewBefore, unread)
    requires ordered == 1 && failed == 0 ==> after.value - horizon > renewBefore
    ensures var s' := s.(pcs := s.pcs[t := Unlock], expiry := after, calls := s.calls + ordered, failed := s.failed + failed);
            if ordered == 0 then
              var e := if Fresh(s, renewBefore) then FoundFresh(t) else LoadFailed(t);
              (unread || e.FoundFresh?) && Possible(s, e, sni, renewBefore, horizon) && s' == After(s, e, sni, renewBefore, horizon)
            else
              && Possible(s, Order(t), sni, renewBefore, horizon)
              && var mid := After(s, Order(t), sni, renewBefore, horizon);
                 var e := if failed == 0 then Issued(t, after.value) else IssueFailed(t);
                 Possible(mid, e, sni, renewBefore, horizon) && s' == After(mid, e, sni, renewBefore, horizon)
  {
    var s' := s.(pcs := s.pcs[t := Unlock], expiry := after, calls := s.calls + ordered, failed := s.failed + failed);
    if ordered == 1 {
      assert s.pcs[t := Issuing][t := Unlock] == s.pcs[t := Unlock];
    }
  }

  ghost predicate AllAgree(s: System, sni: string) {
    && (forall t :: t in s.pcs ==> Agrees(s, t, sni))
    && (forall c :: c in s.lock.uses ==> c.caller in s.pcs && c == Me(c.caller))
  }

  ghost predicate Balanced(s: System, renewBefore: int, horizon: int) {
    && s.clock <= horizon
    && s.calls == s.failed + (if s.expiry.Some? then 1 else 0) + |IssuingThreads(s)|
    && (s.expiry.Some? ==> s.expiry.value - horizon > renewBefore && IssuingThreads(s) == {})
  }

  lemma OtherCallsStay(s: L.State, c: L.Call, step: L.Step, d: L.Call)
    requires L.Enabled(s, c, step) && d != c
    ensures d in s.uses <==> d in L.Next(s, c, step).uses
    ensures forall phase :: L.UsedAs(s, d, phase) ==>
              L.UsedAs(L.Next(s, c, step), d, phase) && L.KeyOf(L.Next(s, c, step), d) == L.KeyOf(s, d)
  {
  }

  lemma LockStepAgrees(s: System, t: nat, step: L.Step, sni: string)
    requires t in s.pcs && LockStepFits(s.pcs[t], step, sni) && L.Enabled(s.lock, Me(t), step) && AllAgree(s, sni)
    requires step.Register? && sni in s.lock.live ==>
               s.lock.live[sni] < |s.lock.table| && s.lock.table[s.lock.live[sni]].key == sni
    ensures AllAgree(s.(lock := L.Next(s.lock, Me(t), step), pcs := s.pcs[t := AfterLock(s.pcs[t], step)]), sni)
  {
    var s' := s.(lock := L.Next(s.lock, Me(t), step), pcs := s.pcs[t := AfterLock(s.pcs[t], step)]);
    assert Agrees(s, t, sni);
    forall u | u in s'.pcs ensures Agrees(s', u, sni) {
      if u != t {
        assert Agrees(s, u, sni);
        OtherCallsStay(s.lock, Me(t), step, Me(u));
      }
    }
  }

  lemma BodyStepAgrees(s: System, e: Event, sni: string, renewBefore: int, horizon: int)
    requires AllAgree(s, sni) && Possible(s, e, sni, renewBefore, horizon) && !e.LockStep?
    ensures AllAgree(After(s, e, sni, renewBefore, horizon), sni)
  {
    var s' := After(s, e, sni, renewBefore, horizon);
    forall u | u in s'.pcs ensures Agrees(s', u, sni) {
      if u in s.pcs {
        assert Agrees(s, u, sni);
      }
    }
  }

  /** The thread in the critical section is the only one that can be issuing. */
  lemma IssuingIsAlone(s: System, t: nat, sni: string)
    requires L.Inv(s.lock) && AllAgree(s, sni) && t in s.pcs && s.pcs[t] in {Check, Issuing}
    ensures IssuingThreads(s) <= {t}
  {
    assert Agrees(s, t, sni);
    forall u | u in IssuingThreads(s) ensures u == t {
      assert Agrees(s, u, sni);
      OneHolder(s, t, u, sni);
    }
  }

  /** One thread starts or ends an order. */
  lemma IssuingChanges(s: System, s': System, t: nat, pc: Pc)
    requires t in s.pcs && IssuingThreads(s) <= {t} && s'.pcs == s.pcs[t := pc]
    ensures IssuingThreads(s') == if pc == Issuing then {t} else {}
    ensures IssuingThreads(s) == if s.pcs[t] == Issuing then {t} else {}
    ensures |IssuingThreads(s')| == if pc == Issuing then 1 else 0
    ensures |IssuingThreads(s)| == if s.pcs[t] == Issuing then 1 else 0
  {
    forall u ensures u in IssuingThreads(s') <==> u == t && pc == Issuing {
      if u != t {
        assert u !in IssuingThreads(s);
      }
    }
    assert t in IssuingThreads(s) <==> s.pcs[t] == Issuing;
    assert IssuingThreads(s') == if pc == Issuing then {t} else {};
  }

  /** The other steps neither start nor end one. */
  lemma IssuingStays(s: System, e: Event, sni: string, renewBefore: int, horizon: int)
    requires Possible(s, e, sni, renewBefore, horizon) && (e.Arrive? || e.LockStep? || e.Tick?)
    ensures IssuingThreads(After(s, e, sni, renewBefore, horizon)) == IssuingThreads(s)
  {
  }

  lemma StepBalances(s: System, e: Event, sni: string, renewBefore: int, horizon: int)
    requires Balanced(s, renewBefore, horizon) && Possible(s, e, sni, renewBefore, horizon)
    requires e.Order? || e.FoundFresh? || e.LoadFailed? || e.Issued? || e.IssueFailed? ==> IssuingThreads(s) <= {e.thread}
    ensures Balanced(After(s, e, sni, renewBefore, horizon), renewBefore, horizon)
  {
    var s' := After(s, e, sni, renewBefore, horizon);
    if e.Arrive? || e.LockStep? || e.Tick? {
      IssuingStays(s, e, sni, renewBefore, horizon);
    } else {
      IssuingChanges(s, s', e.thread, if e.Order? then Issuing else Unlock);
    }
  }

  ghost predicate Inv(s: System, sni: string, renewBefore: int, horizon: int) {
    L.Inv(s.lock) && AllAgree(s, sni) && Balanced(s, renewBefore, horizon)
  }

  lemma StepKeepsInv(s: System, e: Event, sni: string, renewBefore: int, horizon: int)
    requires Inv(s, sni, renewBefore, horizon) && Possible(s, e, sni, renewBefore, horizon)
    ensures Inv(After(s, e, sni, renewBefore, horizon), sni, renewBefore, horizon)
  {
    if e.LockStep? {
      L.StepKeepsInv(s.lock, Me(e.thread), e.step);
      LockStepAgrees(s, e.thread, e.step, sni);
    } else {
      BodyStepAgrees(s, e, sni, renewBefore, horizon);
      if !e.Tick? && !e.Arrive? {
        IssuingIsAlone(s, e.thread, sni);
      }
    }
    StepBalances(s, e, sni, renewBefore, horizon);
  }

  /** Single flight: however many calls run concurrently, the issuer is called at most
      once more than the number of orders that failed. */
  lemma {:induction false} IssuerCallsAreBounded(run: seq<System>, events: seq<Event>, i: nat,
                                                 sni: string, renewBefore: int, horizon: int)
    requires IsRun(run, events, sni, renewBefore, horizon) && i < |run|
    ensures Inv(run[i], sni, renewBefore, horizon)
    ensures run[i].calls <= 1 + run[i].failed
  {
    if i == 0 {
      L.InitInv();
      assert IssuingThreads(run[0]) == {};
    } else {
      IssuerCallsAreBounded(run, events, i - 1, sni, renewBefore, horizon);
      assert StepAt(run, events, i - 1, sni, renewBefore, horizon);
      StepKeepsInv(run[i - 1], events[i - 1], sni, renewBefore, horizon);
    }
    AtMostOneOrder(run[i], sni, renewBefore, horizon);
  }

  lemma AtMostOneOrder(s: System, sni: string, renewBefore: int, horizon: int)
    requires Inv(s, sni, renewBefore, horizon)
    ensures |IssuingThreads(s)| <= 1
  {
    if t :| t in IssuingThreads(s) {
      IssuingIsAlone(s, t, sni);
      assert IssuingThreads(s) == {t};
    }
  }

  // ---- Deadlock freedom ----

  /** A step of a caller that is already there, neither a failure nor a cancellation. */
  ghost predicate GoesOn(s: System, e: Event, sni: string, renewBefore: int, horizon: int) {
    && Possible(s, e, sni, renewBefore, horizon)
    && (e.FoundFresh? || e.Order? || e.Issued? || (e.LockStep? && !e.step.GiveUp?))
  }

  /** Nothing stops a caller but the wait for the lock. */
  lemma NotWaitingGoesOn(s: System, t: nat, sni: string, renewBefore: int, horizon: int) returns (e: Event)
    requires Inv(s, sni, renewBefore, horizon) && t in s.pcs && s.pcs[t] != Finished && s.pcs[t] != Await
    ensures GoesOn(s, e, sni, renewBefore, horizon)
  {
    assert Agrees(s, t, sni);
    match s.pcs[t] {
      case Enter => e := LockStep(t, L.Register(sni));
      case Check => e := if Fresh(s, renewBefore) then FoundFresh(t) else Order(t);
      case Issuing => e := Issued(t, horizon + renewBefore + 1);
      case Unlock =>
        L.ReturnNeverBlocks(s.lock, Me(t));
        e := LockStep(t, L.ReturnToken);
      case Abandon => e := LockStep(t, L.Release);
      case Drop => e := LockStep(t, L.Release);
    }
  }

  /** In every reachable state with a caller that has not finished, some caller can go
      on. */
  lemma NoDeadlock(run: seq<System>, events: seq<Event>, i: nat, t: nat, sni: string, renewBefore: int, horizon: int) returns (e: Event)
    requires IsRun(run, events, sni, renewBefore, horizon) && i < |run|
    requires t in run[i].pcs && run[i].pcs[t] != Finished
    ensures GoesOn(run[i], e, sni, renewBefore, horizon)
  {
    var s := run[i];
    IssuerCallsAreBounded(run, events, i, sni, renewBefore, horizon);
    if s.pcs[t] != Await {
      e := NotWaitingGoesOn(s, t, sni, renewBefore, horizon);
    } else if L.Enabled(s.lock, Me(t), L.Take) {
      e := LockStep(t, L.Take);
    } else {
      assert Agrees(s, t, sni);
      var d := L.BlockedByHolder(s.lock, Me(t));
      assert Agrees(s, d.caller, sni);
      e := NotWaitingGoesOn(s, d.caller, sni, renewBefore, horizon);
    }
  }
}
