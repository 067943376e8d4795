/** Any number of AddIP, ReplaceIP and MoveIP operations running against each other:
    lock, GET, PATCH and unlock are separate steps, every one of which can fail, and
    the process can crash between any two (internal/dnsbalancer/client.go). */
module ZoneProtocol {
  import opened Wrappers
  import opened Names
  import opened Zones
  import L = KeyedLock
  import ZC = ZoneClient

  /** An operation after its input checks; the names are the lock keys. */
  datatype Op =
    | Add(key: string, ip: Addr)
    | Replace(key: string, oldIP: Addr, newIP: Addr)
    | Move(source: string, target: string, ip: Addr)

  /** MoveIP takes its two locks in the order of their keys. */
  function LockOrder(op: Op): seq<string> {
    match op
    case Move(source, target, _) => if Less(target, source) then [target, source] else [source, target]
    case _ => [op.key]
  }

  /** The input checks passed, and each lock key is the full name of the zone that
      will be located with it. */
  predicate Accepted(op: Op) {
    && (op.Replace? ==> op.oldIP != op.newIP)
    && (op.Move? ==> op.source != op.target)
    && forall key :: key in LockOrder(op) ==> key != "" && NormalizeFQDN(key) == key
  }

  datatype Pc =
    | Enter(i: nat)      // about to call Lock for key i
    | Await(i: nat)      // in the select of that call
    | Abandon(i: nat)    // ctx was cancelled there; the reference is still counted
    | Read               // all locks held, before the GET
    | PatchOne(body: Zone)
    | PatchTarget(filled: Zone, emptied: Zone, undo: Zone)
    | PatchSource(emptied: Zone, fallback: Option<Zone>)
    | PatchUndo(undo: Zone)
    | Unlock(i: nat)     // i locks left to give back, last one first
    | Drop(i: nat)       // token of lock i - 1 returned, its reference not yet dropped
    | Done

  datatype Thread = Thread(op: Op, pc: Pc)
  datatype System = System(lock: L.State, threads: map<nat, Thread>, zones: Config)

  function Locks(th: Thread): nat {
    |LockOrder(th.op)|
  }

  /** What comes after a GET that returned zones. */
  ghost function Planned(op: Op, zones: Config): Pc {
    var unlock := Unlock(|LockOrder(op)|);
    if exists name :: name in zones && !Clean(zones[name]) then unlock
    else
      match op
      case Add(key, ip) =>
        if key !in zones || Contains(zones[key], ip) then unlock else PatchOne(Added(zones[key], ip))
      case Replace(key, oldIP, newIP) =>
        if key !in zones || !Contains(zones[key], oldIP) then unlock
        else PatchOne(Replaced(zones[key], oldIP, newIP))
      case Move(source, target, ip) =>
        if source !in zones || target !in zones || !SameFormat(zones[source], zones[target])
           || !Contains(zones[source], ip) then unlock
        else if Contains(zones[target], ip) then PatchSource(Without(zones[source], ip), None)
        else if zones[target].Advanced? && Carried(zones[source], ip).None? then unlock
        else PatchTarget(With(zones[target], ip, Carried(zones[source], ip)),
                         Without(zones[source], ip), Snapshot(zones[target]))
  }

  function Me(t: nat, i: nat): L.Call {
    L.Call(t, i)
  }

  datatype LockStep = NoLock | Step(index: nat, step: L.Step)

  /** The locker step that a thread takes. `ok` is the outcome of the step's call, and
      for a waiting thread whether it gets the token rather than the cancellation. */
  function LockStepOf(th: Thread, ok: bool): LockStep {
    match th.pc
    case Enter(i) => if ok && i < Locks(th) then Step(i, L.Register(LockOrder(th.op)[i])) else NoLock
    case Await(i) => Step(i, if ok then L.Take else L.GiveUp)
    case Abandon(i) => Step(i, L.Release)
    case Unlock(i) => if i > 0 then Step(i - 1, L.ReturnToken) else NoLock
    case Drop(i) => if i > 0 then Step(i - 1, L.Release) else NoLock
    case _ => NoLock
  }

  ghost function NextPc(th: Thread, ok: bool, zones: Config): Pc {
    var unlock := Unlock(Locks(th));
    match th.pc
    case Enter(i) => if ok then Await(i) else Unlock(i)
    case Await(i) => if !ok then Abandon(i) else if i + 1 == Locks(th) then Read else Enter(i + 1)
    case Abandon(i) => Unlock(i)
    case Read => if ok then Planned(th.op, zones) else unlock
    case PatchOne(_) => unlock
    case PatchTarget(_, emptied, undo) => if ok then PatchSource(emptied, Some(undo)) else unlock
    case PatchSource(_, undo) => if !ok && undo.Some? then PatchUndo(undo.value) else unlock
    case PatchUndo(_) => unlock
    case Unlock(i) => if i > 0 then Drop(i) else Done
    case Drop(i) => if i > 0 then Unlock(i - 1) else Done
    case Done => Done
  }

  function NextZones(th: Thread, ok: bool, zones: Config): Config {
    match th.pc
    case PatchOne(body) => if ok && !th.op.Move? then zones[th.op.key := body] else zones
    case PatchTarget(filled, _, _) => if ok && th.op.Move? then zones[th.op.target := filled] else zones
    case PatchSource(emptied, _) => if ok && th.op.Move? then zones[th.op.source := emptied] else zones
    case PatchUndo(undo) => if ok && th.op.Move? then zones[th.op.target := undo] else zones
    case _ => zones
  }

  /** A step can be taken unless it is finished or its locker step is blocked; giving
      a lock back cannot fail. */
  predicate CanAct(s: System, t: nat, ok: bool) {
    && t in s.threads && !s.threads[t].pc.Done?
    && (s.threads[t].pc.Abandon? || s.threads[t].pc.Unlock? || s.threads[t].pc.Drop? ==> ok)
    && var step := LockStepOf(s.threads[t], ok);
       step.Step? ==> L.Enabled(s.lock, Me(t, step.index), step.step)
  }

  function NextLock(s: System, t: nat, ok: bool): L.State
    requires CanAct(s, t, ok)
  {
    var step := LockStepOf(s.threads[t], ok);
    if step.Step? then L.Next(s.lock, Me(t, step.index), step.step) else s.lock
  }

  ghost function Act(s: System, t: nat, ok: bool): System
    requires CanAct(s, t, ok)
  {
    var th := s.threads[t];
    System(NextLock(s, t, ok), s.threads[t := th.(pc := NextPc(th, ok, s.zones))], NextZones(th, ok, s.zones))
  }

  datatype Event = Start(thread: nat, op: Op) | Acts(thread: nat, ok: bool) | Crash

  ghost predicate Possible(s: System, e: Event) {
    match e
    case Start(t, op) => t !in s.threads && Accepted(op)
    case Acts(t, ok) => CanAct(s, t, ok)
    case Crash => true
  }

  /** A crash loses the locker and the threads; the zones live elsewhere. */
  ghost function After(s: System, e: Event): System
    requires Possible(s, e)
  {
    match e
    case Start(t, op) => s.(threads := s.threads[t := Thread(op, Enter(0))])
    case Acts(t, ok) => Act(s, t, ok)
    case Crash => System(L.Empty, map[], s.zones)
  }

  /** Event i takes the run from its i-th state to the next. */
  ghost predicate StepAt(run: seq<System>, events: seq<Event>, i: nat)
    requires i < |events| && i + 1 < |run|
  {
    Possible(run[i], events[i]) && run[i + 1] == After(run[i], events[i])
  }

  ghost predicate IsRun(run: seq<System>, events: seq<Event>) {
    && |run| == |events| + 1
    && run[0].lock == L.Empty && run[0].threads == map[]
    && forall i :: 0 <= i < |events| ==> StepAt(run, events, i)
  }

  // ---- Threads and their lock uses ----

  function Holdings(n: nat): seq<L.Phase> {
    seq(n, _ => L.Holding)
  }

  /** The phases of a thread's Lock calls, call by call. */
  function Phases(th: Thread): seq<L.Phase> {
    match th.pc
    case Enter(i) => Holdings(i)
    case Await(i) => Holdings(i) + [L.Waiting]
    case Abandon(i) => Holdings(i) + [L.Leaving]
    case Unlock(i) => Holdings(i)
    case Drop(i) => if i == 0 then [] else Holdings(i - 1) + [L.Leaving]
    case Done => []
    case _ => Holdings(Locks(th))
  }

  predicate InRange(th: Thread) {
    match th.pc
    case Enter(i) => i < Locks(th)
    case Await(i) => i < Locks(th)
    case Abandon(i) => i < Locks(th)
    case Unlock(i) => i <= Locks(th)
    case Drop(i) => 0 < i <= Locks(th)
    case _ => true
  }

  ghost predicate ThreadAgrees(s: System, t: nat) {
    && t in s.threads && Accepted(s.threads[t].op) && InRange(s.threads[t])
    && var phases := Phases(s.threads[t]);
       forall j :: 0 <= j < |phases| ==>
         && L.UsedAs(s.lock, Me(t, j), phases[j])
         && L.KeyOf(s.lock, Me(t, j)) == LockOrder(s.threads[t].op)[j]
  }

  ghost predicate CallsAreThreads(s: System) {
    forall c :: c in s.lock.uses ==> c.caller in s.threads && c.index < |Phases(s.threads[c.caller])|
  }

  // ---- What a thread knows about the zones it has locked ----

  ghost predicate PlanHolds(th: Thread, zones: Config) {
    match th.pc
    case PatchOne(body) =>
      && !th.op.Move? && th.op.key in zones && Clean(zones[th.op.key])
      && (th.op.Add? ==> !Contains(zones[th.op.key], th.op.ip) && body == Added(zones[th.op.key], th.op.ip))
      && (th.op.Replace? ==> Contains(zones[th.op.key], th.op.oldIP)
                             && body == Replaced(zones[th.op.key], th.op.oldIP, th.op.newIP))
    case PatchTarget(filled, emptied, undo) =>
      && th.op.Move? && FillingIsDue(th.op, zones)
      && filled == With(zones[th.op.target], th.op.ip, Carried(zones[th.op.source], th.op.ip))
      && emptied == Without(zones[th.op.source], th.op.ip)
      && undo == Snapshot(zones[th.op.target])
    case PatchSource(emptied, undo) =>
      && th.op.Move? && EmptyingIsDue(th.op, zones)
      && emptied == Without(zones[th.op.source], th.op.ip)
      && (undo.Some? ==> Undoes(th.op, zones, undo.value))
    case PatchUndo(undo) =>
      && th.op.Move? && EmptyingIsDue(th.op, zones)
      && Undoes(th.op, zones, undo)
    case _ => true
  }

  ghost predicate FillingIsDue(op: Op, zones: Config)
    requires op.Move?
  {
    && op.source in zones && op.target in zones
    && Clean(zones[op.source]) && Clean(zones[op.target]) && SameFormat(zones[op.source], zones[op.target])
    && Contains(zones[op.source], op.ip) && !Contains(zones[op.target], op.ip)
    && (zones[op.target].Advanced? ==> Carried(zones[op.source], op.ip).Some?)
  }

  ghost predicate EmptyingIsDue(op: Op, zones: Config)
    requires op.Move?
  {
    && op.source in zones && op.target in zones && Clean(zones[op.source])
    && Contains(zones[op.source], op.ip) && Contains(zones[op.target], op.ip)
  }

  /** The target is `before` with the source's own entry for the address added. */
  ghost predicate FilledFrom(op: Op, zones: Config, before: Zone)
    requires op.Move? && op.source in zones && op.target in zones
  {
    && Clean(before) && SameFormat(zones[op.source], before) && !Contains(before, op.ip)
    && (before.Advanced? ==> Carried(zones[op.source], op.ip).Some?)
    && zones[op.target] == With(before, op.ip, Carried(zones[op.source], op.ip))
  }

  /** `restored` is what the compensating request makes of the filled target. */
  ghost predicate Undoes(op: Op, zones: Config, restored: Zone)
    requires op.Move? && op.source in zones && op.target in zones
  {
    exists before :: FilledFrom(op, zones, before) && restored == Snapshot(before)
  }

  ghost predicate Inv(s: System) {
    && L.Inv(s.lock)
    && (forall t :: t in s.threads ==> ThreadAgrees(s, t) && PlanHolds(s.threads[t], s.zones))
    && CallsAreThreads(s)
  }

  // ---- The atomic edits that a run amounts to ----

  /** One edit computed from the zones as they are at that moment. */
  ghost predicate AtomicEdit(op: Op, before: Config, after: Config) {
    match op
    case Add(key, ip) =>
      && key in before && !Contains(before[key], ip)
      && after == before[key := Added(before[key], ip)]
    case Replace(key, oldIP, newIP) =>
      && key in before && Clean(before[key]) && Contains(before[key], oldIP)
      && after == before[key := Replaced(before[key], oldIP, newIP)]
    case Move(source, target, ip) =>
      || (&& FillingIsDue(op, before)
          && after == before[target := With(before[target], ip, Carried(before[source], ip))])
      || (EmptyingIsDue(op, before) && after == before[source := Without(before[source], ip)])
      || (&& EmptyingIsDue(op, before) && target in after && after == before[target := after[target]]
          && Undoes(op, before, after[target])
          && Exchanged(before[target], after[target], {ip}, {}))
  }

  /** The compensating request takes out the moved address and nothing else. */
  lemma UndoTakesOutOnly(op: Op, zones: Config, restored: Zone)
    requires op.Move? && op.source in zones && op.target in zones && Undoes(op, zones, restored)
    requires Clean(zones[op.source]) && Contains(zones[op.source], op.ip)
    ensures Exchanged(zones[op.target], restored, {op.ip}, {})
  {
    var before :| FilledFrom(op, zones, before) && restored == Snapshot(before);
    WithMeans(zones[op.source], before, op.ip);
    SnapshotMeans(before);
  }

  /** A step of the fine-grained system changes nothing or is one atomic edit of the
      operation that takes it. */
  lemma StepIsAtomicEdit(s: System, e: Event)
    requires Inv(s) && Possible(s, e)
    ensures || After(s, e).zones == s.zones
            || (e.Acts? && AtomicEdit(s.threads[e.thread].op, s.zones, After(s, e).zones))
  {
    if e.Acts? {
      var th := s.threads[e.thread];
      assert PlanHolds(th, s.zones);
      if th.pc.PatchUndo? {
        UndoTakesOutOnly(th.op, s.zones, th.pc.undo);
      }
    }
  }

  // ---- The invariant is kept ----

  lemma LockStaysSound(s: System, t: nat, ok: bool)
    requires Inv(s) && CanAct(s, t, ok)
    ensures L.Inv(NextLock(s, t, ok))
  {
    var step := LockStepOf(s.threads[t], ok);
    if step.Step? {
      L.StepKeepsInv(s.lock, Me(t, step.index), step.step);
    }
  }

  /** A lock step of one call does not touch the other calls. */
  lemma OtherCallsStay(s: L.State, c: L.Call, step: L.Step, d: L.Call, phase: L.Phase)
    requires L.Enabled(s, c, step) && d != c && L.UsedAs(s, d, phase)
    ensures L.UsedAs(L.Next(s, c, step), d, phase)
    ensures L.KeyOf(L.Next(s, c, step), d) == L.KeyOf(s, d)
  {
  }

  lemma OthersAgree(s: System, t: nat, ok: bool, u: nat)
    requires ThreadAgrees(s, u) && CanAct(s, t, ok) && u != t
    ensures ThreadAgrees(Act(s, t, ok), u)
  {
    var s' := Act(s, t, ok);
    var phases := Phases(s.threads[u]);
    var step := LockStepOf(s.threads[t], ok);
    forall j | 0 <= j < |phases|
      ensures L.UsedAs(s'.lock, Me(u, j), phases[j])
      ensures L.KeyOf(s'.lock, Me(u, j)) == LockOrder(s.threads[u].op)[j]
    {
      if step.Step? {
        OtherCallsStay(s.lock, Me(t, step.index), step.step, Me(u, j), phases[j]);
      }
    }
  }

  /** Past its last lock a thread keeps all of them until it unlocks. */
  lemma HoldsAllPhases(th: Thread, ok: bool, zones: Config)
    requires th.pc.Read? || Patching(th)
    ensures LockStepOf(th, ok).NoLock? && InRange(th.(pc := NextPc(th, ok, zones)))
    ensures Phases(th.(pc := NextPc(th, ok, zones))) == Phases(th)
  {
    var next := NextPc(th, ok, zones);
    assert next.Unlock? ==> next.i == Locks(th);
  }

  /** The call that a thread's own step touches is its last one, or the next. */
  lemma OwnPhases(th: Thread, ok: bool, zones: Config)
    requires InRange(th) && !th.pc.Done?
    ensures InRange(th.(pc := NextPc(th, ok, zones)))
    ensures var step, now, next := LockStepOf(th, ok), Phases(th), Phases(th.(pc := NextPc(th, ok, zones)));
            match step
            case NoLock => next == now
            case Step(j, Register(key)) => j == |now| && next == now + [L.Waiting] && key == LockOrder(th.op)[j]
            case Step(j, Take) => j == |now| - 1 && next == now[..j] + [L.Holding]
            case Step(j, GiveUp) => j == |now| - 1 && next == now[..j] + [L.Leaving]
            case Step(j, ReturnToken) => j == |now| - 1 && now[j] == L.Holding && next == now[..j] + [L.Leaving]
            case Step(j, Release) => j == |now| - 1 && next == now[..j]
  {
    if th.pc.Read? || Patching(th) {
      HoldsAllPhases(th, ok, zones);
    }
  }

  lemma ActorAgrees(s: System, t: nat, ok: bool)
    requires L.Inv(s.lock) && ThreadAgrees(s, t) && CanAct(s, t, ok)
    ensures ThreadAgrees(Act(s, t, ok), t)
  {
    var s' := Act(s, t, ok);
    var th := s.threads[t];
    OwnPhases(th, ok, s.zones);
    var step, now, next := LockStepOf(th, ok), Phases(th), Phases(s'.threads[t]);
    forall j | 0 <= j < |next|
      ensures L.UsedAs(s'.lock, Me(t, j), next[j])
      ensures L.KeyOf(s'.lock, Me(t, j)) == LockOrder(th.op)[j]
    {
      if step.Step? && j != step.index {
        OtherCallsStay(s.lock, Me(t, step.index), step.step, Me(t, j), now[j]);
      }
    }
  }

  /** How many calls a thread has after a step: its own lock step's call is among them
      unless that step gave up the reference. */
  lemma OwnCount(th: Thread, ok: bool, zones: Config)
    requires InRange(th) && !th.pc.Done?
    ensures var step, now, next := LockStepOf(th, ok), |Phases(th)|, |Phases(th.(pc := NextPc(th, ok, zones)))|;
            match step
            case NoLock => next == now
            case Step(j, Register(_)) => j == now && next == now + 1
            case Step(j, Release) => j == now - 1 && next == now - 1
            case Step(j, _) => j == now - 1 && next == now
  {
    OwnPhases(th, ok, zones);
  }

  /** A lock step brings in its own call only, and takes out its own call on release. */
  lemma CallsAfter(s: L.State, c: L.Call, step: L.Step, d: L.Call)
    requires L.Enabled(s, c, step) && d in L.Next(s, c, step).uses
    ensures d in s.uses || (d == c && step.Register?)
    ensures step.Release? ==> d != c
  {
  }

  lemma CallsStayThreads(s: System, t: nat, ok: bool)
    requires ThreadAgrees(s, t) && CallsAreThreads(s) && CanAct(s, t, ok)
    ensures CallsAreThreads(Act(s, t, ok))
  {
    var s' := Act(s, t, ok);
    var step := LockStepOf(s.threads[t], ok);
    OwnCount(s.threads[t], ok, s.zones);
    forall c | c in s'.lock.uses ensures c.caller in s'.threads && c.index < |Phases(s'.threads[c.caller])| {
      if step.Step? {
        CallsAfter(s.lock, Me(t, step.index), step.step, c);
      }
      if c.caller == t {
        assert c == Me(t, c.index);
      }
    }
  }

  predicate Patching(th: Thread) {
    th.pc.PatchOne? || th.pc.PatchTarget? || th.pc.PatchSource? || th.pc.PatchUndo?
  }

  /** Two threads past their GET have no lock key in common. */
  lemma PatchersAreApart(s: System, t: nat, u: nat, key: string)
    requires Inv(s) && t in s.threads && u in s.threads && t != u
    requires Patching(s.threads[t]) && Patching(s.threads[u])
    ensures !(key in LockOrder(s.threads[t].op) && key in LockOrder(s.threads[u].op))
  {
    assert ThreadAgrees(s, t) && ThreadAgrees(s, u);
    var a, b := LockOrder(s.threads[t].op), LockOrder(s.threads[u].op);
    if key in a && key in b {
      var i :| 0 <= i < |a| && a[i] == key;
      var j :| 0 <= j < |b| && b[j] == key;
      assert Phases(s.threads[t])[i] == L.Holding && Phases(s.threads[u])[j] == L.Holding;
      L.MutualExclusion(s.lock, Me(t, i), Me(u, j));
    }
  }

  /** A plan speaks of the zones of its own lock keys only. */
  lemma PlanIsLocal(th: Thread, before: Config, after: Config)
    requires PlanHolds(th, before)
    requires forall key :: key in LockOrder(th.op) && key in before ==> key in after && after[key] == before[key]
    ensures PlanHolds(th, after)
  {
    if Patching(th) {
      var order := LockOrder(th.op);
      if th.op.Move? {
        assert th.op.source in order && th.op.target in order;
      } else {
        assert th.op.key in order;
      }
    }
  }

  /** A step writes to zones whose locks its thread holds. */
  lemma EditsAreLocal(th: Thread, ok: bool, zones: Config, key: string)
    requires key in zones && (key in LockOrder(th.op) ==> !Patching(th))
    ensures key in NextZones(th, ok, zones) && NextZones(th, ok, zones)[key] == zones[key]
  {
  }

  lemma OtherPlansHold(s: System, t: nat, ok: bool, u: nat)
    requires Inv(s) && CanAct(s, t, ok) && u in s.threads && u != t
    ensures PlanHolds(s.threads[u], Act(s, t, ok).zones)
  {
    var after := Act(s, t, ok).zones;
    var mine, theirs := s.threads[t], s.threads[u];
    if Patching(theirs) {
      forall key | key in LockOrder(theirs.op) && key in s.zones
        ensures key in after && after[key] == s.zones[key]
      {
        if Patching(mine) {
          PatchersAreApart(s, t, u, key);
        }
        EditsAreLocal(mine, ok, s.zones, key);
      }
      PlanIsLocal(theirs, s.zones, after);
    }
  }

  lemma OwnPlanHolds(s: System, t: nat, ok: bool)
    requires Inv(s) && CanAct(s, t, ok)
    ensures PlanHolds(Act(s, t, ok).threads[t], Act(s, t, ok).zones)
  {
    var th := s.threads[t];
    assert ThreadAgrees(s, t) && PlanHolds(th, s.zones);
    if th.pc.PatchTarget? && ok {
      var source, target, ip := s.zones[th.op.source], s.zones[th.op.target], th.op.ip;
      WithMeans(source, target, ip);
      assert FilledFrom(th.op, Act(s, t, ok).zones, target);
    }
  }

  lemma ActKeepsInv(s: System, t: nat, ok: bool)
    requires Inv(s) && CanAct(s, t, ok)
    ensures Inv(Act(s, t, ok))
  {
    LockStaysSound(s, t, ok);
    CallsStayThreads(s, t, ok);
    ActorAgrees(s, t, ok);
    OwnPlanHolds(s, t, ok);
    forall u | u in s.threads && u != t
      ensures ThreadAgrees(Act(s, t, ok), u) && PlanHolds(s.threads[u], Act(s, t, ok).zones)
    {
      OthersAgree(s, t, ok, u);
      OtherPlansHold(s, t, ok, u);
    }
  }

  lemma StepKeepsInv(s: System, e: Event)
    requires Inv(s) && Possible(s, e)
    ensures Inv(After(s, e))
  {
    match e {
      case Start(t, op) =>
        var s' := After(s, e);
        forall u | u in s'.threads ensures ThreadAgrees(s', u) && PlanHolds(s'.threads[u], s'.zones) {
          if u != t {
            assert ThreadAgrees(s, u) && PlanHolds(s.threads[u], s.zones);
          }
        }
      case Acts(t, ok) => ActKeepsInv(s, t, ok);
      case Crash => L.InitInv();
    }
  }

  /** No lost updates: in every run, every step either leaves the zones alone or is
      one atomic edit of the contents they have at that moment. */
  lemma {:induction false} RunsRefineAtomicEdits(run: seq<System>, events: seq<Event>, i: nat)
    requires IsRun(run, events) && i < |run|
    ensures Inv(run[i])
    ensures i < |events| && run[i + 1].zones != run[i].zones ==>
              && events[i].Acts? && events[i].thread in run[i].threads
              && AtomicEdit(run[i].threads[events[i].thread].op, run[i].zones, run[i + 1].zones)
  {
    if i == 0 {
      L.InitInv();
    } else {
      RunsRefineAtomicEdits(run, events, i - 1);
      assert StepAt(run, events, i - 1);
      StepKeepsInv(run[i - 1], events[i - 1]);
    }
    if i < |events| {
      assert StepAt(run, events, i);
      StepIsAtomicEdit(run[i], events[i]);
    }
  }

  // ---- Deadlock freedom ----

  function AllKeys(s: System): set<string> {
    set t, key | t in s.threads && key in LockOrder(s.threads[t].op) :: key
  }

  function Above(s: System, key: string): set<string> {
    set k | k in AllKeys(s) && Less(key, k)
  }

  /** Only waiting for a token can block a thread. */
  lemma RunsUnlessWaiting(s: System, t: nat)
    requires L.Inv(s.lock) && ThreadAgrees(s, t) && CallsAreThreads(s)
    requires !s.threads[t].pc.Done? && !s.threads[t].pc.Await?
    ensures CanAct(s, t, true)
  {
    var th := s.threads[t];
    match th.pc {
      case Enter(i) => assert Me(t, i) !in s.lock.uses;
      case Unlock(i) =>
        if i > 0 {
          assert Phases(th)[i - 1] == L.Holding;
          L.ReturnNeverBlocks(s.lock, Me(t, i - 1));
        }
      case Abandon(i) => assert Phases(th)[i] == L.Leaving;
      case Drop(i) => assert Phases(th)[i - 1] == L.Leaving;
      case _ =>
    }
  }

  function Wanted(th: Thread): string
    requires th.pc.Await? && th.pc.i < Locks(th)
  {
    LockOrder(th.op)[th.pc.i]
  }

  /** A thread that holds a lock while it waits, waits for a greater key. */
  lemma HoldersWaitUpwards(th: Thread, j: nat)
    requires Accepted(th.op) && InRange(th) && j < |Phases(th)| && Phases(th)[j] == L.Holding
    ensures !th.pc.Done? && j < Locks(th)
    ensures th.pc.Await? ==> Less(LockOrder(th.op)[j], Wanted(th))
  {
    if th.op.Move? {
      LessTotal(th.op.source, th.op.target);
    }
  }

  /** Whoever blocks a waiting thread is not itself waiting, or waits for a greater
      key. */
  lemma BlockerOf(s: System, t: nat) returns (u: nat)
    requires Inv(s) && t in s.threads && s.threads[t].pc.Await? && !CanAct(s, t, true)
    ensures u in s.threads && !s.threads[u].pc.Done?
    ensures InRange(s.threads[t]) && InRange(s.threads[u])
    ensures s.threads[u].pc.Await? ==> Less(Wanted(s.threads[t]), Wanted(s.threads[u]))
  {
    var th := s.threads[t];
    assert ThreadAgrees(s, t);
    assert Phases(th)[th.pc.i] == L.Waiting;
    var c := L.BlockedByHolder(s.lock, Me(t, th.pc.i));
    u := c.caller;
    assert ThreadAgrees(s, u);
    assert c == Me(u, c.index) && c.index < |Phases(s.threads[u])|;
    assert L.UsedAs(s.lock, Me(u, c.index), Phases(s.threads[u])[c.index]);
    HoldersWaitUpwards(s.threads[u], c.index);
  }

  lemma {:induction false} SomeoneCanStep(s: System, t: nat) returns (u: nat)
    requires Inv(s) && t in s.threads && !s.threads[t].pc.Done? && InRange(s.threads[t])
    ensures CanAct(s, u, true)
    decreases s.threads[t].pc.Await?, if s.threads[t].pc.Await? then |Above(s, Wanted(s.threads[t]))| else 0
  {
    u := t;
    assert ThreadAgrees(s, t);
    if !s.threads[t].pc.Await? {
      RunsUnlessWaiting(s, t);
    } else if !CanAct(s, t, true) {
      var blocker := BlockerOf(s, t);
      if s.threads[blocker].pc.Await? {
        assert Wanted(s.threads[blocker]) in LockOrder(s.threads[blocker].op);
        FewerAbove(s, Wanted(s.threads[t]), Wanted(s.threads[blocker]));
      }
      u := SomeoneCanStep(s, blocker);
    }
  }

  lemma FewerAbove(s: System, key: string, next: string)
    requires next in AllKeys(s) && Less(key, next)
    ensures |Above(s, next)| < |Above(s, key)|
  {
    forall k | k in Above(s, next) ensures k in Above(s, key) {
      LessTransitive(key, next, k);
    }
    LessIrreflexive(next);
    assert next in Above(s, key) && next !in Above(s, next);
    L.CardinalityOfSubset(Above(s, next), Above(s, key) - {next});
  }

  /** Deadlock freedom: in every reachable state with an unfinished operation some
      operation can step without any cancellation or failure. */
  lemma NoDeadlock(run: seq<System>, events: seq<Event>, i: nat, t: nat)
    requires IsRun(run, events) && i < |run|
    requires t in run[i].threads && !run[i].threads[t].pc.Done?
    ensures exists u :: CanAct(run[i], u, true)
  {
    RunsRefineAtomicEdits(run, events, i);
    assert ThreadAgrees(run[i], t);
    var u := SomeoneCanStep(run[i], t);
  }

  // ---- What the atomic edits keep ----

  /** Wherever a move stands, its address is in one of its two zones, every other
      address of the two is where it was, and no other zone changes. */
  lemma MoveEditsConserve(op: Op, before: Config, after: Config)
    requires op.Move? && op.source != op.target && AtomicEdit(op, before, after)
    ensures ZC.Conserved(before, after, op.source, op.target, op.ip)
  {
    var source, target := before[op.source], before[op.target];
    if FillingIsDue(op, before) && after == before[op.target := With(target, op.ip, Carried(source, op.ip))] {
      WithMeans(source, target, op.ip);
    } else if after == before[op.source := Without(source, op.ip)] {
      WithoutMeans(source, op.ip);
    }
  }

  predicate Mentions(op: Op, a: Addr) {
    match op
    case Replace(_, oldIP, newIP) => a == oldIP || a == newIP
    case _ => a == op.ip
  }

  /** An edit does not touch an address that its operation does not mention; an added
      address keeps the others of a simple zone only. */
  lemma EditKeepsOthers(op: Op, before: Config, after: Config, name: string, a: Addr)
    requires AtomicEdit(op, before, after) && Accepted(op) && !Mentions(op, a) && name in before
    requires op.Add? ==> before[op.key].Simple?
    ensures name in after && (Contains(after[name], a) <==> Contains(before[name], a))
  {
    match op
    case Add(key, ip) => Snoc(IPsOf(before[key]), Canonical(ip));
    case Replace(key, oldIP, newIP) => ReplacedMeans(before[key], oldIP, newIP);
    case Move(_, _, _) => MoveEditsConserve(op, before, after);
  }

  /** Every thread was started. */
  lemma {:induction false} ThreadWasStarted(run: seq<System>, events: seq<Event>, i: nat, t: nat) returns (j: nat)
    requires IsRun(run, events) && i < |run| && t in run[i].threads
    ensures j < i && events[j].Start? && events[j].op == run[i].threads[t].op
  {
    assert i > 0 && StepAt(run, events, i - 1);
    if t in run[i - 1].threads {
      j := ThreadWasStarted(run, events, i - 1, t);
    } else {
      j := i - 1;
    }
  }

  ghost predicate NobodyMentions(events: seq<Event>, a: Addr) {
    forall i :: 0 <= i < |events| && events[i].Start? ==> !Mentions(events[i].op, a)
  }

  /** AddIP is called only on zones that are simple at the start. */
  ghost predicate AddsToSimple(zones: Config, events: seq<Event>) {
    forall i :: 0 <= i < |events| && events[i].Start? && events[i].op.Add? && events[i].op.key in zones ==>
                  zones[events[i].op.key].Simple?
  }

  /** The zones are the same ones, and the simple ones stay simple. */
  ghost predicate SimpleStay(before: Config, after: Config) {
    after.Keys == before.Keys && forall name :: name in before && before[name].Simple? ==> after[name].Simple?
  }

  lemma EditKeepsSimple(op: Op, before: Config, after: Config)
    requires AtomicEdit(op, before, after)
    ensures SimpleStay(before, after)
  {
  }

  /** What one step of such a run does to the zones: nothing, or an edit of a started
      operation, which is on a simple zone if it adds. */
  lemma StepOfRun(run: seq<System>, events: seq<Event>, i: nat) returns (op: Op)
    requires IsRun(run, events) && AddsToSimple(run[0].zones, events)
    requires i < |events| && SimpleStay(run[0].zones, run[i].zones) && run[i + 1].zones != run[i].zones
    ensures Accepted(op) && AtomicEdit(op, run[i].zones, run[i + 1].zones)
    ensures op.Add? ==> op.key in run[i].zones && run[i].zones[op.key].Simple?
    ensures exists j :: 0 <= j < |events| && events[j].Start? && events[j].op == op
  {
    RunsRefineAtomicEdits(run, events, i);
    var t := events[i].thread;
    assert ThreadAgrees(run[i], t);
    op := run[i].threads[t].op;
    var j := ThreadWasStarted(run, events, i, t);
  }

  lemma {:induction false} RunKeepsSimple(run: seq<System>, events: seq<Event>, i: nat)
    requires IsRun(run, events) && i < |run|
    ensures SimpleStay(run[0].zones, run[i].zones)
  {
    if i > 0 {
      RunKeepsSimple(run, events, i - 1);
      RunsRefineAtomicEdits(run, events, i - 1);
      if run[i].zones != run[i - 1].zones {
        EditKeepsSimple(run[i - 1].threads[events[i - 1].thread].op, run[i - 1].zones, run[i].zones);
      }
    }
  }

  /** Whatever operations run concurrently, wherever they fail or crash and whatever
      they undo: an address that none of them mentions stays in exactly the zones it
      was in, provided AddIP is called on simple zones only. */
  lemma {:induction false} OtherAddressesStay(run: seq<System>, events: seq<Event>, i: nat, name: string, a: Addr)
    requires IsRun(run, events) && NobodyMentions(events, a) && AddsToSimple(run[0].zones, events)
    requires i < |run| && name in run[0].zones
    ensures name in run[i].zones && (Contains(run[i].zones[name], a) <==> Contains(run[0].zones[name], a))
  {
    if i > 0 {
      OtherAddressesStay(run, events, i - 1, name, a);
      RunKeepsSimple(run, events, i - 1);
      if run[i].zones != run[i - 1].zones {
        var op := StepOfRun(run, events, i - 1);
        EditKeepsOthers(op, run[i - 1].zones, run[i].zones, name, a);
      }
    }
  }

  /** The condition is needed: an AddIP on an advanced zone that lacks its address takes
      out the others. */
  lemma AddLosesAdvanced(key: string, ip: Addr, zones: Config, a: Addr)
    requires key in zones && zones[key].Advanced? && !Contains(zones[key], ip) && Contains(zones[key], a)
    ensures var after := zones[key := Added(zones[key], ip)];
            AtomicEdit(Add(key, ip), zones, after) && !Contains(after[key], a)
  {
    assert Added(zones[key], ip) == Simple([Canonical(ip)]);
  }

  ghost predicate OnlyAdds(events: seq<Event>) {
    forall i :: 0 <= i < |events| ==> (events[i].Start? ==> events[i].op.Add?)
  }

  lemma AddEditKeeps(op: Op, before: Config, after: Config, name: string, a: Addr)
    requires op.Add? && AtomicEdit(op, before, after) && before[op.key].Simple?
    requires name in before && Contains(before[name], a)
    ensures name in after && Contains(after[name], a) && Contains(after[op.key], op.ip)
  {
    Snoc(IPsOf(before[op.key]), Canonical(op.ip));
  }

  /** Concurrent AddIP calls on simple zones lose nothing: an address that a zone holds
      at some step, put there by any of them, is there at every later step. */
  lemma {:induction false} ConcurrentAddsLoseNothing(run: seq<System>, events: seq<Event>, i: nat, j: nat,
                                                     name: string, a: Addr)
    requires IsRun(run, events) && OnlyAdds(events) && AddsToSimple(run[0].zones, events)
    requires i <= j < |run| && name in run[i].zones && Contains(run[i].zones[name], a)
    ensures name in run[j].zones && Contains(run[j].zones[name], a)
    decreases j
  {
    if i < j {
      ConcurrentAddsLoseNothing(run, events, i, j - 1, name, a);
      RunKeepsSimple(run, events, j - 1);
      if run[j].zones != run[j - 1].zones {
        var op := StepOfRun(run, events, j - 1);
        AddEditKeeps(op, run[j - 1].zones, run[j].zones, name, a);
      }
    }
  }

  // ---- One thread alone does what the client's methods do ----

  /** A thread's own steps from its GET on, with the outcomes of its calls. */
  ghost function Alone(th: Thread, zones: Config, outcomes: seq<bool>): Config
    decreases |outcomes|
  {
    if outcomes == [] then zones
    else Alone(th.(pc := NextPc(th, outcomes[0], zones)), NextZones(th, outcomes[0], zones), outcomes[1..])
  }

  lemma {:induction false} UnlockingAlone(th: Thread, zones: Config, outcomes: seq<bool>)
    requires th.pc.Unlock? || th.pc.Drop? || th.pc.Done?
    ensures Alone(th, zones, outcomes) == zones
    decreases |outcomes|
  {
    if outcomes != [] {
      UnlockingAlone(th.(pc := NextPc(th, outcomes[0], zones)), zones, outcomes[1..]);
    }
  }

  lemma AloneStep(th: Thread, zones: Config, first: bool, rest: seq<bool>)
    ensures Alone(th, zones, [first] + rest) == Alone(th.(pc := NextPc(th, first, zones)), NextZones(th, first, zones), rest)
  {
    assert ([first] + rest)[1..] == rest;
  }

  /** One PATCH and what is left of the operation. */
  lemma LastPatchAlone(th: Thread, zones: Config, patched: bool, rest: seq<bool>)
    requires var pc := NextPc(th, patched, zones); pc.Unlock? || pc.Drop? || pc.Done?
    ensures Alone(th, zones, [patched] + rest) == NextZones(th, patched, zones)
  {
    AloneStep(th, zones, patched, rest);
    UnlockingAlone(th.(pc := NextPc(th, patched, zones)), NextZones(th, patched, zones), rest);
  }

  lemma AddsAlone(key: string, ip: Addr, zones: Config, got: bool, patched: bool)
    ensures var after := Alone(Thread(Add(key, ip), Read), zones, [got, patched]);
            if got && patched && AllClean(zones) && key in zones then after == zones[key := Added(zones[key], ip)]
            else after == zones
  {
    var th := Thread(Add(key, ip), Read);
    assert [got, patched] == [got] + [patched] && [patched] == [patched] + [];
    AloneStep(th, zones, got, [patched]);
    LastPatchAlone(th.(pc := NextPc(th, got, zones)), zones, patched, []);
  }

  lemma ReplacesAlone(key: string, oldIP: Addr, newIP: Addr, zones: Config, got: bool, patched: bool)
    ensures var after := Alone(Thread(Replace(key, oldIP, newIP), Read), zones, [got, patched]);
            if got && patched && AllClean(zones) && key in zones && Contains(zones[key], oldIP)
            then after == zones[key := Replaced(zones[key], oldIP, newIP)]
            else after == zones
  {
    var th := Thread(Replace(key, oldIP, newIP), Read);
    assert [got, patched] == [got] + [patched] && [patched] == [patched] + [];
    AloneStep(th, zones, got, [patched]);
    LastPatchAlone(th.(pc := NextPc(th, got, zones)), zones, patched, []);
  }

  /** The PATCH of a step, with its outcome. */
  ghost function PatchOf(th: Thread, ok: bool): seq<ZC.Patch> {
    match th.pc
    case PatchOne(body) => if th.op.Move? then [] else [ZC.Patch(th.op.key, body, ok)]
    case PatchTarget(filled, _, _) => if th.op.Move? then [ZC.Patch(th.op.target, filled, ok)] else []
    case PatchSource(emptied, _) => if th.op.Move? then [ZC.Patch(th.op.source, emptied, ok)] else []
    case PatchUndo(undo) => if th.op.Move? then [ZC.Patch(th.op.target, undo, ok)] else []
    case _ => []
  }

  /** The PATCHes that a lone thread sends. */
  ghost function SentAlone(th: Thread, zones: Config, outcomes: seq<bool>): seq<ZC.Patch>
    decreases |outcomes|
  {
    if outcomes == [] then []
    else PatchOf(th, outcomes[0]) + SentAlone(th.(pc := NextPc(th, outcomes[0], zones)), NextZones(th, outcomes[0], zones), outcomes[1..])
  }

  lemma {:induction false} UnlockingSendsNothing(th: Thread, zones: Config, outcomes: seq<bool>)
    requires th.pc.Unlock? || th.pc.Drop? || th.pc.Done?
    ensures SentAlone(th, zones, outcomes) == []
    decreases |outcomes|
  {
    if outcomes != [] {
      UnlockingSendsNothing(th.(pc := NextPc(th, outcomes[0], zones)), zones, outcomes[1..]);
    }
  }

  /** One step of a lone thread, and the rest. */
  lemma SentStep(th: Thread, zones: Config, first: bool, rest: seq<bool>)
    ensures SentAlone(th, zones, [first] + rest) ==
            PatchOf(th, first) + SentAlone(th.(pc := NextPc(th, first, zones)), NextZones(th, first, zones), rest)
  {
    assert ([first] + rest)[1..] == rest;
  }

  lemma SentLast(th: Thread, zones: Config, last: bool, rest: seq<bool>)
    requires var pc := NextPc(th, last, zones); pc.Unlock? || pc.Drop? || pc.Done?
    ensures SentAlone(th, zones, [last] + rest) == PatchOf(th, last)
  {
    SentStep(th, zones, last, rest);
    UnlockingSendsNothing(th.(pc := NextPc(th, last, zones)), NextZones(th, last, zones), rest);
  }

  lemma {:induction false} PlayedConcat(before: Config, a: seq<ZC.Patch>, b: seq<ZC.Patch>)
    ensures ZC.Played(before, a + b) == ZC.Played(ZC.Played(before, a), b)
  {
    if b == [] {
      assert a + b == a;
    } else {
      PlayedConcat(before, a, b[..|b| - 1]);
      assert (a + b)[..|a + b| - 1] == a + b[..|b| - 1];
    }
  }

  lemma StepIsPlayed(th: Thread, ok: bool, zones: Config)
    ensures ZC.Played(zones, PatchOf(th, ok)) == NextZones(th, ok, zones)
  {
    var sent := PatchOf(th, ok);
    if sent != [] {
      ZC.PlayedOne(zones, sent[0]);
      assert sent == [sent[0]];
    }
  }

  /** The zones of a lone thread are what its PATCHes make of them. */
  lemma {:induction false} AloneIsPlayed(th: Thread, zones: Config, outcomes: seq<bool>)
    ensures Alone(th, zones, outcomes) == ZC.Played(zones, SentAlone(th, zones, outcomes))
    decreases |outcomes|
  {
    if outcomes != [] {
      var next, after := th.(pc := NextPc(th, outcomes[0], zones)), NextZones(th, outcomes[0], zones);
      AloneIsPlayed(next, after, outcomes[1..]);
      StepIsPlayed(th, outcomes[0], zones);
      PlayedConcat(zones, PatchOf(th, outcomes[0]), SentAlone(next, after, outcomes[1..]));
    }
  }

  /** The PATCHes of a lone move to a zone that lacks the address. */
  lemma FillsAlone(op: Op, zones: Config, first: bool, second: bool, third: bool)
    requires op.Move? && op.source != op.target && ZC.Movable(zones, op.source, op.target, op.ip) && !Contains(zones[op.target], op.ip)
    ensures ZC.MoveCalls(zones, SentAlone(Thread(op, Planned(op, zones)), zones, [first, second, third]), op.source, op.target, op.ip)
    ensures SentAlone(Thread(op, Planned(op, zones)), zones, [first, second, third]) != []
  {
    var th := Thread(op, Planned(op, zones));
    assert [first, second, third] == [first] + [second, third];
    if !first {
      SentLast(th, zones, first, [second, third]);
    } else {
      SentStep(th, zones, first, [second, third]);
      EmptiesOrUndoesAlone(op, zones, th.(pc := NextPc(th, first, zones)), NextZones(th, first, zones), second, third);
    }
  }

  lemma EmptiesOrUndoesAlone(op: Op, zones: Config, th: Thread, filled: Config, second: bool, third: bool)
    requires op.Move? && ZC.Movable(zones, op.source, op.target, op.ip) && th.op == op
    requires th.pc == PatchSource(Without(zones[op.source], op.ip), Some(Snapshot(zones[op.target])))
    ensures SentAlone(th, filled, [second, third]) ==
              if second then [ZC.EmptySource(zones, op.source, op.ip, true)]
              else [ZC.EmptySource(zones, op.source, op.ip, false), ZC.RestoreTarget(zones, op.target, third)]
  {
    assert [second, third] == [second] + [third] && [third] == [third] + [];
    if second {
      SentLast(th, filled, second, [third]);
    } else {
      SentStep(th, filled, second, [third]);
      SentLast(th.(pc := NextPc(th, second, filled)), filled, third, []);
    }
  }

  /** The PATCH of a lone move to a zone that holds the address. */
  lemma EmptiesAlone(op: Op, zones: Config, first: bool, later: seq<bool>)
    requires op.Move? && ZC.Movable(zones, op.source, op.target, op.ip) && Contains(zones[op.target], op.ip)
    ensures SentAlone(Thread(op, Planned(op, zones)), zones, [first] + later) == [ZC.EmptySource(zones, op.source, op.ip, first)]
  {
    SentLast(Thread(op, Planned(op, zones)), zones, first, later);
  }

  /** The PATCHes of a lone move once it has read the zones. */
  lemma SentByPlan(op: Op, zones: Config, rest: seq<bool>)
    requires op.Move? && op.source != op.target && |rest| == 3
    ensures var sent := SentAlone(Thread(op, Planned(op, zones)), zones, rest);
            if ZC.Movable(zones, op.source, op.target, op.ip)
            then sent != [] && ZC.MoveCalls(zones, sent, op.source, op.target, op.ip)
            else sent == []
  {
    if !ZC.Movable(zones, op.source, op.target, op.ip) {
      NothingPlanned(op, zones);
      UnlockingSendsNothing(Thread(op, Planned(op, zones)), zones, rest);
    } else if Contains(zones[op.target], op.ip) {
      assert rest == [rest[0]] + rest[1..];
      EmptiesAlone(op, zones, rest[0], rest[1..]);
    } else {
      assert rest == [rest[0], rest[1], rest[2]];
      FillsAlone(op, zones, rest[0], rest[1], rest[2]);
    }
  }

  /** The PATCHes of a lone move from its GET on. */
  lemma SentByMove(op: Op, zones: Config, got: bool, rest: seq<bool>)
    requires op.Move? && op.source != op.target && |rest| == 3
    ensures var sent := SentAlone(Thread(op, Read), zones, [got] + rest);
            if got && ZC.Movable(zones, op.source, op.target, op.ip)
            then sent != [] && ZC.MoveCalls(zones, sent, op.source, op.target, op.ip)
            else sent == []
  {
    var th := Thread(op, Read);
    SentStep(th, zones, got, rest);
    if got {
      SentByPlan(op, zones, rest);
    } else {
      UnlockingSendsNothing(th.(pc := NextPc(th, got, zones)), zones, rest);
    }
  }

  lemma NothingPlanned(op: Op, zones: Config)
    requires op.Move? && !ZC.Movable(zones, op.source, op.target, op.ip)
    ensures Planned(op, zones).Unlock?
  {
    if AllClean(zones) && op.source in zones && zones[op.source].Advanced? {
      LastNodeMeans(zones[op.source].nodes, op.ip);
    }
  }

  /** Every way a lone move goes is one that ZoneClient.Client.MoveIP promises, and it
      sends nothing only when the zones were not read or there is nothing to move. */
  lemma MovesAlone(op: Op, zones: Config, got: bool, first: bool, second: bool, third: bool)
    requires op.Move? && op.source != op.target
    ensures var th, outcomes := Thread(op, Read), [got, first, second, third];
            var sent := SentAlone(th, zones, outcomes);
            && (sent == [] <==> !got || !ZC.Movable(zones, op.source, op.target, op.ip))
            && var r := if sent != [] && ZC.AllWentThrough(sent) then Ok(true) else Err(ZC.Unavailable);
               ZC.MoveRun(zones, sent, Alone(th, zones, outcomes), r, op.source, op.target, op.ip)
  {
    var rest := [first, second, third];
    assert [got, first, second, third] == [got] + rest;
    SentByMove(op, zones, got, rest);
    AloneIsPlayed(Thread(op, Read), zones, [got] + rest);
  }
}
