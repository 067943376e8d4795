/** The keyed lock as a machine of its atomic steps, for any number of callers
    (internal/dnsbalancer/lock.go; internal/certmanager/lock.go is the same
    algorithm). A caller's Lock call is a use of an entry: it waits for the entry's
    token, holds it, or is leaving with its reference not yet dropped. */
module KeyedLock {

  /** One Lock call of one caller. */
  datatype Call = Call(caller: nat, index: nat)
  datatype Phase = Waiting | Holding | Leaving
  datatype Use = Use(entry: nat, phase: Phase)
  datatype Entry = Entry(key: string, token: bool, refs: int)

  /** `live` is the map of the locker; `table` has every entry ever made, deleted ones
      included. */
  datatype State = State(live: map<string, nat>, table: seq<Entry>, uses: map<Call, Use>)

  const Empty := State(map[], [], map[])

  datatype Step =
    | Register(key: string)
    | Take
    | GiveUp
    | ReturnToken
    | Release

  predicate UsedAs(s: State, c: Call, phase: Phase) {
    c in s.uses && s.uses[c].phase == phase && s.uses[c].entry < |s.table|
  }

  /** Whether the step is not blocked. Sending to a channel of capacity one that
      holds its token would block. */
  predicate Enabled(s: State, c: Call, step: Step) {
    match step
    case Register(_) => c !in s.uses && (step.key in s.live ==> s.live[step.key] < |s.table|)
    case Take => UsedAs(s, c, Waiting) && s.table[s.uses[c].entry].token
    case GiveUp => UsedAs(s, c, Waiting)
    case ReturnToken => UsedAs(s, c, Holding) && !s.table[s.uses[c].entry].token
    case Release => UsedAs(s, c, Leaving)
  }

  /** Lock up to its select. */
  function Registered(s: State, c: Call, key: string): State
    requires Enabled(s, c, Register(key))
  {
    if key in s.live then
      var e := s.live[key];
      State(s.live, s.table[e := s.table[e].(refs := s.table[e].refs + 1)], s.uses[c := Use(e, Waiting)])
    else
      State(s.live[key := |s.table|], s.table + [Entry(key, true, 1)], s.uses[c := Use(|s.table|, Waiting)])
  }

  function Released(s: State, c: Call): State
    requires Enabled(s, c, Release)
  {
    var e := s.uses[c].entry;
    var entry := s.table[e].(refs := s.table[e].refs - 1);
    State(if entry.refs == 0 && entry.key in s.live && s.live[entry.key] == e then s.live - {entry.key} else s.live,
          s.table[e := entry], s.uses - {c})
  }

  function Next(s: State, c: Call, step: Step): State
    requires Enabled(s, c, step)
  {
    match step
    case Register(key) => Registered(s, c, key)
    case Release => Released(s, c)
    case Take =>
      var e := s.uses[c].entry;
      s.(table := s.table[e := s.table[e].(token := false)], uses := s.uses[c := Use(e, Holding)])
    case GiveUp =>
      s.(uses := s.uses[c := Use(s.uses[c].entry, Leaving)])
    case ReturnToken =>
      var e := s.uses[c].entry;
      s.(table := s.table[e := s.table[e].(token := true)], uses := s.uses[c := Use(e, Leaving)])
  }

  // ---- The invariant ----

  function UsersOf(s: State, e: nat): set<Call> {
    set c | c in s.uses && s.uses[c].entry == e
  }

  function HoldersOf(s: State, e: nat): set<Call> {
    set c | c in s.uses && s.uses[c].entry == e && s.uses[c].phase == Holding
  }

  ghost predicate LiveIsSound(s: State) {
    && (forall key :: key in s.live ==> s.live[key] < |s.table| && s.table[s.live[key]].key == key
                                        && s.table[s.live[key]].refs > 0)
    && (forall e :: 0 <= e < |s.table| && s.table[e].refs > 0 ==>
          s.table[e].key in s.live && s.live[s.table[e].key] == e)
  }

  ghost predicate Counted(s: State) {
    && (forall c :: c in s.uses ==> s.uses[c].entry < |s.table|)
    && (forall e :: 0 <= e < |s.table| ==> s.table[e].refs == |UsersOf(s, e)|)
  }

  ghost predicate TokensAreSound(s: State) {
    forall e :: 0 <= e < |s.table| ==> |HoldersOf(s, e)| == if s.table[e].token then 0 else 1
  }

  ghost predicate Inv(s: State) {
    Counted(s) && LiveIsSound(s) && TokensAreSound(s)
  }

  lemma InitInv()
    ensures Inv(Empty)
  {
  }

  /** A step that touches one call and one entry leaves the counts of the other
      entries right. */
  lemma OtherEntriesStayCounted(s: State, s': State, c: Call, mine: nat)
    requires Counted(s) && TokensAreSound(s)
    requires forall d :: d != c ==> (d in s.uses <==> d in s'.uses) && (d in s.uses ==> s.uses[d] == s'.uses[d])
    requires c in s.uses ==> s.uses[c].entry == mine
    requires c in s'.uses ==> s'.uses[c].entry == mine
    requires |s.table| <= |s'.table| && mine < |s'.table|
    requires forall e :: 0 <= e < |s'.table| && e != mine ==> e < |s.table| && s'.table[e] == s.table[e]
    requires s'.table[mine].refs == |UsersOf(s', mine)|
    requires |HoldersOf(s', mine)| == if s'.table[mine].token then 0 else 1
    ensures Counted(s') && TokensAreSound(s')
  {
    forall e | 0 <= e < |s'.table| && e != mine
      ensures UsersOf(s', e) == UsersOf(s, e) && HoldersOf(s', e) == HoldersOf(s, e)
    {
    }
  }

  lemma RegisterCountsMine(s: State, c: Call, key: string)
    requires Counted(s) && TokensAreSound(s) && LiveIsSound(s) && Enabled(s, c, Register(key))
    ensures var s' := Registered(s, c, key);
            var mine := s'.uses[c].entry;
            && s'.table[mine].refs == |UsersOf(s', mine)|
            && |HoldersOf(s', mine)| == if s'.table[mine].token then 0 else 1
  {
    var s' := Registered(s, c, key);
    var mine := s'.uses[c].entry;
    if key !in s.live {
      assert UsersOf(s, mine) == {};
      assert HoldersOf(s, mine) == {};
    }
    assert UsersOf(s', mine) == UsersOf(s, mine) + {c};
    assert HoldersOf(s', mine) == HoldersOf(s, mine);
  }

  lemma RegisterCounts(s: State, c: Call, key: string)
    requires Inv(s) && Enabled(s, c, Register(key))
    ensures Counted(Registered(s, c, key)) && TokensAreSound(Registered(s, c, key))
  {
    RegisterCountsMine(s, c, key);
    OtherEntriesStayCounted(s, Registered(s, c, key), c, Registered(s, c, key).uses[c].entry);
  }

  lemma RegisterKeepsLive(s: State, c: Call, key: string)
    requires LiveIsSound(s) && Enabled(s, c, Register(key))
    ensures LiveIsSound(Registered(s, c, key))
  {
  }

  lemma RegisterKeeps(s: State, c: Call, key: string)
    requires Inv(s) && Enabled(s, c, Register(key))
    ensures Inv(Registered(s, c, key))
  {
    RegisterCounts(s, c, key);
    RegisterKeepsLive(s, c, key);
  }

  lemma ReleaseKeeps(s: State, c: Call)
    requires Inv(s) && Enabled(s, c, Release)
    ensures Inv(Released(s, c))
  {
    var s' := Released(s, c);
    var mine := s.uses[c].entry;
    assert c in UsersOf(s, mine);
    assert UsersOf(s', mine) == UsersOf(s, mine) - {c};
    assert HoldersOf(s', mine) == HoldersOf(s, mine);
    OtherEntriesStayCounted(s, s', c, mine);
    ReleaseKeepsLive(s, c);
  }

  lemma ReleaseKeepsLive(s: State, c: Call)
    requires Counted(s) && LiveIsSound(s) && Enabled(s, c, Release)
    ensures LiveIsSound(Released(s, c))
  {
    assert c in UsersOf(s, s.uses[c].entry);
  }

  lemma TakeKeeps(s: State, c: Call)
    requires Inv(s) && Enabled(s, c, Take)
    ensures Inv(Next(s, c, Take))
  {
    var s', mine := Next(s, c, Take), s.uses[c].entry;
    assert UsersOf(s', mine) == UsersOf(s, mine);
    assert HoldersOf(s', mine) == HoldersOf(s, mine) + {c};
    OtherEntriesStayCounted(s, s', c, mine);
  }

  lemma GiveUpKeeps(s: State, c: Call)
    requires Inv(s) && Enabled(s, c, GiveUp)
    ensures Inv(Next(s, c, GiveUp))
  {
    var s', mine := Next(s, c, GiveUp), s.uses[c].entry;
    assert UsersOf(s', mine) == UsersOf(s, mine);
    assert HoldersOf(s', mine) == HoldersOf(s, mine);
    OtherEntriesStayCounted(s, s', c, mine);
  }

  lemma ReturnKeeps(s: State, c: Call)
    requires Inv(s) && Enabled(s, c, ReturnToken)
    ensures Inv(Next(s, c, ReturnToken))
  {
    var s', mine := Next(s, c, ReturnToken), s.uses[c].entry;
    assert UsersOf(s', mine) == UsersOf(s, mine);
    assert c in HoldersOf(s, mine);
    assert HoldersOf(s', mine) == HoldersOf(s, mine) - {c};
    OtherEntriesStayCounted(s, s', c, mine);
  }

  lemma StepKeepsInv(s: State, c: Call, step: Step)
    requires Inv(s) && Enabled(s, c, step)
    ensures Inv(Next(s, c, step))
  {
    match step {
      case Register(key) => RegisterKeeps(s, c, key);
      case Release => ReleaseKeeps(s, c);
      case Take => TakeKeeps(s, c);
      case GiveUp => GiveUpKeeps(s, c);
      case ReturnToken => ReturnKeeps(s, c);
    }
  }

  // ---- Runs ----

  datatype Move = Move(call: Call, step: Step)

  /** Move i takes the run from its i-th state to the next. */
  ghost predicate MovesAt(run: seq<State>, moves: seq<Move>, i: nat)
    requires i < |moves| && i + 1 < |run|
  {
    Enabled(run[i], moves[i].call, moves[i].step) && run[i + 1] == Next(run[i], moves[i].call, moves[i].step)
  }

  ghost predicate IsRun(run: seq<State>, moves: seq<Move>) {
    && |run| == |moves| + 1 && run[0] == Empty
    && forall i :: 0 <= i < |moves| ==> MovesAt(run, moves, i)
  }

  lemma {:induction false} RunsKeepInv(run: seq<State>, moves: seq<Move>, i: nat)
    requires IsRun(run, moves) && i < |run|
    ensures Inv(run[i])
  {
    if i == 0 {
      InitInv();
    } else {
      RunsKeepInv(run, moves, i - 1);
      assert MovesAt(run, moves, i - 1);
      StepKeepsInv(run[i - 1], moves[i - 1].call, moves[i - 1].step);
    }
  }

  // ---- What it means ----

  function KeyOf(s: State, c: Call): string
    requires c in s.uses && s.uses[c].entry < |s.table|
  {
    s.table[s.uses[c].entry].key
  }

  /** Two calls that hold tokens hold different keys, whether or not their entries are
      still in the map. */
  lemma MutualExclusion(s: State, c: Call, d: Call)
    requires Inv(s) && UsedAs(s, c, Holding) && UsedAs(s, d, Holding) && KeyOf(s, c) == KeyOf(s, d)
    ensures c == d
  {
    UsersAreLive(s, c);
    UsersAreLive(s, d);
    var e := s.uses[c].entry;
    var holders := HoldersOf(s, e);
    assert c in holders && d in holders;
    if c != d {
      assert {c, d} <= holders;
      CardinalityOfSubset({c, d}, holders);
    }
  }

  lemma CardinalityOfSubset<T>(a: set<T>, b: set<T>)
    requires a <= b
    ensures |a| <= |b|
  {
    assert b == a + (b - a);
  }

  /** An entry that somebody refers to is the one the map has for its key. */
  lemma UsersAreLive(s: State, c: Call)
    requires Inv(s) && c in s.uses
    ensures KeyOf(s, c) in s.live && s.live[KeyOf(s, c)] == s.uses[c].entry
  {
    var e := s.uses[c].entry;
    assert c in UsersOf(s, e);
    assert s.table[e].refs > 0;
  }

  /** Each entry, live or deleted: its token and its holders add up to one, and its
      reference count is the number of waiters, holders and leavers. */
  lemma TokenPlusHolders(s: State, e: nat)
    requires Inv(s) && e < |s.table|
    ensures (if s.table[e].token then 1 else 0) + |HoldersOf(s, e)| == 1
    ensures s.table[e].refs == |UsersOf(s, e)|
  {
  }

  /** The unlock function never blocks on its send. */
  lemma ReturnNeverBlocks(s: State, c: Call)
    requires Inv(s) && UsedAs(s, c, Holding)
    ensures Enabled(s, c, ReturnToken)
  {
    assert c in HoldersOf(s, s.uses[c].entry);
  }

  /** The identity test in release never fails: a count that drops to zero is the
      count of the entry in the map. */
  lemma ReleaseDeletesItsOwnEntry(s: State, c: Call)
    requires Inv(s) && Enabled(s, c, Release) && s.table[s.uses[c].entry].refs == 1
    ensures KeyOf(s, c) in s.live && s.live[KeyOf(s, c)] == s.uses[c].entry
    ensures Next(s, c, Release).live == s.live - {KeyOf(s, c)}
  {
    UsersAreLive(s, c);
  }

  /** A key is in the map exactly while some call waits for it, holds it or leaves. */
  lemma LiveKeysAreUsed(s: State, key: string)
    requires Inv(s)
    ensures key in s.live <==> exists c :: c in s.uses && KeyOf(s, c) == key
  {
    if key in s.live {
      var e := s.live[key];
      assert |UsersOf(s, e)| > 0;
      var c :| c in UsersOf(s, e);
      assert c in s.uses && KeyOf(s, c) == key;
    }
    if c :| c in s.uses && KeyOf(s, c) == key {
      UsersAreLive(s, c);
    }
  }

  /** The map is empty exactly when nobody is inside. */
  lemma IdleMapIsEmpty(s: State)
    requires Inv(s)
    ensures s.live == map[] <==> s.uses == map[]
  {
    forall key ensures key in s.live <==> exists c :: c in s.uses && KeyOf(s, c) == key {
      LiveKeysAreUsed(s, key);
    }
    if s.uses != map[] {
      var c :| c in s.uses;
      UsersAreLive(s, c);
    }
  }

  /** A caller waits in vain only while another call holds the key. */
  lemma BlockedByHolder(s: State, c: Call) returns (d: Call)
    requires Inv(s) && UsedAs(s, c, Waiting) && !Enabled(s, c, Take)
    ensures UsedAs(s, d, Holding) && KeyOf(s, d) == KeyOf(s, c)
  {
    var e := s.uses[c].entry;
    assert |HoldersOf(s, e)| == 1;
    d :| d in HoldersOf(s, e);
  }
}
