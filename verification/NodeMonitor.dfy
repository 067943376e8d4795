/** The stateful monitor (internal/telegram/node_monitor.go). Whatever samples it
    takes, what it remembers and sends for every node is a history of AlertHistory. */
module NodeMonitor {
  import opened Wrappers
  import opened NodeGroups
  import opened AlertHistory

  type States = map<string, AlertState>

  function MonitorKey(n: Node): string {
    n.panel + ":" + n.uuid
  }

  /** A UUID has no colon, so the key names one node. */
  lemma KeyNamesNode(a: Node, b: Node)
    requires ':' !in a.uuid && ':' !in b.uuid
    ensures MonitorKey(a) == MonitorKey(b) <==> a.panel == b.panel && a.uuid == b.uuid
  {
    var x, y := MonitorKey(a), MonitorKey(b);
    if x == y {
      assert x[|a.panel|] == ':' && y[|b.panel|] == ':';
      assert |a.panel| == |b.panel|;
      assert x[..|a.panel|] == a.panel && y[..|b.panel|] == b.panel;
      assert x[|a.panel| + 1..] == a.uuid && y[|b.panel| + 1..] == b.uuid;
    }
  }

  ghost predicate DistinctKeys(nodes: seq<Node>) {
    forall i, j :: 0 <= i < j < |nodes| ==> MonitorKey(nodes[i]) != MonitorKey(nodes[j])
  }

  /** What a sample has read. */
  datatype Reading = Reading(panels: seq<string>, nodes: seq<Node>, threshold: int)

  ghost predicate Known(r: Reading, n: Node) {
    n in r.nodes && PanelIndex(r.panels, n.panel).Some?
  }

  ghost function MarkOf(r: Reading, key: string): Mark {
    if n :| Known(r, n) && MonitorKey(n) == key then Seen(GroupOf(n, r.threshold)) else Missing
  }

  lemma SameKeySameNode(nodes: seq<Node>, a: Node, b: Node)
    requires DistinctKeys(nodes) && a in nodes && b in nodes && MonitorKey(a) == MonitorKey(b)
    ensures a == b
  {
  }

  lemma MarkOfKnown(r: Reading, n: Node)
    requires DistinctKeys(r.nodes) && Known(r, n)
    ensures MarkOf(r, MonitorKey(n)) == Seen(GroupOf(n, r.threshold))
  {
    var m :| Known(r, m) && MonitorKey(m) == MonitorKey(n)
             && MarkOf(r, MonitorKey(n)) == Seen(GroupOf(m, r.threshold));
    assert Known(r, m);
    assert m in r.nodes;
    assert n in r.nodes;
    SameKeySameNode(r.nodes, m, n);
  }

  /** A node of a listed panel, under its key. */
  ghost predicate Read(r: Reading, n: Node, key: string) {
    n in r.nodes && n.panel in r.panels && MonitorKey(n) == key
  }

  /** What a sample says of a key, by the fields of the node that it read under it. */
  lemma MarkMeans(r: Reading, key: string)
    requires DistinctKeys(r.nodes)
    ensures MarkOf(r, key) == Missing <==> forall n :: !Read(r, n, key)
    ensures MarkOf(r, key) == Seen(Disabled) <==> exists n :: Read(r, n, key) && n.disabled
    ensures MarkOf(r, key) == Seen(Ignored) <==> exists n :: Read(r, n, key) && !n.disabled && !(n.connected && n.onlineKnown)
    ensures MarkOf(r, key) == Seen(Critical) <==>
              exists n :: Read(r, n, key) && !n.disabled && n.connected && n.onlineKnown && n.online <= r.threshold
    ensures MarkOf(r, key) == Seen(Active) <==>
              exists n :: Read(r, n, key) && !n.disabled && n.connected && n.onlineKnown && n.online > r.threshold
  {
    forall n: Node ensures Known(r, n) <==> n in r.nodes && n.panel in r.panels {
      ListedSomewhere(r.panels, n.panel);
    }
    if n :| Known(r, n) && MonitorKey(n) == key {
      MarkOfKnown(r, n);
      assert Read(r, n, key);
      forall m | Read(r, m, key) ensures m == n {
        SameKeySameNode(r.nodes, m, n);
      }
    }
  }

  lemma {:induction false} ListedSomewhere(panels: seq<string>, id: string)
    ensures PanelIndex(panels, id).Some? <==> id in panels
  {
    if panels != [] {
      ListedSomewhere(panels[..|panels| - 1], id);
      assert panels == panels[..|panels| - 1] + [panels[|panels| - 1]];
    }
  }

  function ForKey(messages: seq<Message>, key: string): seq<Message> {
    if messages == [] then []
    else
      var m := messages[|messages| - 1];
      ForKey(messages[..|messages| - 1], key) + (if m.key == key then [m] else [])
  }

  lemma {:induction false} ForKeyConcat(a: seq<Message>, b: seq<Message>, key: string)
    ensures ForKey(a + b, key) == ForKey(a, key) + ForKey(b, key)
  {
    if b == [] {
      assert a + b == a;
    } else {
      ForKeyConcat(a, b[..|b| - 1], key);
      assert (a + b)[..|a + b| - 1] == a + b[..|b| - 1];
    }
  }

  lemma {:induction false} ForKeyAll(a: seq<Message>, key: string, other: string)
    requires forall m :: m in a ==> m.key == key
    ensures ForKey(a, other) == if other == key then a else []
  {
    if a != [] {
      assert a[|a| - 1] in a;
      ForKeyAll(a[..|a| - 1], key, other);
      assert a == a[..|a| - 1] + [a[|a| - 1]];
    }
  }

  /** A sample that went through. */
  datatype Sample = Sample(reading: Reading, now: int, messages: seq<Message>)

  ghost function TurnOf(s: Sample, key: string): Turn {
    Turn(MarkOf(s.reading, key), s.now, ForKey(s.messages, key))
  }

  /** The samples as one node sees them. */
  ghost function TurnsOf(samples: seq<Sample>, key: string): seq<Turn> {
    seq(|samples|, i requires 0 <= i < |samples| => TurnOf(samples[i], key))
  }

  function Lookup(states: States, key: string): Option<AlertState> {
    if key in states then Some(states[key]) else None
  }

  /** Every node's state and messages are those of a history. */
  ghost predicate KeepsHistories(cfg: Config, samples: seq<Sample>, states: States) {
    forall key :: KeepsHistory(cfg, samples, states, key)
  }

  ghost predicate KeepsHistory(cfg: Config, samples: seq<Sample>, states: States, key: string) {
    && IsHistory(cfg, key, TurnsOf(samples, key))
    && Lookup(states, key) == StateAt(TurnsOf(samples, key), |samples|)
  }

  lemma {:induction false} StateAtOfPrefix(turns: seq<Turn>, turn: Turn, i: nat)
    requires i <= |turns|
    ensures StateAt(turns + [turn], i) == StateAt(turns, i)
  {
    if i > 0 {
      StateAtOfPrefix(turns, turn, i - 1);
    }
  }

  lemma SendsAtOfPrefix(cfg: Config, key: string, turns: seq<Turn>, turn: Turn, i: nat)
    requires i < |turns| && SendsAt(cfg, key, turns, i)
    ensures SendsAt(cfg, key, turns + [turn], i)
  {
    StateAtOfPrefix(turns, turn, i);
    assert (turns + [turn])[i] == turns[i];
  }

  lemma SendsAtEnd(cfg: Config, key: string, turns: seq<Turn>, turn: Turn)
    requires Sends(cfg, key, StateAt(turns, |turns|), turn)
    ensures SendsAt(cfg, key, turns + [turn], |turns|)
    ensures StateAt(turns + [turn], |turns| + 1) == Next(StateAt(turns, |turns|), turn)
  {
    StateAtOfPrefix(turns, turn, |turns|);
    assert (turns + [turn])[|turns|] == turn;
  }

  lemma HistorySnoc(cfg: Config, key: string, turns: seq<Turn>, turn: Turn)
    requires IsHistory(cfg, key, turns) && Sends(cfg, key, StateAt(turns, |turns|), turn)
    ensures IsHistory(cfg, key, turns + [turn])
  {
    var all := turns + [turn];
    forall i | 0 <= i < |all| ensures SendsAt(cfg, key, all, i) {
      if i < |turns| {
        SendsAtOfPrefix(cfg, key, turns, turn, i);
      } else {
        SendsAtEnd(cfg, key, turns, turn);
      }
    }
  }

  lemma OneMoreSample(cfg: Config, samples: seq<Sample>, s: Sample, states: States, after: States, key: string)
    requires KeepsHistory(cfg, samples, states, key)
    requires Sends(cfg, key, Lookup(states, key), TurnOf(s, key))
    requires Lookup(after, key) == Next(Lookup(states, key), TurnOf(s, key))
    ensures KeepsHistory(cfg, samples + [s], after, key)
  {
    var turns, turn := TurnsOf(samples, key), TurnOf(s, key);
    HistorySnoc(cfg, key, turns, turn);
    SendsAtEnd(cfg, key, turns, turn);
    assert TurnsOf(samples + [s], key) == turns + [turn];
  }

  lemma {:induction false} ForKeyHas(messages: seq<Message>, m: Message)
    requires m in messages
    ensures m.Alert? ==> AlertIn(ForKey(messages, m.key), m.user)
    ensures m.Recovery? ==> RecoveryIn(ForKey(messages, m.key), m.user)
  {
    var last, front := messages[|messages| - 1], messages[..|messages| - 1];
    assert messages == front + [last];
    if m != last {
      ForKeyHas(front, m);
    }
    if last.key == m.key {
      RecoveryInSnoc(ForKey(front, m.key), last, m.user);
    } else {
      assert ForKey(messages, m.key) == ForKey(front, m.key);
    }
  }

  /** Whatever samples came: an alert is about an enabled, connected node of the sample
      whose known count is at most the threshold, and a recovery message about one whose
      count is above it; both go to configured users only. */
  lemma MessagesSpeakOfNodes(cfg: Config, samples: seq<Sample>, states: States, i: nat, m: Message)
    requires KeepsHistories(cfg, samples, states) && Sound(cfg) && i < |samples| && m in samples[i].messages
    requires DistinctKeys(samples[i].reading.nodes)
    ensures var r := samples[i].reading;
            exists n :: Read(r, n, m.key) && !n.disabled && n.connected && n.onlineKnown
                        && if m.Alert? then n.online <= r.threshold else n.online > r.threshold
    ensures m.user in cfg.users
  {
    var turns := TurnsOf(samples, m.key);
    assert KeepsHistory(cfg, samples, states, m.key);
    assert turns[i] == TurnOf(samples[i], m.key);
    ForKeyHas(samples[i].messages, m);
    MarkMeans(samples[i].reading, m.key);
    if m.Alert? {
      AlertedExactlyWhen(cfg, m.key, turns, i, m.user);
    } else {
      RecoveredExactlyWhen(cfg, m.key, turns, i, m.user);
      HistoryFollows(cfg, m.key, turns, m.user);
      assert ObeysAt(cfg, turns, m.user, i);
    }
  }

  // ---- While a sample is worked through ----

  /** The nodes in `done` have had their turn, the others are as they were. */
  ghost predicate Progress(cfg: Config, r: Reading, now: int, before: States, after: States, messages: seq<Message>, done: set<string>) {
    forall key :: HadTurn(cfg, r, now, before, after, messages, key, key in done)
  }

  ghost predicate HadTurn(cfg: Config, r: Reading, now: int, before: States, after: States, messages: seq<Message>, key: string, done: bool) {
    TookTurn(cfg, key, Lookup(before, key), Lookup(after, key), Turn(MarkOf(r, key), now, ForKey(messages, key)), done)
  }

  ghost predicate TookTurn(cfg: Config, key: string, before: Option<AlertState>, after: Option<AlertState>, turn: Turn, done: bool) {
    if done then Sends(cfg, key, before, turn) && after == Next(before, turn)
    else after == before && turn.messages == []
  }

  lemma ProgressStep(cfg: Config, r: Reading, now: int, before: States, states: States, after: States,
                     messages: seq<Message>, sent: seq<Message>, done: set<string>, key: string)
    requires Progress(cfg, r, now, before, states, messages, done) && key !in done
    requires forall m :: m in sent ==> m.key == key
    requires forall other :: other != key ==> Lookup(after, other) == Lookup(states, other)
    requires Sends(cfg, key, Lookup(states, key), Turn(MarkOf(r, key), now, sent))
    requires Lookup(after, key) == Next(Lookup(states, key), Turn(MarkOf(r, key), now, sent))
    ensures Progress(cfg, r, now, before, after, messages + sent, done + {key})
  {
    forall other ensures HadTurn(cfg, r, now, before, after, messages + sent, other, other in done + {key}) {
      assert HadTurn(cfg, r, now, before, states, messages, other, other in done);
      ForKeyConcat(messages, sent, other);
      ForKeyAll(sent, key, other);
      if other == key {
        assert ForKey(messages + sent, key) == sent;
      } else {
        assert ForKey(messages + sent, other) == ForKey(messages, other);
      }
    }
  }

  function KeysOf(nodes: seq<Node>): set<string> {
    set n | n in nodes :: MonitorKey(n)
  }

  lemma KeysOfSnoc(nodes: seq<Node>, n: Node)
    ensures KeysOf(nodes + [n]) == KeysOf(nodes) + {MonitorKey(n)}
  {
    assert n in nodes + [n];
    assert forall m :: m in nodes ==> m in nodes + [n];
  }

  /** The nodes that the first i panels' groups have been worked through for. */
  ghost function Handled(r: Reading, i: nat): set<string> {
    set n | n in r.nodes && PanelIndex(r.panels, n.panel).Some? && PanelIndex(r.panels, n.panel).value < i
            && GroupOf(n, r.threshold) != Ignored :: MonitorKey(n)
  }

  /** The keys of group g in panel i. */
  ghost function GroupKeys(r: Reading, i: nat, g: Group): set<string> {
    set n | n in r.nodes && PanelIndex(r.panels, n.panel) == Some(i) && GroupOf(n, r.threshold) == g :: MonitorKey(n)
  }

  lemma HandledStep(r: Reading, i: nat)
    ensures Handled(r, i + 1) == Handled(r, i) + GroupKeys(r, i, Critical) + GroupKeys(r, i, Active) + GroupKeys(r, i, Disabled)
  {
  }

  /** A group's list is its keys, each once, and every node in it has that mark. */
  lemma GroupIsListed(r: Reading, result: seq<Snapshot>, i: nat, g: Group)
    requires Grouped(r.panels, r.nodes, r.threshold, result) && i < |result| && DistinctKeys(r.nodes)
    ensures KeysOf(result[i].Of(g)) == GroupKeys(r, i, g)
    ensures DistinctKeys(result[i].Of(g))
    ensures forall n :: n in result[i].Of(g) ==> Known(r, n) && MarkOf(r, MonitorKey(n)) == Seen(g)
  {
    var s := result[i].Of(g);
    forall n ensures n in s <==> n in r.nodes && PanelIndex(r.panels, n.panel) == Some(i) && GroupOf(n, r.threshold) == g {
      InGroup(r.panels, r.nodes, r.threshold, result, i, g, n);
    }
    forall n | n in s ensures MarkOf(r, MonitorKey(n)) == Seen(g) {
      MarkOfKnown(r, n);
    }
    GroupRepeatsNoKey(r, result, i, g);
  }

  lemma GroupRepeatsNoKey(r: Reading, result: seq<Snapshot>, i: nat, g: Group)
    requires Grouped(r.panels, r.nodes, r.threshold, result) && i < |result| && DistinctKeys(r.nodes)
    requires forall n :: n in result[i].Of(g) ==> n in r.nodes
    ensures DistinctKeys(result[i].Of(g))
  {
    var s := result[i].Of(g);
    assert PanelGroups(result[i], r.panels, i, r.nodes, r.threshold);
    assert Picks(s, r.nodes, r.panels, i, g, r.threshold);
    forall a, b | 0 <= a < b < |s| ensures MonitorKey(s[a]) != MonitorKey(s[b]) {
      if MonitorKey(s[a]) == MonitorKey(s[b]) {
        SameKeySameNode(r.nodes, s[a], s[b]);
        Twice(s, a, b);
        Once(r.nodes, s[a]);
      }
    }
  }

  lemma Twice(s: seq<Node>, a: nat, b: nat)
    requires a < b < |s| && s[a] == s[b]
    ensures multiset(s)[s[a]] >= 2
  {
    assert s == s[..b] + [s[b]] + s[b + 1..];
    assert s[..b][a] in multiset(s[..b]);
  }

  lemma {:induction false} Once(nodes: seq<Node>, n: Node)
    requires DistinctKeys(nodes)
    ensures multiset(nodes)[n] <= 1
  {
    if nodes != [] {
      var init := nodes[..|nodes| - 1];
      Once(init, n);
      assert nodes == init + [nodes[|nodes| - 1]];
      if nodes[|nodes| - 1] == n {
        assert n !in init;
      }
    }
  }

  /** The nodes of the first i panels. */
  ghost function SeenKeys(r: Reading, i: nat): set<string> {
    set n | n in r.nodes && PanelIndex(r.panels, n.panel).Some? && PanelIndex(r.panels, n.panel).value < i :: MonitorKey(n)
  }

  lemma SeenStep(r: Reading, result: seq<Snapshot>, i: nat)
    requires Grouped(r.panels, r.nodes, r.threshold, result) && i < |result|
    ensures SeenKeys(r, i + 1) == SeenKeys(r, i) + KeysOf(result[i].all)
  {
    forall n ensures n in result[i].all <==> n in r.nodes && PanelIndex(r.panels, n.panel) == Some(i) {
      AllOfPanel(r.panels, r.nodes, r.threshold, result, i, n);
    }
  }

  lemma {:induction false} PanelIndexBound(panels: seq<string>, id: string)
    ensures PanelIndex(panels, id).Some? ==> PanelIndex(panels, id).value < |panels|
  {
    if panels != [] {
      PanelIndexBound(panels[..|panels| - 1], id);
    }
  }

  /** Once the keys that were not seen are gone, every node has had its turn. */
  lemma AllHadTurn(cfg: Config, r: Reading, now: int, before: States, states: States, after: States, messages: seq<Message>, key: string)
    requires DistinctKeys(r.nodes)
    requires HadTurn(cfg, r, now, before, states, messages, key, key in Handled(r, |r.panels|))
    requires Lookup(after, key) == if key in SeenKeys(r, |r.panels|) then Lookup(states, key) else None
    ensures HadTurn(cfg, r, now, before, after, messages, key, true)
  {
    forall n: Node ensures PanelIndex(r.panels, n.panel).Some? ==> PanelIndex(r.panels, n.panel).value < |r.panels| {
      PanelIndexBound(r.panels, n.panel);
    }
    if n :| Known(r, n) && MonitorKey(n) == key {
      MarkOfKnown(r, n);
      assert key in SeenKeys(r, |r.panels|);
      if key in Handled(r, |r.panels|) {
        var m :| Known(r, m) && GroupOf(m, r.threshold) != Ignored && MonitorKey(m) == key;
        SameKeySameNode(r.nodes, m, n);
      } else {
        assert GroupOf(n, r.threshold) == Ignored;
      }
    } else {
      assert key !in Handled(r, |r.panels|) && key !in SeenKeys(r, |r.panels|);
    }
  }

  /** Different groups have different keys, whatever panel they are of. */
  lemma GroupsAreApart(r: Reading, i: nat, g: Group)
    requires DistinctKeys(r.nodes)
    ensures GroupKeys(r, i, g) !! Handled(r, i)
    ensures forall h :: h != g ==> GroupKeys(r, i, g) !! GroupKeys(r, i, h)
  {
    forall key | key in GroupKeys(r, i, g)
      ensures key !in Handled(r, i) && forall h :: h != g ==> key !in GroupKeys(r, i, h)
    {
      var n :| n in r.nodes && PanelIndex(r.panels, n.panel) == Some(i) && GroupOf(n, r.threshold) == g && MonitorKey(n) == key;
      forall m | m in r.nodes && MonitorKey(m) == key ensures m == n {
        SameKeySameNode(r.nodes, m, n);
      }
    }
  }

  lemma NextNode(nodes: seq<Node>, i: nat, done: set<string>)
    requires i < |nodes| && DistinctKeys(nodes) && KeysOf(nodes) !! done
    ensures MonitorKey(nodes[i]) !in done + KeysOf(nodes[..i])
    ensures KeysOf(nodes[..i + 1]) == KeysOf(nodes[..i]) + {MonitorKey(nodes[i])}
  {
    assert nodes[i] in nodes;
    assert nodes[..i + 1] == nodes[..i] + [nodes[i]];
    KeysOfSnoc(nodes[..i], nodes[i]);
  }

  function NotedFor(last: map<int, int>, user: int): Option<int> {
    if user in last then Some(last[user]) else None
  }

  ghost predicate OnlyNoted(last: map<int, int>, noted: map<int, int>, users: seq<int>) {
    forall u {:trigger NotedFor(noted, u)} :: u !in users ==> NotedFor(noted, u) == NotedFor(last, u)
  }

  lemma NotedOne(last: map<int, int>, noted: map<int, int>, users: seq<int>, user: int, now: int)
    requires OnlyNoted(last, noted, users)
    ensures OnlyNoted(last, noted, users + [user]) && OnlyNoted(last, noted[user := now], users + [user])
  {
    forall u | u !in users + [user] ensures NotedFor(noted[user := now], u) == NotedFor(noted, u) {
      assert u != user;
    }
  }

  lemma NotSeenYet(users: seq<int>, i: nat, last: map<int, int>, noted: map<int, int>)
    requires i < |users| && Distinct(users) && OnlyNoted(last, noted, users[..i])
    ensures NotedFor(noted, users[i]) == NotedFor(last, users[i])
    ensures OnlyNoted(last, noted, users[..i + 1])
  {
    assert users[i] !in users[..i];
    assert users[..i + 1] == users[..i] + [users[i]];
  }

  /** A constructor's validation: the users without repetitions. */
  method UniqueUsers(allowed: seq<int>) returns (r: Option<seq<int>>)
    ensures r.None? <==> allowed == [] || exists u :: u in allowed && u <= 0
    ensures r.Some? ==> Distinct(r.value) && forall u :: u in r.value <==> u in allowed
  {
    if allowed == [] {
      return None;
    }
    var users: seq<int> := [];
    for i := 0 to |allowed|
      invariant Distinct(users)
      invariant forall u :: u in users <==> u in allowed[..i]
      invariant forall u :: u in allowed[..i] ==> u > 0
    {
      assert allowed[..i + 1] == allowed[..i] + [allowed[i]];
      if allowed[i] <= 0 {
        assert allowed[i] in allowed;
        return None;
      }
      if allowed[i] !in users {
        users := users + [allowed[i]];
      }
    }
    assert allowed[..|allowed|] == allowed;
    return Some(users);
  }

  class Monitor {
    const cfg: Config
    const policy: int
    var states: States
    /** The samples that went through. */
    ghost var samples: seq<Sample>

    ghost predicate Valid()
      reads this
    {
      Sound(cfg) && KeepsHistories(cfg, samples, states)
    }

    constructor (users: seq<int>, repeatInterval: int, confirmations: int, policy: int)
      requires Distinct(users)
      ensures Valid() && samples == [] && this.policy == policy
      ensures cfg == Config(users, if repeatInterval <= 0 then 15 * 60 else repeatInterval, if confirmations <= 0 then 2 else confirmations)
    {
      cfg := Config(users, if repeatInterval <= 0 then 15 * 60 else repeatInterval, if confirmations <= 0 then 2 else confirmations);
      this.policy := policy;
      states := map[];
      samples := [];
    }

    /** SendMessage. */
    method Send() returns (delivered: bool)
    {
      delivered := *;
    }

    /** One critical node. */
    method Alarm(node: Node, now: int) returns (sent: seq<Message>)
      requires Distinct(cfg.users)
      modifies this`states
      ensures forall m :: m in sent ==> m.key == MonitorKey(node)
      ensures forall other :: other != MonitorKey(node) ==> Lookup(states, other) == Lookup(old(states), other)
      ensures var state, turn := Lookup(old(states), MonitorKey(node)), Turn(Seen(Critical), now, sent);
              Sends(cfg, MonitorKey(node), state, turn) && Lookup(states, MonitorKey(node)) == Next(state, turn)
    {
      var key := MonitorKey(node);
      var state := if key in states then states[key] else AlertState(0, map[]);
      state := state.(consecutive := state.consecutive + 1);
      sent := [];
      if state.consecutive >= cfg.confirmations {
        var noted;
        sent, noted := AlarmUsers(key, now, state.last);
        state := state.(last := noted);
      }
      states := states[key := state];
    }

    /** The loop over the users that are to be alerted. */
    method AlarmUsers(key: string, now: int, last: map<int, int>) returns (sent: seq<Message>, noted: map<int, int>)
      requires Distinct(cfg.users)
      ensures AlertsTo(cfg.users, last, now, cfg.repeatInterval, key, sent) && noted == Noted(last, sent)
      ensures forall m :: m in sent ==> m.key == key
    {
      sent, noted := [], last;
      for i := 0 to |cfg.users|
        invariant AlertsTo(cfg.users[..i], last, now, cfg.repeatInterval, key, sent) && noted == Noted(last, sent)
        invariant OnlyNoted(last, noted, cfg.users[..i])
        invariant forall m :: m in sent ==> m.key == key
      {
        var user := cfg.users[i];
        assert cfg.users[..i + 1] == cfg.users[..i] + [user];
        NotSeenYet(cfg.users, i, last, noted);
        if user in noted && now < noted[user] + cfg.repeatInterval {
          AlertsSnoc(cfg.users[..i], user, last, now, cfg.repeatInterval, key, sent, false);
          continue;
        }
        var delivered := Send();
        AlertsSnoc(cfg.users[..i], user, last, now, cfg.repeatInterval, key, sent, delivered);
        sent := sent + [Alert(key, user, now, delivered)];
        NotedOne(last, noted, cfg.users[..i], user, now);
        if delivered {
          noted := noted[user := now];
        }
      }
      assert cfg.users[..|cfg.users|] == cfg.users;
    }

    /** One active node. */
    method Recover(node: Node) returns (sent: seq<Message>)
      modifies this`states
      ensures forall m :: m in sent ==> m.key == MonitorKey(node)
      ensures states == old(states) - {MonitorKey(node)}
      ensures forall now :: Sends(cfg, MonitorKey(node), Lookup(old(states), MonitorKey(node)), Turn(Seen(Active), now, sent))
    {
      var key := MonitorKey(node);
      sent := [];
      if key !in states {
        return;
      }
      var state := states[key];
      for i := 0 to |cfg.users|
        modifies {}
        invariant sent == Recoveries(cfg.users[..i], state.last, key)
        invariant forall m :: m in sent ==> m.key == key
      {
        var user := cfg.users[i];
        assert cfg.users[..i + 1][..i] == cfg.users[..i];
        if user !in state.last {
          continue;
        }
        var delivered := Send();
        sent := sent + [Recovery(key, user)];
      }
      assert cfg.users[..|cfg.users|] == cfg.users;
      states := states - {key};
    }

    method AlarmAll(snapshot: Snapshot, ghost r: Reading, now: int, ghost before: States,
                    messages: seq<Message>, ghost done: set<string>) returns (sent: seq<Message>, ghost reached: set<string>)
      requires Distinct(cfg.users)
      requires Progress(cfg, r, now, before, states, messages, done)
      requires DistinctKeys(snapshot.critical) && KeysOf(snapshot.critical) !! done
      requires forall n :: n in snapshot.critical ==> MarkOf(r, MonitorKey(n)) == Seen(Critical)
      modifies this`states
      ensures reached == done + KeysOf(snapshot.critical) && Progress(cfg, r, now, before, states, sent, reached)
    {
      var nodes := snapshot.critical;
      sent, reached := messages, done;
      for i := 0 to |nodes|
        invariant reached == done + KeysOf(nodes[..i]) && Progress(cfg, r, now, before, states, sent, reached)
      {
        var node := nodes[i];
        NextNode(nodes, i, done);
        ghost var was := states;
        var more := Alarm(node, now);
        ProgressStep(cfg, r, now, before, was, states, sent, more, reached, MonitorKey(node));
        sent, reached := sent + more, reached + {MonitorKey(node)};
      }
      assert nodes[..|nodes|] == nodes;
    }

    method RecoverAll(snapshot: Snapshot, ghost r: Reading, ghost now: int, ghost before: States,
                      messages: seq<Message>, ghost done: set<string>) returns (sent: seq<Message>, ghost reached: set<string>)
      requires Progress(cfg, r, now, before, states, messages, done)
      requires DistinctKeys(snapshot.active) && KeysOf(snapshot.active) !! done
      requires forall n :: n in snapshot.active ==> MarkOf(r, MonitorKey(n)) == Seen(Active)
      modifies this`states
      ensures reached == done + KeysOf(snapshot.active) && Progress(cfg, r, now, before, states, sent, reached)
    {
      var nodes := snapshot.active;
      sent, reached := messages, done;
      for i := 0 to |nodes|
        invariant reached == done + KeysOf(nodes[..i]) && Progress(cfg, r, now, before, states, sent, reached)
      {
        var node := nodes[i];
        NextNode(nodes, i, done);
        ghost var was := states;
        var more := Recover(node);
        ProgressStep(cfg, r, now, before, was, states, sent, more, reached, MonitorKey(node));
        sent, reached := sent + more, reached + {MonitorKey(node)};
      }
      assert nodes[..|nodes|] == nodes;
    }

    method ForgetAll(snapshot: Snapshot, ghost r: Reading, ghost now: int, ghost before: States,
                     ghost messages: seq<Message>, ghost done: set<string>) returns (ghost reached: set<string>)
      requires Progress(cfg, r, now, before, states, messages, done)
      requires DistinctKeys(snapshot.disabled) && KeysOf(snapshot.disabled) !! done
      requires forall n :: n in snapshot.disabled ==> MarkOf(r, MonitorKey(n)) == Seen(Disabled)
      modifies this`states
      ensures reached == done + KeysOf(snapshot.disabled) && Progress(cfg, r, now, before, states, messages, reached)
    {
      var nodes := snapshot.disabled;
      reached := done;
      for i := 0 to |nodes|
        invariant reached == done + KeysOf(nodes[..i]) && Progress(cfg, r, now, before, states, messages, reached)
      {
        var node := nodes[i];
        NextNode(nodes, i, done);
        ghost var was := states;
        states := states - {MonitorKey(node)};
        ProgressStep(cfg, r, now, before, was, states, messages, [], reached, MonitorKey(node));
        assert messages + [] == messages;
        reached := reached + {MonitorKey(node)};
      }
      assert nodes[..|nodes|] == nodes;
    }

    /** One sample. A call that fails leaves everything as it was. */
    method TakeSample(panels: Option<seq<string>>, nodes: Option<seq<Node>>, now: int) returns (ok: bool, messages: seq<Message>)
      requires Valid() && (nodes.Some? ==> DistinctKeys(nodes.value))
      modifies this
      ensures Valid()
      ensures ok <==> panels.Some? && nodes.Some?
      ensures ok ==> samples == old(samples) + [Sample(Reading(panels.value, nodes.value, if policy < 1 then 50 else policy), now, messages)]
      ensures !ok ==> samples == old(samples) && states == old(states) && messages == []
    {
      if panels.None? || nodes.None? {
        return false, [];
      }
      ghost var r := Reading(panels.value, nodes.value, Threshold(policy));
      var snapshots := ClassifyNodePanels(panels.value, nodes.value, policy);
      ghost var before := states;
      var seen;
      messages, seen := WorkThrough(snapshots, r, now);
      ghost var worked := states;
      DropUnseen(seen);
      ok := true;
      ghost var s := Sample(r, now, messages);
      forall key ensures KeepsHistory(cfg, samples + [s], states, key) {
        assert HadTurn(cfg, r, now, before, worked, messages, key, key in Handled(r, |r.panels|));
        AllHadTurn(cfg, r, now, before, worked, states, messages, key);
        assert KeepsHistory(cfg, samples, before, key);
        OneMoreSample(cfg, samples, s, before, states, key);
      }
      samples := samples + [s];
    }

    /** The loop over the snapshots. */
    method WorkThrough(snapshots: seq<Snapshot>, ghost r: Reading, now: int) returns (messages: seq<Message>, seen: set<string>)
      requires Distinct(cfg.users) && DistinctKeys(r.nodes) && Grouped(r.panels, r.nodes, r.threshold, snapshots)
      modifies this`states
      ensures seen == SeenKeys(r, |snapshots|)
      ensures Progress(cfg, r, now, old(states), states, messages, Handled(r, |snapshots|))
    {
      messages, seen := [], {};
      assert Handled(r, 0) == {} && SeenKeys(r, 0) == {};
      ghost var before := states;
      for i := 0 to |snapshots|
        invariant seen == SeenKeys(r, i)
        invariant Progress(cfg, r, now, before, states, messages, Handled(r, i))
      {
        seen := seen + KeysOf(snapshots[i].all);
        SeenStep(r, snapshots, i);
        messages := WorkPanel(snapshots, i, r, now, before, messages);
      }
    }

    method WorkPanel(snapshots: seq<Snapshot>, i: nat, ghost r: Reading, now: int, ghost before: States, messages: seq<Message>)
      returns (sent: seq<Message>)
      requires Distinct(cfg.users) && DistinctKeys(r.nodes) && Grouped(r.panels, r.nodes, r.threshold, snapshots)
      requires i < |snapshots| && Progress(cfg, r, now, before, states, messages, Handled(r, i))
      modifies this`states
      ensures Progress(cfg, r, now, before, states, sent, Handled(r, i + 1))
    {
      forall g {
        GroupIsListed(r, snapshots, i, g);
      }
      forall g {
        GroupsAreApart(r, i, g);
      }
      ghost var reached;
      assert snapshots[i].Of(Critical) == snapshots[i].critical;
      sent, reached := AlarmAll(snapshots[i], r, now, before, messages, Handled(r, i));
      assert snapshots[i].Of(Active) == snapshots[i].active;
      sent, reached := RecoverAll(snapshots[i], r, now, before, sent, reached);
      assert snapshots[i].Of(Disabled) == snapshots[i].disabled;
      reached := ForgetAll(snapshots[i], r, now, before, sent, reached);
      HandledStep(r, i);
    }

    method DropUnseen(seen: set<string>)
      modifies this`states
      ensures forall key :: Lookup(states, key) == if key in seen then Lookup(old(states), key) else None
    {
      var todo := states.Keys;
      while todo != {}
        invariant todo <= states.Keys <= old(states).Keys
        invariant forall key :: key in states ==> states[key] == old(states)[key]
        invariant forall key :: key in states && key !in todo ==> key in seen
        invariant forall key :: key in old(states) && key in seen ==> key in states
      {
        var key :| key in todo;
        if key !in seen {
          states := states - {key};
        }
        todo := todo - {key};
      }
    }
  }

  /** NewNodeMonitor: the users once each, or no monitor when a user is invalid or none
      is allowed. */
  method NewNodeMonitor(allowed: seq<int>, repeatInterval: int, confirmations: int, policy: int) returns (r: Option<Monitor>)
    ensures r.None? <==> allowed == [] || exists u :: u in allowed && u <= 0
    ensures r.Some? ==>
              && fresh(r.value) && r.value.Valid() && r.value.samples == []
              && (forall u :: u in r.value.cfg.users <==> u in allowed)
              && r.value.cfg.repeatInterval == (if repeatInterval <= 0 then 15 * 60 else repeatInterval)
              && r.value.cfg.confirmations == (if confirmations <= 0 then 2 else confirmations)
              && r.value.policy == policy
  {
    var users := UniqueUsers(allowed);
    if users.None? {
      return None;
    }
    var monitor := new Monitor(users.value, repeatInterval, confirmations, policy);
    return Some(monitor);
  }
}
