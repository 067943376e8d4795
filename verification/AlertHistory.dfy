/** What the node monitor does to one node over a sequence of samples
    (internal/telegram/node_monitor.go), and what every such history guarantees. */
module AlertHistory {
  import opened Wrappers
  import opened NodeGroups

  /** lastNotification holds the users it has a time for. */
  datatype AlertState = AlertState(consecutive: nat, last: map<int, int>)

  datatype Mark = Seen(group: Group) | Missing

  datatype Message = Alert(key: string, user: int, at: int, delivered: bool) | Recovery(key: string, user: int)

  /** One sample as one node sees it, with the messages that were attempted for it. */
  datatype Turn = Turn(mark: Mark, now: int, messages: seq<Message>)

  datatype Config = Config(users: seq<int>, repeatInterval: int, confirmations: int)

  ghost predicate Sound(cfg: Config) {
    cfg.repeatInterval > 0 && cfg.confirmations > 0 && Distinct(cfg.users)
  }

  // ---- One sample ----

  predicate IsDue(last: map<int, int>, user: int, now: int, repeatInterval: int) {
    user !in last || now >= last[user] + repeatInterval
  }

  /** The messages of one sample, one for each of the first users that get one. */
  ghost predicate AlertsTo(users: seq<int>, last: map<int, int>, now: int, repeatInterval: int, key: string, messages: seq<Message>) {
    if users == [] then messages == []
    else
      var user, before := users[|users| - 1], users[..|users| - 1];
      if !IsDue(last, user, now, repeatInterval) then AlertsTo(before, last, now, repeatInterval, key, messages)
      else
        && messages != []
        && (var m := messages[|messages| - 1]; m == Alert(key, user, now, m.Alert? && m.delivered))
        && AlertsTo(before, last, now, repeatInterval, key, messages[..|messages| - 1])
  }

  function Recoveries(users: seq<int>, last: map<int, int>, key: string): seq<Message> {
    if users == [] then []
    else
      var user := users[|users| - 1];
      Recoveries(users[..|users| - 1], last, key) + (if user in last then [Recovery(key, user)] else [])
  }

  /** lastNotification after the messages that were delivered. */
  function Noted(last: map<int, int>, messages: seq<Message>): map<int, int> {
    if messages == [] then last
    else
      var m := messages[|messages| - 1];
      var before := Noted(last, messages[..|messages| - 1]);
      if m.Alert? && m.delivered then before[m.user := m.at] else before
  }

  function Counted(state: Option<AlertState>): AlertState {
    match state
    case None => AlertState(1, map[])
    case Some(s) => s.(consecutive := s.consecutive + 1)
  }

  /** The messages that the monitor attempts. */
  ghost predicate Sends(cfg: Config, key: string, state: Option<AlertState>, turn: Turn) {
    match turn.mark
    case Seen(Critical) =>
      var counted := Counted(state);
      if counted.consecutive < cfg.confirmations then turn.messages == []
      else AlertsTo(cfg.users, counted.last, turn.now, cfg.repeatInterval, key, turn.messages)
    case Seen(Active) =>
      turn.messages == if state.Some? then Recoveries(cfg.users, state.value.last, key) else []
    case _ => turn.messages == []
  }

  function Next(state: Option<AlertState>, turn: Turn): Option<AlertState> {
    match turn.mark
    case Seen(Critical) =>
      var counted := Counted(state);
      Some(counted.(last := Noted(counted.last, turn.messages)))
    case Seen(Ignored) => state
    case _ => None
  }

  // ---- Histories ----

  /** The state before sample i. */
  function StateAt(turns: seq<Turn>, i: nat): Option<AlertState>
    requires i <= |turns|
  {
    if i == 0 then None else Next(StateAt(turns, i - 1), turns[i - 1])
  }

  /** Sample i of a history sends what it should. */
  ghost predicate SendsAt(cfg: Config, key: string, turns: seq<Turn>, i: nat)
    requires i < |turns|
  {
    Sends(cfg, key, StateAt(turns, i), turns[i])
  }

  ghost predicate IsHistory(cfg: Config, key: string, turns: seq<Turn>) {
    forall i :: 0 <= i < |turns| ==> SendsAt(cfg, key, turns, i)
  }

  /** An active, disabled or missing sample ends an incident. */
  predicate Ends(turn: Turn) {
    turn.mark != Seen(Critical) && turn.mark != Seen(Ignored)
  }

  /** No sample in turns[from..till] ends the incident. */
  ghost predicate OneIncident(turns: seq<Turn>, from: nat, till: nat)
    requires till <= |turns|
  {
    forall i :: from <= i < till ==> !Ends(turns[i])
  }

  function Criticals(turns: seq<Turn>, from: nat, till: nat): nat
    requires from <= till <= |turns|
    decreases till
  {
    if from == till then 0
    else Criticals(turns, from, till - 1) + if turns[till - 1].mark == Seen(Critical) then 1 else 0
  }

  // Whether some message of a list is an alert to the user, one that was delivered, or
  // a recovery message to the user.

  predicate AlertIn(messages: seq<Message>, user: int) {
    messages != [] &&
    (var m := messages[|messages| - 1];
     (m.Alert? && m.user == user) || AlertIn(messages[..|messages| - 1], user))
  }

  predicate DeliveryIn(messages: seq<Message>, user: int) {
    messages != [] &&
    (var m := messages[|messages| - 1];
     (m.Alert? && m.user == user && m.delivered) || DeliveryIn(messages[..|messages| - 1], user))
  }

  predicate RecoveryIn(messages: seq<Message>, user: int) {
    messages != [] &&
    (var m := messages[|messages| - 1];
     (m.Recovery? && m.user == user) || RecoveryIn(messages[..|messages| - 1], user))
  }

  predicate Attempted(turn: Turn, user: int) {
    AlertIn(turn.messages, user)
  }

  predicate Delivered(turn: Turn, user: int) {
    DeliveryIn(turn.messages, user)
  }

  predicate Recovered(turn: Turn, user: int) {
    RecoveryIn(turn.messages, user)
  }

  /** The user has been told of the incident that turns[..i] is in. */
  ghost predicate Told(turns: seq<Turn>, i: nat, user: int)
    requires i <= |turns|
  {
    exists j :: 0 <= j < i && Delivered(turns[j], user) && OneIncident(turns, j, i)
  }

  // ---- Messages of one sample ----

  lemma {:induction false} AlertsMeans(users: seq<int>, last: map<int, int>, now: int, repeatInterval: int, key: string, messages: seq<Message>, user: int)
    requires AlertsTo(users, last, now, repeatInterval, key, messages)
    ensures AlertIn(messages, user) <==> user in users && IsDue(last, user, now, repeatInterval)
    ensures DeliveryIn(messages, user) ==> AlertIn(messages, user)
    ensures !RecoveryIn(messages, user)
  {
    if users != [] {
      var latest, before := users[|users| - 1], users[..|users| - 1];
      assert users == before + [latest];
      if IsDue(last, latest, now, repeatInterval) {
        AlertsMeans(before, last, now, repeatInterval, key, messages[..|messages| - 1], user);
      } else {
        AlertsMeans(before, last, now, repeatInterval, key, messages, user);
      }
    }
  }

  lemma RecoveryInSnoc(messages: seq<Message>, m: Message, user: int)
    ensures RecoveryIn(messages + [m], user) <==> RecoveryIn(messages, user) || (m.Recovery? && m.user == user)
    ensures AlertIn(messages + [m], user) <==> AlertIn(messages, user) || (m.Alert? && m.user == user)
    ensures DeliveryIn(messages + [m], user) <==> DeliveryIn(messages, user) || (m.Alert? && m.user == user && m.delivered)
  {
    assert (messages + [m])[..|messages|] == messages;
  }

  lemma {:induction false} RecoveriesMean(users: seq<int>, last: map<int, int>, key: string, user: int)
    ensures RecoveryIn(Recoveries(users, last, key), user) <==> user in users && user in last
    ensures !AlertIn(Recoveries(users, last, key), user) && !DeliveryIn(Recoveries(users, last, key), user)
  {
    if users != [] {
      var latest, before := users[|users| - 1], users[..|users| - 1];
      var rest := Recoveries(before, last, key);
      assert user in users <==> user in before || user == latest;
      RecoveriesMean(before, last, key, user);
      RecoveryInSnoc(rest, Recovery(key, latest), user);
      assert Recoveries(users, last, key) == if latest in last then rest + [Recovery(key, latest)] else rest;
    }
  }

  ghost predicate OneEach(messages: seq<Message>) {
    forall i, j :: 0 <= i < j < |messages| ==> messages[i].user != messages[j].user
  }

  /** Nobody gets two messages about one node from one sample. */
  lemma {:induction false} AlertedOnce(users: seq<int>, last: map<int, int>, now: int, repeatInterval: int, key: string, messages: seq<Message>)
    requires AlertsTo(users, last, now, repeatInterval, key, messages) && Distinct(users)
    ensures OneEach(messages)
    ensures forall i :: 0 <= i < |messages| ==> messages[i].user in users
  {
    if users != [] {
      var user, before := users[|users| - 1], users[..|users| - 1];
      assert users == before + [user];
      if IsDue(last, user, now, repeatInterval) {
        AlertedOnce(before, last, now, repeatInterval, key, messages[..|messages| - 1]);
      } else {
        AlertedOnce(before, last, now, repeatInterval, key, messages);
      }
    }
  }

  lemma {:induction false} RecoveredOnce(users: seq<int>, last: map<int, int>, key: string)
    requires Distinct(users)
    ensures OneEach(Recoveries(users, last, key))
    ensures forall i :: 0 <= i < |Recoveries(users, last, key)| ==> Recoveries(users, last, key)[i].user in users
  {
    if users != [] {
      var user, before := users[|users| - 1], users[..|users| - 1];
      assert users == before + [user];
      RecoveredOnce(before, last, key);
      assert Recoveries(before, last, key) + [] == Recoveries(before, last, key);
    }
  }

  ghost predicate AllAt(messages: seq<Message>, now: int) {
    forall i :: 0 <= i < |messages| && messages[i].Alert? ==> messages[i].at == now
  }

  lemma {:induction false} NotedMeans(last: map<int, int>, messages: seq<Message>, now: int, user: int)
    requires AllAt(messages, now)
    ensures user in Noted(last, messages) <==> user in last || DeliveryIn(messages, user)
    ensures user in Noted(last, messages) ==> Noted(last, messages)[user] == if DeliveryIn(messages, user) then now else last[user]
  {
    if messages != [] {
      NotedMeans(last, messages[..|messages| - 1], now, user);
    }
  }

  lemma {:induction false} AlertsAreNow(users: seq<int>, last: map<int, int>, now: int, repeatInterval: int, key: string, messages: seq<Message>)
    requires AlertsTo(users, last, now, repeatInterval, key, messages)
    ensures AllAt(messages, now)
  {
    if users != [] {
      var before := users[..|users| - 1];
      if IsDue(last, users[|users| - 1], now, repeatInterval) {
        AlertsAreNow(before, last, now, repeatInterval, key, messages[..|messages| - 1]);
      } else {
        AlertsAreNow(before, last, now, repeatInterval, key, messages);
      }
    }
  }

  /** When the user was last told, as the state has it. */
  function Memory(state: Option<AlertState>, user: int): Option<int> {
    if state.Some? && user in state.value.last then Some(state.value.last[user]) else None
  }

  predicate Passed(told: Option<int>, now: int, repeatInterval: int) {
    told.None? || now >= told.value + repeatInterval
  }

  /** What one sample sends to one user, and what it leaves in lastNotification. */
  ghost predicate Obeys(cfg: Config, state: Option<AlertState>, turn: Turn, user: int) {
    && (Attempted(turn, user) <==>
          && turn.mark == Seen(Critical) && user in cfg.users
          && Counted(state).consecutive >= cfg.confirmations
          && Passed(Memory(state, user), turn.now, cfg.repeatInterval))
    && (Delivered(turn, user) ==> Attempted(turn, user))
    && (Recovered(turn, user) <==> turn.mark == Seen(Active) && user in cfg.users && Memory(state, user).Some?)
    && Memory(Next(state, turn), user) ==
         if Ends(turn) then None else if Delivered(turn, user) then Some(turn.now) else Memory(state, user)
  }

  lemma CriticalObeys(cfg: Config, key: string, state: Option<AlertState>, turn: Turn, user: int)
    requires Sends(cfg, key, state, turn) && turn.mark == Seen(Critical)
    ensures Obeys(cfg, state, turn, user)
  {
    var counted := Counted(state);
    if counted.consecutive >= cfg.confirmations {
      AlertsMeans(cfg.users, counted.last, turn.now, cfg.repeatInterval, key, turn.messages, user);
      AlertsAreNow(cfg.users, counted.last, turn.now, cfg.repeatInterval, key, turn.messages);
    }
    NotedMeans(counted.last, turn.messages, turn.now, user);
  }

  lemma SendsObeys(cfg: Config, key: string, state: Option<AlertState>, turn: Turn, user: int)
    requires Sends(cfg, key, state, turn)
    ensures Obeys(cfg, state, turn, user)
  {
    if turn.mark == Seen(Critical) {
      CriticalObeys(cfg, key, state, turn, user);
    } else if turn.mark == Seen(Active) && state.Some? {
      RecoveriesMean(cfg.users, state.value.last, key, user);
    }
  }

  /** A history, as one user sees it. */
  ghost predicate ObeysAt(cfg: Config, turns: seq<Turn>, user: int, i: nat)
    requires i < |turns|
  {
    Obeys(cfg, StateAt(turns, i), turns[i], user)
  }

  ghost predicate Follows(cfg: Config, turns: seq<Turn>, user: int) {
    forall i :: 0 <= i < |turns| ==> ObeysAt(cfg, turns, user, i)
  }

  lemma HistoryFollows(cfg: Config, key: string, turns: seq<Turn>, user: int)
    requires IsHistory(cfg, key, turns)
    ensures Follows(cfg, turns, user)
  {
    forall i | 0 <= i < |turns| ensures ObeysAt(cfg, turns, user, i) {
      assert SendsAt(cfg, key, turns, i);
      SendsObeys(cfg, key, StateAt(turns, i), turns[i], user);
    }
  }

  /** One more user, alerted or not yet due. */
  lemma AlertsSnoc(users: seq<int>, user: int, last: map<int, int>, now: int, repeatInterval: int, key: string, messages: seq<Message>, delivered: bool)
    requires AlertsTo(users, last, now, repeatInterval, key, messages)
    ensures !IsDue(last, user, now, repeatInterval) ==> AlertsTo(users + [user], last, now, repeatInterval, key, messages)
    ensures var m := Alert(key, user, now, delivered);
            && (IsDue(last, user, now, repeatInterval) ==> AlertsTo(users + [user], last, now, repeatInterval, key, messages + [m]))
            && Noted(last, messages + [m]) == if delivered then Noted(last, messages)[user := now] else Noted(last, messages)
  {
    var all, m := users + [user], Alert(key, user, now, delivered);
    assert all[..|all| - 1] == users;
    assert (messages + [m])[..|messages|] == messages;
  }

  // ---- What the state remembers ----

  /** The first sample of the incident that sample i continues. */
  function Incident(turns: seq<Turn>, i: nat): (start: nat)
    requires i <= |turns|
    ensures start <= i
  {
    if i == 0 then 0 else if Ends(turns[i - 1]) then i else Incident(turns, i - 1)
  }

  lemma {:induction false} IncidentMeans(turns: seq<Turn>, i: nat, j: nat)
    requires j <= i <= |turns|
    ensures OneIncident(turns, j, i) <==> Incident(turns, i) <= j
  {
    if j < i {
      IncidentMeans(turns, i - 1, j);
      assert OneIncident(turns, j, i) <==> OneIncident(turns, j, i - 1) && !Ends(turns[i - 1]);
    }
  }

  lemma {:induction false} StateCounts(turns: seq<Turn>, i: nat)
    requires i <= |turns|
    ensures Criticals(turns, Incident(turns, i), i) == match StateAt(turns, i) case None => 0 case Some(s) => s.consecutive
  {
    if i > 0 {
      StateCounts(turns, i - 1);
    }
  }

  /** The last sample before sample i that told the user of the incident. */
  function LastTold(turns: seq<Turn>, i: nat, user: int): (j: Option<nat>)
    requires i <= |turns|
    ensures j.Some? ==> j.value < i && Delivered(turns[j.value], user)
  {
    if i == 0 || Ends(turns[i - 1]) then None
    else if Delivered(turns[i - 1], user) then Some(i - 1)
    else LastTold(turns, i - 1, user)
  }

  lemma {:induction false} LastToldMeans(turns: seq<Turn>, i: nat, user: int, j: nat)
    requires j < i <= |turns| && Delivered(turns[j], user)
    ensures OneIncident(turns, j, i) ==> LastTold(turns, i, user).Some? && j <= LastTold(turns, i, user).value
    ensures LastTold(turns, i, user) == Some(j) ==> OneIncident(turns, j, i)
  {
    if j < i - 1 {
      LastToldMeans(turns, i - 1, user, j);
    }
  }

  lemma {:induction false} StateRemembers(cfg: Config, turns: seq<Turn>, i: nat, user: int)
    requires Follows(cfg, turns, user) && i <= |turns|
    ensures Memory(StateAt(turns, i), user) ==
              match LastTold(turns, i, user) case None => None case Some(j) => Some(turns[j].now)
  {
    if i > 0 {
      StateRemembers(cfg, turns, i - 1, user);
      assert ObeysAt(cfg, turns, user, i - 1);
    }
  }

  lemma ToldMeans(turns: seq<Turn>, i: nat, user: int)
    requires i <= |turns|
    ensures Told(turns, i, user) <==> LastTold(turns, i, user).Some?
  {
    if Told(turns, i, user) {
      var j :| 0 <= j < i && Delivered(turns[j], user) && OneIncident(turns, j, i);
      LastToldMeans(turns, i, user, j);
    }
    if LastTold(turns, i, user).Some? {
      LastToldMeans(turns, i, user, LastTold(turns, i, user).value);
    }
  }

  lemma {:induction false} FewerLater(turns: seq<Turn>, start: nat, from: nat, till: nat)
    requires start <= from <= till <= |turns|
    ensures Criticals(turns, from, till) <= Criticals(turns, start, till)
    decreases till
  {
    if from < till {
      FewerLater(turns, start, from, till - 1);
    }
  }

  // ---- What every history guarantees ----

  /** Enough critical samples in turns[..i], with none between that ends the incident. */
  ghost predicate Confirmed(turns: seq<Turn>, i: nat, confirmations: int)
    requires i <= |turns|
  {
    exists from :: 0 <= from <= i && OneIncident(turns, from, i) && Criticals(turns, from, i) >= confirmations
  }

  /** In this incident the user was not told less than the repeat interval ago. */
  ghost predicate NotToldLately(turns: seq<Turn>, i: nat, user: int, repeatInterval: int)
    requires i < |turns|
  {
    forall j :: 0 <= j < i && Delivered(turns[j], user) && OneIncident(turns, j, i) ==>
                  turns[i].now >= turns[j].now + repeatInterval
  }

  lemma CountMeans(turns: seq<Turn>, i: nat, confirmations: int)
    requires i < |turns| && turns[i].mark == Seen(Critical)
    ensures Counted(StateAt(turns, i)).consecutive >= confirmations <==> Confirmed(turns, i + 1, confirmations)
  {
    StateCounts(turns, i + 1);
    var start := Incident(turns, i + 1);
    IncidentMeans(turns, i + 1, start);
    if Confirmed(turns, i + 1, confirmations) {
      var from :| 0 <= from <= i + 1 && OneIncident(turns, from, i + 1) && Criticals(turns, from, i + 1) >= confirmations;
      IncidentMeans(turns, i + 1, from);
      FewerLater(turns, start, from, i + 1);
    }
  }

  lemma {:induction false} Spaced(cfg: Config, turns: seq<Turn>, i: nat, j: nat, user: int)
    requires Follows(cfg, turns, user) && Sound(cfg) && i < j < |turns|
    requires Delivered(turns[i], user) && Delivered(turns[j], user) && OneIncident(turns, i, j)
    ensures turns[j].now >= turns[i].now + cfg.repeatInterval
    decreases j
  {
    StateRemembers(cfg, turns, j, user);
    LastToldMeans(turns, j, user, i);
    assert ObeysAt(cfg, turns, user, j);
    var k := LastTold(turns, j, user).value;
    if i < k {
      Spaced(cfg, turns, i, k, user);
    }
  }

  /** Two delivered alerts of one incident are at least the repeat interval apart. */
  lemma RepeatsAreSpaced(cfg: Config, key: string, turns: seq<Turn>, i: nat, j: nat, user: int)
    requires IsHistory(cfg, key, turns) && Sound(cfg) && i < j < |turns|
    requires Delivered(turns[i], user) && Delivered(turns[j], user) && OneIncident(turns, i, j)
    ensures turns[j].now >= turns[i].now + cfg.repeatInterval
  {
    HistoryFollows(cfg, key, turns, user);
    Spaced(cfg, turns, i, j, user);
  }

  /** Exactly when a sample alerts a user: the sample is critical, the configured
      number of critical samples has come with none between that ends the incident,
      and the user was not told of the incident within the repeat interval. */
  lemma AlertedExactlyWhen(cfg: Config, key: string, turns: seq<Turn>, i: nat, user: int)
    requires IsHistory(cfg, key, turns) && Sound(cfg) && i < |turns|
    ensures Attempted(turns[i], user) <==>
              && turns[i].mark == Seen(Critical) && user in cfg.users
              && Confirmed(turns, i + 1, cfg.confirmations)
              && NotToldLately(turns, i, user, cfg.repeatInterval)
  {
    HistoryFollows(cfg, key, turns, user);
    assert ObeysAt(cfg, turns, user, i);
    if turns[i].mark == Seen(Critical) {
      CountMeans(turns, i, cfg.confirmations);
      DueMeans(cfg, turns, i, user);
    }
  }

  lemma LastToldIsLatest(cfg: Config, turns: seq<Turn>, i: nat, user: int, j: nat)
    requires Follows(cfg, turns, user) && Sound(cfg) && j < i < |turns|
    requires Delivered(turns[j], user) && OneIncident(turns, j, i)
    ensures LastTold(turns, i, user).Some? && turns[j].now <= turns[LastTold(turns, i, user).value].now
  {
    LastToldMeans(turns, i, user, j);
    var k := LastTold(turns, i, user).value;
    if j < k {
      assert OneIncident(turns, j, k);
      Spaced(cfg, turns, j, k, user);
    }
  }

  lemma DueMeans(cfg: Config, turns: seq<Turn>, i: nat, user: int)
    requires Follows(cfg, turns, user) && Sound(cfg) && i < |turns|
    ensures Passed(Memory(StateAt(turns, i), user), turns[i].now, cfg.repeatInterval)
            <==> NotToldLately(turns, i, user, cfg.repeatInterval)
  {
    StateRemembers(cfg, turns, i, user);
    var told := LastTold(turns, i, user);
    if told.Some? {
      LastToldMeans(turns, i, user, told.value);
    }
    if Passed(Memory(StateAt(turns, i), user), turns[i].now, cfg.repeatInterval) {
      forall j | 0 <= j < i && Delivered(turns[j], user) && OneIncident(turns, j, i)
        ensures turns[i].now >= turns[j].now + cfg.repeatInterval
      {
        LastToldIsLatest(cfg, turns, i, user, j);
      }
    }
  }

  /** A recovery message goes out exactly when an active sample ends an incident that
      the user was told of. */
  lemma RecoveredExactlyWhen(cfg: Config, key: string, turns: seq<Turn>, i: nat, user: int)
    requires IsHistory(cfg, key, turns) && Sound(cfg) && i < |turns|
    ensures Recovered(turns[i], user) <==> turns[i].mark == Seen(Active) && Told(turns, i, user)
  {
    HistoryFollows(cfg, key, turns, user);
    ToldMeans(turns, i, user);
    StateRemembers(cfg, turns, i, user);
    assert ObeysAt(cfg, turns, user, i);
    if Told(turns, i, user) {
      var j :| 0 <= j < i && Delivered(turns[j], user) && OneIncident(turns, j, i);
      assert ObeysAt(cfg, turns, user, j);
    }
  }

  /** Once per incident: between two recovery messages to a user there is another
      alert that reached the user. */
  lemma RecoveredOncePerIncident(cfg: Config, key: string, turns: seq<Turn>, i: nat, k: nat, user: int)
    requires IsHistory(cfg, key, turns) && Sound(cfg) && i < k < |turns|
    requires Recovered(turns[i], user) && Recovered(turns[k], user)
    ensures exists j :: i < j < k && Delivered(turns[j], user)
  {
    RecoveredExactlyWhen(cfg, key, turns, i, user);
    RecoveredExactlyWhen(cfg, key, turns, k, user);
    HistoryFollows(cfg, key, turns, user);
    var j :| 0 <= j < k && Delivered(turns[j], user) && OneIncident(turns, j, k);
    assert Ends(turns[i]);
    assert ObeysAt(cfg, turns, user, j);
  }

  /** Only critical samples count, and only ignored ones leave everything as it is: any
      other sample starts over. */
  lemma SamplesCount(turns: seq<Turn>, i: nat)
    requires i < |turns|
    ensures turns[i].mark == Seen(Ignored) ==> StateAt(turns, i + 1) == StateAt(turns, i)
    ensures turns[i].mark == Seen(Critical) ==>
              && StateAt(turns, i + 1).Some?
              && StateAt(turns, i + 1).value.consecutive == 1 + if StateAt(turns, i).Some? then StateAt(turns, i).value.consecutive else 0
    ensures turns[i].mark in {Missing, Seen(Active), Seen(Disabled)} ==> StateAt(turns, i + 1).None?
    ensures Ends(turns[i]) <==> turns[i].mark in {Missing, Seen(Active), Seen(Disabled)}
  {
    match turns[i].mark {
      case Missing =>
      case Seen(g) => match g { case Critical => case Active => case Disabled => case Ignored => }
    }
  }

  /** Within one sample a user gets at most one message about a node. */
  lemma OneMessageEach(cfg: Config, key: string, turns: seq<Turn>, i: nat)
    requires IsHistory(cfg, key, turns) && Sound(cfg) && i < |turns|
    ensures OneEach(turns[i].messages)
  {
    var state, turn := StateAt(turns, i), turns[i];
    assert SendsAt(cfg, key, turns, i);
    if turn.mark == Seen(Critical) && Counted(state).consecutive >= cfg.confirmations {
      AlertedOnce(cfg.users, Counted(state).last, turn.now, cfg.repeatInterval, key, turn.messages);
    } else if turn.mark == Seen(Active) && state.Some? {
      RecoveredOnce(cfg.users, state.value.last, key);
    }
  }
}
