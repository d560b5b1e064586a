/** The relay between daemons: a routing table, a bounded history per project, and delivery into
    bounded channels that may refuse. */
module Gateway {
  import opened Text
  import opened Grpc

  type Event = FileEventMessage

  const MAX_BUFFER_SIZE: nat := 3000
  const RPC_CAPACITY: nat := 32
  const SECOND: nat := 1_000_000_000

  datatype Outcome = Outcome(event: Event, accepted: bool)

  /** A connection's channel: every event offered to it and whether it took it, and how many its
      receiver has read. For the proofs, `since` and `until` say which relayed events fall into its
      registration. */
  datatype Channel = Channel(
    project: string, machine: string, capacity: nat, closed: bool,
    outcomes: seq<Outcome>, taken: nat, since: nat, until: Option<nat>)

  datatype Connection = Connection(machine: string, channel: nat, lastSeen: int)

  datatype State = State(
    connections: map<string, seq<Connection>>,
    buffer: map<string, seq<Event>>,
    channels: seq<Channel>,
    history: seq<Event>)      // every event relayed

  const INITIAL := State(map[], map[], [], [])

  function ConnectionsOf(s: State, project: string): seq<Connection> {
    if project in s.connections then s.connections[project] else []
  }

  function BufferOf(s: State, project: string): seq<Event> {
    if project in s.buffer then s.buffer[project] else []
  }

  function Accepted(outcomes: seq<Outcome>): seq<Event> {
    if outcomes == [] then []
    else
      var n := |outcomes| - 1;
      Accepted(outcomes[..n]) + if outcomes[n].accepted then [outcomes[n].event] else []
  }

  function Offered(outcomes: seq<Outcome>): seq<Event> {
    seq(|outcomes|, i requires 0 <= i < |outcomes| => outcomes[i].event)
  }

  // ----- sending -----

  /** `try_send` succeeds while there is a receiver and a free place. */
  predicate HasRoom(c: Channel) {
    !c.closed && |Accepted(c.outcomes)| < c.taken + c.capacity
  }

  function Sent(c: Channel, event: Event): Channel {
    c.(outcomes := c.outcomes + [Outcome(event, HasRoom(c))])
  }

  /** The event offered to each connection of the list but the sender's. */
  function SendAll(channels: seq<Channel>, conns: seq<Connection>, event: Event): (r: seq<Channel>)
    requires forall k | 0 <= k < |conns| :: conns[k].channel < |channels|
    ensures |r| == |channels|
  {
    if conns == [] then channels
    else
      var n := |conns| - 1;
      var before := SendAll(channels, conns[..n], event);
      var c := conns[n].channel;
      if conns[n].machine == event.machineId then before else before[c := Sent(before[c], event)]
  }

  function Touched(conns: seq<Connection>, machine: string, now: int): seq<Connection> {
    seq(|conns|, i requires 0 <= i < |conns| =>
      if conns[i].machine == machine then conns[i].(lastSeen := now) else conns[i])
  }

  function Forwarded(s: State, event: Event, now: int): State
    requires Sound(s)
  {
    var p := event.projectId;
    if p !in s.connections then s
    else s.(connections := s.connections[p := Touched(s.connections[p], event.machineId, now)],
            channels := SendAll(s.channels, s.connections[p], event))
  }

  function Buffered(buffer: seq<Event>, event: Event): seq<Event> {
    (if |buffer| >= MAX_BUFFER_SIZE then buffer[1..] else buffer) + [event]
  }

  // ----- leaving -----

  function Elapsed(from: int, now: int): nat {
    if now <= from then 0 else now - from
  }

  datatype Reason = Named(project: string, machine: string) | Stale(now: int, timeout: nat)

  predicate Leaves(conn: Connection, project: string, reason: Reason) {
    match reason
    case Named(p, machine) => p == project && conn.machine == machine
    case Stale(now, timeout) => Elapsed(conn.lastSeen, now) / SECOND > timeout
  }

  function Remaining(conns: seq<Connection>, project: string, reason: Reason): (r: seq<Connection>)
    ensures forall c | c in r :: c in conns && !Leaves(c, project, reason)
    ensures forall c | c in conns && !Leaves(c, project, reason) :: c in r
  {
    if conns == [] then []
    else (if Leaves(conns[0], project, reason) then [] else [conns[0]]) + Remaining(conns[1..], project, reason)
  }

  /** The channels of the connections that leave have been offered all they will be. */
  function Retired(s: State, reason: Reason): (r: seq<Channel>)
    ensures |r| == |s.channels|
  {
    seq(|s.channels|, i requires 0 <= i < |s.channels| =>
      var p := s.channels[i].project;
      if exists conn | conn in ConnectionsOf(s, p) :: conn.channel == i && Leaves(conn, p, reason)
      then s.channels[i].(until := Some(|s.history|)) else s.channels[i])
  }

  // ----- the state machine -----

  datatype Action =
    | Register(project: string, machine: string, capacity: nat, now: int)
    | Relay(event: Event, at: int)
    | Leave(reason: Reason)
    | Take(channel: nat)        // a receiver reads one event
    | Close(channel: nat)       // a receiver is dropped

  predicate OwnChannels(conns: seq<Connection>) {
    forall j, k | 0 <= j < k < |conns| :: conns[j].channel != conns[k].channel
  }

  predicate ListOk(s: State, p: string) {
    var conns := ConnectionsOf(s, p);
    && (forall k | 0 <= k < |conns| ::
          conns[k].channel < |s.channels| && s.channels[conns[k].channel].project == p &&
          s.channels[conns[k].channel].machine == conns[k].machine)
    && OwnChannels(conns)
  }

  /** Every connection is on a channel of its own. */
  predicate Sound(s: State) {
    forall p | p in s.connections :: ListOk(s, p)
  }

  function Apply(s: State, a: Action): State
    requires Sound(s)
  {
    match a
    case Register(p, machine, capacity, now) =>
      s.(connections := s.connections[p := ConnectionsOf(s, p) + [Connection(machine, |s.channels|, now)]],
         channels := s.channels + [Channel(p, machine, capacity, false, [], 0, |s.history|, None)])
    case Relay(event, now) =>
      var t := Forwarded(s, event, now);
      t.(buffer := s.buffer[event.projectId := Buffered(BufferOf(s, event.projectId), event)],
         history := s.history + [event])
    case Leave(reason) =>
      s.(connections := map p | p in s.connections :: Remaining(s.connections[p], p, reason),
         channels := Retired(s, reason))
    case Take(c) =>
      if c < |s.channels| && s.channels[c].taken < |Accepted(s.channels[c].outcomes)|
      then s.(channels := s.channels[c := s.channels[c].(taken := s.channels[c].taken + 1)]) else s
    case Close(c) =>
      if c < |s.channels| then s.(channels := s.channels[c := s.channels[c].(closed := true)]) else s
  }

  // ----- what the history says -----

  /** The events of a project, in order, but for those of one machine. */
  function Expected(history: seq<Event>, project: string, machine: string): seq<Event> {
    if history == [] then []
    else
      var n := |history| - 1;
      Expected(history[..n], project, machine) +
        if history[n].projectId == project && history[n].machineId != machine then [history[n]] else []
  }

  function Relayed(history: seq<Event>, project: string): seq<Event> {
    if history == [] then []
    else
      var n := |history| - 1;
      Relayed(history[..n], project) + if history[n].projectId == project then [history[n]] else []
  }

  function Last(events: seq<Event>, n: nat): seq<Event> {
    if |events| > n then events[|events| - n..] else events
  }

  predicate BufferOk(s: State, p: string) {
    BufferOf(s, p) == Last(Relayed(s.history, p), MAX_BUFFER_SIZE)
  }

  predicate Listed(s: State, c: nat)
    requires c < |s.channels|
  {
    exists conn | conn in ConnectionsOf(s, s.channels[c].project) :: conn.channel == c
  }

  /** The relayed events that fall into the registration of a channel. */
  function During(c: Channel, history: seq<Event>): seq<Event> {
    var until := if c.until.Some? then c.until.value else |history|;
    if c.since <= until <= |history| then history[c.since..until] else []
  }

  /** What was offered to the channel is what its registration promises, and it never holds more
      than its capacity. */
  predicate DataOk(c: Channel, history: seq<Event>) {
    && c.since <= (if c.until.Some? then c.until.value else |history|) <= |history|
    && Offered(c.outcomes) == Expected(During(c, history), c.project, c.machine)
    && c.taken <= |Accepted(c.outcomes)| <= c.taken + c.capacity
  }

  predicate ChannelOk(s: State, i: nat) {
    i < |s.channels| ==> (s.channels[i].until.None? <==> Listed(s, i)) && DataOk(s.channels[i], s.history)
  }

  ghost predicate Inv(s: State) {
    && (forall p: string :: ListOk(s, p) && BufferOk(s, p))
    && (forall i: nat :: ChannelOk(s, i))
  }

  lemma Snoc(history: seq<Event>, event: Event, project: string, machine: string)
    ensures Expected(history + [event], project, machine) ==
              Expected(history, project, machine) +
              if event.projectId == project && event.machineId != machine then [event] else []
    ensures Relayed(history + [event], project) ==
              Relayed(history, project) + if event.projectId == project then [event] else []
  {
    assert (history + [event])[..|history|] == history;
  }

  lemma OutcomeSnoc(outcomes: seq<Outcome>, o: Outcome)
    ensures Offered(outcomes + [o]) == Offered(outcomes) + [o.event]
    ensures Accepted(outcomes + [o]) == Accepted(outcomes) + if o.accepted then [o.event] else []
  {
    assert (outcomes + [o])[..|outcomes|] == outcomes;
  }

  lemma BufferStep(s: State, event: Event, p: string)
    requires BufferOk(s, p)
    ensures event.projectId == p ==>
              Buffered(BufferOf(s, p), event) == Last(Relayed(s.history + [event], p), MAX_BUFFER_SIZE)
    ensures event.projectId != p ==> BufferOf(s, p) == Last(Relayed(s.history + [event], p), MAX_BUFFER_SIZE)
  {
    Snoc(s.history, event, p, "");
  }

  lemma DataSent(c: Channel, event: Event, history: seq<Event>)
    requires DataOk(c, history) && c.until.None? && c.project == event.projectId && c.machine != event.machineId
    ensures DataOk(Sent(c, event), history + [event])
  {
    Snoc(During(c, history), event, c.project, c.machine);
    OutcomeSnoc(c.outcomes, Outcome(event, HasRoom(c)));
    assert During(Sent(c, event), history + [event]) == During(c, history) + [event];
  }

  lemma DataPassed(c: Channel, event: Event, history: seq<Event>)
    requires DataOk(c, history) && (c.until.Some? || c.project != event.projectId || c.machine == event.machineId)
    ensures DataOk(c, history + [event])
  {
    Snoc(During(c, history), event, c.project, c.machine);
    assert c.until.None? ==> During(c, history + [event]) == During(c, history) + [event];
    assert c.until.Some? ==> During(c, history + [event]) == During(c, history);
    assert Expected(During(c, history), c.project, c.machine) + [] ==
             Expected(During(c, history), c.project, c.machine);
  }

  lemma DataRetired(c: Channel, history: seq<Event>)
    requires DataOk(c, history) && c.until.None?
    ensures DataOk(c.(until := Some(|history|)), history)
  {
    assert During(c.(until := Some(|history|)), history) == During(c, history);
  }

  /** What one send pass does to one channel. */
  lemma {:induction false} SendOne(channels: seq<Channel>, conns: seq<Connection>, event: Event, i: nat)
    requires forall k | 0 <= k < |conns| ::
               conns[k].channel < |channels| && channels[conns[k].channel].machine == conns[k].machine
    requires OwnChannels(conns)
    requires i < |channels|
    ensures SendAll(channels, conns, event)[i] ==
              if (exists conn | conn in conns :: conn.channel == i) && channels[i].machine != event.machineId
              then Sent(channels[i], event) else channels[i]
  {
    if conns != [] {
      var n := |conns| - 1;
      SendOne(channels, conns[..n], event, i);
      if conns[n].channel == i {
        assert !exists conn | conn in conns[..n] :: conn.channel == i;
        assert conns[n] in conns;
      } else {
        assert forall conn | conn in conns && conn.channel == i :: conn in conns[..n];
      }
    }
  }

  lemma InList(s: State, p: string, i: nat)
    requires ListOk(s, p) && i < |s.channels| && exists conn | conn in ConnectionsOf(s, p) :: conn.channel == i
    ensures s.channels[i].project == p && Listed(s, i)
  {
  }

  /** A relayed event is offered to exactly the registered channels of its project on other
      machines, and each takes it exactly when it has room. */
  lemma RelaySends(s: State, event: Event, now: int, i: nat)
    requires Sound(s) && i < |s.channels|
    ensures i < |Apply(s, Relay(event, now)).channels|
    ensures var c := s.channels[i];
            Apply(s, Relay(event, now)).channels[i] ==
              if Listed(s, i) && c.project == event.projectId && c.machine != event.machineId then Sent(c, event) else c
  {
    var p := event.projectId;
    if p in s.connections {
      assert ListOk(s, p);
      SendOne(s.channels, s.connections[p], event, i);
      if exists conn | conn in ConnectionsOf(s, p) :: conn.channel == i { InList(s, p, i); }
    }
  }

  /** The events a receiver has not read yet. */
  function Unread(c: Channel): int {
    |Accepted(c.outcomes)| - c.taken
  }

  /** Offered to a channel, an event is taken exactly if its receiver is there and fewer events than its
      capacity are unread; then it is the newest of them. */
  lemma OfferMeaning(c: Channel, event: Event)
    ensures var d := Sent(c, event);
            && Offered(d.outcomes) == Offered(c.outcomes) + [event]
            && (!c.closed && Unread(c) < c.capacity ==>
                  Accepted(d.outcomes) == Accepted(c.outcomes) + [event] && Unread(d) == Unread(c) + 1)
            && (c.closed || Unread(c) >= c.capacity ==> Accepted(d.outcomes) == Accepted(c.outcomes))
            && d.(outcomes := c.outcomes) == c
  {
    OutcomeSnoc(c.outcomes, Outcome(event, HasRoom(c)));
  }

  /** The channels that a relayed event is offered to. */
  predicate Addressed(s: State, event: Event, i: nat)
    requires i < |s.channels|
  {
    Listed(s, i) && s.channels[i].project == event.projectId && s.channels[i].machine != event.machineId
  }

  /** So a registered channel of another machine of the project takes a relayed event exactly if it is
      open and not full, and no other channel takes it. */
  lemma RelayReaches(s: State, event: Event, now: int, i: nat)
    requires Sound(s) && i < |s.channels|
    ensures i < |Apply(s, Relay(event, now)).channels|
    ensures var c, d := s.channels[i], Apply(s, Relay(event, now)).channels[i];
            && (Addressed(s, event, i) && !c.closed && Unread(c) < c.capacity ==>
                  Accepted(d.outcomes) == Accepted(c.outcomes) + [event])
            && (!Addressed(s, event, i) || c.closed || Unread(c) >= c.capacity ==>
                  Accepted(d.outcomes) == Accepted(c.outcomes))
            && (!Addressed(s, event, i) ==> d == c)
  {
    RelaySends(s, event, now, i);
    OfferMeaning(s.channels[i], event);
  }

  lemma RelayList(s: State, event: Event, now: int, p: string)
    requires Inv(s) && Sound(s)
    ensures ListOk(Apply(s, Relay(event, now)), p)
    ensures forall i: nat | i < |s.channels| :: i < |Apply(s, Relay(event, now)).channels| &&
              (Listed(Apply(s, Relay(event, now)), i) <==> Listed(s, i))
  {
    var t := Apply(s, Relay(event, now));
    assert |t.channels| == |s.channels|;
    forall i: nat | i < |s.channels|
      ensures t.channels[i].project == s.channels[i].project && t.channels[i].machine == s.channels[i].machine
    {
      RelaySends(s, event, now, i);
    }
    assert ListOk(s, p);
    SameChannels(s, t, p);
    forall i: nat | i < |s.channels| ensures Listed(t, i) <==> Listed(s, i) {
      SameChannels(s, t, s.channels[i].project);
      SameListed(s, t, i);
    }
  }

  lemma SameChannels(s: State, t: State, p: string)
    requires Sound(s)
    requires exists event, now :: t.connections == Forwarded(s, event, now).connections
    ensures |ConnectionsOf(t, p)| == |ConnectionsOf(s, p)|
    ensures forall k | 0 <= k < |ConnectionsOf(s, p)| ::
              ConnectionsOf(t, p)[k].channel == ConnectionsOf(s, p)[k].channel
                  && ConnectionsOf(t, p)[k].machine == ConnectionsOf(s, p)[k].machine
  {
  }

  lemma SameListed(s: State, t: State, i: nat)
    requires i < |s.channels| == |t.channels| && s.channels[i].project == t.channels[i].project
    requires var p := s.channels[i].project;
             && |ConnectionsOf(t, p)| == |ConnectionsOf(s, p)|
             && forall k | 0 <= k < |ConnectionsOf(s, p)| ::
                  ConnectionsOf(t, p)[k].channel == ConnectionsOf(s, p)[k].channel
    ensures Listed(t, i) <==> Listed(s, i)
  {
    var a, b := ConnectionsOf(s, s.channels[i].project), ConnectionsOf(t, s.channels[i].project);
    if Listed(s, i) {
      var k: nat :| k < |a| && a[k].channel == i;
      assert b[k] in b;
    }
    if Listed(t, i) {
      var k: nat :| k < |b| && b[k].channel == i;
      assert a[k] in a;
    }
  }

  lemma RelayStep(s: State, event: Event, now: int, i: nat)
    requires Inv(s) && Sound(s)
    ensures ChannelOk(Apply(s, Relay(event, now)), i)
  {
    var t := Apply(s, Relay(event, now));
    if i < |t.channels| {
      assert ChannelOk(s, i);
      RelaySends(s, event, now, i);
      RelayList(s, event, now, "");
      var c := s.channels[i];
      assert t.history == s.history + [event];
      if c.until.None? && c.project == event.projectId && c.machine != event.machineId {
        DataSent(c, event, s.history);
      } else {
        DataPassed(c, event, s.history);
      }
    }
  }

  lemma RegisterList(s: State, a: Action, p: string)
    requires ListOk(s, p) && Sound(s) && a.Register?
    ensures ListOk(Apply(s, a), p)
  {
    assert Apply(s, a).channels[..|s.channels|] == s.channels;
  }

  lemma RegisterStep(s: State, a: Action, i: nat)
    requires Inv(s) && Sound(s) && a.Register?
    ensures ChannelOk(Apply(s, a), i)
  {
    var t := Apply(s, a);
    assert ChannelOk(s, i);
    var conns := ConnectionsOf(t, a.project);
    var added := conns[|conns| - 1];
    assert added in conns && added.channel == |s.channels|;
    if i < |s.channels| {
      assert t.channels[i] == s.channels[i];
      var q := s.channels[i].project;
      assert forall conn | conn in ConnectionsOf(s, q) :: conn in ConnectionsOf(t, q);
      assert forall conn | conn in ConnectionsOf(t, q) :: conn in ConnectionsOf(s, q) || conn == added;
      assert Listed(t, i) <==> Listed(s, i);
    } else if i == |s.channels| {
      assert During(t.channels[i], t.history) == [];
      assert Listed(t, i);
    }
  }

  lemma {:induction false} RemainingDistinct(conns: seq<Connection>, p: string, reason: Reason)
    requires OwnChannels(conns)
    ensures OwnChannels(Remaining(conns, p, reason))
  {
    if conns != [] {
      RemainingDistinct(conns[1..], p, reason);
      var rest := Remaining(conns[1..], p, reason);
      forall c | c in rest ensures c.channel != conns[0].channel {
        assert c in conns[1..];
      }
      if Leaves(conns[0], p, reason) {
        assert Remaining(conns, p, reason) == rest;
      } else {
        assert Remaining(conns, p, reason) == [conns[0]] + rest;
        assert forall k | 0 <= k < |rest| :: rest[k] in rest;
      }
    }
  }

  lemma LeaveList(s: State, reason: Reason, p: string)
    requires Inv(s) && Sound(s)
    ensures ListOk(Apply(s, Leave(reason)), p)
    ensures ConnectionsOf(Apply(s, Leave(reason)), p) == Remaining(ConnectionsOf(s, p), p, reason)
  {
    var t := Apply(s, Leave(reason));
    assert ListOk(s, p);
    RemainingDistinct(ConnectionsOf(s, p), p, reason);
    var conns := ConnectionsOf(t, p);
    assert conns == Remaining(ConnectionsOf(s, p), p, reason);
    forall k | 0 <= k < |conns|
      ensures conns[k].channel < |t.channels| && t.channels[conns[k].channel].project == p
              && t.channels[conns[k].channel].machine == conns[k].machine
    {
      assert conns[k] in ConnectionsOf(s, p);
    }
  }

  lemma SameConnection(conns: seq<Connection>, a: Connection, b: Connection)
    requires OwnChannels(conns)
    requires a in conns && b in conns && a.channel == b.channel
    ensures a == b
  {
    var j: nat :| j < |conns| && conns[j] == a;
    var k: nat :| k < |conns| && conns[k] == b;
    assert j == k;
  }

  lemma LeaveStep(s: State, reason: Reason, i: nat)
    requires Sound(s) && i < |s.channels| && ListOk(s, s.channels[i].project) && ChannelOk(s, i)
    requires ConnectionsOf(Apply(s, Leave(reason)), s.channels[i].project)
          == Remaining(ConnectionsOf(s, s.channels[i].project), s.channels[i].project, reason)
    ensures ChannelOk(Apply(s, Leave(reason)), i)
  {
    var t := Apply(s, Leave(reason));
    var p := s.channels[i].project;
    var conns := ConnectionsOf(s, p);
    if conn: Connection :| conn in conns && conn.channel == i && Leaves(conn, p, reason) {
      forall other | other in ConnectionsOf(t, p) ensures other.channel != i {
        if other.channel == i { SameConnection(conns, conn, other); }
      }
      assert Listed(s, i);
      assert t.channels[i] == s.channels[i].(until := Some(|s.history|));
      DataRetired(s.channels[i], s.history);
    } else {
      assert t.channels[i] == s.channels[i];
      if Listed(s, i) {
        var conn: Connection :| conn in conns && conn.channel == i;
        assert conn in ConnectionsOf(t, p);
      }
    }
  }

  lemma ChannelStep(s: State, a: Action, p: string)
    requires Sound(s) && ListOk(s, p) && (a.Take? || a.Close?)
    ensures ListOk(Apply(s, a), p)
  {
    assert ConnectionsOf(Apply(s, a), p) == ConnectionsOf(s, p);
  }

  lemma ChannelDataStep(s: State, a: Action, i: nat)
    requires Sound(s) && ChannelOk(s, i) && (a.Take? || a.Close?)
    ensures ChannelOk(Apply(s, a), i)
  {
    var t := Apply(s, a);
    if i < |s.channels| {
      var c, d := s.channels[i], t.channels[i];
      assert ConnectionsOf(t, d.project) == ConnectionsOf(s, c.project);
      assert d.outcomes == c.outcomes && During(d, t.history) == During(c, s.history);
      assert Listed(t, i) <==> Listed(s, i);
    }
  }

  lemma StepKeeps(s: State, a: Action)
    requires Inv(s) && Sound(s)
    ensures Inv(Apply(s, a)) && Sound(Apply(s, a))
  {
    var t := Apply(s, a);
    forall p: string ensures ListOk(t, p) && BufferOk(t, p) {
      assert ListOk(s, p) && BufferOk(s, p);
      match a
      case Register(_, _, _, _) => RegisterList(s, a, p);
      case Relay(event, now) =>
        RelayList(s, event, now, p);
        BufferStep(s, event, p);
      case Leave(reason) => LeaveList(s, reason, p);
      case Take(_) => ChannelStep(s, a, p);
      case Close(_) => ChannelStep(s, a, p);
    }
    forall i: nat ensures ChannelOk(t, i) {
      assert ChannelOk(s, i);
      match a
      case Register(_, _, _, _) => RegisterStep(s, a, i);
      case Relay(event, now) => RelayStep(s, event, now, i);
      case Leave(reason) =>
        if i < |s.channels| {
          assert ListOk(s, s.channels[i].project);
          LeaveList(s, reason, s.channels[i].project);
          LeaveStep(s, reason, i);
        }
      case Take(_) => ChannelDataStep(s, a, i);
      case Close(_) => ChannelDataStep(s, a, i);
    }
  }

  ghost function Run(s: State, actions: seq<Action>): (t: State)
    requires Inv(s) && Sound(s)
    ensures Inv(t) && Sound(t)
    decreases |actions|
  {
    if actions == [] then s
    else
      StepKeeps(s, actions[0]);
      Run(Apply(s, actions[0]), actions[1..])
  }

  // ----- what every run gives -----

  /** After any run, a project's buffer is the last 3000 events relayed for it, in order. */
  lemma BufferIsRecentHistory(actions: seq<Action>, p: string)
    ensures var s := Run(INITIAL, actions);
            BufferOf(s, p) == Last(Relayed(s.history, p), 3000)
  {
    assert BufferOk(Run(INITIAL, actions), p);
  }

  predicate Subsequence(part: seq<Event>, whole: seq<Event>) {
    if part == [] then true
    else if whole == [] then false
    else
      var m, n := |part| - 1, |whole| - 1;
      (part[m] == whole[n] && Subsequence(part[..m], whole[..n])) || Subsequence(part, whole[..n])
  }

  lemma {:induction false} AcceptedIsSubsequence(outcomes: seq<Outcome>)
    ensures Subsequence(Accepted(outcomes), Offered(outcomes)) && |Accepted(outcomes)| <= |Offered(outcomes)|
  {
    if outcomes != [] {
      var n := |outcomes| - 1;
      AcceptedIsSubsequence(outcomes[..n]);
      assert Offered(outcomes)[..n] == Offered(outcomes[..n]);
      if outcomes[n].accepted {
        assert Accepted(outcomes)[..|Accepted(outcomes[..n])|] == Accepted(outcomes[..n]);
      } else {
        assert Accepted(outcomes) == Accepted(outcomes[..n]);
      }
    }
  }

  lemma AllAcceptedSnoc(before: seq<Outcome>, o: Outcome)
    requires Accepted(before) == Offered(before) <==> forall x | x in before :: x.accepted
    ensures Accepted(before + [o]) == Offered(before + [o]) <==> o.accepted && forall x | x in before :: x.accepted
  {
    AcceptedIsSubsequence(before);
    OutcomeSnoc(before, o);
    var a, b := Accepted(before), Offered(before);
    if o.accepted {
      if a + [o.event] == b + [o.event] {
        assert a == (a + [o.event])[..|a|] && b == (b + [o.event])[..|b|];
      }
    } else {
      assert |a + []| < |b + [o.event]|;
    }
  }

  lemma {:induction false} AllAccepted(outcomes: seq<Outcome>)
    ensures Accepted(outcomes) == Offered(outcomes) <==> forall o | o in outcomes :: o.accepted
  {
    if outcomes != [] {
      var n := |outcomes| - 1;
      AllAccepted(outcomes[..n]);
      AllAcceptedSnoc(outcomes[..n], outcomes[n]);
      assert outcomes == outcomes[..n] + [outcomes[n]];
    }
  }

  /** After any run, a channel has been offered exactly the events relayed for its project by other
      machines while it was registered, in order. Its inbox is a subsequence of those, and all of
      them exactly when it never refused. */
  lemma InboxIsWhatWasAccepted(actions: seq<Action>, i: nat)
    requires i < |Run(INITIAL, actions).channels|
    ensures var s := Run(INITIAL, actions);
            var c := s.channels[i];
            && Offered(c.outcomes) == Expected(During(c, s.history), c.project, c.machine)
            && Subsequence(Accepted(c.outcomes), Expected(During(c, s.history), c.project, c.machine))
            && (Accepted(c.outcomes) == Expected(During(c, s.history), c.project, c.machine) <==>
                 forall o | o in c.outcomes :: o.accepted)
            && (c.until.None? <==> Listed(s, i))
  {
    assert ChannelOk(Run(INITIAL, actions), i);
    AcceptedIsSubsequence(Run(INITIAL, actions).channels[i].outcomes);
    AllAccepted(Run(INITIAL, actions).channels[i].outcomes);
  }

  lemma ClosedStep(s: State, a: Action, i: nat)
    requires Sound(s) && i < |s.channels| && s.channels[i].closed
    ensures i < |Apply(s, a).channels| && Apply(s, a).channels[i].closed
    ensures Accepted(Apply(s, a).channels[i].outcomes) == Accepted(s.channels[i].outcomes)
  {
    if a.Relay? {
      RelaySends(s, a.event, a.at, i);
      OutcomeSnoc(s.channels[i].outcomes, Outcome(a.event, false));
    }
  }

  /** From the moment its receiver is dropped a channel takes nothing more, whatever is offered. */
  lemma {:induction false} ClosedTakesNothing(s: State, actions: seq<Action>, i: nat)
    requires Inv(s) && Sound(s) && i < |s.channels| && s.channels[i].closed
    ensures var t := Run(s, actions);
            i < |t.channels| && t.channels[i].closed
                && Accepted(t.channels[i].outcomes) == Accepted(s.channels[i].outcomes)
    decreases |actions|
  {
    if actions != [] {
      ClosedStep(s, actions[0], i);
      StepKeeps(s, actions[0]);
      ClosedTakesNothing(Apply(s, actions[0]), actions[1..], i);
    }
  }

  /** What the `register` call leaves when nothing comes between its steps: a registered channel
      whose receiver is gone. */
  function RegisterCalled(s: State, project: string, machine: string, now: int): State
    requires Inv(s) && Sound(s)
  {
    StepKeeps(s, Register(project, machine, RPC_CAPACITY, now));
    Apply(Apply(s, Register(project, machine, RPC_CAPACITY, now)), Close(|s.channels|))
  }

  lemma RegisterLeaves(s: State, project: string, machine: string, now: int)
    requires Inv(s) && Sound(s)
    ensures var u, i := RegisterCalled(s, project, machine, now), |s.channels|;
            && Inv(u) && Sound(u) && |u.channels| == i + 1
            && u.channels[i].closed && u.channels[i].outcomes == [] && u.channels[i].until.None?
            && u.channels[i].capacity == 32
  {
    var t := Apply(s, Register(project, machine, RPC_CAPACITY, now));
    StepKeeps(s, Register(project, machine, RPC_CAPACITY, now));
    StepKeeps(t, Close(|s.channels|));
  }

  /** Such a channel is in the routing table and never takes an event, in any run. */
  lemma RegisterCallReceivesNothing(s: State, project: string, machine: string, now: int, actions: seq<Action>)
    requires Inv(s) && Sound(s)
    ensures var u, i := RegisterCalled(s, project, machine, now), |s.channels|;
            && Inv(u) && Sound(u) && i < |u.channels| && Listed(u, i)
            && i < |Run(u, actions).channels| && Accepted(Run(u, actions).channels[i].outcomes) == []
  {
    RegisterLeaves(s, project, machine, now);
    var u := RegisterCalled(s, project, machine, now);
    assert ChannelOk(u, |s.channels|);
    ClosedTakesNothing(u, actions, |s.channels|);
  }

  // ----- what the calls do to the routing table -----

  /** `left` is `conns` without those that `gone` names, in the same order. */
  ghost predicate KeepsRest(conns: seq<Connection>, left: seq<Connection>, gone: Connection -> bool) {
    && (forall c :: c in left <==> c in conns && !gone(c))
    && AllInOrder(conns, left)
  }

  ghost predicate InOrder(conns: seq<Connection>, a: Connection, b: Connection) {
    exists i, j | 0 <= i < j < |conns| :: conns[i] == a && conns[j] == b
  }

  lemma InOrderBehind(conns: seq<Connection>, a: Connection, b: Connection)
    requires conns != [] && InOrder(conns[1..], a, b)
    ensures InOrder(conns, a, b)
  {
    var i, j :| 0 <= i < j < |conns[1..]| && conns[1..][i] == a && conns[1..][j] == b;
    assert conns[i + 1] == a && conns[j + 1] == b;
  }

  lemma InOrderFirst(conns: seq<Connection>, b: Connection)
    requires conns != [] && b in conns[1..]
    ensures InOrder(conns, conns[0], b)
  {
    var j :| 0 <= j < |conns[1..]| && conns[1..][j] == b;
    assert conns[j + 1] == b;
  }

  ghost predicate AllInOrder(conns: seq<Connection>, left: seq<Connection>) {
    forall i, j | 0 <= i < j < |left| :: InOrder(conns, left[i], left[j])
  }

  lemma InOrderCons(conns: seq<Connection>, rest: seq<Connection>)
    requires conns != [] && AllInOrder(conns[1..], rest) && forall c | c in rest :: c in conns[1..]
    ensures AllInOrder(conns, rest) && AllInOrder(conns, [conns[0]] + rest)
  {
    forall i, j | 0 <= i < j < |rest| ensures InOrder(conns, rest[i], rest[j]) {
      InOrderBehind(conns, rest[i], rest[j]);
    }
    forall j | 0 <= j < |rest| ensures InOrder(conns, conns[0], rest[j]) { InOrderFirst(conns, rest[j]); }
  }

  lemma {:induction false} RemainingInOrder(conns: seq<Connection>, p: string, reason: Reason)
    ensures AllInOrder(conns, Remaining(conns, p, reason))
  {
    if conns != [] {
      RemainingInOrder(conns[1..], p, reason);
      InOrderCons(conns, Remaining(conns[1..], p, reason));
      assert [] + Remaining(conns[1..], p, reason) == Remaining(conns[1..], p, reason);
    }
  }

  lemma RemainingKeepsRest(conns: seq<Connection>, p: string, reason: Reason)
    ensures KeepsRest(conns, Remaining(conns, p, reason), (c: Connection) => Leaves(c, p, reason))
  {
    RemainingInOrder(conns, p, reason);
  }

  lemma LeaveLists(s: State, reason: Reason, q: string)
    requires Sound(s)
    ensures KeepsRest(ConnectionsOf(s, q), ConnectionsOf(Apply(s, Leave(reason)), q),
                      (c: Connection) => Leaves(c, q, reason))
  {
    RemainingKeepsRest(ConnectionsOf(s, q), q, reason);
  }

  /** Unregistering takes one machine's connections off one project's list. */
  lemma UnregisterMeaning(s: State, p: string, machine: string, q: string)
    requires Sound(s)
    ensures var t := Apply(s, Leave(Named(p, machine)));
            && (q == p ==> KeepsRest(ConnectionsOf(s, p), ConnectionsOf(t, p), (c: Connection) => c.machine == machine))
            && (q != p ==> ConnectionsOf(t, q) == ConnectionsOf(s, q))
            && t.buffer == s.buffer && t.history == s.history
  {
    LeaveLists(s, Named(p, machine), q);
    if q != p { NamedElsewhere(ConnectionsOf(s, q), q, p, machine); }
  }

  /** A cleanup takes off every list the connections last seen more whole seconds ago than the timeout. */
  lemma CleanupMeaning(s: State, now: int, timeout: nat, q: string)
    requires Sound(s)
    ensures var t := Apply(s, Leave(Stale(now, timeout)));
            && KeepsRest(ConnectionsOf(s, q), ConnectionsOf(t, q),
                         (c: Connection) => now > c.lastSeen && (now - c.lastSeen) / 1_000_000_000 > timeout)
            && t.buffer == s.buffer && t.history == s.history
  {
    var idle := (c: Connection) => now > c.lastSeen && (now - c.lastSeen) / 1_000_000_000 > timeout;
    var left := (c: Connection) => Leaves(c, q, Stale(now, timeout));
    LeaveLists(s, Stale(now, timeout), q);
    forall c ensures left(c) <==> idle(c) { IdleLeaves(c, q, now, timeout); }
    SameRest(ConnectionsOf(s, q), ConnectionsOf(Apply(s, Leave(Stale(now, timeout))), q), left, idle);
  }

  lemma IdleLeaves(c: Connection, q: string, now: int, timeout: nat)
    ensures Leaves(c, q, Stale(now, timeout)) <==> now > c.lastSeen && (now - c.lastSeen) / 1_000_000_000 > timeout
  {
  }

  lemma SameRest(conns: seq<Connection>, left: seq<Connection>, gone: Connection -> bool, also: Connection -> bool)
    requires KeepsRest(conns, left, gone) && forall c :: gone(c) <==> also(c)
    ensures KeepsRest(conns, left, also)
  {
  }

  /** Relaying marks the sender's connections as seen now and leaves the others as they were. */
  lemma TouchMeaning(s: State, event: Event, now: int, p: string)
    requires Sound(s)
    ensures var before, after := ConnectionsOf(s, p), ConnectionsOf(Apply(s, Relay(event, now)), p);
            && |after| == |before|
            && forall k | 0 <= k < |before| ::
                 && after[k].machine == before[k].machine && after[k].channel == before[k].channel
                 && after[k].lastSeen == if p == event.projectId && before[k].machine == event.machineId then now
                                         else before[k].lastSeen
  {
  }

  /** Registering puts a connection on a channel of its own at the end of the project's list: open, empty, and
      with the capacity asked for. */
  lemma RegisterMeaning(s: State, project: string, machine: string, capacity: nat, now: int)
    requires Sound(s)
    ensures var t, i := Apply(s, Register(project, machine, capacity, now)), |s.channels|;
            && ConnectionsOf(t, project) == ConnectionsOf(s, project) + [Connection(machine, i, now)]
            && (forall q | q != project :: ConnectionsOf(t, q) == ConnectionsOf(s, q))
            && |t.channels| == i + 1 && t.channels[..i] == s.channels
            && !t.channels[i].closed && t.channels[i].capacity == capacity && Unread(t.channels[i]) == 0
            && t.channels[i].project == project && t.channels[i].machine == machine
            && t.buffer == s.buffer && t.history == s.history
  {
  }

  // ----- the server -----

  lemma {:induction false} NamedElsewhere(conns: seq<Connection>, q: string, p: string, machine: string)
    requires q != p
    ensures Remaining(conns, q, Named(p, machine)) == conns
  {
    if conns != [] { NamedElsewhere(conns[1..], q, p, machine); }
  }

  /** Removing one machine from one project leaves every other project's list as it was. */
  lemma UnregisterIsLeave(s: State, p: string, machine: string)
    requires Sound(s)
    ensures var left := Apply(s, Leave(Named(p, machine)));
            left.connections == if p in s.connections then
                s.connections[p := Remaining(s.connections[p], p, Named(p, machine))]
                                else s.connections
  {
    forall q | q in s.connections && q != p
      ensures Remaining(s.connections[q], q, Named(p, machine)) == s.connections[q] {
      NamedElsewhere(s.connections[q], q, p, machine);
    }
  }

  /** How many connections other than the sender's have room. */
  function Deliverable(channels: seq<Channel>, conns: seq<Connection>, event: Event): nat
    requires forall k | 0 <= k < |conns| :: conns[k].channel < |channels|
  {
    if conns == [] then 0
    else
      var n := |conns| - 1;
      Deliverable(channels, conns[..n], event) +
        if conns[n].machine != event.machineId && HasRoom(channels[conns[n].channel]) then 1 else 0
  }

  /** The channels with more accepted events than before. */
  function Takers(before: seq<Channel>, after: seq<Channel>): set<nat>
    requires |before| == |after|
  {
    set i: nat | i < |before| && |Accepted(after[i].outcomes)| > |Accepted(before[i].outcomes)|
  }

  /** The count is that of the channels that took the event. */
  lemma {:induction false} DeliverableCounts(channels: seq<Channel>, conns: seq<Connection>, event: Event)
    requires forall k | 0 <= k < |conns| ::
               conns[k].channel < |channels| && channels[conns[k].channel].machine == conns[k].machine
    requires OwnChannels(conns)
    ensures |Takers(channels, SendAll(channels, conns, event))| == Deliverable(channels, conns, event)
  {
    if conns == [] {
      assert Takers(channels, channels) == {};
    } else {
      var n := |conns| - 1;
      DeliverableCounts(channels, conns[..n], event);
      DeliverOne(channels, conns, event);
    }
  }

  lemma DeliverOne(channels: seq<Channel>, conns: seq<Connection>, event: Event)
    requires forall k | 0 <= k < |conns| ::
               conns[k].channel < |channels| && channels[conns[k].channel].machine == conns[k].machine
    requires OwnChannels(conns) && conns != []
    ensures var n := |conns| - 1;
            var c, before := conns[n].channel, Takers(channels, SendAll(channels, conns[..n], event));
            && c !in before
            && Takers(channels, SendAll(channels, conns, event)) ==
                 if conns[n].machine != event.machineId && HasRoom(channels[c]) then before + {c} else before
  {
    var n := |conns| - 1;
    var c := conns[n].channel;
    SendOne(channels, conns[..n], event, c);
    forall conn | conn in conns[..n] ensures conn.channel != c {
      var k :| 0 <= k < n && conns[k] == conn;
    }
    var sent := SendAll(channels, conns[..n], event);
    assert sent[c] == channels[c];
    if conns[n].machine != event.machineId { TakersOne(channels, sent, c, event); }
  }

  lemma TakersOne(before: seq<Channel>, now: seq<Channel>, c: nat, event: Event)
    requires |before| == |now| && c < |before| && now[c] == before[c]
    ensures c !in Takers(before, now)
    ensures Takers(before, now[c := Sent(now[c], event)]) ==
              if HasRoom(now[c]) then Takers(before, now) + {c} else Takers(before, now)
  {
    OfferMeaning(now[c], event);
    var next := now[c := Sent(now[c], event)];
    assert forall i | 0 <= i < |now| && i != c :: next[i] == now[i];
  }

  function Relays(events: seq<Event>, times: seq<int>): seq<Action>
    requires |events| == |times|
  {
    seq(|events|, i requires 0 <= i < |events| => Relay(events[i], times[i]))
  }

  lemma {:induction false} RunSnoc(s: State, actions: seq<Action>, a: Action)
    requires Inv(s) && Sound(s)
    ensures Run(s, actions + [a]) == Apply(Run(s, actions), a)
    decreases |actions|
  {
    if actions == [] {
      StepKeeps(s, a);
      assert Run(Apply(s, a), []) == Apply(s, a);
      assert ([] + [a])[1..] == [] && ([] + [a])[0] == a;
    } else {
      StepKeeps(s, actions[0]);
      RunSnoc(Apply(s, actions[0]), actions[1..], a);
      assert (actions + [a])[1..] == actions[1..] + [a];
    }
  }

  /** The leaving connections are gone from every project but those left. */
  predicate CleanedBut(now: map<string, seq<Connection>>, before: map<string, seq<Connection>>,
          left: set<string>, reason: Reason) {
    now.Keys == before.Keys &&
    forall p | p in before :: now[p] == if p in left then before[p] else Remaining(before[p], p, reason)
  }

  lemma CleanOne(now: map<string, seq<Connection>>, before: map<string, seq<Connection>>, left: set<string>,
          reason: Reason, p: string)
    requires CleanedBut(now, before, left, reason) && p in left && p in before
    ensures CleanedBut(now[p := Remaining(now[p], p, reason)], before, left - {p}, reason)
  {
  }

  lemma AllClean(now: map<string, seq<Connection>>, before: map<string, seq<Connection>>, reason: Reason)
    requires CleanedBut(now, before, {}, reason)
    ensures now == map p | p in before :: Remaining(before[p], p, reason)
  {
  }

  /** `channels` and `history` stand for what lies outside the server: the receivers, and the
      events that have come in. */
  class GatewayServer {
    var connections: map<string, seq<Connection>>
    var buffer: map<string, seq<Event>>
    var channels: seq<Channel>
    var history: seq<Event>

    constructor ()
      ensures Value() == INITIAL
    {
      connections, buffer, channels, history := map[], map[], [], [];
    }

    function Value(): State
      reads this
    {
      State(connections, buffer, channels, history)
    }

    method RegisterDaemon(project: string, machine: string, capacity: nat, now: int)
      requires Sound(Value())
      modifies this
      ensures Value() == Apply(old(Value()), Register(project, machine, capacity, now))
    {
      var conns := if project in connections then connections[project] else [];
      connections := connections[project := conns + [Connection(machine, |channels|, now)]];
      channels := channels + [Channel(project, machine, capacity, false, [], 0, |history|, None)];
    }

    /** The call that answers a daemon: it refuses empty names, and its receiver goes as it returns. */
    method RegisterCall(project: string, machine: string, now: int) returns (registered: bool)
      requires Inv(Value()) && Sound(Value())
      modifies this
      ensures registered <==> project != "" && machine != ""
      ensures Value() == if registered then RegisterCalled(old(Value()), project, machine, now) else old(Value())
    {
      if project == "" || machine == "" {
        return false;
      }
      var receiver := |channels|;
      RegisterDaemon(project, machine, RPC_CAPACITY, now);
      channels := channels[receiver := channels[receiver].(closed := true)];
      registered := true;
    }

    method UnregisterDaemon(project: string, machine: string)
      requires Sound(Value())
      modifies this
      ensures Value() == Apply(old(Value()), Leave(Named(project, machine)))
    {
      UnregisterIsLeave(Value(), project, machine);
      var retired := Retired(Value(), Named(project, machine));
      if project in connections {
        connections := connections[project := Remaining(connections[project], project, Named(project, machine))];
      }
      channels := retired;
    }

    method CleanupStaleConnections(now: int, timeout: nat)
      requires Sound(Value())
      modifies this`connections, this`channels
      ensures Value() == Apply(old(Value()), Leave(Stale(now, timeout)))
    {
      var retired := Retired(Value(), Stale(now, timeout));
      RetainFresh(Stale(now, timeout));
      channels := retired;
    }

    method RetainFresh(reason: Reason)
      modifies this`connections
      ensures connections == map p | p in old(connections) :: Remaining(old(connections)[p], p, reason)
    {
      var left := connections.Keys;
      while left != {}
        invariant left <= connections.Keys
        invariant CleanedBut(connections, old(connections), left, reason)
        decreases left
      {
        var p: string :| p in left;
        CleanOne(connections, old(connections), left, reason, p);
        left := left - {p};
        connections := connections[p := Remaining(connections[p], p, reason)];
      }
      AllClean(connections, old(connections), reason);
    }

    /** Marks the sender as seen, then offers the event to everyone else. */
    method ForwardEvent(event: Event, now: int) returns (forwarded: nat)
      requires Sound(Value())
      modifies this
      ensures Value() == Forwarded(old(Value()), event, now)
      ensures forwarded == if event.projectId in old(connections)
                           then Deliverable(old(channels), old(connections)[event.projectId], event) else 0
      ensures |channels| == |old(channels)| && forwarded == |Takers(old(channels), channels)|
    {
      forwarded := 0;
      var p := event.projectId;
      if p in connections {
        var conns := connections[p];
        assert ListOk(Value(), p);
        Touch(p, event.machineId, now);
        DeliverableCounts(channels, conns, event);
        forwarded := SendToOthers(conns, event);
      }
    }

    method Touch(p: string, machine: string, now: int)
      requires p in connections
      modifies this`connections
      ensures connections == old(connections)[p := Touched(old(connections)[p], machine, now)]
    {
      var conns := connections[p];
      for i := 0 to |conns|
        invariant |conns| == |old(connections)[p]|
        invariant forall k | 0 <= k < |conns| ::
                    conns[k] == if k < i then Touched(old(connections)[p], machine, now)[k] else old(connections)[p][k]
        invariant connections == old(connections)
      {
        if conns[i].machine == machine {
          conns := conns[i := conns[i].(lastSeen := now)];
        }
      }
      assert conns == Touched(old(connections)[p], machine, now);
      connections := connections[p := conns];
    }

    method SendToOthers(conns: seq<Connection>, event: Event) returns (forwarded: nat)
      requires OwnChannels(conns)
      requires forall k | 0 <= k < |conns| ::
                 conns[k].channel < |channels| && channels[conns[k].channel].machine == conns[k].machine
      modifies this`channels
      ensures channels == SendAll(old(channels), conns, event)
      ensures forwarded == Deliverable(old(channels), conns, event)
    {
      forwarded := 0;
      for i := 0 to |conns|
        invariant channels == SendAll(old(channels), conns[..i], event)
        invariant forwarded == Deliverable(old(channels), conns[..i], event)
      {
        assert conns[..i + 1][..i] == conns[..i];
        var c := conns[i].channel;
        SendOne(old(channels), conns[..i], event, c);
        assert !exists conn | conn in conns[..i] :: conn.channel == c;
        if conns[i].machine != event.machineId {
          if HasRoom(channels[c]) {
            forwarded := forwarded + 1;
          }
          channels := channels[c := Sent(channels[c], event)];
        }
      }
      assert conns[..|conns|] == conns;
    }

    method BufferEvent(event: Event)
      modifies this`buffer
      ensures buffer == old(buffer)[event.projectId :=
                Buffered(if event.projectId in old(buffer) then old(buffer)[event.projectId] else [], event)]
    {
      var events := if event.projectId in buffer then buffer[event.projectId] else [];
      if |events| >= MAX_BUFFER_SIZE {
        events := events[1..];
      }
      buffer := buffer[event.projectId := events + [event]];
    }

    method GetBufferedEvents(project: string) returns (events: seq<Event>)
      ensures events == BufferOf(Value(), project)
    {
      events := if project in buffer then buffer[project] else [];
    }

    /** One relay stream from its first event to its end: each event is forwarded and buffered, then
        the daemon named by the first event is unregistered. */
    method RelayStream(events: seq<Event>, times: seq<int>)
      requires Inv(Value()) && Sound(Value()) && |events| == |times|
      modifies this
      ensures var t := Run(old(Value()), Relays(events, times));
              Value() == if events == [] then old(Value())
                         else Apply(t, Leave(Named(events[0].projectId, events[0].machineId)))
    {
      for i := 0 to |events|
        invariant Inv(Value()) && Sound(Value())
        invariant Value() == Run(old(Value()), Relays(events[..i], times[..i]))
      {
        assert Relays(events[..i + 1], times[..i + 1]) ==
                 Relays(events[..i], times[..i]) + [Relay(events[i], times[i])];
        RunSnoc(old(Value()), Relays(events[..i], times[..i]), Relay(events[i], times[i]));
        StepKeeps(Value(), Relay(events[i], times[i]));
        var forwarded := ForwardEvent(events[i], times[i]);
        BufferEvent(events[i]);
        history := history + [events[i]];
      }
      assert events[..|events|] == events && times[..|times|] == times;
      if events != [] {
        UnregisterDaemon(events[0].projectId, events[0].machineId);
      }
    }
  }
}
