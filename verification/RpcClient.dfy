/** The Rust JSON-RPC client: callers, a reader task and a server, interleaved one lock-protected
    or atomic step at a time. */
module RpcClient {
  import opened Text

  const ID_RANGE: nat := 0x1_0000_0000_0000_0000

  /** The members of a response that the reader looks at. */
  datatype Body = Body(error: Option<ErrorObject>, result: Option<string>)

  datatype ErrorObject = ErrorObject(message: Option<string>)

  datatype Outcome =
    | Answered(value: string)
    | DaemonError(message: string)
    | InvalidResponse
    | ConnectionClosed
    | IoError

  function OutcomeOf(b: Body): Outcome {
    if b.error.Some? then DaemonError(b.error.value.message.GetOr("unknown error"))
    else if b.result.Some? then Answered(b.result.value)
    else InvalidResponse
  }

  /** What a caller is told about an answer: an error, however much else it carries, then its message
      if it has one, then a result, then that it is not valid. */
  ghost predicate Tells(b: Body, o: Outcome) {
    && (forall text :: b.error == Some(ErrorObject(Some(text))) ==> o == DaemonError(text))
    && (b.error == Some(ErrorObject(None)) ==> o == DaemonError("unknown error"))
    && (forall value :: b == Body(None, Some(value)) ==> o == Answered(value))
    && (b == Body(None, None) ==> o == InvalidResponse)
  }

  lemma OutcomeTells(b: Body, o: Outcome)
    ensures Tells(b, o) <==> o == OutcomeOf(b)
  {
  }

  datatype Inbound = Response(id: nat, body: Body) | Notification | OtherLine

  /** Where a call of `send_request` stands. */
  datatype Phase = Issued | Registered | Failing | Waiting | Done(outcome: Outcome) | Dropped

  datatype Reader = Running | Stopped | Drained

  datatype State = State(
    nextId: nat,
    ids: seq<nat>,                 // the id of each call, in the order the calls drew them
    phases: seq<Phase>,
    pending: map<nat, nat>,        // id -> the call whose channel is registered
    sends: multiset<nat>,          // one entry per value put into a call's channel
    channel: map<nat, Outcome>,    // the value a call's channel holds
    registered: set<nat>,          // calls that have entered `pending`
    cleaned: set<nat>,             // calls that have removed themselves after a write error
    atServer: set<nat>,            // ids of requests the server has and has not answered
    answers: map<nat, Body>,       // the server's answer to each id
    wire: seq<Inbound>,            // lines on their way to the reader
    reader: Reader)

  const INITIAL := State(1, [], [], map[], multiset{}, map[], {}, {}, {}, map[], [], Running)

  datatype Action =
    | Issue                                  // next_id.fetch_add
    | Register(call: nat)                    // lock, insert, unlock
    | WriteOk(call: nat)
    | WriteError(call: nat, reached: bool)   // the bytes may or may not have got through
    | Cleanup(call: nat)                     // lock, remove, unlock
    | Answer(id: nat, body: Body)
    | Push(line: Inbound)                    // a line without a response id
    | Read(listening: bool)                  // whether the notification receiver still exists
    | Stop                                   // end of file or read error
    | Drain                                  // lock, drain, unlock
    | Receive(call: nat)
    | Drop(call: nat)                        // the caller abandons the call

  predicate Enabled(s: State, a: Action)
    requires |s.phases| == |s.ids|
  {
    match a
    case Issue => true
    case Register(c) => c < |s.ids| && s.phases[c] == Issued
    case WriteOk(c) => c < |s.ids| && s.phases[c] == Registered
    case WriteError(c, _) => c < |s.ids| && s.phases[c] == Registered
    case Cleanup(c) => c < |s.ids| && s.phases[c] == Failing
    case Answer(id, _) => id in s.atServer
    case Push(line) => !line.Response?
    case Read(_) => s.reader == Running && s.wire != []
    case Stop => s.reader == Running
    case Drain => s.reader == Stopped
    case Receive(c) => c < |s.ids| && s.phases[c] == Waiting && c in s.channel
    case Drop(c) => c < |s.ids| && !s.phases[c].Done? && s.phases[c] != Dropped
  }

  /** One message handled by the reader. */
  function ReadLine(s: State, line: Inbound, listening: bool): State {
    match line
    case Response(id, body) =>
      if id in s.pending then
        var c := s.pending[id];
        s.(pending := s.pending - {id}, sends := s.sends + multiset{c}, channel := s.channel[c := OutcomeOf(body)])
      else s
    case Notification => if listening then s else s.(reader := Stopped)
    case OtherLine => s
  }

  function Apply(s: State, a: Action): State
    requires |s.phases| == |s.ids| && Enabled(s, a)
  {
    match a
    case Issue =>
      s.(nextId := (s.nextId + 1) % ID_RANGE, ids := s.ids + [s.nextId], phases := s.phases + [Issued])
    case Register(c) =>
      s.(pending := s.pending[s.ids[c] := c], phases := s.phases[c := Registered], registered := s.registered + {c})
    case WriteOk(c) =>
      s.(phases := s.phases[c := Waiting], atServer := s.atServer + {s.ids[c]})
    case WriteError(c, reached) =>
      s.(phases := s.phases[c := Failing], atServer := s.atServer + (if reached then {s.ids[c]} else {}))
    case Cleanup(c) =>
      s.(pending := s.pending - {s.ids[c]}, phases := s.phases[c := Done(IoError)], cleaned := s.cleaned + {c})
    case Answer(id, body) =>
      s.(atServer := s.atServer - {id}, answers := s.answers[id := body], wire := s.wire + [Response(id, body)])
    case Push(line) => s.(wire := s.wire + [line])
    case Read(listening) => ReadLine(s.(wire := s.wire[1..]), s.wire[0], listening)
    case Stop => s.(reader := Stopped)
    case Drain =>
      s.(pending := map[], reader := Drained,
         sends := s.sends + multiset(s.pending.Values),
         channel := map c | c in s.channel.Keys + s.pending.Values ::
                      if c in s.pending.Values then ConnectionClosed else s.channel[c])
    case Receive(c) => s.(phases := s.phases[c := Done(s.channel[c])])
    case Drop(c) => s.(phases := s.phases[c := Dropped])
  }

  /** Runs that draw fewer than 2^64 ids, after which the counter would repeat itself. */
  ghost predicate IsRun(s: State, actions: seq<Action>, t: State)
    decreases |actions|
  {
    |s.phases| == |s.ids| < ID_RANGE &&
    if actions == [] then s == t
    else Enabled(s, actions[0]) && |Apply(s, actions[0]).phases| == |Apply(s, actions[0]).ids| &&
         IsRun(Apply(s, actions[0]), actions[1..], t)
  }

  // ----- what every reachable state satisfies -----

  /** A call that has not drawn its id has left no trace anywhere. */
  predicate Untouched(s: State, c: nat) {
    && c !in s.registered && c !in s.cleaned && c !in s.channel && s.sends[c] == 0
    && 1 + c !in s.pending && 1 + c !in s.atServer && 1 + c !in s.answers
  }

  /** A call with id `1 + c`: its own id and nobody else's channel stand for it in `pending`,
      exactly while it is registered, not sent to and not cleaned up; its channel is sent to at
      most once, with the server's one answer to its own request or the closing of the
      connection; and that is what the caller gets unless its write failed. */
  predicate Traced(s: State, c: nat)
    requires c < |s.ids| == |s.phases|
  {
    var id, phase := 1 + c, s.phases[c];
    && s.ids[c] == id
    && (id in s.pending <==> c in s.registered && s.sends[c] == 0 && c !in s.cleaned)
    && (id in s.pending ==> s.pending[id] == c)
    && (phase == Issued ==> c !in s.registered)
    && (phase.Registered? || phase.Failing? || phase.Waiting? || phase.Done? ==> c in s.registered)
    && (c in s.cleaned ==> c in s.registered && (phase == Done(IoError) || phase == Dropped))
    && s.sends[c] <= 1
    && (c in s.channel <==> s.sends[c] == 1)
    && (c in s.channel ==> c in s.registered)
    && (c in s.channel && s.channel[c] != ConnectionClosed ==>
          id in s.answers && s.channel[c] == OutcomeOf(s.answers[id]))
    && (id in s.atServer ==> id !in s.answers)
    && (id in s.atServer || id in s.answers ==> !phase.Issued? && !phase.Registered?)
    && (phase.Done? ==> phase == Done(IoError) || (c in s.channel && phase == Done(s.channel[c])))
  }

  predicate CallOk(s: State, c: nat)
    requires |s.phases| == |s.ids|
  {
    if c < |s.ids| then Traced(s, c) else Untouched(s, c)
  }

  /** A response under way is the server's answer to its id. */
  predicate LineOk(s: State, line: Inbound) {
    line.Response? ==> line.id in s.answers && line.body == s.answers[line.id]
  }

  ghost predicate Inv(s: State) {
    && |s.phases| == |s.ids| < ID_RANGE && s.nextId == (1 + |s.ids|) % ID_RANGE
    && (forall c: nat :: CallOk(s, c))
    && (forall i | 0 <= i < |s.wire| :: LineOk(s, s.wire[i]))
    && 0 !in s.pending && 0 !in s.atServer && 0 !in s.answers
  }

  lemma IssueKeeps(s: State)
    requires Inv(s) && |s.ids| + 1 < ID_RANGE
    ensures Inv(Apply(s, Issue))
  {
    var t := Apply(s, Issue);
    forall c: nat ensures CallOk(t, c) { assert CallOk(s, c); }
    forall i | 0 <= i < |t.wire| ensures LineOk(t, t.wire[i]) { assert LineOk(s, s.wire[i]); }
  }

  lemma CallerStepKeeps(s: State, a: Action)
    requires Inv(s) && Enabled(s, a)
    requires a.Register? || a.WriteOk? || a.WriteError? || a.Cleanup? || a.Receive? || a.Drop?
    ensures Inv(Apply(s, a))
  {
    var t := Apply(s, a);
    assert CallOk(s, a.call);
    forall c: nat ensures CallOk(t, c) { assert CallOk(s, c); }
    forall i | 0 <= i < |t.wire| ensures LineOk(t, t.wire[i]) { assert LineOk(s, s.wire[i]); }
  }

  lemma ServerStepKeeps(s: State, a: Action)
    requires Inv(s) && Enabled(s, a) && (a.Answer? || a.Push? || a.Stop?)
    ensures Inv(Apply(s, a))
  {
    var t := Apply(s, a);
    if a.Answer? { assert a.id > 0 && CallOk(s, a.id - 1); }
    forall c: nat ensures CallOk(t, c) { assert CallOk(s, c); }
    forall i | 0 <= i < |t.wire| ensures LineOk(t, t.wire[i]) {
      if i < |s.wire| {
        assert LineOk(s, s.wire[i]);
      }
    }
  }

  lemma ReadKeepsCall(s: State, listening: bool, c: nat)
    requires Inv(s) && Enabled(s, Read(listening))
    ensures CallOk(Apply(s, Read(listening)), c)
  {
    var line := s.wire[0];
    assert LineOk(s, line) && CallOk(s, c);
    if line.Response? && line.id in s.pending { assert CallOk(s, line.id - 1); }
  }

  lemma ReadKeeps(s: State, listening: bool)
    requires Inv(s) && Enabled(s, Read(listening))
    ensures Inv(Apply(s, Read(listening)))
  {
    var t := Apply(s, Read(listening));
    forall c: nat ensures CallOk(t, c) { ReadKeepsCall(s, listening, c); }
    forall i | 0 <= i < |t.wire| ensures LineOk(t, t.wire[i]) { assert LineOk(s, s.wire[i + 1]); }
  }

  lemma DrainKeeps(s: State)
    requires Inv(s) && Enabled(s, Drain)
    ensures Inv(Apply(s, Drain))
  {
    var t := Apply(s, Drain);
    forall c: nat ensures CallOk(t, c) {
      assert CallOk(s, c);
      PendingValue(s, c);
    }
    forall i | 0 <= i < |t.wire| ensures LineOk(t, t.wire[i]) { assert LineOk(s, s.wire[i]); }
  }

  /** A channel is registered exactly under its own call's id. */
  lemma PendingValue(s: State, c: nat)
    requires Inv(s)
    ensures c in s.pending.Values <==> 1 + c in s.pending
  {
    assert CallOk(s, c);
    if c in s.pending.Values {
      var id :| id in s.pending && s.pending[id] == c;
      assert id > 0 && CallOk(s, id - 1);
    }
  }

  lemma StepKeeps(s: State, a: Action)
    requires Inv(s) && Enabled(s, a) && |Apply(s, a).ids| < ID_RANGE
    ensures Inv(Apply(s, a))
  {
    match a
    case Issue => IssueKeeps(s);
    case Answer(_, _) => ServerStepKeeps(s, a);
    case Push(_) => ServerStepKeeps(s, a);
    case Stop => ServerStepKeeps(s, a);
    case Read(listening) => ReadKeeps(s, listening);
    case Drain => DrainKeeps(s);
    case Register(_) => CallerStepKeeps(s, a);
    case WriteOk(_) => CallerStepKeeps(s, a);
    case WriteError(_, _) => CallerStepKeeps(s, a);
    case Cleanup(_) => CallerStepKeeps(s, a);
    case Receive(_) => CallerStepKeeps(s, a);
    case Drop(_) => CallerStepKeeps(s, a);
  }

  lemma {:induction false} RunKeeps(s: State, actions: seq<Action>, t: State)
    requires Inv(s) && IsRun(s, actions, t)
    ensures Inv(t)
    decreases |actions|
  {
    if actions != [] {
      StepKeeps(s, actions[0]);
      RunKeeps(Apply(s, actions[0]), actions[1..], t);
    }
  }

  // ----- the promises, for every run -----

  lemma RunInv(actions: seq<Action>, t: State)
    requires IsRun(INITIAL, actions, t)
    ensures Inv(t)
  {
    assert forall c: nat :: CallOk(INITIAL, c);
    RunKeeps(INITIAL, actions, t);
  }

  lemma CallTraced(s: State, c: nat)
    requires Inv(s) && c < |s.ids|
    ensures Traced(s, c)
  {
    assert CallOk(s, c);
  }

  lemma PendingId(s: State, id: nat)
    requires Inv(s) && id in s.pending
    ensures 1 <= id <= |s.ids| && s.pending[id] == id - 1 && s.ids[id - 1] == id
  {
    assert CallOk(s, id - 1);
  }

  /** Each id is drawn once. */
  lemma IdsAreUnique(actions: seq<Action>, t: State, c: nat, d: nat)
    requires IsRun(INITIAL, actions, t) && c < |t.ids| && d < |t.ids|
    ensures t.ids[c] == t.ids[d] ==> c == d
    ensures t.nextId == (1 + |t.ids|) % 0x1_0000_0000_0000_0000
  {
    RunInv(actions, t);
    CallTraced(t, c);
    CallTraced(t, d);
  }

  /** `pending` holds exactly the ids registered and not yet answered, failed or drained, each
      with the channel of the call that drew it. */
  lemma PendingIsExact(actions: seq<Action>, t: State, c: nat)
    requires IsRun(INITIAL, actions, t) && c < |t.ids|
    ensures t.ids[c] in t.pending <==> c in t.registered && t.sends[c] == 0 && c !in t.cleaned
    ensures t.ids[c] in t.pending ==> t.pending[t.ids[c]] == c
  {
    RunTraced(actions, t, c);
  }

  lemma RunTraced(actions: seq<Action>, t: State, c: nat)
    requires IsRun(INITIAL, actions, t) && c < |t.ids|
    ensures |t.phases| == |t.ids| && Traced(t, c)
  {
    RunInv(actions, t);
    CallTraced(t, c);
  }

  /** No other id is in `pending`: each was drawn by some call. */
  lemma PendingWasDrawn(actions: seq<Action>, t: State, id: nat)
    requires IsRun(INITIAL, actions, t) && id in t.pending
    ensures exists k: nat | k < |t.ids| :: t.ids[k] == id
  {
    RunInv(actions, t);
    PendingId(t, id);
    var k: nat := id - 1;
    assert t.ids[k] == id;
  }

  /** No channel is sent to twice; what it holds is the server's answer to that very call, or the
      closing of the connection; and the caller gets that, unless its write failed. */
  lemma RepliesAreRouted(actions: seq<Action>, t: State, c: nat)
    requires IsRun(INITIAL, actions, t) && c < |t.ids|
    ensures |t.phases| == |t.ids|
    ensures t.sends[c] <= 1 && (t.sends[c] == 1 <==> c in t.channel)
    ensures c in t.channel ==> c in t.registered
    ensures c in t.channel ==>
              (t.channel[c] == ConnectionClosed ||
               (t.ids[c] in t.answers && Tells(t.answers[t.ids[c]], t.channel[c])))
    ensures t.phases[c].Done? ==>
              t.phases[c] == Done(IoError) || (c in t.channel && t.phases[c] == Done(t.channel[c]))
  {
    RunInv(actions, t);
    CallTraced(t, c);
    if t.ids[c] in t.answers { OutcomeTells(t.answers[t.ids[c]], OutcomeOf(t.answers[t.ids[c]])); }
  }

  // ----- what the server says, and when the reader stops -----

  function SaidBy(a: Action): seq<Inbound> {
    match a
    case Answer(id, body) => [Response(id, body)]
    case Push(line) => [line]
    case _ => []
  }

  /** The lines the server writes, in order. */
  function Written(actions: seq<Action>): seq<Inbound> {
    if actions == [] then [] else SaidBy(actions[0]) + Written(actions[1..])
  }

  function Reads(actions: seq<Action>): nat {
    if actions == [] then 0 else (if actions[0].Read? then 1 else 0) + Reads(actions[1..])
  }

  lemma WireStep(s: State, a: Action)
    requires |s.phases| == |s.ids| && Enabled(s, a)
    ensures s.wire + SaidBy(a) == (if a.Read? then [s.wire[0]] else []) + Apply(s, a).wire
  {
    WireAfter(s, a);
    if a.Read? {
      assert s.wire == [s.wire[0]] + s.wire[1..] && s.wire + [] == s.wire;
    } else {
      assert [] + (s.wire + SaidBy(a)) == s.wire + SaidBy(a);
    }
  }

  lemma WireAfter(s: State, a: Action)
    requires |s.phases| == |s.ids| && Enabled(s, a)
    ensures Apply(s, a).wire == if a.Read? then s.wire[1..] else s.wire + SaidBy(a)
  {
    match a
    case Answer(_, _) =>
    case Push(_) =>
    case Read(_) =>
    case _ => assert s.wire + [] == s.wire;
  }

  lemma Shift<T>(a: seq<T>, b: seq<T>, first: seq<T>, c: seq<T>, later: seq<T>, n: nat)
    requires a + b == first + c && n <= |c + later|
    ensures n + |first| <= |a + (b + later)|
    ensures (a + (b + later))[n + |first|..] == (c + later)[n..]
  {
    Assoc(a, b, later);
    assert first + (c + later) == (first + c) + later;
  }

  /** After the lines `before`, `done` of which are read, what is left is `wire`. */
  predicate WireIs(wire: seq<Inbound>, all: seq<Inbound>, done: nat) {
    done <= |all| && wire == all[done..]
  }

  lemma WireFirst(s: State, a: Action, later: seq<Action>, wire: seq<Inbound>)
    requires |s.phases| == |s.ids| && Enabled(s, a)
    requires WireIs(wire, Apply(s, a).wire + Written(later), Reads(later))
    ensures WireIs(wire, s.wire + Written([a] + later), Reads([a] + later))
  {
    assert ([a] + later)[1..] == later;
    WireStep(s, a);
    Shift(s.wire, SaidBy(a), if a.Read? then [s.wire[0]] else [], Apply(s, a).wire, Written(later), Reads(later));
  }

  lemma {:induction false} WireRun(s: State, actions: seq<Action>, t: State)
    requires IsRun(s, actions, t)
    ensures WireIs(t.wire, s.wire + Written(actions), Reads(actions))
    decreases |actions|
  {
    if actions == [] {
      assert s.wire + [] == s.wire;
    } else {
      WireRun(Apply(s, actions[0]), actions[1..], t);
      assert actions == [actions[0]] + actions[1..];
      WireFirst(s, actions[0], actions[1..], t.wire);
    }
  }

  /** In every run the reader takes the lines the server has written, one after the other: those not yet
      read are the last ones written. */
  lemma LinesAreReadInOrder(actions: seq<Action>, t: State)
    requires IsRun(INITIAL, actions, t)
    ensures Reads(actions) <= |Written(actions)| && t.wire == Written(actions)[Reads(actions)..]
  {
    WireRun(INITIAL, actions, t);
    assert [] + Written(actions) == Written(actions);
  }

  lemma {:induction false} AnswersRun(s: State, actions: seq<Action>, t: State, id: nat, body: Body)
    requires Inv(s) && IsRun(s, actions, t)
    ensures id in s.answers ==> id in t.answers && t.answers[id] == s.answers[id] &&
                                forall b :: Answer(id, b) !in actions
    ensures id !in s.answers ==> (id in t.answers && t.answers[id] == body <==> Answer(id, body) in actions)
    decreases |actions|
  {
    if actions != [] {
      var a, u := actions[0], Apply(s, actions[0]);
      StepKeeps(s, a);
      AnswersRun(u, actions[1..], t, id, body);
      assert actions == [a] + actions[1..];
      if a.Answer? { CallAnswered(s, a.id); }
    }
  }

  /** The server answers each request once. */
  lemma CallAnswered(s: State, id: nat)
    requires Inv(s) && id in s.atServer
    ensures id !in s.answers
  {
    assert id > 0 && CallOk(s, id - 1);
  }

  /** The answer to an id is the one the server gave, and it gives at most one. */
  lemma AnswersAreTheServers(actions: seq<Action>, t: State, id: nat, body: Body)
    requires IsRun(INITIAL, actions, t)
    ensures id in t.answers && t.answers[id] == body <==> Answer(id, body) in actions
  {
    assert forall c: nat :: CallOk(INITIAL, c);
    AnswersRun(INITIAL, actions, t, id, body);
  }

  /** A line without a response id reaches no call. It stops the reader exactly if it is a notification and
      nobody listens for notifications any more. */
  lemma OtherLinesReachNobody(s: State, listening: bool)
    requires |s.phases| == |s.ids| && s.reader == Running && s.wire != [] && !s.wire[0].Response?
    ensures var t := Apply(s, Read(listening));
            && t.pending == s.pending && t.sends == s.sends && t.channel == s.channel && t.phases == s.phases
            && (t.reader == Stopped <==> s.wire[0] == Notification && !listening)
            && (t.reader == Running <==> s.wire[0] == OtherLine || listening)
  {
  }

  /** When the reader ends it fails every call then pending exactly once and no other, leaves
      nothing pending, and what other channels hold does not change. */
  lemma DrainFailsPendingOnce(actions: seq<Action>, s: State, c: nat)
    requires IsRun(INITIAL, actions, s) && s.reader == Stopped && c < |s.ids|
    ensures |s.phases| == |s.ids| && Apply(s, Drain).pending == map[]
    ensures s.ids[c] in s.pending ==>
              Apply(s, Drain).sends[c] == s.sends[c] + 1 && Holds(Apply(s, Drain), c, Some(ConnectionClosed))
    ensures s.ids[c] !in s.pending ==>
              Apply(s, Drain).sends[c] == s.sends[c] && Holds(Apply(s, Drain), c, ChannelOf(s, c))
  {
    RunInv(actions, s);
    DrainStep(s, c);
  }

  function ChannelOf(s: State, c: nat): Option<Outcome> {
    if c in s.channel then Some(s.channel[c]) else None
  }

  predicate Holds(s: State, c: nat, value: Option<Outcome>) {
    ChannelOf(s, c) == value
  }

  lemma DrainStep(s: State, c: nat)
    requires Inv(s) && s.reader == Stopped && c < |s.ids|
    ensures s.ids[c] in s.pending <==> c in s.pending.Values
    ensures Apply(s, Drain).sends[c] == s.sends[c] + (if c in s.pending.Values then 1 else 0)
    ensures ChannelOf(Apply(s, Drain), c) == if c in s.pending.Values then Some(ConnectionClosed) else ChannelOf(s, c)
  {
    CallTraced(s, c);
    PendingValue(s, c);
    assert multiset(s.pending.Values)[c] == if c in s.pending.Values then 1 else 0;
  }

  /** A response reaches only the call whose id it carries, and that call leaves `pending`. */
  lemma ReplyReachesItsCaller(actions: seq<Action>, s: State, listening: bool, c: nat)
    requires IsRun(INITIAL, actions, s) && s.reader == Running && s.wire != [] && s.wire[0].Response?
    requires c < |s.ids|
    ensures |s.phases| == |s.ids| && s.wire[0].id in s.answers && s.wire[0].body == s.answers[s.wire[0].id]
    ensures s.wire[0].id !in Apply(s, Read(listening)).pending
    ensures s.ids[c] == s.wire[0].id && s.ids[c] in s.pending ==>
              Apply(s, Read(listening)).sends[c] == s.sends[c] + 1 &&
              exists o :: Tells(s.answers[s.wire[0].id], o) && Holds(Apply(s, Read(listening)), c, Some(o))
    ensures s.ids[c] != s.wire[0].id || s.ids[c] !in s.pending ==>
              Apply(s, Read(listening)).sends[c] == s.sends[c] && Holds(Apply(s, Read(listening)), c, ChannelOf(s, c))
  {
    RunInv(actions, s);
    ReadStep(s, listening, c);
    OutcomeTells(s.wire[0].body, OutcomeOf(s.wire[0].body));
  }

  lemma ReadStep(s: State, listening: bool, c: nat)
    requires Inv(s) && s.reader == Running && s.wire != [] && s.wire[0].Response? && c < |s.ids|
    ensures s.wire[0].id in s.answers && s.wire[0].body == s.answers[s.wire[0].id]
    ensures var t, id := Apply(s, Read(listening)), s.wire[0].id;
            && id !in t.pending
            && t.sends[c] == s.sends[c] + (if s.ids[c] == id && id in s.pending then 1 else 0)
            && ChannelOf(t, c) ==
                 if s.ids[c] == id && id in s.pending then Some(OutcomeOf(s.wire[0].body)) else ChannelOf(s, c)
  {
    CallTraced(s, c);
    assert LineOk(s, s.wire[0]);
    if s.wire[0].id in s.pending { PendingId(s, s.wire[0].id); }
  }
}
