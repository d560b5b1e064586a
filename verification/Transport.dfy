/** The Node client's transport: newline framing over arbitrary chunks, and requests settled by a
    response, a timeout, a write error or closing, in any order. */
module Transport {
  import opened Text

  // ----- framing -----

  /** The characters that `String.prototype.trim` removes. */
  predicate IsSpace(c: char) {
    c in {'\t', '\n', '\U{0B}', '\U{0C}', '\r', ' ', '\U{A0}', '\U{1680}', '\U{2028}', '\U{2029}',
          '\U{202F}', '\U{205F}', '\U{3000}', '\U{FEFF}'}
    || '\U{2000}' <= c <= '\U{200A}'
  }

  predicate IsBlank(line: string) {
    forall c | c in line :: IsSpace(c)
  }

  /** The complete lines of a buffer extended by a chunk, and the part left over. */
  function Feed(buffer: string, chunk: string): (r: (seq<string>, string)) {
    Parts(Split(buffer + chunk, '\n'))
  }

  function Parts(pieces: seq<string>): (seq<string>, string)
    requires pieces != []
  {
    (pieces[..|pieces| - 1], pieces[|pieces| - 1])
  }

  function FeedAll(buffer: string, chunks: seq<string>): (seq<string>, string)
    decreases |chunks|
  {
    if chunks == [] then ([], buffer)
    else
      var (lines, rest) := Feed(buffer, chunks[0]);
      var (more, last) := FeedAll(rest, chunks[1..]);
      (lines + more, last)
  }

  function Concat(chunks: seq<string>): string {
    if chunks == [] then "" else chunks[0] + Concat(chunks[1..])
  }

  /** Splitting more text continues with the piece that was left over. */
  lemma SplitContinues(x: string, b: string)
    ensures var p := Split(x, '\n');
            Split(x + b, '\n') == p[..|p| - 1] + Split(p[|p| - 1] + b, '\n')
  {
    var p, q := Split(x, '\n'), Split(b, '\n');
    var done, last := p[..|p| - 1], p[|p| - 1];
    SplitAppend(x, b, '\n');
    SplitPlain(last, '\n');
    SplitAppend(last, b, '\n');
    assert p == done + [last];
    GlueLast(done, last, q);
  }

  lemma GlueLast(done: seq<string>, last: string, q: seq<string>)
    requires |q| >= 1
    ensures Glue(done + [last], q) == done + Glue([last], q)
  {
    assert (done + [last])[..|done|] == done;
  }

  lemma LastOfConcat(a: seq<string>, b: seq<string>)
    requires b != []
    ensures Parts(a + b) == (a + Parts(b).0, Parts(b).1)
  {
    assert (a + b)[..|a + b| - 1] == a + b[..|b| - 1];
  }

  /** Feeding twice is feeding the concatenation. */
  lemma FeedTwice(buffer: string, a: string, b: string)
    ensures var (l1, r1) := Feed(buffer, a);
            var (l2, r2) := Feed(r1, b);
            Feed(buffer, a + b) == (l1 + l2, r2)
  {
    Assoc(buffer, a, b);
    SplitContinues(buffer + a, b);
    var p := Split(buffer + a, '\n');
    LastOfConcat(p[..|p| - 1], Split(p[|p| - 1] + b, '\n'));
  }

  /** However a stream is cut into chunks, the same lines come out and the same rest is kept. */
  lemma {:induction false} ChunkingDoesNotMatter(buffer: string, chunks: seq<string>)
    requires '\n' !in buffer
    ensures FeedAll(buffer, chunks) == Feed(buffer, Concat(chunks))
    decreases |chunks|
  {
    if chunks == [] {
      SplitPlain(buffer, '\n');
      assert buffer + "" == buffer;
    } else {
      var (lines, rest) := Feed(buffer, chunks[0]);
      ChunkingDoesNotMatter(rest, chunks[1..]);
      FeedTwice(buffer, chunks[0], Concat(chunks[1..]));
    }
  }

  /** What the sender writes for a list of messages. */
  function Frame(lines: seq<string>): string {
    if lines == [] then "" else lines[0] + "\n" + Frame(lines[1..])
  }

  /** Framed lines come back exactly as sent, and nothing is left over. */
  lemma {:induction false} FramingRoundTrip(lines: seq<string>)
    requires forall l | l in lines :: '\n' !in l
    ensures Feed("", Frame(lines)) == (lines, "")
  {
    assert "" + Frame(lines) == Frame(lines);
    if lines != [] {
      FramingRoundTrip(lines[1..]);
      var rest := Frame(lines[1..]);
      SplitLine(lines[0], rest, '\n');
      assert "" + rest == rest;
      LastOfConcat([lines[0]], Split(rest, '\n'));
      assert lines == [lines[0]] + lines[1..];
    }
  }

  // ----- messages and requests -----

  datatype Message =
    | Response(id: int, error: Option<string>, result: string)
    | Notification(name: string)
    | Neither

  datatype Outcome = Resolved(result: string) | DaemonError(message: string) | TimedOut | NotConnected | WriteFailed

  /** The transport without its buffer; `settled` is the state of the promises it has handed out. */
  datatype Core = Core(
    open: bool,
    requestId: nat,
    pending: set<nat>,
    armed: set<nat>,
    settled: map<nat, Outcome>,
    notified: seq<string>)

  const INITIAL := Core(false, 1, {}, {}, map[], [])

  /** A promise keeps its first outcome. */
  function Settle(settled: map<nat, Outcome>, id: nat, o: Outcome): map<nat, Outcome> {
    if id in settled then settled else settled[id := o]
  }

  function ResponseOutcome(m: Message): Outcome
    requires m.Response?
  {
    if m.error.Some? then DaemonError(m.error.value) else Resolved(m.result)
  }

  function OnConnect(c: Core): Core {
    c.(open := true)
  }

  /** Without a socket the call is refused before it draws an id. */
  function OnRequest(c: Core): Core {
    if !c.open then c
    else c.(requestId := c.requestId + 1, pending := c.pending + {c.requestId}, armed := c.armed + {c.requestId})
  }

  function OnMessage(c: Core, m: Message): Core {
    match m
    case Response(id, _, _) =>
      if id in c.pending then
        c.(pending := c.pending - {id}, armed := c.armed - {id}, settled := Settle(c.settled, id, ResponseOutcome(m)))
      else c
    case Notification(name) => c.(notified := c.notified + [name])
    case Neither => c
  }

  function OnTimer(c: Core, id: nat): Core {
    if id in c.armed then
      c.(pending := c.pending - {id}, armed := c.armed - {id}, settled := Settle(c.settled, id, TimedOut))
    else c
  }

  function OnWriteError(c: Core, id: nat): Core {
    c.(pending := c.pending - {id}, armed := c.armed - {id}, settled := Settle(c.settled, id, WriteFailed))
  }

  function OnClose(c: Core): Core {
    c.(open := false, pending := {}, armed := c.armed - c.pending,
       settled := map id | id in c.settled.Keys + c.pending :: if id in c.settled then c.settled[id] else NotConnected)
  }

  datatype Event =
    | Connect
    | Request
    | Receive(message: Message)
    | Timer(id: nat)
    | WriteError(id: nat)
    | Close

  function Apply(c: Core, e: Event): Core {
    match e
    case Connect => OnConnect(c)
    case Request => OnRequest(c)
    case Receive(m) => OnMessage(c, m)
    case Timer(id) => OnTimer(c, id)
    case WriteError(id) => OnWriteError(c, id)
    case Close => OnClose(c)
  }

  /** A write can only fail for a request that was made. */
  predicate Possible(c: Core, e: Event) {
    e.WriteError? ==> 1 <= e.id < c.requestId
  }

  predicate IsRun(c: Core, events: seq<Event>)
    decreases |events|
  {
    events != [] ==> Possible(c, events[0]) && IsRun(Apply(c, events[0]), events[1..])
  }

  function Run(c: Core, events: seq<Event>): Core
    decreases |events|
  {
    if events == [] then c else Run(Apply(c, events[0]), events[1..])
  }

  /** Every id drawn is either settled or pending, never both, and exactly the pending ones have a
      timer running. */
  ghost predicate Inv(c: Core) {
    && c.requestId >= 1
    && c.armed == c.pending
    && (forall id :: id in c.pending ==> id !in c.settled)
    && (forall id: nat :: id in c.pending || id in c.settled <==> 1 <= id < c.requestId)
  }

  lemma StepKeeps(c: Core, e: Event)
    requires Inv(c) && Possible(c, e)
    ensures Inv(Apply(c, e))
    ensures forall id | id in c.settled :: id in Apply(c, e).settled && Apply(c, e).settled[id] == c.settled[id]
  {
  }

  /** Whatever the order of responses, timeouts, write errors and closings: the unsettled requests
      are exactly the pending ones, each with its timer, and a settled request never changes. */
  lemma {:induction false} EveryRunSettlesOnce(c: Core, events: seq<Event>)
    requires Inv(c) && IsRun(c, events)
    ensures Inv(Run(c, events))
    ensures forall id | id in c.settled :: id in Run(c, events).settled && Run(c, events).settled[id] == c.settled[id]
    decreases |events|
  {
    if events != [] {
      StepKeeps(c, events[0]);
      EveryRunSettlesOnce(Apply(c, events[0]), events[1..]);
    }
  }

  // ----- what settles a request, and with what -----

  /** A response settles the pending request of its id, and no other, with the daemon's error if it
      carries one and with its result if not; any other response changes nothing. */
  lemma ResponseMeaning(c: Core, id: int, error: Option<string>, result: string)
    ensures var d := Apply(c, Receive(Response(id, error, result)));
            if id !in c.pending then d == c
            else
              && d.pending == c.pending - {id} && d.armed == c.armed - {id}
              && id in d.settled
              && (id !in c.settled ==>
                    d.settled[id] == match error case Some(text) => DaemonError(text) case None => Resolved(result))
              && (forall other | other != id :: other in d.settled <==> other in c.settled)
              && (forall other | other in c.settled :: d.settled[other] == c.settled[other])
              && d.(pending := c.pending, armed := c.armed, settled := c.settled) == c
  {
  }

  /** A notification is passed on and settles nothing. */
  lemma NotificationMeaning(c: Core, name: string)
    ensures var d := Apply(c, Receive(Notification(name)));
            d.notified == c.notified + [name] && d.(notified := c.notified) == c
    ensures Apply(c, Receive(Neither)) == c
  {
  }

  /** A request is pending with its timer under the next id, or refused without a socket. */
  lemma RequestMeaning(c: Core)
    ensures var d := Apply(c, Event.Request);
            if !c.open then d == c
            else
              && d.requestId == c.requestId + 1
              && d.pending == c.pending + {c.requestId} && d.armed == c.armed + {c.requestId}
              && d.open && d.settled == c.settled && d.notified == c.notified
  {
  }

  /** What an event says about the request of an id, if it is still unsettled. */
  function Verdict(e: Event, id: nat): Option<Outcome> {
    match e
    case Receive(Response(of, Some(text), _)) => if of == id then Some(DaemonError(text)) else None
    case Receive(Response(of, None, result)) => if of == id then Some(Resolved(result)) else None
    case Timer(of) => if of == id then Some(TimedOut) else None
    case WriteError(of) => if of == id then Some(WriteFailed) else None
    case Close => Some(NotConnected)
    case _ => None
  }

  /** The event is the request that draws the id. */
  ghost predicate Draws(events: seq<Event>, d: nat, id: nat)
    requires d < |events|
  {
    events[d].Request? && Run(INITIAL, events[..d]).open && Run(INITIAL, events[..d]).requestId == id
  }

  ghost predicate Undecided(events: seq<Event>, d: nat, id: nat) {
    d < |events| && Draws(events, d, id) && forall j | d < j < |events| :: Verdict(events[j], id).None?
  }

  /** The first event after the request that says anything about it is number k, and says `o`. */
  ghost predicate Decides(events: seq<Event>, d: nat, k: nat, id: nat, o: Outcome) {
    && d < k < |events| && Draws(events, d, id) && Verdict(events[k], id) == Some(o)
    && forall j | d < j < k :: Verdict(events[j], id).None?
  }

  lemma {:induction false} RunSnoc(c: Core, events: seq<Event>, e: Event)
    ensures Run(c, events + [e]) == Apply(Run(c, events), e)
    ensures IsRun(c, events + [e]) ==> IsRun(c, events) && Possible(Run(c, events), e)
    decreases |events|
  {
    if events == [] {
      assert [] + [e] == [e] && [e][1..] == [];
      assert Run(Apply(c, e), []) == Apply(c, e);
    } else {
      assert (events + [e])[1..] == events[1..] + [e];
      RunSnoc(Apply(c, events[0]), events[1..], e);
    }
  }

  lemma DrawsSnoc(events: seq<Event>, e: Event, d: nat, id: nat)
    requires d < |events|
    ensures Draws(events + [e], d, id) <==> Draws(events, d, id)
  {
    assert (events + [e])[..d] == events[..d];
  }

  lemma UndecidedSnoc(events: seq<Event>, e: Event, id: nat)
    ensures (exists d: nat :: Undecided(events + [e], d, id)) <==>
            (e.Request? && Run(INITIAL, events).open && Run(INITIAL, events).requestId == id) ||
            (Verdict(e, id).None? && exists d: nat :: Undecided(events, d, id))
  {
    var more := events + [e];
    assert more[..|events|] == events;
    if e.Request? && Run(INITIAL, events).open && Run(INITIAL, events).requestId == id {
      assert Undecided(more, |events|, id);
    }
    if d: nat :| Undecided(more, d, id) && d < |events| {
      DrawsSnoc(events, e, d, id);
      assert more[|events|] == e;
      assert forall j | d < j < |events| :: more[j] == events[j];
      assert Undecided(events, d, id);
    }
    if d: nat :| Undecided(events, d, id) && Verdict(e, id).None? {
      DrawsSnoc(events, e, d, id);
      assert Undecided(more, d, id);
    }
  }

  lemma DecidesSnoc(events: seq<Event>, e: Event, id: nat, o: Outcome)
    ensures (exists d: nat, k: nat :: Decides(events + [e], d, k, id, o)) <==>
            (exists d: nat, k: nat :: Decides(events, d, k, id, o)) ||
            (Verdict(e, id) == Some(o) && exists d: nat :: Undecided(events, d, id))
  {
    var more := events + [e];
    if d: nat, k: nat :| Decides(more, d, k, id, o) {
      DrawsSnoc(events, e, d, id);
      assert forall j | d < j < k :: more[j] == events[j];
      if k < |events| { assert Decides(events, d, k, id, o); } else { assert Undecided(events, d, id); }
    }
    if d: nat, k: nat :| Decides(events, d, k, id, o) {
      DrawsSnoc(events, e, d, id);
      assert Decides(more, d, k, id, o);
    }
    if d: nat :| Undecided(events, d, id) && Verdict(e, id) == Some(o) {
      DrawsSnoc(events, e, d, id);
      assert forall j | d < j < |events| :: more[j] == events[j];
      assert Decides(more, d, |events|, id, o);
    }
  }

  /** Over every run: a request is pending exactly while nothing has been said about it, and settled
      with an outcome exactly if the first event to say anything about it said that. */
  lemma {:induction false} FirstVerdictCounts(events: seq<Event>, id: nat, o: Outcome)
    requires IsRun(INITIAL, events)
    ensures var c := Run(INITIAL, events);
            && (id in c.pending <==> exists d: nat :: Undecided(events, d, id))
            && (id in c.settled && c.settled[id] == o <==> exists d: nat, k: nat :: Decides(events, d, k, id, o))
    decreases |events|
  {
    if events != [] {
      var n := |events| - 1;
      var before, e := events[..n], events[n];
      assert events == before + [e];
      RunSnoc(INITIAL, before, e);
      FirstVerdictCounts(before, id, o);
      EveryRunSettlesOnce(INITIAL, before);
      UndecidedSnoc(before, e, id);
      DecidesSnoc(before, e, id, o);
      VerdictSettles(Run(INITIAL, before), e, id);
    }
  }

  lemma VerdictSettles(c: Core, e: Event, id: nat)
    requires Inv(c) && Possible(c, e)
    ensures var d := Apply(c, e);
            && (id in d.pending <==>
                (e.Request? && c.open && c.requestId == id) || (id in c.pending && Verdict(e, id).None?))
            && (id in d.settled <==> id in c.settled || (id in c.pending && Verdict(e, id).Some?))
            && (id in d.settled ==>
                d.settled[id] == if id in c.settled then c.settled[id] else Verdict(e, id).value)
  {
  }

  /** Closing settles every request ever made; those still open fail as not connected. */
  lemma CloseSettlesAll(events: seq<Event>)
    requires IsRun(INITIAL, events)
    ensures var c := Run(INITIAL, events);
            var d := OnClose(c);
            && d.pending == {} && d.armed == {} && !d.open && d.requestId == c.requestId && d.notified == c.notified
            && (forall id: nat :: id in d.settled <==> 1 <= id < c.requestId)
            && (forall id | id in c.pending :: d.settled[id] == NotConnected)
  {
    EveryRunSettlesOnce(INITIAL, events);
  }

  /** The names of the notifications received, in order. */
  function Names(events: seq<Event>): seq<string> {
    if events == [] then []
    else
      var n := |events| - 1;
      Names(events[..n]) +
        match events[n] case Receive(Notification(name)) => [name] case _ => []
  }

  /** Over every run: the callback has had each notification once, in order, and requests are accepted
      exactly when the last connect or close was a connect. */
  lemma {:induction false} RunMeaning(events: seq<Event>)
    ensures var c := Run(INITIAL, events);
            && c.notified == Names(events)
            && (c.open <==> exists k | 0 <= k < |events| :: events[k].Connect? &&
                              forall j | k < j < |events| :: !events[j].Close?)
    decreases |events|
  {
    if events != [] {
      var n := |events| - 1;
      var before, e := events[..n], events[n];
      assert events == before + [e];
      RunSnoc(INITIAL, before, e);
      RunMeaning(before);
      if k :| 0 <= k < n && before[k].Connect? && forall j | k < j < n :: !before[j].Close? {
        assert e.Close? || (events[k].Connect? && forall j | k < j < |events| :: !events[j].Close?);
      }
      if k :| 0 <= k < n && events[k].Connect? && forall j | k < j < |events| :: !events[j].Close? {
        assert before[k].Connect? && forall j | k < j < n :: before[j] == events[j];
      }
    }
  }

  /** What the complete lines of a stream say: each line that is not blank and can be read is one message,
      and the others are passed over. */
  function Messages(lines: seq<string>, parse: string -> Option<Message>): seq<Event> {
    if lines == [] then []
    else if (forall c | c in lines[0] :: IsSpace(c)) || parse(lines[0]).None? then Messages(lines[1..], parse)
    else [Receive(parse(lines[0]).value)] + Messages(lines[1..], parse)
  }

  /** Handling lines is receiving their messages, one after the other. */
  lemma {:induction false} LinesAreMessages(c: Core, lines: seq<string>, parse: string -> Option<Message>)
    ensures HandleLines(c, lines, parse) == Run(c, Messages(lines, parse))
    decreases |lines|
  {
    if lines != [] {
      LinesAreMessages(HandleLine(c, lines[0], parse), lines[1..], parse);
      var rest := Messages(lines[1..], parse);
      if Messages(lines, parse) != rest { assert Messages(lines, parse)[1..] == rest; }
    }
  }

  function HandleLines(c: Core, lines: seq<string>, parse: string -> Option<Message>): Core
    decreases |lines|
  {
    if lines == [] then c
    else HandleLines(HandleLine(c, lines[0], parse), lines[1..], parse)
  }

  /** A blank or unreadable line does nothing. */
  function HandleLine(c: Core, line: string, parse: string -> Option<Message>): Core {
    if IsBlank(line) then c
    else
      match parse(line)
      case None => c
      case Some(m) => OnMessage(c, m)
  }

  lemma {:induction false} HandleConcat(c: Core, a: seq<string>, b: seq<string>, parse: string -> Option<Message>)
    ensures HandleLines(c, a + b, parse) == HandleLines(HandleLines(c, a, parse), b, parse)
    decreases |a|
  {
    if a == [] {
      assert a + b == b;
    } else {
      HandleConcat(HandleLine(c, a[0], parse), a[1..], b, parse);
      assert (a + b)[1..] == a[1..] + b;
    }
  }

  function HandleChunks(c: Core, buffer: string, chunks: seq<string>, parse: string -> Option<Message>): (Core,
          string)
    decreases |chunks|
  {
    if chunks == [] then (c, buffer)
    else
      var (lines, rest) := Feed(buffer, chunks[0]);
      HandleChunks(HandleLines(c, lines, parse), rest, chunks[1..], parse)
  }

  /** The whole transport, requests and notifications included, ends in the same state however the
      incoming stream is cut. */
  lemma {:induction false} ChunkingKeepsState(c: Core, buffer: string, chunks: seq<string>,
          parse: string -> Option<Message>)
    requires '\n' !in buffer
    ensures HandleChunks(c, buffer, chunks, parse) == HandleChunks(c, buffer, [Concat(chunks)], parse)
    decreases |chunks|
  {
    var whole := Feed(buffer, Concat(chunks));
    assert HandleChunks(c, buffer, [Concat(chunks)], parse) == (HandleLines(c, whole.0, parse), whole.1);
    ChunkingDoesNotMatter(buffer, chunks);
    HandleFed(c, buffer, chunks, parse);
  }

  lemma {:induction false} HandleFed(c: Core, buffer: string, chunks: seq<string>, parse: string -> Option<Message>)
    ensures HandleChunks(c, buffer, chunks, parse)
         == (HandleLines(c, FeedAll(buffer, chunks).0, parse), FeedAll(buffer, chunks).1)
    decreases |chunks|
  {
    if chunks != [] {
      var (lines, rest) := Feed(buffer, chunks[0]);
      HandleFed(HandleLines(c, lines, parse), rest, chunks[1..], parse);
      HandleConcat(c, lines, FeedAll(rest, chunks[1..]).0, parse);
    }
  }

  // ----- the object -----

  class Transport {
    const parse: string -> Option<Message>
    var open: bool
    var requestId: nat
    var pending: set<nat>
    var buffer: string
    var notified: seq<string>
    ghost var armed: set<nat>
    ghost var settled: map<nat, Outcome>

    ghost function Abstract(): Core
      reads this
    {
      Core(open, requestId, pending, armed, settled, notified)
    }

    ghost predicate Valid()
      reads this
    {
      Inv(Abstract()) && '\n' !in buffer
    }

    constructor (parse: string -> Option<Message>)
      ensures Valid() && Abstract() == INITIAL && buffer == "" && this.parse == parse
    {
      this.parse := parse;
      open, requestId, pending, buffer, notified := false, 1, {}, "", [];
      armed, settled := {}, map[];
    }

    method Connect()
      requires Valid()
      modifies this
      ensures Valid() && Abstract() == OnConnect(old(Abstract())) && buffer == old(buffer)
    {
      open := true;
    }

    method Request() returns (id: Option<nat>)
      requires Valid()
      modifies this
      ensures Valid() && Abstract() == OnRequest(old(Abstract())) && buffer == old(buffer)
      ensures id == if old(open) then Some(old(requestId)) else None
    {
      if !open {
        return None;
      }
      id := Some(requestId);
      pending, armed := pending + {requestId}, armed + {requestId};
      requestId := requestId + 1;
    }

    method HandleData(chunk: string)
      requires Valid()
      modifies this
      ensures Valid()
      ensures (Abstract(), buffer) == HandleChunks(old(Abstract()), old(buffer), [chunk], parse)
    {
      var lines := Split(buffer + chunk, '\n');
      buffer := lines[|lines| - 1];
      lines := lines[..|lines| - 1];
      ghost var start := Abstract();
      for i := 0 to |lines|
        invariant Valid() && buffer == Feed(old(buffer), chunk).1
        invariant HandleLines(start, lines, parse) == HandleLines(Abstract(), lines[i..], parse)
      {
        assert lines[i..][1..] == lines[i + 1..];
        if !IsBlank(lines[i]) {
          match parse(lines[i]) {
            case None =>
            case Some(m) =>
              if m.Response? {
                HandleResponse(m);
              } else if m.Notification? {
                notified := notified + [m.name];
              }
          }
        }
      }
    }

    method HandleResponse(m: Message)
      requires Valid() && m.Response?
      modifies this
      ensures Valid() && Abstract() == OnMessage(old(Abstract()), m) && buffer == old(buffer)
      ensures m.id !in old(pending) ==> Abstract() == old(Abstract())
      ensures m.id in old(pending) ==>
                && pending == old(pending) - {m.id} && armed == old(armed) - {m.id}
                && settled == old(settled)[m.id :=
                     match m.error case Some(text) => DaemonError(text) case None => Resolved(m.result)]
                && open == old(open) && requestId == old(requestId) && notified == old(notified)
    {
      if m.id !in pending {
        return;
      }
      pending, armed := pending - {m.id}, armed - {m.id};
      settled := Settle(settled, m.id, ResponseOutcome(m));
    }

    method TimerFires(id: nat)
      requires Valid() && id in armed
      modifies this
      ensures Valid() && Abstract() == OnTimer(old(Abstract()), id) && buffer == old(buffer)
    {
      armed := armed - {id};
      pending := pending - {id};
      settled := Settle(settled, id, TimedOut);
    }

    method WriteFails(id: nat)
      requires Valid() && 1 <= id < requestId
      modifies this
      ensures Valid() && Abstract() == OnWriteError(old(Abstract()), id) && buffer == old(buffer)
    {
      armed := armed - {id};
      pending := pending - {id};
      settled := Settle(settled, id, WriteFailed);
    }

    /** Loops over the pending requests, clearing each timer and failing each promise. */
    method Close()
      requires Valid()
      modifies this
      ensures Valid() && Abstract() == OnClose(old(Abstract())) && buffer == old(buffer)
    {
      var left := pending;
      while left != {}
        invariant left <= pending == old(pending) && armed == old(armed) - (pending - left)
        invariant settled.Keys == old(settled).Keys + (pending - left)
        invariant forall id | id in settled ::
          settled[id] == if id in old(settled) then old(settled)[id] else NotConnected
        invariant open == old(open) && requestId == old(requestId) && buffer == old(buffer) && notified == old(notified)
        decreases left
      {
        var id :| id in left;
        armed := armed - {id};
        settled := Settle(settled, id, NotConnected);
        left := left - {id};
      }
      pending := {};
      open := false;
      assert settled == OnClose(old(Abstract())).settled;
      StepKeeps(old(Abstract()), Event.Close);
    }
  }
}
