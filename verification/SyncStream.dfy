/** What one machine sends another on `sync_events`: the history of a project through a channel with
    few places, then what is published live, and when that stream comes to an end. */
module SyncStream {
  import opened Text
  import opened Timestamps
  import opened Calendar
  import opened Events
  import opened Grpc
  import opened Sync
  import S = EventStore
  import F = Forwarding

  const CHANNEL_SIZE: nat := 32

  // ----- the peer's side -----

  /** The event is part of the history of `projectId` from `since` on. */
  predicate Sent(e: FileEvent, projectId: string, since: DateTime) {
    e.projectId == projectId && Reaches(e.timestamp, since)
  }

  /** That is, of this project and not before the second asked for, which after year 9999 excludes nothing. */
  lemma SentMeaning(e: FileEvent, projectId: string, sinceTimestamp: int)
    requires S.Storable(e) && FromEpoch(sinceTimestamp).Some?
    ensures var since := FromEpoch(sinceTimestamp).value;
            Sent(e, projectId, since) <==>
              e.projectId == projectId && (since.year > 9999 || EpochSeconds(e.timestamp) >= sinceTimestamp)
  {
    var since := FromEpoch(sinceTimestamp).value;
    if EpochSeconds(e.timestamp) < sinceTimestamp {
      EpochOrder(e.timestamp, since);
    } else {
      var t := Truncated(e.timestamp);
      if Before(e.timestamp, since) {
        assert Before(t, since);
        EarlierSeconds(t, since);
      }
    }
  }

  /** An earlier whole second has a smaller number. */
  lemma EarlierSeconds(a: DateTime, b: DateTime)
    requires Valid(a) && Valid(b) && a.frac == 0 && b.frac == 0 && Before(a, b)
    ensures EpochSeconds(a) < EpochSeconds(b)
  {
    if EpochSeconds(b) < EpochSeconds(a) { EpochOrder(b, a); }
    BeforeTotal(a, b);
    EpochRoundTrip(a);
    EpochRoundTrip(b);
  }

  /** A stream holding exactly the messages of the history, in whatever order. */
  ghost predicate IsStream(contents: seq<FileEvent>, projectId: string, since: DateTime,
          stream: seq<FileEventMessage>)
    requires S.AllStorable(contents)
  {
    && (forall m | m in stream :: SentBySome(contents, projectId, since, m))
    && (forall i | 0 <= i < |contents| && Sent(contents[i], projectId, since) :: ToMessage(contents[i]) in stream)
  }

  ghost predicate SentBySome(contents: seq<FileEvent>, projectId: string, since: DateTime, m: FileEventMessage)
    requires S.AllStorable(contents)
  {
    exists i | 0 <= i < |contents| :: Sent(contents[i], projectId, since) && m == ToMessage(contents[i])
  }

  /** The query behind a stream: one project, from a second on. */
  function History(projectId: string, since: DateTime): S.EventFilter {
    S.EventFilter(Some(projectId), None, None, Some(since), None)
  }

  /** The stream holds exactly the messages of the rows that the query selects. */
  ghost predicate IsStreamOfRows(rows: seq<S.Row>, f: S.EventFilter, stream: seq<FileEventMessage>)
    requires S.SoundFilter(f) && Readable(rows, f)
  {
    && (forall m | m in stream :: exists r | r in rows && S.MatchesRow(r, f) :: SendsAs(r, m))
    && (forall r | r in rows && S.MatchesRow(r, f) :: exists m | m in stream :: SendsAs(r, m))
  }

  predicate SendsAs(r: S.Row, m: FileEventMessage) {
    var e := S.FromRow(r);
    e.Success? && Valid(e.value.timestamp) && m == ToMessage(e.value)
  }

  datatype SyncAnswer =
    | InvalidTimestamp
    | QueryFailed
    | Stuck                                        // waits for room in a channel that nobody reads yet
    | Open(messages: seq<FileEventMessage>)        // the history is in the channel, the stream is returned

  /** The part of `sync_events` before it returns: refused for an invalid second, failing when a row
      that the query selects cannot be read, and never returning when more rows are selected than the
      channel has places, since its reading end is handed out last. */
  method SyncEvents(store: S.EventStore, projectId: string, sinceTimestamp: int) returns (r: SyncAnswer)
    ensures var since := FromEpoch(sinceTimestamp);
            && (r.InvalidTimestamp? <==> since.None?)
            && (since.Some? ==>
                  var f := History(projectId, since.value);
                  && (r.QueryFailed? <==> !Readable(store.rows, f))
                  && (r.Stuck? <==> Readable(store.rows, f) && |S.Select(store.rows, f)| > 32)
                  && (r.Open? ==> |r.messages| <= 32 && IsStreamOfRows(store.rows, f, r.messages)))
    ensures S.Written(store.rows) ==>
              && !r.QueryFailed?
              && S.AllStorable(Contents(store.rows))
              && (r.Open? ==> IsStream(Contents(store.rows), projectId, FromEpoch(sinceTimestamp).value, r.messages))
  {
    var since := FromEpoch(sinceTimestamp);
    WrittenHistory(store.rows, projectId, since);
    if since.None? {
      return InvalidTimestamp;
    }
    var f := History(projectId, since.value);
    var events := store.Query(f);
    ghost var out :| S.Answer(store.rows, f, out) && events == S.ReadRows(out);
    WholeAnswer(store.rows, f, out);
    if events.Failure? {
      return QueryFailed;
    }
    var messages := SendAll(events.value);
    if messages.None? {
      return Stuck;
    }
    StreamOfAnswer(store.rows, f, out, messages.value);
    WrittenStream(store.rows, projectId, since.value, messages.value);
    r := Open(messages.value);
  }

  /** An answer to an unlimited query has every selected row, and can be read if each of them can. */
  lemma WholeAnswer(rows: seq<S.Row>, f: S.EventFilter, out: seq<S.Row>)
    requires S.SoundFilter(f) && f.limit.None? && S.Answer(rows, f, out)
    ensures forall r :: r in out <==> r in rows && S.MatchesRow(r, f)
    ensures S.ReadRows(out).Success? <==> Readable(rows, f)
    ensures S.ReadRows(out).Success? ==>
              |S.ReadRows(out).value| == |S.Select(rows, f)| && S.AllStorable(S.ReadRows(out).value)
  {
    var full: seq<S.Row> :| S.Ordered(S.Select(rows, f), full) && out == S.Limited(full, f.limit);
    S.SameLength(S.Select(rows, f), full);
    AnswerIsAll(rows, f, out);
    S.OneBadRowFails(out);
    if S.ReadRows(out).Success? {
      ReadMembers(out);
      ReadStorable(out);
    }
  }

  lemma WrittenHistory(rows: seq<S.Row>, projectId: string, since: Option<DateTime>)
    requires since.Some? ==> Valid(since.value)
    ensures S.Written(rows) ==>
              && S.AllStorable(Contents(rows))
              && (since.Some? ==> Readable(rows, History(projectId, since.value)))
  {
    if S.Written(rows) {
      WrittenStorable(rows);
      if since.Some? { WrittenReadable(rows, History(projectId, since.value)); }
    }
  }

  lemma WrittenStream(rows: seq<S.Row>, projectId: string, since: DateTime, stream: seq<FileEventMessage>)
    requires Valid(since) && Readable(rows, History(projectId, since))
    requires IsStreamOfRows(rows, History(projectId, since), stream)
    ensures S.Written(rows) ==> S.AllStorable(Contents(rows)) && IsStream(Contents(rows), projectId, since, stream)
  {
    if S.Written(rows) {
      WrittenStorable(rows);
      StreamOfContents(rows, projectId, since, stream);
    }
  }

  lemma ReadStorable(out: seq<S.Row>)
    requires S.ReadRows(out).Success?
    ensures S.AllStorable(S.ReadRows(out).value)
  {
    ReadMembers(out);
    forall i | 0 <= i < |out| ensures S.Storable(S.ReadRows(out).value[i]) { ParsedIsFourDigit(out[i].timestamp); }
  }

  lemma StreamOfAnswer(rows: seq<S.Row>, f: S.EventFilter, out: seq<S.Row>, stream: seq<FileEventMessage>)
    requires S.SoundFilter(f) && Readable(rows, f) && S.ReadRows(out).Success? && S.AllStorable(S.ReadRows(out).value)
    requires forall r :: r in out <==> r in rows && S.MatchesRow(r, f)
    requires var events := S.ReadRows(out).value;
             |stream| == |events| && forall j | 0 <= j < |events| :: stream[j] == ToMessage(events[j])
    ensures IsStreamOfRows(rows, f, stream)
  {
    ReadMembers(out);
    forall m | m in stream ensures exists r | r in rows && S.MatchesRow(r, f) :: SendsAs(r, m) {
      var j :| 0 <= j < |stream| && stream[j] == m;
      assert out[j] in out && SendsAs(out[j], m);
    }
    forall r | r in rows && S.MatchesRow(r, f) ensures exists m | m in stream :: SendsAs(r, m) {
      var j :| 0 <= j < |out| && out[j] == r;
      assert stream[j] in stream && SendsAs(r, stream[j]);
    }
  }

  lemma StreamOfContents(rows: seq<S.Row>, projectId: string, since: DateTime, stream: seq<FileEventMessage>)
    requires S.Written(rows) && Valid(since) && S.AllStorable(Contents(rows))
    requires Readable(rows, History(projectId, since)) && IsStreamOfRows(rows, History(projectId, since), stream)
    ensures IsStream(Contents(rows), projectId, since, stream)
  {
    var c, f := Contents(rows), History(projectId, since);
    forall m | m in stream ensures SentBySome(c, projectId, since, m) {
      var r :| r in rows && S.MatchesRow(r, f) && SendsAs(r, m);
      var i := WrittenMember(rows, r);
      SelectedIsSent(rows, i, projectId, since);
    }
    forall i | 0 <= i < |c| && Sent(c[i], projectId, since) ensures ToMessage(c[i]) in stream {
      SelectedIsSent(rows, i, projectId, since);
      assert rows[i] in rows;
      var m :| m in stream && SendsAs(rows[i], m);
    }
  }

  lemma SelectedIsSent(rows: seq<S.Row>, i: nat, projectId: string, since: DateTime)
    requires S.Written(rows) && Valid(since) && i < |rows|
    ensures S.MatchesRow(rows[i], History(projectId, since)) <==> Sent(Contents(rows)[i], projectId, since)
  {
    assert S.WrittenRow(rows[i]);
    S.FilterMeansTime(rows[i].id, Contents(rows)[i], History(projectId, since));
  }

  /** Puts the history into the channel; there is no result when it is full before the end. */
  method SendAll(events: seq<FileEvent>) returns (r: Option<seq<FileEventMessage>>)
    requires S.AllStorable(events)
    ensures r.Some? <==> |events| <= CHANNEL_SIZE
    ensures r.Some? ==> |r.value| == |events| && forall j | 0 <= j < |events| :: r.value[j] == ToMessage(events[j])
  {
    var channel: seq<FileEventMessage> := [];
    for i := 0 to |events|
      invariant |channel| == i <= CHANNEL_SIZE
      invariant forall j | 0 <= j < i :: channel[j] == ToMessage(events[j])
    {
      if |channel| == CHANNEL_SIZE {
        return None;
      }
      channel := channel + [ToMessage(events[i])];
    }
    r := Some(channel);
  }

  lemma WrittenStorable(rows: seq<S.Row>)
    requires S.Written(rows)
    ensures S.AllStorable(Contents(rows))
  {
    forall i | 0 <= i < |rows| ensures S.Storable(Contents(rows)[i]) { assert S.WrittenRow(rows[i]); }
  }

  /** A history of 33 events of one project is one too many. */
  lemma ThirtyThreeAreTooMany(e: FileEvent, since: DateTime)
    requires Valid(e.timestamp) && FourDigitYear(e.timestamp) && Valid(since) && Sent(e, e.projectId, since)
    ensures |S.Select(seq(CHANNEL_SIZE + 1, i => S.ToRow(1, e)), History(e.projectId, since))| > CHANNEL_SIZE
  {
    var rows := seq(CHANNEL_SIZE + 1, i => S.ToRow(1, e));
    S.FilterMeansTime(1, e, History(e.projectId, since));
    SelectAll(rows, History(e.projectId, since));
  }

  lemma {:induction false} SelectAll(rows: seq<S.Row>, f: S.EventFilter)
    requires S.SoundFilter(f) && forall i | 0 <= i < |rows| :: S.MatchesRow(rows[i], f)
    ensures S.Select(rows, f) == rows
  {
    if rows != [] {
      SelectAll(rows[1..], f);
      assert [rows[0]] + rows[1..] == rows;
    }
  }

  // ----- the stream once it is open -----

  /** What the project's broadcast channel carries: events, here as their messages, and the rest. */
  datatype Notice = EventNotice(message: FileEventMessage) | OtherNotice

  datatype State = State(
    queue: seq<FileEventMessage>,          // sent and not yet read by the client
    held: Option<FileEventMessage>,        // the forwarding task waits for room for it
    published: seq<Notice>,                // all that its subscription was offered
    next: nat,                             // how much of that the task has taken
    tornDown: bool,                        // the project's channel is gone
    ended: bool,                           // the task is over and its sender dropped
    received: seq<FileEventMessage>)       // read by the client

  function Opened(history: seq<FileEventMessage>): State {
    State(history, None, [], 0, false, false, [])
  }

  datatype Action = Publish(notice: Notice) | TearDown | Poll | Send | Take

  function Behind(s: State): int {
    |s.published| - s.next
  }

  /** The task stops on any error of its subscription: having fallen behind by more than the channel
      holds, or finding it closed and empty. */
  function PollOne(s: State): State {
    if s.ended || s.held.Some? then s
    else if Behind(s) > F.CAPACITY then s.(ended := true)
    else if s.next < |s.published| then
      var notice := s.published[s.next];
      s.(next := s.next + 1, held := if notice.EventNotice? then Some(notice.message) else None)
    else if s.tornDown then s.(ended := true)
    else s
  }

  function Apply(s: State, a: Action): State {
    match a
    case Publish(notice) => if s.tornDown then s else s.(published := s.published + [notice])
    case TearDown => s.(tornDown := true)
    case Poll => PollOne(s)
    case Send =>
      if s.held.Some? && |s.queue| < CHANNEL_SIZE then s.(queue := s.queue + [s.held.value], held := None) else s
    case Take => if s.queue != [] then s.(queue := s.queue[1..], received := s.received + [s.queue[0]]) else s
  }

  function Run(s: State, actions: seq<Action>): State
    decreases |actions|
  {
    if actions == [] then s else Run(Apply(s, actions[0]), actions[1..])
  }

  /** The messages among notices, in order. */
  function Messages(notices: seq<Notice>): seq<FileEventMessage> {
    if notices == [] then []
    else
      var last := notices[|notices| - 1];
      Messages(notices[..|notices| - 1]) + if last.EventNotice? then [last.message] else []
  }

  function InFlight(s: State): seq<FileEventMessage> {
    s.queue + if s.held.Some? then [s.held.value] else []
  }

  /** The client has read the end of the stream. */
  predicate Finished(s: State) {
    s.ended && s.queue == []
  }

  predicate Inv(s: State, history: seq<FileEventMessage>) {
    && s.next <= |s.published| && |s.queue| <= CHANNEL_SIZE
    && s.received + InFlight(s) == history + Messages(s.published[..s.next])
    && (s.ended ==> s.held.None? && (Behind(s) > F.CAPACITY || (s.tornDown && Behind(s) == 0)))
  }

  lemma PollKeeps(s: State, history: seq<FileEventMessage>)
    requires Inv(s, history)
    ensures Inv(PollOne(s), history)
  {
    var t := PollOne(s);
    if t.next != s.next {
      assert s.published[..t.next] == s.published[..s.next] + [s.published[s.next]];
      assert t.published[..t.next][..s.next] == s.published[..s.next];
      var more := if t.held.Some? then [t.held.value] else [];
      assert Messages(t.published[..t.next]) == Messages(s.published[..s.next]) + more;
      assert InFlight(s) == s.queue && InFlight(t) == s.queue + more;
      assert s.received + (s.queue + more) == (s.received + s.queue) + more;
      assert history + (Messages(s.published[..s.next]) + more) == (history + Messages(s.published[..s.next])) + more;
    }
  }

  lemma StepKeeps(s: State, a: Action, history: seq<FileEventMessage>)
    requires Inv(s, history)
    ensures Inv(Apply(s, a), history)
  {
    var t := Apply(s, a);
    match a
    case Publish(notice) => assert t.published[..t.next] == s.published[..s.next];
    case TearDown =>
    case Poll => PollKeeps(s, history);
    case Send => assert InFlight(t) == InFlight(s);
    case Take =>
      if s.queue != [] {
        assert s.queue == [s.queue[0]] + t.queue;
        assert t.received + InFlight(t) == s.received + InFlight(s);
      }
  }

  lemma {:induction false} RunKeeps(s: State, actions: seq<Action>, history: seq<FileEventMessage>)
    requires Inv(s, history)
    ensures Inv(Run(s, actions), history)
    decreases |actions|
  {
    if actions != [] {
      StepKeeps(s, actions[0], history);
      RunKeeps(Apply(s, actions[0]), actions[1..], history);
    }
  }

  lemma OpenedKeeps(history: seq<FileEventMessage>)
    requires |history| <= CHANNEL_SIZE
    ensures Inv(Opened(history), history)
  {
    assert Messages([]) == [] && history + [] == history && [] + history == history;
  }

  /** In every run the client reads the history and then the events published since, in order and
      without a gap: what it has read, what is on its way and what the task has not taken make up the
      whole. It has read the end only if it fell behind by more than the channel holds, or the project's
      channel was torn down; in that case it has read everything. */
  lemma StreamIsHistoryThenLive(history: seq<FileEventMessage>, actions: seq<Action>)
    requires |history| <= CHANNEL_SIZE
    ensures var s := Run(Opened(history), actions);
            && s.next <= |s.published|
            && s.received + InFlight(s) == history + Messages(s.published[..s.next])
            && (Finished(s) ==>
                  Behind(s) > F.CAPACITY || (s.tornDown && s.received == history + Messages(s.published)))
  {
    OpenedKeeps(history);
    RunKeeps(Opened(history), actions, history);
    var s := Run(Opened(history), actions);
    assert s.next == |s.published| ==> s.published[..s.next] == s.published;
  }

  /** Only the forwarding task and the client do anything. */
  predicate Quiet(actions: seq<Action>) {
    forall a | a in actions :: a.Poll? || a.Send? || a.Take?
  }

  lemma {:induction false} QuietStaysOpen(s: State, actions: seq<Action>)
    requires Quiet(actions) && !s.ended && !s.tornDown && 0 <= Behind(s) <= F.CAPACITY
    ensures !Run(s, actions).ended
    decreases |actions|
  {
    if actions != [] {
      assert actions[0] in actions;
      QuietStaysOpen(Apply(s, actions[0]), actions[1..]);
    }
  }

  lemma RunCons(s: State, a: Action, actions: seq<Action>)
    ensures Run(s, [a] + actions) == Run(Apply(s, a), actions)
  {
    assert ([a] + actions)[1..] == actions;
  }

  /** Left alone, a stream whose channel is gone or that has fallen too far behind comes to its end. */
  lemma {:induction false} DrainsToEnd(s: State, history: seq<FileEventMessage>) returns (actions: seq<Action>)
    requires Inv(s, history) && (s.ended || s.tornDown || Behind(s) > F.CAPACITY)
    ensures Quiet(actions) && Finished(Run(s, actions))
    decreases !s.ended, Behind(s), s.held.Some?, |s.queue|
  {
    if Finished(s) {
      return [];
    }
    var a := if s.queue != [] then Take else if s.held.Some? then Send else Poll;
    StepKeeps(s, a, history);
    var rest := DrainsToEnd(Apply(s, a), history);
    RunCons(s, a, rest);
    actions := [a] + rest;
  }

  /** A sync acts on what it has read only at the end of the stream. In any reachable state that end can
      come without anything further happening on the peer if and only if the peer's project channel
      was torn down or the stream is behind by more than the channel holds. */
  lemma StreamCanEndIff(history: seq<FileEventMessage>, before: seq<Action>)
    requires |history| <= CHANNEL_SIZE
    ensures var s := Run(Opened(history), before);
            (exists actions :: Quiet(actions) && Finished(Run(s, actions))) <==> s.tornDown || Behind(s) > 256
  {
    OpenedKeeps(history);
    RunKeeps(Opened(history), before, history);
    var s := Run(Opened(history), before);
    if s.tornDown || Behind(s) > F.CAPACITY {
      var actions := DrainsToEnd(s, history);
    } else {
      forall actions | Quiet(actions) ensures !Finished(Run(s, actions)) { QuietStaysOpen(s, actions); }
    }
  }
}
