/** Cross-machine sync: one machine reads a peer's whole history, relabels and truncates it, and
    inserts what it does not have yet. The echoes this sends back and forth die out. */
module Sync {
  import opened Text
  import opened Timestamps
  import opened Calendar
  import opened Events
  import opened Grpc
  import S = EventStore

  // ----- one sync -----

  /** The store holds an event of this project, path, exact time and machine. */
  predicate Has(contents: seq<FileEvent>, e: FileEvent) {
    exists x | x in contents ::
      x.projectId == e.projectId && x.filePath == e.filePath && x.timestamp == e.timestamp && x.machineId == e.machineId
  }

  datatype Verdict = Skip | Unconvertible | Fresh(event: FileEvent)

  /** Own messages and events already present are skipped. */
  function Examine(contents: seq<FileEvent>, machineId: string, msg: FileEventMessage): Verdict {
    if msg.machineId == machineId then Skip
    else
      match FromMessage(msg, machineId)
      case None => Unconvertible
      case Some(e) => if Has(contents, e) then Skip else Fresh(e)
  }

  /** The events a sync would insert; none at all when some message cannot be converted. */
  function NewEvents(contents: seq<FileEvent>, machineId: string,
          stream: seq<FileEventMessage>): Option<seq<FileEvent>> {
    if stream == [] then Some([])
    else
      match Examine(contents, machineId, stream[0])
      case Skip => NewEvents(contents, machineId, stream[1..])
      case Unconvertible => None
      case Fresh(e) => Prepend([e], NewEvents(contents, machineId, stream[1..]))
  }

  // ----- the same over the rows of any store -----

  /** The query for the events of the same project and path from one second before. */
  function Recent(e: FileEvent, since: DateTime): S.EventFilter {
    S.EventFilter(Some(e.projectId), Some(e.filePath), None, Some(since), None)
  }

  /** Every row the query selects can be read. */
  predicate Readable(rows: seq<S.Row>, f: S.EventFilter)
    requires S.SoundFilter(f)
  {
    forall r | r in rows && S.MatchesRow(r, f) :: S.FromRow(r).Success?
  }

  /** The query one second back succeeds and selects an event of this time, path and machine. */
  predicate Found(rows: seq<S.Row>, e: FileEvent)
    requires Valid(e.timestamp) && e.timestamp.frac == 0
  {
    var since := MinusSecond(e.timestamp);
    since.Some? &&
    var f := Recent(e, since.value);
    && Readable(rows, f)
    && exists r | r in rows && S.MatchesRow(r, f) :: S.FromRow(r).Success? && SameMoment(S.FromRow(r).value, e)
  }

  function ExamineRows(rows: seq<S.Row>, machineId: string, msg: FileEventMessage): Verdict {
    if msg.machineId == machineId then Skip
    else
      match FromMessage(msg, machineId)
      case None => Unconvertible
      case Some(e) => if Found(rows, e) then Skip else Fresh(e)
  }

  function NewRows(rows: seq<S.Row>, machineId: string, stream: seq<FileEventMessage>): Option<seq<FileEvent>> {
    if stream == [] then Some([])
    else
      match ExamineRows(rows, machineId, stream[0])
      case Skip => NewRows(rows, machineId, stream[1..])
      case Unconvertible => None
      case Fresh(e) => Prepend([e], NewRows(rows, machineId, stream[1..]))
  }

  lemma WrittenReadable(rows: seq<S.Row>, f: S.EventFilter)
    requires S.Written(rows) && S.SoundFilter(f)
    ensures Readable(rows, f)
  {
    forall r | r in rows && S.MatchesRow(r, f) ensures S.FromRow(r).Success? {
      var _ := WrittenMember(rows, r);
    }
  }

  lemma SelectedIsHad(rows: seq<S.Row>, e: FileEvent, since: DateTime, r: S.Row)
    requires S.Written(rows) && Valid(since) && r in rows && S.MatchesRow(r, Recent(e, since))
    requires S.FromRow(r).Success? && SameMoment(S.FromRow(r).value, e)
    ensures Has(Contents(rows), e)
  {
    var i := WrittenMember(rows, r);
    assert Contents(rows)[i] in Contents(rows) && Contents(rows)[i].projectId == e.projectId;
  }

  /** In a store whose rows can all be read, an event is found exactly when it is there. */
  lemma FoundIsHas(rows: seq<S.Row>, e: FileEvent)
    requires S.Written(rows) && Valid(e.timestamp) && e.timestamp.frac == 0
    ensures Found(rows, e) <==> Has(Contents(rows), e)
  {
    var since := MinusSecond(e.timestamp);
    if since.None? {
      NothingOutsideYears(rows, e);
    } else {
      WrittenReadable(rows, Recent(e, since.value));
      if Found(rows, e) {
        var r: S.Row :| r in rows && S.MatchesRow(r, Recent(e, since.value)) && S.FromRow(r).Success?
                        && SameMoment(S.FromRow(r).value, e);
        SelectedIsHad(rows, e, since.value, r);
      }
      if Has(Contents(rows), e) { HadIsSelected(rows, e, since.value); }
    }
  }

  lemma HadIsSelected(rows: seq<S.Row>, e: FileEvent, since: DateTime)
    requires S.Written(rows) && Valid(since) && Valid(e.timestamp) && Before(since, e.timestamp)
             && Has(Contents(rows), e)
    ensures exists r | r in rows && S.MatchesRow(r, Recent(e, since)) ::
              S.FromRow(r).Success? && SameMoment(S.FromRow(r).value, e)
  {
    var r := HadRow(rows, e);
    MatchesFromEarlier(r, Recent(e, since), e, since);
  }

  lemma HadRow(rows: seq<S.Row>, e: FileEvent) returns (r: S.Row)
    requires S.Written(rows) && Has(Contents(rows), e)
    ensures r in rows && S.WrittenRow(r)
    ensures S.FromRow(r).value.projectId == e.projectId && SameMoment(S.FromRow(r).value, e)
  {
    var x :| x in Contents(rows) && x.projectId == e.projectId && x.filePath == e.filePath
      && x.timestamp == e.timestamp && x.machineId == e.machineId;
    var i :| 0 <= i < |rows| && Contents(rows)[i] == x;
    r := rows[i];
  }

  /** So there a sync adds what the events behind the rows call for. */
  lemma {:induction false} NewRowsAreNewEvents(rows: seq<S.Row>, machineId: string, stream: seq<FileEventMessage>)
    requires S.Written(rows)
    ensures NewRows(rows, machineId, stream) == NewEvents(Contents(rows), machineId, stream)
  {
    if stream != [] {
      NewRowsAreNewEvents(rows, machineId, stream[1..]);
      var e := FromMessage(stream[0], machineId);
      if e.Some? { FoundIsHas(rows, e.value); }
    }
  }

  // ----- what a sync adds, written out -----

  /** A message that is not the machine's own and names no date, no known event type or no known source. */
  predicate Unusable(msg: FileEventMessage, machineId: string) {
    msg.machineId != machineId &&
    (FromEpoch(msg.timestamp).None? || ParseEventType(msg.eventType).None? || ParseSource(msg.source).None?)
  }

  /** A machine's own messages are passed over; of the others, the usable ones are new exactly when the store
      has no event of this machine with their project, path and second. */
  lemma ExamineMeaning(contents: seq<FileEvent>, machineId: string, msg: FileEventMessage)
    ensures var v := Examine(contents, machineId, msg);
            && (v.Unconvertible? <==> Unusable(msg, machineId))
            && (v.Fresh? <==>
                && msg.machineId != machineId && !Unusable(msg, machineId)
                && forall x | x in contents ::
                     !(x.projectId == msg.projectId && x.filePath == msg.filePath && x.machineId == machineId &&
                       Some(x.timestamp) == FromEpoch(msg.timestamp)))
            && (v.Fresh? ==> FromMessage(msg, machineId) == Some(v.event))
  {
    MessageFields(msg, machineId);
  }

  lemma ExamineFails(rows: seq<S.Row>, machineId: string, msg: FileEventMessage)
    ensures ExamineRows(rows, machineId, msg).Unconvertible? <==> Unusable(msg, machineId)
  {
    MessageFields(msg, machineId);
  }

  predicate AnyUnusable(stream: seq<FileEventMessage>, machineId: string) {
    exists m | m in stream :: Unusable(m, machineId)
  }

  /** The first unusable message is about that path. */
  predicate FirstUnusable(stream: seq<FileEventMessage>, machineId: string, path: string) {
    exists k | 0 <= k < |stream| ::
      && Unusable(stream[k], machineId) && path == stream[k].filePath
      && forall j | 0 <= j < k :: !Unusable(stream[j], machineId)
  }

  lemma AnyOfCons(stream: seq<FileEventMessage>, machineId: string)
    requires stream != []
    ensures AnyUnusable(stream, machineId) <==> Unusable(stream[0], machineId) || AnyUnusable(stream[1..], machineId)
  {
    assert stream == [stream[0]] + stream[1..];
  }

  /** A sync fails exactly when some message is unusable. */
  lemma {:induction false} SyncFailsIff(rows: seq<S.Row>, machineId: string, stream: seq<FileEventMessage>)
    ensures NewRows(rows, machineId, stream).None? <==> AnyUnusable(stream, machineId)
  {
    if stream != [] {
      SyncFailsIff(rows, machineId, stream[1..]);
      ExamineFails(rows, machineId, stream[0]);
      AnyOfCons(stream, machineId);
    }
  }

  /** One message adds the event it is new as, or nothing. */
  lemma AddsOne(rows: seq<S.Row>, machineId: string, m: FileEventMessage)
    ensures NewRows(rows, machineId, [m]) ==
              match ExamineRows(rows, machineId, m)
              case Skip => Some([])
              case Unconvertible => None
              case Fresh(e) => Some([e])
  {
    assert [m][1..] == [];
    assert NewRows(rows, machineId, []) == Some([]);
    if ExamineRows(rows, machineId, m).Fresh? {
      var e := ExamineRows(rows, machineId, m).event;
      assert [e] + [] == [e];
    }
  }

  /** What a sync adds comes in the order of the stream: first what the first messages add, then the rest. */
  lemma {:induction false} AddsInOrder(rows: seq<S.Row>, machineId: string, a: seq<FileEventMessage>,
          b: seq<FileEventMessage>)
    ensures var x, y := NewRows(rows, machineId, a), NewRows(rows, machineId, b);
            NewRows(rows, machineId, a + b) == if x.Some? && y.Some? then Some(x.value + y.value) else None
  {
    if a == [] {
      assert a + b == b;
      var y := NewRows(rows, machineId, b);
      if y.Some? { assert [] + y.value == y.value; }
    } else {
      assert (a + b)[1..] == a[1..] + b;
      AddsInOrder(rows, machineId, a[1..], b);
      var first := ExamineRows(rows, machineId, a[0]);
      var x, y := NewRows(rows, machineId, a[1..]), NewRows(rows, machineId, b);
      if first.Fresh? && x.Some? && y.Some? { Assoc([first.event], x.value, y.value); }
    }
  }

  // ----- the manager -----

  datatype SyncResult = Synced(count: nat) | ConversionError(filePath: string)

  class SyncManager {
    const machineId: string
    const store: S.EventStore
    var lastSync: map<string, int>

    constructor (machineId: string, store: S.EventStore)
      ensures this.machineId == machineId && this.store == store && lastSync == map[]
    {
      this.machineId, this.store, lastSync := machineId, store, map[];
    }

    /** Queries the file's events from one second earlier; a query that fails counts as absent. */
    method EventExists(e: FileEvent) returns (found: bool)
      requires Valid(e.timestamp) && e.timestamp.frac == 0
      ensures found == Found(store.rows, e)
      ensures S.Written(store.rows) ==> found == Has(Contents(store.rows), e)
    {
      if S.Written(store.rows) { FoundIsHas(store.rows, e); }
      var since := MinusSecond(e.timestamp);
      if since.None? {
        return false;
      }
      var f := Recent(e, since.value);
      var results := store.Query(f);
      ghost var out :| S.Answer(store.rows, f, out) && results == S.ReadRows(out);
      AnswerIsAll(store.rows, f, out);
      FoundInAnswer(store.rows, e, out);
      if results.Failure? {
        return false;
      }
      found := exists x | x in results.value :: SameMoment(x, e);
    }

    /** The body of the reading loop. */
    method ExamineMessage(msg: FileEventMessage) returns (v: Verdict)
      ensures v == ExamineRows(store.rows, machineId, msg)
      ensures v.Unconvertible? <==> Unusable(msg, machineId)
      ensures msg.machineId == machineId ==> v.Skip?
      ensures v.Fresh? ==> Valid(v.event.timestamp)
    {
      if msg.machineId == machineId {
        return Skip;
      }
      MessageFields(msg, machineId);
      var event := FromMessage(msg, machineId);
      if event.None? {
        return Unconvertible;
      }
      var present := EventExists(event.value);
      v := if present then Skip else Fresh(event.value);
    }

    /** Reads a whole stream, collecting what is new, before anything is inserted. */
    method CollectNew(stream: seq<FileEventMessage>) returns (r: Option<seq<FileEvent>>, failed: string)
      ensures r == NewRows(store.rows, machineId, stream)
      ensures r.Some? ==> S.AllValid(r.value)
      ensures r.None? ==> FirstUnusable(stream, machineId, failed)
    {
      ghost var rows := store.rows;
      ghost var goal := NewRows(rows, machineId, stream);
      var newEvents: seq<FileEvent> := [];
      var i := 0;
      failed := "";
      PrependEmpty(goal);
      assert stream[0..] == stream;
      while i < |stream|
        invariant i <= |stream|
        invariant S.AllValid(newEvents)
        invariant forall j | 0 <= j < i :: !Unusable(stream[j], machineId)
        invariant goal == Prepend(newEvents, NewRows(rows, machineId, stream[i..]))
      {
        ghost var later := NewRows(rows, machineId, stream[i + 1..]);
        assert stream[i..][1..] == stream[i + 1..];
        var v := ExamineMessage(stream[i]);
        if v.Unconvertible? {
          return None, stream[i].filePath;
        }
        if v.Fresh? {
          PrependOne(newEvents, v.event, later);
          newEvents := newEvents + [v.event];
        }
        i := i + 1;
      }
      assert stream[i..] == [] && newEvents + [] == newEvents;
      r := Some(newEvents);
    }

    /** One sync of a peer's stream. It keeps every row readable if and only if everything it adds is
        of years 0 to 9999. */
    method SyncPeer(addr: string, stream: seq<FileEventMessage>, now: int) returns (r: SyncResult)
      modifies this, store
      ensures var added := NewRows(old(store.rows), machineId, stream);
              && (added.None? ==> r.ConversionError? && store.rows == old(store.rows) && lastSync == old(lastSync))
              && (added.Some? ==>
                    && S.AllValid(added.value)
                    && store.rows == old(store.rows) + S.RowsOf(old(store.nextId), added.value)
                    && r == Synced(|added.value|) && lastSync == old(lastSync)[addr := now])
      ensures r.ConversionError? <==> AnyUnusable(stream, machineId)
      ensures r.ConversionError? ==> FirstUnusable(stream, machineId, r.filePath)
      ensures S.Written(old(store.rows)) ==>
                var added := NewEvents(Contents(old(store.rows)), machineId, stream);
                && added == NewRows(old(store.rows), machineId, stream)
                && (added.Some? ==> (S.Written(store.rows) <==> S.AllStorable(added.value)))
    {
      SyncFailsIff(store.rows, machineId, stream);
      var newEvents, failed := CollectNew(stream);
      if S.Written(store.rows) { NewRowsAreNewEvents(store.rows, machineId, stream); }
      if newEvents.None? {
        return ConversionError(failed);
      }
      if S.Written(store.rows) { S.BatchKeepsWritten(store.rows, store.nextId, newEvents.value); }
      if newEvents.value != [] {
        var _ := store.InsertBatch(newEvents.value);
      } else {
        assert store.rows + [] == store.rows;
      }
      lastSync := lastSync[addr := now];
      r := Synced(|newEvents.value|);
    }
  }

  /** An unlimited answer has exactly the selected rows. */
  lemma AnswerIsAll(rows: seq<S.Row>, f: S.EventFilter, out: seq<S.Row>)
    requires S.SoundFilter(f) && f.limit.None? && S.Answer(rows, f, out)
    ensures forall r :: r in out <==> r in rows && S.MatchesRow(r, f)
  {
    AnswerIsPart(rows, f, out);
    forall r | r in rows && S.MatchesRow(r, f) ensures r in out { AnswerHasRow(rows, f, out, r); }
  }

  /** What reading yields, row by row. */
  lemma ReadMembers(out: seq<S.Row>)
    requires S.ReadRows(out).Success?
    ensures var read := S.ReadRows(out).value;
            && |read| == |out|
            && (forall i | 0 <= i < |out| :: S.FromRow(out[i]).Success? && read[i] == S.FromRow(out[i]).value)
            && (forall x :: x in read <==> exists r | r in out :: S.FromRow(r).Success? && S.FromRow(r).value == x)
  {
    S.OneBadRowFails(out);
    forall i | 0 <= i < |out| ensures S.FromRow(out[i]).Success? { assert out[i] in out; }
    S.ReadAll(out);
  }

  /** Reading the whole answer of the query one second back decides whether the event is found. */
  lemma FoundInAnswer(rows: seq<S.Row>, e: FileEvent, out: seq<S.Row>)
    requires Valid(e.timestamp) && e.timestamp.frac == 0 && MinusSecond(e.timestamp).Some?
    requires forall r :: r in out <==> r in rows && S.MatchesRow(r, Recent(e, MinusSecond(e.timestamp).value))
    ensures Found(rows, e) <==>
              S.ReadRows(out).Success? && exists x | x in S.ReadRows(out).value :: SameMoment(x, e)
  {
    S.OneBadRowFails(out);
    if S.ReadRows(out).Success? { ReadMembers(out); }
  }

  function Prepend(a: seq<FileEvent>, b: Option<seq<FileEvent>>): Option<seq<FileEvent>> {
    if b.None? then None else Some(a + b.value)
  }

  lemma PrependOne(a: seq<FileEvent>, e: FileEvent, b: Option<seq<FileEvent>>)
    ensures Prepend(a, Prepend([e], b)) == Prepend(a + [e], b)
  {
    if b.Some? { assert a + ([e] + b.value) == a + [e] + b.value; }
  }

  lemma PrependEmpty(b: Option<seq<FileEvent>>)
    ensures Prepend([], b) == b
  {
    if b.Some? { assert [] + b.value == b.value; }
  }

  /** The events behind the rows of a store. */
  function Contents(rows: seq<S.Row>): (c: seq<FileEvent>)
    requires S.Written(rows)
    ensures |c| == |rows|
    ensures forall i | 0 <= i < |c| :: c[i] == S.FromRow(rows[i]).value
  {
    seq(|rows|, i requires 0 <= i < |rows| && S.WrittenRow(rows[i]) => S.FromRow(rows[i]).value)
  }

  lemma NothingOutsideYears(rows: seq<S.Row>, e: FileEvent)
    requires S.Written(rows) && Valid(e.timestamp) && e.timestamp.frac == 0 && MinusSecond(e.timestamp).None?
    ensures !Has(Contents(rows), e)
  {
    if FourDigitYear(e.timestamp) { FourDigitHasEarlier(e.timestamp); }
    var c := Contents(rows);
    forall x | x in c ensures FourDigitYear(x.timestamp) {
      var i :| 0 <= i < |c| && c[i] == x;
      assert S.WrittenRow(rows[i]);
    }
  }

  lemma AnswerIsPart(rows: seq<S.Row>, f: S.EventFilter, out: seq<S.Row>)
    requires S.SoundFilter(f) && S.Answer(rows, f, out)
    ensures forall r | r in out :: r in rows && S.MatchesRow(r, f)
  {
    var full: seq<S.Row> :| S.Ordered(S.Select(rows, f), full) && out == S.Limited(full, f.limit);
    S.SelectMembers(rows, f);
    forall r | r in out
      ensures r in rows && S.MatchesRow(r, f)
    {
      assert r in multiset(full);
      assert r in S.Select(rows, f);
    }
  }

  lemma WrittenMember(rows: seq<S.Row>, r: S.Row) returns (i: nat)
    requires S.Written(rows) && r in rows
    ensures i < |rows| && rows[i] == r && S.WrittenRow(r) && S.FromRow(r).Success?
    ensures Contents(rows)[i] == S.FromRow(r).value
  {
    i :| 0 <= i < |rows| && rows[i] == r;
    assert S.WrittenRow(rows[i]);
  }

  /** An unlimited query answers with every matching row. */
  lemma AnswerHasRow(rows: seq<S.Row>, f: S.EventFilter, out: seq<S.Row>, r: S.Row)
    requires S.SoundFilter(f) && f.limit.None? && S.Answer(rows, f, out)
    requires r in rows && S.MatchesRow(r, f)
    ensures r in out
  {
    S.SelectMembers(rows, f);
    assert r in S.Select(rows, f);
    assert r in multiset(S.Select(rows, f));
    var full: seq<S.Row> :| S.Ordered(S.Select(rows, f), full) && out == S.Limited(full, f.limit);
    assert r in multiset(full);
  }

  predicate SameMoment(x: FileEvent, e: FileEvent) {
    x.timestamp == e.timestamp && x.filePath == e.filePath && x.machineId == e.machineId
  }

  lemma MatchesFromEarlier(r: S.Row, f: S.EventFilter, e: FileEvent, since: DateTime)
    requires S.WrittenRow(r) && Valid(since) && Before(since, e.timestamp)
    requires f == S.EventFilter(Some(e.projectId), Some(e.filePath), None, Some(since), None)
    requires var x := S.FromRow(r).value;
             x.projectId == e.projectId && x.filePath == e.filePath && x.timestamp == e.timestamp
    ensures S.MatchesRow(r, f)
  {
    S.FilterMeansTime(r.id, S.FromRow(r).value, f);
    BeforeTotal(since, e.timestamp);
  }
}
