/** The event table: rows whose timestamps are text, the queries over them, and pruning. */
module EventStore {
  import opened Text
  import opened Timestamps
  import opened Calendar
  import opened Events

  datatype StoreError = TimestampParse(text: string) | NameParse(text: string)

  datatype Result<+T> = Success(value: T) | Failure(error: StoreError)

  datatype Row = Row(
    id: nat,
    timestamp: string,
    eventType: string,
    filePath: string,
    projectId: string,
    source: string,
    sourceId: Option<string>,
    machineId: string,
    contentHash: Option<string>,
    oldPath: Option<string>)

  datatype EventFilter = EventFilter(
    projectId: Option<string>,
    filePath: Option<string>,
    source: Option<Source>,
    since: Option<DateTime>,
    limit: Option<nat>)

  predicate SoundFilter(f: EventFilter) {
    f.since.Some? ==> Valid(f.since.value)
  }

  function ToRow(id: nat, e: FileEvent): Row
    requires Valid(e.timestamp)
  {
    Row(id, Format(e.timestamp), EventTypeText(e.eventType), e.filePath, e.projectId,
        SourceText(e.source), e.sourceId, e.machineId, e.contentHash, e.oldPath)
  }

  function FromRow(r: Row): Result<FileEvent> {
    match Parse(r.timestamp)
    case None => Failure(TimestampParse(r.timestamp))
    case Some(t) =>
      match ParseEventType(r.eventType)
      case None => Failure(NameParse(r.eventType))
      case Some(et) =>
        match ParseSource(r.source)
        case None => Failure(NameParse(r.source))
        case Some(src) =>
          Success(FileEvent(t, et, r.filePath, r.projectId, src, r.sourceId, r.machineId, r.contentHash, r.oldPath))
  }

  /** Events of years 0 to 9999, the ones whose rows can be read back. */
  predicate Storable(e: FileEvent) {
    Valid(e.timestamp) && FourDigitYear(e.timestamp)
  }

  /** A stored row reads back as the event it came from, exactly for a storable event. */
  lemma RowRoundTrip(id: nat, e: FileEvent)
    requires Valid(e.timestamp)
    ensures Storable(e) <==> FromRow(ToRow(id, e)) == Success(e)
    ensures !Storable(e) ==> FromRow(ToRow(id, e)) == Failure(TimestampParse(Format(e.timestamp)))
    ensures var r := ToRow(id, e);
            && r.id == id && r.timestamp == Format(e.timestamp)
            && ParseEventType(r.eventType) == Some(e.eventType) && ParseSource(r.source) == Some(e.source)
            && r.filePath == e.filePath && r.projectId == e.projectId && r.machineId == e.machineId
            && r.sourceId == e.sourceId && r.contentHash == e.contentHash && r.oldPath == e.oldPath
  {
    ParseUndoesFormat(e.timestamp);
    EventTypeRoundTrip(e.eventType);
    SourceRoundTrip(e.source);
  }

  /** Rows as this store writes them, of events that can be read back. */
  ghost predicate Written(rows: seq<Row>) {
    forall i | 0 <= i < |rows| :: WrittenRow(rows[i])
  }

  predicate WrittenRow(r: Row) {
    var e := FromRow(r);
    e.Success? && Storable(e.value) && r == ToRow(r.id, e.value)
  }

  // ----- selection -----

  /** The WHERE clause that `query` assembles. */
  predicate MatchesRow(r: Row, f: EventFilter)
    requires SoundFilter(f)
  {
    && (f.projectId.Some? ==> r.projectId == f.projectId.value)
    && (f.filePath.Some? ==> r.filePath == f.filePath.value)
    && (f.source.Some? ==> r.source == SourceText(f.source.value))
    && (f.since.Some? ==> !Less(r.timestamp, Format(f.since.value)))
  }

  /** What the filter means. */
  predicate MatchesEvent(e: FileEvent, f: EventFilter) {
    && (f.projectId.Some? ==> e.projectId == f.projectId.value)
    && (f.filePath.Some? ==> e.filePath == f.filePath.value)
    && (f.source.Some? ==> e.source == f.source.value)
    && (f.since.Some? ==> Reaches(e.timestamp, f.since.value))
  }

  /** Text comparison selects exactly the events the filter means. */
  lemma FilterMeansTime(id: nat, e: FileEvent, f: EventFilter)
    requires Storable(e) && SoundFilter(f)
    ensures MatchesRow(ToRow(id, e), f) <==> MatchesEvent(e, f)
  {
    if f.since.Some? { TextReaches(e.timestamp, f.since.value); }
    SourceRoundTrip(e.source);
    if f.source.Some? { SourceRoundTrip(f.source.value); }
  }

  function Select(rows: seq<Row>, f: EventFilter): seq<Row>
    requires SoundFilter(f)
  {
    if rows == [] then []
    else (if MatchesRow(rows[0], f) then [rows[0]] else []) + Select(rows[1..], f)
  }

  // ----- ordering -----

  ghost predicate Descending(rows: seq<Row>) {
    forall i, j | 0 <= i < j < |rows| :: !Less(rows[i].timestamp, rows[j].timestamp)
  }

  /** `ORDER BY timestamp DESC`: `full` is `rows` in some descending order. */
  ghost predicate Ordered(rows: seq<Row>, full: seq<Row>) {
    multiset(full) == multiset(rows) && Descending(full)
  }

  function Limited(rows: seq<Row>, limit: Option<nat>): seq<Row> {
    if limit.Some? && limit.value < |rows| then rows[..limit.value] else rows
  }

  /** What a query may answer; SQLite does not say how equal timestamps are ordered. */
  ghost predicate Answer(rows: seq<Row>, f: EventFilter, out: seq<Row>)
    requires SoundFilter(f)
  {
    exists full :: Ordered(Select(rows, f), full) && out == Limited(full, f.limit)
  }

  function PlaceDescending(r: Row, sorted: seq<Row>): (out: seq<Row>)
    ensures multiset(out) == multiset(sorted) + multiset{r}
  {
    if sorted == [] || !Less(r.timestamp, sorted[0].timestamp) then [r] + sorted
    else
      assert sorted == [sorted[0]] + sorted[1..];
      [sorted[0]] + PlaceDescending(r, sorted[1..])
  }

  function SortDescending(rows: seq<Row>): (out: seq<Row>)
    ensures multiset(out) == multiset(rows)
  {
    if rows == [] then []
    else
      assert rows == [rows[0]] + rows[1..];
      PlaceDescending(rows[0], SortDescending(rows[1..]))
  }

  lemma NotLessTransitive(a: string, b: string, c: string)
    requires !Less(a, b) && !Less(b, c)
    ensures !Less(a, c)
  {
    LessTrichotomy(a, b);
    LessTrichotomy(b, c);
    LessTrichotomy(a, c);
    if Less(b, a) && Less(c, b) { LessTransitive(c, b, a); }
  }

  lemma {:induction false} PlaceKeepsOrder(r: Row, sorted: seq<Row>)
    requires Descending(sorted)
    ensures Descending(PlaceDescending(r, sorted))
  {
    var out := PlaceDescending(r, sorted);
    if sorted != [] {
      LessTrichotomy(r.timestamp, sorted[0].timestamp);
      if Less(r.timestamp, sorted[0].timestamp) {
        PlaceKeepsOrder(r, sorted[1..]);
        forall j | 0 < j < |out|
          ensures !Less(sorted[0].timestamp, out[j].timestamp)
        {
          assert out[j] in multiset(PlaceDescending(r, sorted[1..]));
          if out[j] != r {
            assert out[j] in sorted[1..];
            var k :| 0 <= k < |sorted[1..]| && sorted[1..][k] == out[j];
            assert sorted[k + 1] == out[j];
          }
        }
      } else {
        forall j | 0 <= j < |sorted|
          ensures !Less(r.timestamp, sorted[j].timestamp)
        {
          if j > 0 { NotLessTransitive(r.timestamp, sorted[0].timestamp, sorted[j].timestamp); }
        }
      }
    }
  }

  lemma {:induction false} SortOrders(rows: seq<Row>)
    ensures Ordered(rows, SortDescending(rows))
  {
    if rows != [] {
      SortOrders(rows[1..]);
      PlaceKeepsOrder(rows[0], SortDescending(rows[1..]));
    }
  }

  lemma SortAnswers(rows: seq<Row>, f: EventFilter)
    requires SoundFilter(f)
    ensures Answer(rows, f, Limited(SortDescending(Select(rows, f)), f.limit))
  {
    SortOrders(Select(rows, f));
  }

  // ----- two answers differ only among equal timestamps -----

  function Stamps(rows: seq<Row>): (s: seq<string>)
    ensures |s| == |rows|
    ensures forall i | 0 <= i < |s| :: s[i] == rows[i].timestamp
  {
    seq(|rows|, i requires 0 <= i < |rows| => rows[i].timestamp)
  }

  /** Taking one occurrence out of a list takes it out of its multiset. */
  lemma TakeOut<T>(b: seq<T>, j: nat)
    requires j < |b|
    ensures multiset(b[..j] + b[j + 1..]) == multiset(b) - multiset{b[j]}
  {
    assert b == b[..j] + ([b[j]] + b[j + 1..]);
  }

  lemma {:induction false} SameStamps(a: seq<Row>, b: seq<Row>)
    requires multiset(a) == multiset(b)
    ensures multiset(Stamps(a)) == multiset(Stamps(b))
    decreases |a|
  {
    SameLength(a, b);
    if a == [] {
      assert a == b;
    } else {
      var j := FoundIn(a, b);
      var x, y := a[..0] + a[1..], b[..j] + b[j + 1..];
      SameWithout(a, b, j);
      SameStamps(x, y);
      SameStampsAround(a, b, j);
    }
  }

  lemma SameWithout(a: seq<Row>, b: seq<Row>, j: nat)
    requires multiset(a) == multiset(b) && a != [] && j < |b| && b[j] == a[0]
    ensures multiset(a[..0] + a[1..]) == multiset(b[..j] + b[j + 1..])
  {
    TakeOut(a, 0);
    TakeOut(b, j);
  }

  lemma SameStampsAround(a: seq<Row>, b: seq<Row>, j: nat)
    requires a != [] && j < |b| && b[j] == a[0]
    requires multiset(Stamps(a[..0] + a[1..])) == multiset(Stamps(b[..j] + b[j + 1..]))
    ensures multiset(Stamps(a)) == multiset(Stamps(b))
  {
    StampTakenOut(a, 0);
    StampTakenOut(b, j);
  }

  lemma FoundIn(a: seq<Row>, b: seq<Row>) returns (j: nat)
    requires multiset(a) == multiset(b) && a != []
    ensures j < |b| && b[j] == a[0]
  {
    assert a[0] in multiset(b);
    j :| 0 <= j < |b| && b[j] == a[0];
  }

  lemma StampTakenOut(b: seq<Row>, j: nat)
    requires j < |b|
    ensures multiset(Stamps(b)) == multiset(Stamps(b[..j] + b[j + 1..])) + multiset{b[j].timestamp}
  {
    StampsAround(b, j);
    TakeOut(Stamps(b), j);
    assert Stamps(b)[j] in Stamps(b);
  }

  lemma StampsAround(b: seq<Row>, j: nat)
    requires j < |b|
    ensures Stamps(b[..j] + b[j + 1..]) == Stamps(b)[..j] + Stamps(b)[j + 1..]
  {
  }

  lemma {:induction false} DescendingUnique(a: seq<string>, b: seq<string>)
    requires multiset(a) == multiset(b)
    requires forall i, j | 0 <= i < j < |a| :: !Less(a[i], a[j])
    requires forall i, j | 0 <= i < j < |b| :: !Less(b[i], b[j])
    ensures a == b
  {
    assert |a| == |multiset(a)| && |b| == |multiset(b)|;
    if a != [] {
      SameHead(a, b);
      SameTail(a, b);
      DescendingUnique(a[1..], b[1..]);
      assert a == [a[0]] + a[1..] && b == [b[0]] + b[1..];
    }
  }

  lemma SameTail<T>(a: seq<T>, b: seq<T>)
    requires multiset(a) == multiset(b) && a != [] && b != [] && a[0] == b[0]
    ensures multiset(a[1..]) == multiset(b[1..])
  {
    TailMultiset(a);
    TailMultiset(b);
  }

  lemma TailMultiset<T>(a: seq<T>)
    requires a != []
    ensures multiset(a[1..]) == multiset(a) - multiset{a[0]}
  {
    assert a == [a[0]] + a[1..];
  }

  lemma SameHead(a: seq<string>, b: seq<string>)
    requires multiset(a) == multiset(b) && a != [] && b != []
    requires forall i, j | 0 <= i < j < |a| :: !Less(a[i], a[j])
    requires forall i, j | 0 <= i < j < |b| :: !Less(b[i], b[j])
    ensures a[0] == b[0]
  {
    assert a[0] in multiset(b) && b[0] in multiset(a);
    var j :| 0 <= j < |b| && b[j] == a[0];
    var k :| 0 <= k < |a| && a[k] == b[0];
    LessTrichotomy(a[0], b[0]);
  }

  /** Any two answers to one query have the same length and the same timestamps throughout. */
  lemma AnswersAgree(rows: seq<Row>, f: EventFilter, a: seq<Row>, b: seq<Row>)
    requires SoundFilter(f) && Answer(rows, f, a) && Answer(rows, f, b)
    ensures Stamps(a) == Stamps(b)
  {
    var x: seq<Row> :| Ordered(Select(rows, f), x) && a == Limited(x, f.limit);
    var y: seq<Row> :| Ordered(Select(rows, f), y) && b == Limited(y, f.limit);
    SameStamps(x, y);
    DescendingUnique(Stamps(x), Stamps(y));
    LimitedStamps(x, f.limit);
    LimitedStamps(y, f.limit);
  }

  lemma LimitedStamps(x: seq<Row>, limit: Option<nat>)
    ensures Stamps(Limited(x, limit)) ==
              if limit.Some? && limit.value < |x| then Stamps(x)[..limit.value] else Stamps(x)
    ensures |Stamps(x)| == |x|
  {
  }

  // ----- pruning -----

  predicate KeptBy(r: Row, cutoff: string) {
    !Less(r.timestamp, cutoff)
  }

  /** The rows that `DELETE ... WHERE timestamp < cutoff` leaves. */
  function Prune(rows: seq<Row>, cutoff: string): (kept: seq<Row>)
    ensures |kept| <= |rows|
  {
    if rows == [] then []
    else (if KeptBy(rows[0], cutoff) then [rows[0]] else []) + Prune(rows[1..], cutoff)
  }

  function Pruned(rows: seq<Row>, cutoff: string): (gone: seq<Row>) {
    if rows == [] then []
    else (if KeptBy(rows[0], cutoff) then [] else [rows[0]]) + Pruned(rows[1..], cutoff)
  }

  /** Pruning by retention keeps an event exactly when it is not older than the cutoff: so every
      event of the last `days` days, and none from a second or more before them. */
  lemma RetentionKeepsRecent(id: nat, e: FileEvent, now: DateTime, days: int)
    requires Storable(e) && Valid(now) && MinusDays(now, days).Some?
    ensures var cutoff := MinusDays(now, days).value;
            && (KeptBy(ToRow(id, e), Format(cutoff)) <==> Reaches(e.timestamp, cutoff))
            && (EpochSeconds(now) - EpochSeconds(e.timestamp) < 86400 * days ==> KeptBy(ToRow(id, e), Format(cutoff)))
            && (EpochSeconds(now) - EpochSeconds(e.timestamp) > 86400 * days && cutoff.year <= 9999 ==>
                  !KeptBy(ToRow(id, e), Format(cutoff)))
  {
    var cutoff := MinusDays(now, days).value;
    TextReaches(e.timestamp, cutoff);
    BeforeTotal(cutoff, e.timestamp);
    if EpochSeconds(cutoff) < EpochSeconds(e.timestamp) { EpochOrder(cutoff, e.timestamp); }
    if EpochSeconds(e.timestamp) < EpochSeconds(cutoff) { EpochOrder(e.timestamp, cutoff); }
  }

  lemma {:induction false} SelectPrune(rows: seq<Row>, f: EventFilter, cutoff: string)
    requires SoundFilter(f)
    ensures Select(Prune(rows, cutoff), f) == Prune(Select(rows, f), cutoff)
  {
    if rows != [] {
      SelectPrune(rows[1..], f, cutoff);
      var rest := Prune(rows[1..], cutoff);
      assert ([rows[0]] + rest)[1..] == rest && [] + rest == rest;
      var later := Select(rows[1..], f);
      assert ([rows[0]] + later)[1..] == later && [] + later == later;
    }
  }

  lemma {:induction false} PruneAll(rows: seq<Row>, cutoff: string)
    requires forall r | r in rows :: KeptBy(r, cutoff)
    ensures Prune(rows, cutoff) == rows
  {
    if rows != [] {
      assert rows[0] in rows;
      PruneAll(rows[1..], cutoff);
    }
  }

  lemma {:induction false} SelectMembers(rows: seq<Row>, f: EventFilter)
    requires SoundFilter(f)
    ensures forall r :: r in Select(rows, f) <==> r in rows && MatchesRow(r, f)
  {
    if rows != [] {
      SelectMembers(rows[1..], f);
      assert rows == [rows[0]] + rows[1..];
    }
  }

  // ----- what a query selects, column by column -----

  /** The row has the project, path and source asked for, and its text is not below that of `since`. */
  predicate AskedFor(r: Row, f: EventFilter)
    requires SoundFilter(f)
  {
    && (f.projectId == Some(r.projectId) || f.projectId == None)
    && (f.filePath == Some(r.filePath) || f.filePath == None)
    && (f.source == None || r.source == SourceText(f.source.value))
    && (f.since == None || r.timestamp == Format(f.since.value) || Less(Format(f.since.value), r.timestamp))
  }

  /** An answer has rows that were asked for only, the latest text first, each as often as the table has it; all
      of them if there is no limit or they are no more than that, and else as many as the limit. */
  lemma AnswerMeaning(rows: seq<Row>, f: EventFilter, out: seq<Row>)
    requires SoundFilter(f) && Answer(rows, f, out)
    ensures forall r | r in out :: r in rows && AskedFor(r, f)
    ensures forall i, j | 0 <= i < j < |out| ::
              out[i].timestamp == out[j].timestamp || Less(out[j].timestamp, out[i].timestamp)
    ensures f.limit.Some? ==> |out| <= f.limit.value
    ensures f.limit == None || |out| < f.limit.value ==>
              forall r | r in rows && AskedFor(r, f) :: r in out && multiset(out)[r] == multiset(rows)[r]
  {
    var all := Select(rows, f);
    var full: seq<Row> :| Ordered(all, full) && out == Limited(full, f.limit);
    SelectMembers(rows, f);
    forall r ensures r in rows && MatchesRow(r, f) <==> r in rows && AskedFor(r, f) {
      if f.since.Some? { LessTrichotomy(r.timestamp, Format(f.since.value)); }
    }
    forall r | r in out ensures r in all {
      assert r in multiset(full);
    }
    forall i, j | 0 <= i < j < |out|
      ensures out[i].timestamp == out[j].timestamp || Less(out[j].timestamp, out[i].timestamp)
    {
      LessTrichotomy(out[i].timestamp, out[j].timestamp);
    }
    if f.limit == None || |out| < f.limit.value {
      assert out == full;
      forall r | r in rows && AskedFor(r, f) ensures r in out && multiset(out)[r] == multiset(rows)[r] {
        SelectCounts(rows, f, r);
        assert r in multiset(rows);
      }
    }
  }

  lemma {:induction false} SelectCounts(rows: seq<Row>, f: EventFilter, r: Row)
    requires SoundFilter(f)
    ensures multiset(Select(rows, f))[r] == if MatchesRow(r, f) then multiset(rows)[r] else 0
  {
    if rows != [] {
      SelectCounts(rows[1..], f, r);
      CountHead(rows, r);
      var first := if MatchesRow(rows[0], f) then [rows[0]] else [];
      assert multiset(first + Select(rows[1..], f)) == multiset(first) + multiset(Select(rows[1..], f));
    }
  }

  // ----- what pruning changes -----

  /** The query has the same answers before and after the prune. */
  ghost predicate SameAnswers(rows: seq<Row>, f: EventFilter, cutoff: string)
    requires SoundFilter(f)
  {
    forall out :: Answer(Prune(rows, cutoff), f, out) <==> Answer(rows, f, out)
  }

  /** The prune removes no row that the query selects, or leaves as many as its limit asks for. */
  predicate LeavesEnough(rows: seq<Row>, f: EventFilter, cutoff: string)
    requires SoundFilter(f)
  {
    || (forall r | r in rows && MatchesRow(r, f) :: KeptBy(r, cutoff))
    || (f.limit.Some? && f.limit.value <= |Prune(Select(rows, f), cutoff)|)
  }

  lemma {:induction false} PruneShrinks(rows: seq<Row>, r: Row, cutoff: string)
    requires r in rows && !KeptBy(r, cutoff)
    ensures |Prune(rows, cutoff)| < |rows|
  {
    PruneHead(rows, cutoff);
    if rows[0] != r { PruneShrinks(rows[1..], r, cutoff); }
  }

  lemma AnswerLength(rows: seq<Row>, f: EventFilter, out: seq<Row>)
    requires SoundFilter(f) && Answer(rows, f, out)
    ensures |out| == if f.limit.Some? && f.limit.value < |Select(rows, f)| then f.limit.value else |Select(rows, f)|
  {
    var full: seq<Row> :| Ordered(Select(rows, f), full) && out == Limited(full, f.limit);
    SameLength(Select(rows, f), full);
  }

  /** For every table, query and cutoff text: the answers stay the same if and only if the prune
      leaves enough. */
  lemma PruneKeepsAnswersIff(rows: seq<Row>, f: EventFilter, cutoff: string)
    requires SoundFilter(f)
    ensures SameAnswers(rows, f, cutoff) <==> LeavesEnough(rows, f, cutoff)
  {
    var all := Select(rows, f);
    SelectPrune(rows, f, cutoff);
    SelectMembers(rows, f);
    if forall r | r in rows && MatchesRow(r, f) :: KeptBy(r, cutoff) {
      PruneAll(all, cutoff);
    } else if LeavesEnough(rows, f, cutoff) {
      forall out ensures Answer(Prune(rows, cutoff), f, out) <==> Answer(rows, f, out) {
        PruneKeepsEnough(rows, f, cutoff, out);
      }
    } else {
      var r :| r in rows && MatchesRow(r, f) && !KeptBy(r, cutoff);
      PruneShrinks(all, r, cutoff);
      var out := Limited(SortDescending(all), f.limit);
      SortAnswers(rows, f);
      AnswerLength(rows, f, out);
      if Answer(Prune(rows, cutoff), f, out) { AnswerLength(Prune(rows, cutoff), f, out); }
    }
  }

  lemma {:induction false} SelectAlike(rows: seq<Row>, f: EventFilter, g: EventFilter)
    requires SoundFilter(f) && SoundFilter(g) && forall r | r in rows :: MatchesRow(r, f) <==> MatchesRow(r, g)
    ensures Select(rows, f) == Select(rows, g)
  {
    if rows != [] {
      assert rows[0] in rows;
      SelectAlike(rows[1..], f, g);
    }
  }

  lemma RowReaches(r: Row, t: DateTime)
    requires WrittenRow(r) && Valid(t)
    ensures !Less(r.timestamp, Format(t)) <==> Reaches(FromRow(r).value.timestamp, t)
  {
    TextReaches(FromRow(r).value.timestamp, t);
  }

  lemma KeptWhereSince(rows: seq<Row>, f: EventFilter, cutoff: DateTime, r: Row)
    requires SoundFilter(f) && f.since.Some? && Valid(cutoff) && !Before(f.since.value, cutoff)
    requires f.since.value.year <= 9999 && (FourDigitYear(f.since.value) || Written(rows))
    requires r in rows && MatchesRow(r, f)
    ensures KeptBy(r, Format(cutoff))
  {
    if FourDigitYear(f.since.value) {
      TextOrderIsTimeOrder(cutoff, f.since.value);
      NotLessTransitive(r.timestamp, Format(f.since.value), Format(cutoff));
    } else {
      var i :| 0 <= i < |rows| && rows[i] == r;
      assert WrittenRow(rows[i]);
      RowReaches(r, cutoff);
    }
  }

  /** Pruning changes no query, limited or not, whose `since` is at or after the cutoff and not after
      year 9999. A later `since` excludes nothing, so then the answers stay the same if and only if the
      prune leaves enough of what the rest of the filter selects. */
  lemma PruneKeepsRecentQueries(rows: seq<Row>, f: EventFilter, cutoff: DateTime)
    requires SoundFilter(f) && f.since.Some? && Valid(cutoff) && !Before(f.since.value, cutoff)
    requires FourDigitYear(f.since.value) || Written(rows)
    ensures f.since.value.year <= 9999 ==> SameAnswers(rows, f, Format(cutoff))
    ensures f.since.value.year > 9999 ==>
              (SameAnswers(rows, f, Format(cutoff)) <==> LeavesEnough(rows, f.(since := None), Format(cutoff)))
  {
    PruneKeepsAnswersIff(rows, f, Format(cutoff));
    if f.since.value.year <= 9999 {
      forall r | r in rows && MatchesRow(r, f) ensures KeptBy(r, Format(cutoff)) {
        KeptWhereSince(rows, f, cutoff, r);
      }
    } else {
      var g := f.(since := None);
      forall r | r in rows ensures MatchesRow(r, f) <==> MatchesRow(r, g) {
        var i :| 0 <= i < |rows| && rows[i] == r;
        assert WrittenRow(rows[i]);
        RowReaches(r, f.since.value);
      }
      SelectAlike(rows, f, g);
    }
  }

  /** An event of 2020, a prune at 2021 and a query since year 10000: the query finds the event
      before the prune and not after it. */
  lemma LateSinceMissesPruned(e: FileEvent)
    requires e.timestamp == DateTime(2020, 1, 1, 0, 0)
    ensures var cutoff, since := DateTime(2021, 1, 1, 0, 0), DateTime(10000, 1, 1, 0, 0);
            var f, rows := EventFilter(None, None, None, Some(since), None), [ToRow(1, e)];
            && Valid(cutoff) && Valid(since) && !Before(since, cutoff)
            && Answer(rows, f, rows) && !Answer(Prune(rows, Format(cutoff)), f, rows)
  {
    var cutoff, since := DateTime(2021, 1, 1, 0, 0), DateTime(10000, 1, 1, 0, 0);
    var f, row := EventFilter(None, None, None, Some(since), None), ToRow(1, e);
    TextReaches(e.timestamp, since);
    TextReaches(e.timestamp, cutoff);
    assert [row][1..] == [];
    assert Select([row], f) == [row] + Select([], f) == [row];
    assert Ordered([row], [row]) && Limited([row], f.limit) == [row];
    NoneKept([row], Format(cutoff));
    if Answer([], f, [row]) { AnswerLength([], f, [row]); }
  }

  function LatestFilter(projectId: string, filePath: string): (f: EventFilter)
    ensures SoundFilter(f)
  {
    EventFilter(Some(projectId), Some(filePath), None, None, Some(1))
  }

  predicate OfFile(r: Row, projectId: string, filePath: string) {
    r.projectId == projectId && r.filePath == filePath
  }

  /** A row of the file that no row of the file has a later timestamp than. */
  ghost predicate LatestRow(rows: seq<Row>, projectId: string, filePath: string, r: Row) {
    && r in rows && OfFile(r, projectId, filePath)
    && forall other | other in rows && OfFile(other, projectId, filePath) :: !Less(r.timestamp, other.timestamp)
  }

  /** Every answer to the query for the latest event of a file is one latest row of that file, or
      nothing exactly when the file has no row. */
  lemma LatestMeaning(rows: seq<Row>, projectId: string, filePath: string, out: seq<Row>)
    requires Answer(rows, LatestFilter(projectId, filePath), out)
    ensures out == [] <==> forall r | r in rows :: !OfFile(r, projectId, filePath)
    ensures out != [] ==> |out| == 1 && LatestRow(rows, projectId, filePath, out[0])
  {
    var f := LatestFilter(projectId, filePath);
    var all := Select(rows, f);
    var full: seq<Row> :| Ordered(all, full) && out == Limited(full, f.limit);
    SelectMembers(rows, f);
    SameLength(all, full);
    assert forall r :: r in all <==> r in rows && OfFile(r, projectId, filePath);
    forall r | r in all ensures r in full { assert r in multiset(full); }
    if full != [] {
      assert full[0] in multiset(all);
      forall r | r in rows && OfFile(r, projectId, filePath) ensures !Less(full[0].timestamp, r.timestamp) {
        var k :| 0 <= k < |full| && full[k] == r;
        LessTrichotomy(r.timestamp, r.timestamp);
      }
    }
  }

  /** For readable rows that is a latest event of the file, and any query for one event of the file
      yields an event of the same time. */
  lemma LatestIsLatest(rows: seq<Row>, projectId: string, filePath: string, out: seq<Row>, other: seq<Row>)
    requires Written(rows) && Answer(rows, LatestFilter(projectId, filePath), out) && out != []
    requires Answer(rows, EventFilter(Some(projectId), Some(filePath), None, None, Some(1)), other)
    ensures FromRow(out[0]).Success?
    ensures forall r | r in rows && OfFile(r, projectId, filePath) ::
              FromRow(r).Success? && !Before(FromRow(out[0]).value.timestamp, FromRow(r).value.timestamp)
    ensures |other| == 1 && FromRow(other[0]).Success?
    ensures FromRow(other[0]).value.timestamp == FromRow(out[0]).value.timestamp
  {
    LatestMeaning(rows, projectId, filePath, out);
    LatestMeaning(rows, projectId, filePath, other);
    assert out[0] in rows && other[0] in rows;
    forall r | r in rows && OfFile(r, projectId, filePath)
      ensures WrittenRow(r) && !Before(FromRow(out[0]).value.timestamp, FromRow(r).value.timestamp)
    {
      WrittenOrder(rows, out[0], r);
    }
    WrittenOrder(rows, other[0], out[0]);
    BeforeTotal(FromRow(out[0]).value.timestamp, FromRow(other[0]).value.timestamp);
  }

  lemma WrittenOrder(rows: seq<Row>, a: Row, b: Row)
    requires Written(rows) && a in rows && b in rows
    ensures WrittenRow(a) && WrittenRow(b)
    ensures Less(a.timestamp, b.timestamp) <==> Before(FromRow(a).value.timestamp, FromRow(b).value.timestamp)
  {
    var i :| 0 <= i < |rows| && rows[i] == a;
    var j :| 0 <= j < |rows| && rows[j] == b;
    assert WrittenRow(rows[i]) && WrittenRow(rows[j]);
    TextOrderIsTimeOrder(FromRow(a).value.timestamp, FromRow(b).value.timestamp);
  }

  lemma {:induction false} PruneCounts(rows: seq<Row>, cutoff: string, r: Row)
    ensures multiset(Prune(rows, cutoff))[r] == if KeptBy(r, cutoff) then multiset(rows)[r] else 0
    ensures multiset(Pruned(rows, cutoff))[r] == if KeptBy(r, cutoff) then 0 else multiset(rows)[r]
  {
    if rows != [] {
      PruneCounts(rows[1..], cutoff, r);
      CountHead(rows, r);
      var kept, gone := Prune(rows[1..], cutoff), Pruned(rows[1..], cutoff);
      if KeptBy(rows[0], cutoff) { CountHead([rows[0]] + kept, r); } else { CountHead([rows[0]] + gone, r); }
    }
  }

  lemma CountHead(rows: seq<Row>, r: Row)
    requires rows != []
    ensures multiset(rows)[r] == (if rows[0] == r then 1 else 0) + multiset(rows[1..])[r]
  {
    assert rows == [rows[0]] + rows[1..];
  }

  /** In descending order the surviving rows are a prefix. */
  lemma {:induction false} PrunePrefix(full: seq<Row>, cutoff: string)
    requires Descending(full)
    ensures Prune(full, cutoff) + Pruned(full, cutoff) == full
  {
    if full != [] {
      PruneHead(full, cutoff);
      if KeptBy(full[0], cutoff) {
        PrunePrefix(full[1..], cutoff);
        Assoc([full[0]], Prune(full[1..], cutoff), Pruned(full[1..], cutoff));
        assert [full[0]] + full[1..] == full;
      } else {
        OlderAfter(full, cutoff);
        NoneKept(full[1..], cutoff);
        assert [] + ([full[0]] + full[1..]) == full;
      }
    }
  }

  lemma PruneHead(rows: seq<Row>, cutoff: string)
    requires rows != []
    ensures Prune(rows, cutoff) ==
              if KeptBy(rows[0], cutoff) then [rows[0]] + Prune(rows[1..], cutoff) else Prune(rows[1..], cutoff)
    ensures Pruned(rows, cutoff) ==
              if KeptBy(rows[0], cutoff) then Pruned(rows[1..], cutoff) else [rows[0]] + Pruned(rows[1..], cutoff)
  {
  }

  /** What comes after a row older than the cutoff is older too. */
  lemma OlderAfter(full: seq<Row>, cutoff: string)
    requires Descending(full) && full != [] && !KeptBy(full[0], cutoff)
    ensures forall r | r in full[1..] :: !KeptBy(r, cutoff)
  {
    forall r | r in full[1..] ensures !KeptBy(r, cutoff) {
      var k :| 0 < k < |full| && full[k] == r;
      LessTrichotomy(full[0].timestamp, r.timestamp);
      if Less(r.timestamp, full[0].timestamp) {
        LessTransitive(r.timestamp, full[0].timestamp, cutoff);
      }
    }
  }

  lemma {:induction false} NoneKept(rows: seq<Row>, cutoff: string)
    requires forall r | r in rows :: !KeptBy(r, cutoff)
    ensures Prune(rows, cutoff) == [] && Pruned(rows, cutoff) == rows
  {
    if rows != [] {
      assert rows[0] in rows;
      NoneKept(rows[1..], cutoff);
    }
  }

  lemma {:induction false} PruneMembers(rows: seq<Row>, cutoff: string)
    ensures forall r :: r in Prune(rows, cutoff) <==> r in rows && KeptBy(r, cutoff)
    ensures forall r :: r in Pruned(rows, cutoff) <==> r in rows && !KeptBy(r, cutoff)
  {
    if rows != [] {
      PruneMembers(rows[1..], cutoff);
      assert rows == [rows[0]] + rows[1..];
    }
  }

  lemma PruneSame(a: seq<Row>, b: seq<Row>, cutoff: string)
    requires multiset(a) == multiset(b)
    ensures multiset(Prune(a, cutoff)) == multiset(Prune(b, cutoff))
  {
    forall r ensures multiset(Prune(a, cutoff))[r] == multiset(Prune(b, cutoff))[r] {
      PruneCounts(a, cutoff, r);
      PruneCounts(b, cutoff, r);
    }
  }

  /** The surviving prefix of an ordered answer orders the surviving rows. */
  lemma OrderedPrune(rows: seq<Row>, full: seq<Row>, cutoff: string)
    requires Ordered(rows, full)
    ensures Ordered(Prune(rows, cutoff), Prune(full, cutoff))
  {
    PrunePrefix(full, cutoff);
    PruneSame(rows, full, cutoff);
    var kept := Prune(full, cutoff);
    assert forall i | 0 <= i < |kept| :: kept[i] == full[i];
  }

  lemma Counted(rows: seq<Row>, first: Row, rest: seq<Row>)
    requires rows == [first] + rest
    ensures multiset(rows) == multiset{first} + multiset(rest)
  {
  }

  lemma {:induction false} PruneSplits(rows: seq<Row>, cutoff: string)
    ensures multiset(rows) == multiset(Prune(rows, cutoff)) + multiset(Pruned(rows, cutoff))
  {
    if rows != [] {
      PruneSplits(rows[1..], cutoff);
      PruneHead(rows, cutoff);
      Counted(rows, rows[0], rows[1..]);
      if KeptBy(rows[0], cutoff) {
        Counted(Prune(rows, cutoff), rows[0], Prune(rows[1..], cutoff));
      } else {
        Counted(Pruned(rows, cutoff), rows[0], Pruned(rows[1..], cutoff));
      }
    }
  }

  /** Any order of the surviving rows extends to an order of all of them. */
  lemma OrderedExtend(rows: seq<Row>, kept: seq<Row>, cutoff: string) returns (full: seq<Row>)
    requires Ordered(Prune(rows, cutoff), kept)
    ensures Ordered(rows, full) && kept <= full
  {
    var gone := SortDescending(Pruned(rows, cutoff));
    SortOrders(Pruned(rows, cutoff));
    full := kept + gone;
    PruneMembers(rows, cutoff);
    PruneSplits(rows, cutoff);
    forall a, b | a in kept && b in gone ensures !Less(a.timestamp, b.timestamp) {
      assert a in multiset(kept) && b in multiset(gone);
      assert a in Prune(rows, cutoff) && b in Pruned(rows, cutoff);
      if Less(a.timestamp, b.timestamp) { LessTransitive(a.timestamp, b.timestamp, cutoff); }
    }
    AppendOrdered(kept, gone);
  }

  /** Two ordered lists, one entirely before the other. */
  lemma AppendOrdered(a: seq<Row>, b: seq<Row>)
    requires forall i, j | 0 <= i < j < |a| :: !Less(a[i].timestamp, a[j].timestamp)
    requires forall i, j | 0 <= i < j < |b| :: !Less(b[i].timestamp, b[j].timestamp)
    requires forall x, y | x in a && y in b :: !Less(x.timestamp, y.timestamp)
    ensures forall i, j | 0 <= i < j < |a + b| :: !Less((a + b)[i].timestamp, (a + b)[j].timestamp)
  {
  }

  /** A limited query that pruning leaves enough rows for has the same answers as before. */
  lemma PruneKeepsEnough(rows: seq<Row>, f: EventFilter, cutoff: string, out: seq<Row>)
    requires SoundFilter(f) && f.limit.Some? && f.limit.value <= |Prune(Select(rows, f), cutoff)|
    ensures Answer(Prune(rows, cutoff), f, out) <==> Answer(rows, f, out)
  {
    SelectPrune(rows, f, cutoff);
    LimitedPrune(Select(rows, f), f.limit.value, cutoff, out);
  }

  lemma LimitedPrune(all: seq<Row>, n: nat, cutoff: string, out: seq<Row>)
    requires n <= |Prune(all, cutoff)|
    ensures (exists kept :: Ordered(Prune(all, cutoff), kept) && out == Limited(kept, Some(n))) <==>
            (exists full :: Ordered(all, full) && out == Limited(full, Some(n)))
  {
    if full: seq<Row> :| Ordered(all, full) && out == Limited(full, Some(n)) {
      EnoughForward(all, full, n, cutoff);
    }
    if kept: seq<Row> :| Ordered(Prune(all, cutoff), kept) && out == Limited(kept, Some(n)) {
      SameLength(Prune(all, cutoff), kept);
      var full := OrderedExtend(all, kept, cutoff);
      LimitedPrefix(kept, full, n);
    }
  }

  lemma LimitedPrefix(kept: seq<Row>, full: seq<Row>, n: nat)
    requires kept <= full && n <= |kept|
    ensures Limited(full, Some(n)) == Limited(kept, Some(n))
  {
  }

  lemma EnoughForward(all: seq<Row>, full: seq<Row>, n: nat, cutoff: string)
    requires Ordered(all, full) && n <= |Prune(all, cutoff)|
    ensures Ordered(Prune(all, cutoff), Prune(full, cutoff))
    ensures Limited(full, Some(n)) == Limited(Prune(full, cutoff), Some(n))
  {
    OrderedPrune(all, full, cutoff);
    PrunePrefix(full, cutoff);
    SameLength(Prune(all, cutoff), Prune(full, cutoff));
    LimitedFront(full, Prune(full, cutoff), Pruned(full, cutoff), n);
  }

  lemma LimitedFront(full: seq<Row>, kept: seq<Row>, gone: seq<Row>, n: nat)
    requires full == kept + gone && n <= |kept|
    ensures Limited(full, Some(n)) == Limited(kept, Some(n))
  {
  }

  lemma SameLength(a: seq<Row>, b: seq<Row>)
    requires multiset(a) == multiset(b)
    ensures |a| == |b|
  {
    assert |multiset(a)| == |a| && |multiset(b)| == |b|;
  }

  /** The latest event of a file survives pruning unchanged when it is not older than the cutoff;
      when it is older, nothing of that file is left. */
  lemma PruneAndLatest(rows: seq<Row>, projectId: string, filePath: string, latest: Row, cutoff: string,
          out: seq<Row>)
    requires Answer(rows, LatestFilter(projectId, filePath), [latest])
    ensures KeptBy(latest, cutoff) ==>
      (Answer(Prune(rows, cutoff), LatestFilter(projectId, filePath), out) <==>
       Answer(rows, LatestFilter(projectId, filePath), out))
    ensures !KeptBy(latest, cutoff) ==>
      (Answer(Prune(rows, cutoff), LatestFilter(projectId, filePath), out) <==> out == [])
  {
    var f := LatestFilter(projectId, filePath);
    var all := Select(rows, f);
    var full: seq<Row> :| Ordered(all, full) && [latest] == Limited(full, f.limit);
    assert |full| > 0 && full[0] == latest;
    SelectPrune(rows, f, cutoff);
    PruneMembers(all, cutoff);
    assert latest in multiset(all);
    if KeptBy(latest, cutoff) {
      assert latest in Prune(all, cutoff);
      PruneKeepsEnough(rows, f, cutoff, out);
    } else {
      forall r | r in all
        ensures !KeptBy(r, cutoff)
      {
        assert r in multiset(full);
        var k :| 0 <= k < |full| && full[k] == r;
        LessTrichotomy(latest.timestamp, r.timestamp);
        if k > 0 && Less(r.timestamp, latest.timestamp) { LessTransitive(r.timestamp, latest.timestamp, cutoff); }
      }
      NoneKept(all, cutoff);
      SortOrders([]);
      assert Ordered([], []) && Limited([], f.limit) == [];
      assert Answer(Prune(rows, cutoff), f, []);
      if Answer(Prune(rows, cutoff), f, out) {
        var kept: seq<Row> :| Ordered(Prune(all, cutoff), kept) && out == Limited(kept, f.limit);
        SameLength(Prune(all, cutoff), kept);
      }
    }
  }

  // ----- the store -----

  /** Reading rows back, stopping at the first that cannot be read. */
  function ReadRows(rows: seq<Row>): Result<seq<FileEvent>> {
    if rows == [] then Success([])
    else
      match FromRow(rows[0])
      case Failure(x) => Failure(x)
      case Success(e) =>
        match ReadRows(rows[1..])
        case Failure(x) => Failure(x)
        case Success(rest) => Success([e] + rest)
  }

  function ReadFirst(out: seq<Row>): Result<Option<FileEvent>> {
    if out == [] then Success(None)
    else
      match FromRow(out[0])
      case Failure(x) => Failure(x)
      case Success(e) => Success(Some(e))
  }

  /** Readable rows in front are read one by one. */
  lemma {:induction false} ReadGood(done: seq<Row>, r: Row)
    requires ReadRows(done).Success? && FromRow(r).Success?
    ensures ReadRows(done + [r]) == Success(ReadRows(done).value + [FromRow(r).value])
  {
    if done == [] {
      assert done + [r] == [r] && [r][1..] == [];
      assert ReadRows([]) == Success([]);
      assert [FromRow(r).value] + [] == [] + [FromRow(r).value];
    } else {
      ReadGood(done[1..], r);
      assert (done + [r])[1..] == done[1..] + [r];
      Assoc([FromRow(done[0]).value], ReadRows(done[1..]).value, [FromRow(r).value]);
    }
  }

  /** The first unreadable row decides. */
  lemma {:induction false} ReadBad(rows: seq<Row>, i: nat)
    requires i < |rows| && ReadRows(rows[..i]).Success? && FromRow(rows[i]).Failure?
    ensures ReadRows(rows) == Failure(FromRow(rows[i]).error)
    decreases i
  {
    if i > 0 {
      assert rows[..i][1..] == rows[1..][..i - 1];
      ReadBad(rows[1..], i - 1);
    }
  }

  /** A query succeeds exactly when every row it selects can be read: one bad row fails it. */
  lemma {:induction false} OneBadRowFails(rows: seq<Row>)
    ensures ReadRows(rows).Success? <==> forall r | r in rows :: FromRow(r).Success?
  {
    if rows != [] {
      OneBadRowFails(rows[1..]);
      AllOfCons(rows);
    }
  }

  lemma AllOfCons(rows: seq<Row>)
    requires rows != []
    ensures (forall r | r in rows :: FromRow(r).Success?) <==>
            FromRow(rows[0]).Success? && forall r | r in rows[1..] :: FromRow(r).Success?
  {
    assert rows == [rows[0]] + rows[1..];
  }

  ghost predicate AllValid(events: seq<FileEvent>) {
    forall i | 0 <= i < |events| :: Valid(events[i].timestamp)
  }

  /** The rows of a list of insertions, with consecutive ids. */
  function RowsOf(firstId: nat, events: seq<FileEvent>): (rows: seq<Row>)
    requires AllValid(events)
    ensures |rows| == |events|
    ensures forall i | 0 <= i < |rows| :: rows[i] == ToRow(firstId + i, events[i])
  {
    seq(|events|, i requires 0 <= i < |events| && Valid(events[i].timestamp) => ToRow(firstId + i, events[i]))
  }

  lemma NextRow(first: nat, events: seq<FileEvent>, i: nat)
    requires AllValid(events) && i < |events|
    ensures RowsOf(first, events)[..i + 1] == RowsOf(first, events)[..i] + [ToRow(first + i, events[i])]
  {
    assert RowsOf(first, events)[i] == ToRow(first + i, events[i]);
  }

  class EventStore {
    var rows: seq<Row>
    var nextId: nat

    constructor ()
      ensures rows == [] && nextId == 1
    {
      rows, nextId := [], 1;
    }

    method Insert(e: FileEvent) returns (id: nat)
      requires Valid(e.timestamp)
      modifies this
      ensures id == old(nextId) && nextId == id + 1
      ensures rows == old(rows) + [ToRow(id, e)]
    {
      id := nextId;
      rows, nextId := rows + [ToRow(id, e)], nextId + 1;
    }

    /** One transaction: the rows appear together when the loop has ended. */
    method InsertBatch(events: seq<FileEvent>) returns (ids: seq<nat>)
      requires AllValid(events)
      modifies this
      ensures rows == old(rows) + RowsOf(old(nextId), events) && nextId == old(nextId) + |events|
      ensures |ids| == |events| && forall i | 0 <= i < |ids| :: ids[i] == old(nextId) + i
    {
      var first := nextId;
      var pending;
      pending, ids := MakeRows(first, events);
      rows, nextId := rows + pending, first + |events|;
    }

    static method MakeRows(first: nat, events: seq<FileEvent>) returns (pending: seq<Row>, ids: seq<nat>)
      requires AllValid(events)
      ensures pending == RowsOf(first, events)
      ensures |ids| == |events| && forall i | 0 <= i < |ids| :: ids[i] == first + i
    {
      pending, ids := [], [];
      for i := 0 to |events|
        invariant pending == RowsOf(first, events)[..i]
        invariant |ids| == i && forall j | 0 <= j < i :: ids[j] == first + j
      {
        NextRow(first, events, i);
        var row := ToRow(first + i, events[i]);
        pending, ids := pending + [row], ids + [first + i];
      }
    }

    /** Answers with the rows of some permitted order, read back one by one. */
    method Query(f: EventFilter) returns (r: Result<seq<FileEvent>>)
      requires SoundFilter(f)
      ensures exists out :: Answer(rows, f, out) && r == ReadRows(out)
    {
      var out := Limited(SortDescending(Select(rows, f)), f.limit);
      SortAnswers(rows, f);
      r := ReadBack(out);
    }

    static method ReadBack(out: seq<Row>) returns (r: Result<seq<FileEvent>>)
      ensures r == ReadRows(out)
    {
      var events: seq<FileEvent> := [];
      for i := 0 to |out|
        invariant ReadRows(out[..i]) == Success(events)
      {
        assert out[..i + 1] == out[..i] + [out[i]];
        var read := FromRow(out[i]);
        if read.Failure? {
          ReadBad(out, i);
          return Failure(read.error);
        }
        ReadGood(out[..i], out[i]);
        events := events + [read.value];
      }
      assert out[..|out|] == out;
      r := Success(events);
    }

    /** The first row of the file's events in descending order, if any. */
    method GetLatest(projectId: string, filePath: string) returns (r: Result<Option<FileEvent>>)
      ensures exists out :: Answer(rows, LatestFilter(projectId, filePath), out) && r == ReadFirst(out)
      ensures r == Success(None) <==> forall row | row in rows :: !OfFile(row, projectId, filePath)
      ensures r != Success(None) ==>
                exists row :: LatestRow(rows, projectId, filePath, row) &&
                  match FromRow(row) case Success(e) => r == Success(Some(e)) case Failure(x) => r == Failure(x)
      ensures Written(rows) ==> r.Success? && (r.value.Some? ==>
                var e := r.value.value;
                && e.projectId == projectId && e.filePath == filePath
                && forall row | row in rows && OfFile(row, projectId, filePath) ::
                     FromRow(row).Success? && !Before(e.timestamp, FromRow(row).value.timestamp))
    {
      var f := LatestFilter(projectId, filePath);
      var out := Limited(SortDescending(Select(rows, f)), f.limit);
      SortAnswers(rows, f);
      LatestMeaning(rows, projectId, filePath, out);
      if Written(rows) && out != [] { LatestIsLatest(rows, projectId, filePath, out, out); }
      r := ReadFirst(out);
    }

    /** Deletes row by row. What is left keeps its order and its repetitions; among rows this store
        has written, it is the events not before the cutoff. */
    method PruneEventsBefore(cutoff: DateTime) returns (deleted: nat)
      requires Valid(cutoff)
      modifies this`rows
      ensures rows == Prune(old(rows), Format(cutoff)) && |rows| + deleted == |old(rows)|
      ensures forall r :: multiset(rows)[r] == if Less(r.timestamp, Format(cutoff)) then 0 else multiset(old(rows))[r]
      ensures forall r | r in old(rows) && WrittenRow(r) :: r in rows <==> Reaches(FromRow(r).value.timestamp, cutoff)
    {
      var text := Format(cutoff);
      var i := 0;
      deleted := 0;
      while i < |rows|
        invariant i <= |rows| && |rows| + deleted == |old(rows)|
        invariant Prune(old(rows), text) == rows[..i] + Prune(rows[i..], text)
        decreases |rows| - i
      {
        PruneNext(rows, i, text);
        if Less(rows[i].timestamp, text) {
          rows := rows[..i] + rows[i + 1..];
          deleted := deleted + 1;
        } else {
          i := i + 1;
        }
      }
      assert rows[..i] + Prune(rows[i..], text) == rows;
      PruneCountsAll(old(rows), text);
      PruneReaches(old(rows), cutoff);
    }
  }

  lemma PruneCountsAll(rows: seq<Row>, text: string)
    ensures forall r :: multiset(Prune(rows, text))[r] == if Less(r.timestamp, text) then 0 else multiset(rows)[r]
  {
    forall r ensures multiset(Prune(rows, text))[r] == if Less(r.timestamp, text) then 0 else multiset(rows)[r] {
      PruneCounts(rows, text, r);
    }
  }

  lemma PruneReaches(rows: seq<Row>, cutoff: DateTime)
    requires Valid(cutoff)
    ensures forall r | r in rows && WrittenRow(r) ::
              r in Prune(rows, Format(cutoff)) <==> Reaches(FromRow(r).value.timestamp, cutoff)
  {
    PruneMembers(rows, Format(cutoff));
    forall r | r in rows && WrittenRow(r)
      ensures r in Prune(rows, Format(cutoff)) <==> Reaches(FromRow(r).value.timestamp, cutoff)
    {
      RowReaches(r, cutoff);
    }
  }

  /** Where the loop stands after row i is deleted or passed over. */
  lemma PruneNext(rows: seq<Row>, i: nat, text: string)
    requires i < |rows|
    ensures var cut := rows[..i] + rows[i + 1..];
            Less(rows[i].timestamp, text) ==> rows[..i] + Prune(rows[i..], text) == cut[..i] + Prune(cut[i..], text)
    ensures !Less(rows[i].timestamp, text) ==>
              rows[..i] + Prune(rows[i..], text) == rows[..i + 1] + Prune(rows[i + 1..], text)
  {
    PruneHead(rows[i..], text);
    assert rows[i..][1..] == rows[i + 1..];
    var cut := rows[..i] + rows[i + 1..];
    assert cut[..i] == rows[..i] && cut[i..] == rows[i + 1..];
    Assoc(rows[..i], [rows[i]], Prune(rows[i + 1..], text));
    assert rows[..i] + [rows[i]] == rows[..i + 1];
  }

  lemma WrittenIffStorable(id: nat, e: FileEvent, r: Row)
    requires Valid(e.timestamp) && r == ToRow(id, e)
    ensures WrittenRow(r) <==> Storable(e)
  {
    RowRoundTrip(id, e);
  }

  lemma WrittenAt(firstId: nat, events: seq<FileEvent>, i: nat, r: Row)
    requires AllValid(events) && i < |events| && r == RowsOf(firstId, events)[i]
    ensures WrittenRow(r) <==> Storable(events[i])
  {
    WrittenIffStorable(firstId + i, events[i], r);
  }

  lemma WrittenBatch(firstId: nat, events: seq<FileEvent>)
    requires AllValid(events)
    ensures Written(RowsOf(firstId, events)) <==> AllStorable(events)
  {
    var added := RowsOf(firstId, events);
    if Written(added) {
      forall i | 0 <= i < |events| ensures Storable(events[i]) {
        assert WrittenRow(added[i]);
        WrittenAt(firstId, events, i, added[i]);
      }
    }
    if AllStorable(events) {
      forall i | 0 <= i < |added| ensures WrittenRow(added[i]) {
        assert Storable(events[i]);
        WrittenAt(firstId, events, i, added[i]);
      }
    }
  }

  lemma WrittenConcat(a: seq<Row>, b: seq<Row>)
    ensures Written(a + b) <==> Written(a) && Written(b)
  {
    if Written(a + b) {
      forall i | 0 <= i < |a| ensures WrittenRow(a[i]) { assert (a + b)[i] == a[i]; }
      forall i | 0 <= i < |b| ensures WrittenRow(b[i]) { assert (a + b)[|a| + i] == b[i]; }
    }
  }

  /** Adding the rows of a batch keeps every row readable if and only if all its events are of years
      0 to 9999. */
  lemma BatchKeepsWritten(rows: seq<Row>, firstId: nat, events: seq<FileEvent>)
    requires Written(rows) && AllValid(events)
    ensures Written(rows + RowsOf(firstId, events)) <==> AllStorable(events)
  {
    WrittenBatch(firstId, events);
    WrittenConcat(rows, RowsOf(firstId, events));
  }

  ghost predicate AllStorable(events: seq<FileEvent>) {
    forall i | 0 <= i < |events| :: Storable(events[i])
  }

  /** A store filled with storable events answers with those events: read back without error,
      selected by time, latest first, all of them when there is no limit. */
  lemma QueryMeansTime(firstId: nat, events: seq<FileEvent>, f: EventFilter, out: seq<Row>)
    requires AllStorable(events) && SoundFilter(f)
    requires Answer(RowsOf(firstId, events), f, out)
    ensures ReadRows(out).Success? && |ReadRows(out).value| == |out|
    ensures var found := ReadRows(out).value;
            && (forall i | 0 <= i < |found| :: found[i] in events && MatchesEvent(found[i], f))
            && (forall i, j | 0 <= i < j < |found| :: !Before(found[i].timestamp, found[j].timestamp))
            && (f.limit.None? ==> forall e | e in events && MatchesEvent(e, f) :: e in found)
  {
    var full: seq<Row> :| Ordered(Select(RowsOf(firstId, events), f), full) && out == Limited(full, f.limit);
    AnsweredRows(firstId, events, f, full, out);
    ReadAll(out);
    forall i, j | 0 <= i < j < |out|
      ensures !Before(ReadRows(out).value[i].timestamp, ReadRows(out).value[j].timestamp)
    {
      assert LaterFirst(out[i], out[j]);
    }
    forall e | f.limit.None? && e in events && MatchesEvent(e, f)
      ensures e in ReadRows(out).value
    {
      AnswerHasMatch(firstId, events, f, e, full);
    }
  }

  lemma AnswerHasMatch(firstId: nat, events: seq<FileEvent>, f: EventFilter, e: FileEvent, full: seq<Row>)
    requires AllStorable(events) && SoundFilter(f)
    requires e in events && MatchesEvent(e, f)
    requires Ordered(Select(RowsOf(firstId, events), f), full)
    requires forall i | 0 <= i < |full| :: FromRow(full[i]).Success?
    ensures ReadRows(full).Success? && e in ReadRows(full).value
  {
    ReadAll(full);
    var r := MatchingRow(firstId, events, f, e);
    assert r in multiset(full);
    var k :| 0 <= k < |full| && full[k] == r;
    assert ReadRows(full).value[k] == e;
  }

  ghost predicate LaterFirst(a: Row, b: Row) {
    var x, y := FromRow(a), FromRow(b);
    x.Success? && y.Success? && !Before(x.value.timestamp, y.value.timestamp)
  }

  lemma AnsweredRows(firstId: nat, events: seq<FileEvent>, f: EventFilter, full: seq<Row>, out: seq<Row>)
    requires AllStorable(events) && SoundFilter(f)
    requires Ordered(Select(RowsOf(firstId, events), f), full) && out <= full
    ensures forall i | 0 <= i < |out| :: FromEvent(out[i], events, f)
    ensures forall i, j | 0 <= i < j < |out| :: LaterFirst(out[i], out[j])
  {
    forall i | 0 <= i < |out|
      ensures FromEvent(out[i], events, f)
    {
      assert out[i] == full[i] && full[i] in multiset(full);
      AnsweredRow(firstId, events, f, out[i]);
    }
    forall i, j | 0 <= i < j < |out|
      ensures LaterFirst(out[i], out[j])
    {
      assert !Less(full[i].timestamp, full[j].timestamp);
      assert FromEvent(out[i], events, f) && FromEvent(out[j], events, f);
      TextOrderIsTimeOrder(FromRow(out[i]).value.timestamp, FromRow(out[j]).value.timestamp);
    }
  }

  lemma MatchingRow(firstId: nat, events: seq<FileEvent>, f: EventFilter, e: FileEvent) returns (r: Row)
    requires AllStorable(events) && SoundFilter(f)
    requires e in events && MatchesEvent(e, f)
    ensures r in multiset(Select(RowsOf(firstId, events), f)) && FromRow(r) == Success(e)
  {
    var m :| 0 <= m < |events| && events[m] == e;
    r := RowsOf(firstId, events)[m];
    FilterMeansTime(r.id, e, f);
    RowRoundTrip(r.id, e);
    SelectMembers(RowsOf(firstId, events), f);
  }

  /** The row reads back as an event of the list that the filter means. */
  ghost predicate FromEvent(r: Row, events: seq<FileEvent>, f: EventFilter) {
    var e := FromRow(r);
    e.Success? && e.value in events && MatchesEvent(e.value, f) && Storable(e.value) && r == ToRow(r.id, e.value)
  }

  lemma AnsweredRow(firstId: nat, events: seq<FileEvent>, f: EventFilter, r: Row)
    requires AllStorable(events) && SoundFilter(f)
    requires r in multiset(Select(RowsOf(firstId, events), f))
    ensures FromEvent(r, events, f)
  {
    SelectMembers(RowsOf(firstId, events), f);
    var rows := RowsOf(firstId, events);
    assert r in Select(rows, f) && r in rows;
    var k :| 0 <= k < |rows| && rows[k] == r;
    var e := events[k];
    RowRoundTrip(r.id, e);
    FilterMeansTime(r.id, e, f);
  }

  lemma {:induction false} ReadAll(rows: seq<Row>)
    requires forall i | 0 <= i < |rows| :: FromRow(rows[i]).Success?
    ensures ReadRows(rows).Success? && |ReadRows(rows).value| == |rows|
    ensures forall i | 0 <= i < |rows| :: ReadRows(rows).value[i] == FromRow(rows[i]).value
  {
    if rows != [] {
      assert forall i | 0 <= i < |rows[1..]| :: rows[1..][i] == rows[i + 1];
      ReadAll(rows[1..]);
      ReadOneMore(rows);
    }
  }

  lemma ReadOneMore(rows: seq<Row>)
    requires rows != [] && forall i | 0 <= i < |rows| :: FromRow(rows[i]).Success?
    requires ReadRows(rows[1..]).Success? && |ReadRows(rows[1..]).value| == |rows| - 1
    requires forall i | 0 <= i < |rows| - 1 :: ReadRows(rows[1..]).value[i] == FromRow(rows[i + 1]).value
    ensures ReadRows(rows).Success? && |ReadRows(rows).value| == |rows|
    ensures forall i | 0 <= i < |rows| :: ReadRows(rows).value[i] == FromRow(rows[i]).value
  {
    var rest := ReadRows(rows[1..]).value;
    assert ReadRows(rows) == Success([FromRow(rows[0]).value] + rest);
    forall i | 0 < i < |rows| ensures ReadRows(rows).value[i] == FromRow(rows[i]).value {
      assert ReadRows(rows).value[i] == rest[i - 1];
    }
  }
}
