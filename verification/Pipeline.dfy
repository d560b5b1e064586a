/** Analysis tasks that share a semaphore and the analysis cache, as interleaved steps of any number
    of tasks, with files changing underneath them. */
module Pipeline {
  import opened Text
  import opened Events
  import opened AnalysisCache
  import Analyzer

  // ----- tier 1 and tier 2 -----

  /** The tier-1 counts of a text. */
  function LineCount(content: string): nat {
    Analyzer.Lines(content) % Analyzer.TWO_TO_THE_32
  }

  function TodoCount(content: string): nat {
    Analyzer.Todos(content) % Analyzer.TWO_TO_THE_32
  }

  function Tier1(event: FileEvent, hash: string, content: string): FileAnalysis {
    FileAnalysis(event.filePath, event.projectId, hash, [], [], TodoCount(content), [], LineCount(content))
  }

  datatype ResponseHint = ResponseHint(line: nat, column: nat, severity: string, message: string, rule: Option<string>)

  datatype Response = Response(imports: seq<ImportRef>, exports: seq<string>, lintHints: seq<ResponseHint>)

  function HintOf(h: ResponseHint): LintHint {
    LintHint(h.line, h.column,
             if h.severity == "info" then Severity.Info
             else if h.severity == "error" then Severity.Error
             else Severity.Warning,
             h.message, h.rule)
  }

  /** The tier-1 analysis with the model's findings merged in. */
  function Enhanced(response: Response, base: FileAnalysis): FileAnalysis {
    base.(imports := response.imports, exports := response.exports,
          lintHints :=
              seq(|response.lintHints|, i requires 0 <= i < |response.lintHints| => HintOf(response.lintHints[i])))
  }

  /** Merging keeps the file, its hash and its counts, and takes imports, exports and hints from the model,
      a severity other than info and error becoming a warning. */
  lemma EnhancedMeaning(response: Response, base: FileAnalysis)
    ensures var e := Enhanced(response, base);
            && e.filePath == base.filePath && e.projectId == base.projectId && e.contentHash == base.contentHash
            && e.todoCount == base.todoCount && e.lineCount == base.lineCount
            && e.imports == response.imports && e.exports == response.exports
            && |e.lintHints| == |response.lintHints|
            && forall i | 0 <= i < |e.lintHints| ::
                 var from, to := response.lintHints[i], e.lintHints[i];
                 && to.line == from.line && to.column == from.column
                 && to.message == from.message && to.rule == from.rule
                 && (to.severity == Severity.Info <==> from.severity == "info")
                 && (to.severity == Severity.Error <==> from.severity == "error")
  {
  }

  // ----- the state machine -----

  datatype Phase =
    | Started
    | Waiting                              // found no fresh row, waiting for a permit
    | Holding                              // has a permit
    | Analyzed(analysis: FileAnalysis)     // has read and counted, still has the permit
    | Cached(analysis: FileAnalysis)       // row written, still has the permit
    | Released(analysis: FileAnalysis)     // permit returned
    | Merged(analysis: FileAnalysis)       // tier 2 merged in
    | Done

  datatype Task = Task(event: FileEvent, phase: Phase)

  /** A content as it was read, by a task whose event named the hash. */
  datatype Reading = Reading(key: Key, hash: string, content: string)

  datatype State = State(
    files: map<Key, string>,
    rows: seq<FileAnalysis>,
    free: nat,
    tasks: seq<Task>,
    readings: seq<Reading>)

  function Initial(maxConcurrent: nat): State {
    State(map[], [], maxConcurrent, [], [])
  }

  datatype Action =
    | Write(key: Key, content: string)
    | Schedule(event: FileEvent)
    | Check(task: nat, lookedUp: bool)      // the cache may fail to answer
    | Acquire(task: nat)
    | Analyze(task: nat)
    | Fail(task: nat)                       // unreadable, or too large
    | Put(task: nat, stored: bool)          // the write may fail
    | Release(task: nat)
    | Merge(task: nat, response: Response)
    | PutMerged(task: nat, stored: bool)
    | Finish(task: nat)

  function EventKey(e: FileEvent): Key {
    Key(e.projectId, e.filePath)
  }

  predicate Analyzable(e: FileEvent) {
    (e.eventType.Created? || e.eventType.Modified?) && e.contentHash.Some?
  }

  predicate Enabled(s: State, a: Action) {
    if a.Write? || a.Schedule? then true
    else
      a.task < |s.tasks| &&
      var t := s.tasks[a.task];
      match a
      case Check(_, _) => t.phase.Started?
      case Acquire(_) => t.phase.Waiting? && s.free > 0
      case Analyze(_) => t.phase.Holding? && Analyzable(t.event) && EventKey(t.event) in s.files
      case Fail(_) => t.phase.Holding?
      case Put(_, _) => t.phase.Analyzed?
      case Release(_) => t.phase.Cached?
      case Merge(_, _) => t.phase.Released?
      case PutMerged(_, _) => t.phase.Merged?
      case Finish(_) => t.phase.Released?
  }

  function Moved(s: State, task: nat, phase: Phase): State
    requires task < |s.tasks|
  {
    s.(tasks := s.tasks[task := s.tasks[task].(phase := phase)])
  }

  function Apply(s: State, a: Action): State
    requires Enabled(s, a)
  {
    match a
    case Write(key, content) => s.(files := s.files[key := content])
    case Schedule(event) => s.(tasks := s.tasks + [Task(event, Started)])
    case Check(i, lookedUp) =>
      var e := s.tasks[i].event;
      if !Analyzable(e) || (lookedUp && SelectFresh(s.rows, EventKey(e), e.contentHash.value).Some?)
      then Moved(s, i, Done)
      else Moved(s, i, Waiting)
    case Acquire(i) => Moved(s, i, Holding).(free := s.free - 1)
    case Analyze(i) =>
      var e := s.tasks[i].event;
      var content := s.files[EventKey(e)];
      Moved(s, i, Analyzed(Tier1(e, e.contentHash.value, content)))
        .(readings := s.readings + [Reading(EventKey(e), e.contentHash.value, content)])
    case Fail(i) => Moved(s, i, Done).(free := s.free + 1)
    case Put(i, stored) =>
      var analysis := s.tasks[i].phase.analysis;
      Moved(s, i, Cached(analysis)).(rows := if stored then Upsert(s.rows, analysis) else s.rows)
    case Release(i) => Moved(s, i, Released(s.tasks[i].phase.analysis)).(free := s.free + 1)
    case Merge(i, response) => Moved(s, i, Merged(Enhanced(response, s.tasks[i].phase.analysis)))
    case PutMerged(i, stored) =>
      Moved(s, i, Done).(rows := if stored then Upsert(s.rows, s.tasks[i].phase.analysis) else s.rows)
    case Finish(i) => Moved(s, i, Done)
  }

  predicate IsRun(s: State, actions: seq<Action>)
    decreases |actions|
  {
    actions != [] ==> Enabled(s, actions[0]) && IsRun(Apply(s, actions[0]), actions[1..])
  }

  function Run(s: State, actions: seq<Action>): State
    requires IsRun(s, actions)
    decreases |actions|
  {
    if actions == [] then s else Run(Apply(s, actions[0]), actions[1..])
  }

  // ----- permits -----

  function Permits(phase: Phase): nat {
    if phase.Holding? || phase.Analyzed? || phase.Cached? then 1 else 0
  }

  /** How many tasks hold a permit. */
  function Held(tasks: seq<Task>): nat {
    if tasks == [] then 0 else Permits(tasks[0].phase) + Held(tasks[1..])
  }

  lemma {:induction false} HeldUpdate(tasks: seq<Task>, i: nat, t: Task)
    requires i < |tasks|
    ensures Held(tasks[i := t]) == Held(tasks) - Permits(tasks[i].phase) + Permits(t.phase)
  {
    if i == 0 {
      assert tasks[i := t][1..] == tasks[1..];
    } else {
      assert tasks[i := t][1..] == tasks[1..][i - 1 := t];
      HeldUpdate(tasks[1..], i - 1, t);
    }
  }

  lemma {:induction false} HeldAppend(tasks: seq<Task>, t: Task)
    ensures Held(tasks + [t]) == Held(tasks) + Permits(t.phase)
  {
    if tasks == [] {
      assert [t][1..] == [] && tasks + [t] == [t];
    } else {
      assert (tasks + [t])[1..] == tasks[1..] + [t];
      HeldAppend(tasks[1..], t);
    }
  }

  lemma PermitStep(s: State, a: Action)
    requires Enabled(s, a)
    ensures Apply(s, a).free + Held(Apply(s, a).tasks) == s.free + Held(s.tasks)
  {
    var t := Apply(s, a);
    match a
    case Write(_, _) =>
    case Schedule(event) => HeldAppend(s.tasks, Task(event, Started));
    case _ => HeldUpdate(s.tasks, a.task, t.tasks[a.task]);
  }

  lemma {:induction false} PermitRun(s: State, actions: seq<Action>)
    requires IsRun(s, actions)
    ensures Run(s, actions).free + Held(Run(s, actions).tasks) == s.free + Held(s.tasks)
    decreases |actions|
  {
    if actions != [] {
      PermitStep(s, actions[0]);
      PermitRun(Apply(s, actions[0]), actions[1..]);
    }
  }

  /** Under every interleaving at most `maxConcurrent` tasks analyze at once, and permits are
      neither lost nor made, failed tasks included. */
  lemma PermitsConserved(maxConcurrent: nat, actions: seq<Action>)
    requires IsRun(Initial(maxConcurrent), actions)
    ensures var s := Run(Initial(maxConcurrent), actions);
            s.free + Held(s.tasks) == maxConcurrent && Held(s.tasks) <= maxConcurrent
  {
    PermitRun(Initial(maxConcurrent), actions);
  }

  // ----- rows -----

  /** The analysis has the tier-1 counts of a content read for its own file and hash. */
  predicate FromReading(readings: seq<Reading>, a: FileAnalysis) {
    exists r | r in readings :: ReadFor(r, a)
  }

  predicate ReadFor(r: Reading, a: FileAnalysis) {
    r.key == KeyOf(a) && r.hash == a.contentHash && a.todoCount == TodoCount(r.content)
        && a.lineCount == LineCount(r.content)
  }

  predicate HasAnalysis(phase: Phase) {
    phase.Analyzed? || phase.Cached? || phase.Released? || phase.Merged?
  }

  predicate Inv(s: State) {
    && Unique(s.rows)
    && (forall row | row in s.rows :: FromReading(s.readings, row))
    && (forall t | t in s.tasks && HasAnalysis(t.phase) :: FromReading(s.readings, t.phase.analysis))
  }

  lemma MoreReadings(readings: seq<Reading>, r: Reading, a: FileAnalysis)
    requires FromReading(readings, a)
    ensures FromReading(readings + [r], a)
  {
    var x: Reading :| x in readings && ReadFor(x, a);
    assert x in readings + [r];
  }

  lemma AnalyzeStep(s: State, i: nat)
    requires Inv(s) && Enabled(s, Analyze(i))
    ensures Inv(Apply(s, Analyze(i)))
  {
    var e := s.tasks[i].event;
    var r := Reading(EventKey(e), e.contentHash.value, s.files[EventKey(e)]);
    var u := Apply(s, Analyze(i));
    assert r in u.readings;
    forall row | row in u.rows ensures FromReading(u.readings, row) { MoreReadings(s.readings, r, row); }
    forall t | t in u.tasks && HasAnalysis(t.phase) ensures FromReading(u.readings, t.phase.analysis) {
      if t in s.tasks { MoreReadings(s.readings, r, t.phase.analysis); }
    }
  }

  lemma PutStep(s: State, analysis: FileAnalysis)
    requires Inv(s) && FromReading(s.readings, analysis)
    ensures Inv(s.(rows := Upsert(s.rows, analysis)))
  {
    UpsertIsUpdate(s.rows, analysis);
  }

  lemma MoveKeeps(s: State, i: nat, phase: Phase)
    requires Inv(s) && i < |s.tasks| && (HasAnalysis(phase) ==> FromReading(s.readings, phase.analysis))
    ensures Inv(Moved(s, i, phase))
  {
  }

  lemma StepKeeps(s: State, a: Action)
    requires Inv(s) && Enabled(s, a)
    ensures Inv(Apply(s, a))
  {
    match a
    case Write(_, _) =>
    case Schedule(_) =>
    case Analyze(i) => AnalyzeStep(s, i);
    case Put(i, stored) =>
      var analysis := s.tasks[i].phase.analysis;
      MoveKeeps(s, i, Cached(analysis));
      if stored { PutStep(Moved(s, i, Cached(analysis)), analysis); }
    case PutMerged(i, stored) =>
      MoveKeeps(s, i, Done);
      if stored { PutStep(Moved(s, i, Done), s.tasks[i].phase.analysis); }
    case Merge(i, response) =>
      var analysis := s.tasks[i].phase.analysis;
      var r: Reading :| r in s.readings && ReadFor(r, analysis);
      assert ReadFor(r, Enhanced(response, analysis));
      MoveKeeps(s, i, Merged(Enhanced(response, analysis)));
    case _ => MoveKeeps(s, a.task, Apply(s, a).tasks[a.task].phase);
  }

  lemma {:induction false} RunKeeps(s: State, actions: seq<Action>)
    requires Inv(s) && IsRun(s, actions)
    ensures Inv(Run(s, actions))
    decreases |actions|
  {
    if actions != [] {
      StepKeeps(s, actions[0]);
      RunKeeps(Apply(s, actions[0]), actions[1..]);
    }
  }

  /** Under every interleaving, tier-2 overwrites included, each file has at most one row, and each
      row carries the tier-1 counts of a content that was read for that file under that hash. */
  lemma RowsComeFromReadings(maxConcurrent: nat, actions: seq<Action>)
    requires IsRun(Initial(maxConcurrent), actions)
    ensures var s := Run(Initial(maxConcurrent), actions);
            Unique(s.rows) && forall row | row in s.rows :: FromReading(s.readings, row)
  {
    RunKeeps(Initial(maxConcurrent), actions);
  }

  /** Every task read the content its event had hashed. */
  ghost predicate ReadsMatch(readings: seq<Reading>, hashOf: string -> string) {
    forall r | r in readings :: hashOf(r.content) == r.hash
  }

  ghost predicate Injective(hashOf: string -> string) {
    forall x, y :: hashOf(x) == hashOf(y) ==> x == y
  }

  /** If each task reads the content its event hashed, every row's counts are the tier-1 analysis of
      the content with that row's hash: there is one, and it is the only one. */
  lemma RowsMatchTheirHash(maxConcurrent: nat, actions: seq<Action>, hashOf: string -> string, content: string)
    requires IsRun(Initial(maxConcurrent), actions) && Injective(hashOf)
    requires ReadsMatch(Run(Initial(maxConcurrent), actions).readings, hashOf)
    ensures var s := Run(Initial(maxConcurrent), actions);
            forall row | row in s.rows ::
              && (exists r | r in s.readings :: hashOf(r.content) == row.contentHash)
              && (hashOf(content) == row.contentHash ==>
                  row.todoCount == TodoCount(content) && row.lineCount == LineCount(content))
  {
    RowsComeFromReadings(maxConcurrent, actions);
    var s := Run(Initial(maxConcurrent), actions);
    forall row | row in s.rows
      ensures exists r | r in s.readings :: hashOf(r.content) == row.contentHash
      ensures hashOf(content) == row.contentHash ==>
                row.todoCount == TodoCount(content) && row.lineCount == LineCount(content)
    {
      var r: Reading :| r in s.readings && ReadFor(r, row);
      assert hashOf(r.content) == row.contentHash;
    }
  }

  /** When it does not: whatever the file holds when it is read is filed under the event's hash, and
      an event with that hash then finds it fresh. Whatever content was hashed, the row is its
      analysis exactly when the content read has the same counts, as it has when the content read
      is the one that was hashed. */
  lemma FiledUnderEventHash(s: State, i: nat, hashed: string, hashOf: string -> string)
    requires Inv(s) && Enabled(s, Analyze(i))
    ensures var event := s.tasks[i].event;
            var hash, read := event.contentHash.value, s.files[EventKey(event)];
            var row := SelectFresh(Apply(Apply(s, Analyze(i)), Put(i, true)).rows, EventKey(event), hash);
            && row == Some(Tier1(event, hash, read))
            && (row == Some(Tier1(event, hash, hashed)) <==>
                TodoCount(read) == TodoCount(hashed) && LineCount(read) == LineCount(hashed))
            && (Injective(hashOf) && hashOf(hashed) == hash && hashOf(read) == hash ==>
                row == Some(Tier1(event, hash, hashed)))
  {
    var event := s.tasks[i].event;
    UpsertIsUpdate(s.rows, Tier1(event, event.contentHash.value, s.files[EventKey(event)]));
  }

  /** Over any run: a row whose counts are not those of the content with its hash was written from a
      reading of its file that does not have that hash. */
  lemma WrongRowMeansMismatch(maxConcurrent: nat, actions: seq<Action>, hashOf: string -> string,
          row: FileAnalysis, hashed: string)
    requires IsRun(Initial(maxConcurrent), actions) && Injective(hashOf)
    requires row in Run(Initial(maxConcurrent), actions).rows && hashOf(hashed) == row.contentHash
    requires row.todoCount != TodoCount(hashed) || row.lineCount != LineCount(hashed)
    ensures exists r | r in Run(Initial(maxConcurrent), actions).readings ::
              ReadFor(r, row) && hashOf(r.content) != r.hash
  {
    RowsComeFromReadings(maxConcurrent, actions);
    var readings := Run(Initial(maxConcurrent), actions).readings;
    assert FromReading(readings, row);
    var r: Reading :| r in readings && ReadFor(r, row);
  }

  /** One task that has the only permit, for a file that now holds one line. */
  function HoldingOne(e: FileEvent): State {
    State(map[EventKey(e) := "x"], [], 0, [Task(e, Holding)], [])
  }

  lemma ReachesHolding(e: FileEvent)
    requires Analyzable(e)
    ensures var run := [Schedule(e), Write(EventKey(e), "x")] + [Check(0, true), Acquire(0)];
            IsRun(Initial(1), run) && Run(Initial(1), run) == HoldingOne(e)
  {
    var s0 := Initial(1);
    var s2 := Apply(Apply(s0, Schedule(e)), Write(EventKey(e), "x"));
    assert s2 == State(map[EventKey(e) := "x"], [], 1, [Task(e, Started)], []);
    assert Apply(s2, Check(0, true)) == s2.(tasks := [Task(e, Waiting)]);
    assert Apply(Apply(s2, Check(0, true)), Acquire(0)) == HoldingOne(e);
    Two(s2, Check(0, true), Acquire(0), []);
    assert [Check(0, true), Acquire(0)] + [] == [Check(0, true), Acquire(0)];
    Two(s0, Schedule(e), Write(EventKey(e), "x"), [Check(0, true), Acquire(0)]);
  }

  /** A file holding one line when it is read, although its event hashed the empty file: this reachable
      state files the one line under the hash of the empty file. */
  lemma ChangedFileIsMisfiled(e: FileEvent)
    requires Analyzable(e)
    ensures var s, hash := HoldingOne(e), e.contentHash.value;
            && Enabled(s, Analyze(0))
            && SelectFresh(Apply(Apply(s, Analyze(0)), Put(0, true)).rows, EventKey(e), hash) ==
                 Some(Tier1(e, hash, "x"))
            && Tier1(e, hash, "x") != Tier1(e, hash, "")
  {
    FiledUnderEventHash(HoldingOne(e), 0, "", _ => "");
    OneLine();
  }

  lemma OneLine()
    ensures LineCount("") == 0 && LineCount("x") == 1
  {
    Analyzer.LinesAreNewlines("");
    Analyzer.LinesAreNewlines("x");
    assert Analyzer.Newlines("x") == Analyzer.Newlines("");
  }

  /** What a check finds fresh stays out of the analysis: the task ends, and no row changes. */
  lemma FreshIsSkipped(s: State, i: nat)
    requires Inv(s) && Enabled(s, Check(i, true)) && Analyzable(s.tasks[i].event)
    ensures var event := s.tasks[i].event;
            var t := Apply(s, Check(i, true));
            t.rows == s.rows && t.free == s.free &&
            (t.tasks[i].phase == Done <==>
             exists row | row in s.rows :: KeyOf(row) == EventKey(event) && row.contentHash == event.contentHash.value)
  {
    var event := s.tasks[i].event;
    var r := Select(s.rows, EventKey(event));
    if r.Some? {
      forall row | row in s.rows && KeyOf(row) == EventKey(event) ensures row == r.value {
        var j: nat :| j < |s.rows| && s.rows[j] == row;
        var k: nat :| k < |s.rows| && s.rows[k] == r.value;
        assert j == k;
      }
    }
  }

  // ----- one undisturbed call -----

  /** What one call returns, given what reading the file yields, if it can be read. */
  function Result(rows: seq<FileAnalysis>, event: FileEvent, content: Option<string>): Option<FileAnalysis> {
    if !Analyzable(event) || SelectFresh(rows, EventKey(event), event.contentHash.value).Some? || content.None?
    then None
    else Some(Tier1(event, event.contentHash.value, content.value))
  }

  function RowsAfter(rows: seq<FileAnalysis>, result: Option<FileAnalysis>): seq<FileAnalysis> {
    if result.None? then rows else Upsert(rows, result.value)
  }

  lemma Two(s: State, a: Action, b: Action, rest: seq<Action>)
    requires Enabled(s, a) && Enabled(Apply(s, a), b) && IsRun(Apply(Apply(s, a), b), rest)
    ensures IsRun(s, [a, b] + rest) && Run(s, [a, b] + rest) == Run(Apply(Apply(s, a), b), rest)
  {
    assert ([a, b] + rest)[1..] == [b] + rest;
    assert ([b] + rest)[1..] == rest;
  }

  /** A task that runs alone does what one call does, and leaves the permits as they were. */
  lemma SoloTask(s: State, i: nat)
    requires i < |s.tasks| && s.tasks[i].phase.Started? && s.free > 0 && EventKey(s.tasks[i].event) in s.files
    ensures var event := s.tasks[i].event;
            var result := Result(s.rows, event, Some(s.files[EventKey(event)]));
            var run := [Check(i, true)] +
              if result.None? then [] else [Acquire(i), Analyze(i), Put(i, true), Release(i)];
            IsRun(s, run) &&
            var t := Run(s, run);
            && t.rows == RowsAfter(s.rows, result) && t.free == s.free
            && t.tasks == s.tasks[i := Task(event, if result.None? then Done else Released(result.value))]
  {
    var event := s.tasks[i].event;
    var result := Result(s.rows, event, Some(s.files[EventKey(event)]));
    var s1 := Apply(s, Check(i, true));
    if result.Some? {
      var a := result.value;
      var s3 := Apply(Apply(s1, Acquire(i)), Analyze(i));
      assert s3.tasks == s.tasks[i := Task(event, Analyzed(a))] && s3.rows == s.rows && s3.free == s.free - 1;
      var s5 := Apply(Apply(s3, Put(i, true)), Release(i));
      assert s5.tasks == s.tasks[i := Task(event, Released(a))] && s5.rows == Upsert(s.rows, a) && s5.free == s.free;
      Two(s3, Put(i, true), Release(i), []);
      Two(s1, Acquire(i), Analyze(i), [Put(i, true), Release(i)] + []);
      assert [Acquire(i), Analyze(i), Put(i, true), Release(i)] ==
               [Acquire(i), Analyze(i)] + ([Put(i, true), Release(i)] + []);
      assert ([Check(i, true)] + [Acquire(i), Analyze(i), Put(i, true), Release(i)])[1..]
          == [Acquire(i), Analyze(i), Put(i, true), Release(i)];
    } else {
      assert ([Check(i, true)] + [])[1..] == [];
    }
  }

  /** What follows for a task that has its analysis: with an answer from the model, the row is overwritten by
      the merged analysis; without one, nothing more is stored. The permit is back already. */
  lemma SoloMerge(s: State, i: nat, response: Response)
    requires i < |s.tasks| && s.tasks[i].phase.Released?
    ensures var merge, base := [Merge(i, response), PutMerged(i, true)], s.tasks[i].phase.analysis;
            && IsRun(s, merge) && IsRun(s, [Finish(i)])
            && Run(s, merge) == s.(rows := Upsert(s.rows, Enhanced(response, base)),
                                   tasks := s.tasks[i := Task(s.tasks[i].event, Done)])
            && Run(s, [Finish(i)]) == s.(tasks := s.tasks[i := Task(s.tasks[i].event, Done)])
  {
    var t := Apply(Apply(s, Merge(i, response)), PutMerged(i, true));
    Two(s, Merge(i, response), PutMerged(i, true), []);
    assert [Merge(i, response), PutMerged(i, true)] + [] == [Merge(i, response), PutMerged(i, true)];
    assert t.tasks == s.tasks[i := Task(s.tasks[i].event, Done)];
    assert [Finish(i)][1..] == [];
  }

  class AnalysisPipeline {
    const cache: FileAnalysisCache
    var free: nat

    constructor (cache: FileAnalysisCache, maxConcurrent: nat)
      ensures this.cache == cache && free == maxConcurrent
    {
      this.cache := cache;
      free := maxConcurrent;
    }

    /** A call that gets its permit; `content` is what reading the file yields. */
    method AnalyzeFile(event: FileEvent, content: Option<string>) returns (r: Option<FileAnalysis>)
      requires Unique(cache.rows) && free > 0
      modifies this, cache
      ensures r == Result(old(cache.rows), event, content)
      ensures cache.rows == RowsAfter(old(cache.rows), r) && free == old(free)
      ensures r.Some? <==>
                && (event.eventType == Created || event.eventType == Modified)
                && event.contentHash.Some? && content.Some?
                && forall row | row in old(cache.rows) ::
                     row.projectId != event.projectId || row.filePath != event.filePath ||
                     row.contentHash != event.contentHash.value
      ensures r.Some? ==>
                && r.value.filePath == event.filePath && r.value.projectId == event.projectId
                && r.value.contentHash == event.contentHash.value
                && r.value.lineCount == Analyzer.Lines(content.value) % 0x1_0000_0000
                && r.value.todoCount == Analyzer.Todos(content.value) % 0x1_0000_0000
                && r.value.imports == [] && r.value.exports == [] && r.value.lintHints == []
      ensures r.Some? ==> Unique(cache.rows) && Stored(old(cache.rows), cache.rows, r.value)
      ensures r.None? ==> cache.rows == old(cache.rows)
    {
      if !(event.eventType.Created? || event.eventType.Modified?) || event.contentHash.None? {
        return None;
      }
      var found := cache.IsFresh(event.projectId, event.filePath, event.contentHash.value);
      if found {
        return None;
      }
      free := free - 1;
      if content.Some? {
        var lines := Analyzer.CountLines(content.value);
        var todos := Analyzer.CountTodos(content.value);
        var analysis :=
            FileAnalysis(event.filePath, event.projectId, event.contentHash.value, [], [], todos, [], lines);
        cache.Put(analysis);
        r := Some(analysis);
      } else {
        r := None;
      }
      free := free + 1;
    }

    /** Analyzes, then overwrites the row with the model's answer if there is one. */
    method DoAnalyze(event: FileEvent, content: Option<string>, response: Option<Response>)
      requires Unique(cache.rows) && free > 0
      modifies this, cache
      ensures var r := Result(old(cache.rows), event, content);
              cache.rows == if r.Some? && response.Some? then
                              Upsert(Upsert(old(cache.rows), r.value), Enhanced(response.value, r.value))
                            else RowsAfter(old(cache.rows), r)
      ensures free == old(free)
      ensures var r := Result(old(cache.rows), event, content);
              r.Some? ==> Stored(old(cache.rows), cache.rows,
                                 if response.Some? then Enhanced(response.value, r.value) else r.value)
    {
      var r := AnalyzeFile(event, content);
      if r.Some? && response.Some? {
        cache.Put(Enhanced(response.value, r.value));
      }
    }
  }
}
