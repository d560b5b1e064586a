/** Which agents are at work on which files: staleness, the most recent holder of a file, and
    reference counts that survive pruning. */
module Agents {
  import opened Text

  const TWO_TO_THE_32: nat := 0x1_0000_0000

  datatype AgentState = AgentState(
    files: seq<string>, lastSeen: int, intent: Option<string>, tool: Option<string>, session: Option<string>)

  /** One line of activity; `seen` is its timestamp in nanoseconds. */
  datatype Activity = Activity(
    seen: int, agent: string, file: string, intent: Option<string>, tool: Option<string>, session: Option<string>,
        done: bool)

  /** The reading of the clock taken for each agent in one pass over them. */
  type Clock = string -> int

  predicate Stale(state: AgentState, now: int, timeout: int) {
    now - state.lastSeen > timeout
  }

  predicate Holds(agents: map<string, AgentState>, file: string, clock: Clock, timeout: int, agent: string) {
    agent in agents && !Stale(agents[agent], clock(agent), timeout) && file in agents[agent].files
  }

  /** The answers allowed for a file: nobody if no fresh agent holds it, else a fresh holder that no
      fresh holder was seen after. */
  ghost predicate IsActiveAgent(agents: map<string, AgentState>, file: string, clock: Clock, timeout: int,
          r: Option<string>) {
    match r
    case None => forall a :: !Holds(agents, file, clock, timeout, a)
    case Some(best) =>
      && Holds(agents, file, clock, timeout, best)
      && forall a | Holds(agents, file, clock, timeout, a) :: agents[a].lastSeen <= agents[best].lastSeen
  }

  function Fresh(agents: map<string, AgentState>, clock: Clock, timeout: int): map<string, AgentState> {
    map a | a in agents && !Stale(agents[a], clock(a), timeout) :: agents[a]
  }

  // ----- one activity -----

  function Retain(files: seq<string>, file: string): (r: seq<string>)
    ensures file !in r && (forall f | f != file :: f in r <==> f in files)
  {
    if files == [] then [] else (if files[0] == file then [] else [files[0]]) + Retain(files[1..], file)
  }

  function Files(files: seq<string>, activity: Activity): seq<string> {
    if activity.done then Retain(files, activity.file)
    else if activity.file in files then files
    else files + [activity.file]
  }

  function Updated(agents: map<string, AgentState>, activity: Activity): map<string, AgentState> {
    var files := if activity.agent in agents then agents[activity.agent].files else [];
    agents[activity.agent :=
        AgentState(Files(files, activity), activity.seen, activity.intent, activity.tool, activity.session)]
  }

  function Counted(refs: map<string, nat>, file: string): map<string, nat> {
    refs[file := ((if file in refs then refs[file] else 0) + 1) % TWO_TO_THE_32]
  }

  /** What an activity does to the agents: the others stay as they were, and the acting one has the
      activity's fields, the files it had, and the activity's file unless it is done with it. */
  ghost predicate Acted(before: map<string, AgentState>, after: map<string, AgentState>, x: Activity) {
    && (forall b | b != x.agent :: (b in after <==> b in before) && (b in before ==> after[b] == before[b]))
    && x.agent in after
    && var s := after[x.agent];
       && s.lastSeen == x.seen && s.intent == x.intent && s.tool == x.tool && s.session == x.session
       && (forall f | f != x.file :: f in s.files <==> x.agent in before && f in before[x.agent].files)
       && (x.file in s.files <==> !x.done)
       && (!x.done ==> (if x.agent in before then before[x.agent].files else []) <= s.files)
       && (x.done && x.agent in before ==> AllInOrder(before[x.agent].files, s.files))
  }

  ghost predicate InOrder(files: seq<string>, f: string, g: string) {
    exists i, j | 0 <= i < j < |files| :: files[i] == f && files[j] == g
  }

  ghost predicate AllInOrder(files: seq<string>, part: seq<string>) {
    forall i, j | 0 <= i < j < |part| :: InOrder(files, part[i], part[j])
  }

  lemma InOrderCons(files: seq<string>, rest: seq<string>)
    requires files != [] && AllInOrder(files[1..], rest) && forall f | f in rest :: f in files[1..]
    ensures AllInOrder(files, rest) && AllInOrder(files, [files[0]] + rest)
  {
    forall i, j | 0 <= i < j < |rest| ensures InOrder(files, rest[i], rest[j]) {
      assert InOrder(files[1..], rest[i], rest[j]);
      var m, n :| 0 <= m < n < |files[1..]| && files[1..][m] == rest[i] && files[1..][n] == rest[j];
      assert files[m + 1] == rest[i] && files[n + 1] == rest[j];
    }
    forall j | 0 <= j < |rest| ensures InOrder(files, files[0], rest[j]) {
      assert rest[j] in files[1..];
      var n :| 0 <= n < |files[1..]| && files[1..][n] == rest[j];
      assert files[n + 1] == rest[j];
    }
  }

  lemma {:induction false} RetainInOrder(files: seq<string>, file: string)
    ensures AllInOrder(files, Retain(files, file))
    ensures forall f | f in Retain(files, file) :: f in files
  {
    if files != [] {
      RetainInOrder(files[1..], file);
      InOrderCons(files, Retain(files[1..], file));
      assert [] + Retain(files[1..], file) == Retain(files[1..], file);
    }
  }

  lemma ActivityMeaning(agents: map<string, AgentState>, x: Activity)
    ensures Acted(agents, Updated(agents, x), x)
  {
    if x.agent in agents { RetainInOrder(agents[x.agent].files, x.file); }
  }

  /** An agent just seen at work on a file, later than every other holder, is the file's only
      active agent; one that is done with it is not an answer. */
  lemma LatestActivityWins(agents: map<string, AgentState>, activity: Activity, clock: Clock, timeout: int,
          r: Option<string>)
    requires IsActiveAgent(Updated(agents, activity), activity.file, clock, timeout, r)
    ensures activity.done ==> r != Some(activity.agent)
    ensures !activity.done && clock(activity.agent) - activity.seen <= timeout &&
            (forall a | a in agents && a != activity.agent :: agents[a].lastSeen < activity.seen)
            ==> r == Some(activity.agent)
  {
    var after := Updated(agents, activity);
    if !activity.done && clock(activity.agent) - activity.seen <= timeout {
      assert Holds(after, activity.file, clock, timeout, activity.agent);
    }
  }

  // ----- pruning -----

  /** Some agent holds the file, and was stale, or fresh, when the clock was read for it. */
  predicate HeldByAny(agents: map<string, AgentState>, file: string, clock: Clock, timeout: int, stale: bool) {
    exists a | a in agents :: file in agents[a].files && Stale(agents[a], clock(a), timeout) == stale
  }

  function PrunedRefs(agents: map<string, AgentState>, refs: map<string, nat>, clock: Clock,
          timeout: int): map<string, nat> {
    map f | f in refs
        && !(HeldByAny(agents, f, clock, timeout, true) && !HeldByAny(agents, f, clock, timeout, false)) :: refs[f]
  }

  /** The second pass over the agents reads the clock after the first is done. */
  ghost predicate Later(first: Clock, second: Clock) {
    forall a, b :: first(a) <= second(b)
  }

  /** A file held by a surviving agent keeps its count. */
  lemma PruneKeepsCounts(agents: map<string, AgentState>, refs: map<string, nat>, first: Clock, second: Clock,
          timeout: int, file: string)
    requires Later(first, second)
    requires exists a | a in Fresh(agents, second, timeout) :: file in Fresh(agents, second, timeout)[a].files
    ensures file in PrunedRefs(agents, refs, first, timeout) <==> file in refs
    ensures file in refs ==> PrunedRefs(agents, refs, first, timeout)[file] == refs[file]
  {
    var a: string :| a in Fresh(agents, second, timeout) && file in Fresh(agents, second, timeout)[a].files;
    assert first(a) <= second(a);
    assert HeldByAny(agents, file, first, timeout, false);
  }

  /** A file that a surviving agent holds keeps its count if and only if some holder, survivor or
      not, was fresh in the first pass. */
  lemma SurvivorKeepsCountIff(agents: map<string, AgentState>, refs: map<string, nat>, first: Clock, second: Clock,
                              timeout: int, file: string)
    requires file in refs
    requires exists a | a in Fresh(agents, second, timeout) :: file in agents[a].files
    ensures file in PrunedRefs(agents, refs, first, timeout) <==>
            exists b | b in agents :: file in agents[b].files && !Stale(agents[b], first(b), timeout)
  {
    var a: string :| a in Fresh(agents, second, timeout) && file in agents[a].files;
    if !HeldByAny(agents, file, first, timeout, false) {
      assert Stale(agents[a], first(a), timeout);
      assert HeldByAny(agents, file, first, timeout, true);
    } else {
      var b: string :| b in agents && file in agents[b].files && Stale(agents[b], first(b), timeout) == false;
    }
  }

  /** When such a count is lost, the clock went backwards for every surviving holder: it was stale in
      the first pass and fresh in the second. */
  lemma LostCountMeansClockWentBack(agents: map<string, AgentState>, refs: map<string, nat>, first: Clock,
          second: Clock, timeout: int, file: string, a: string)
    requires a in Fresh(agents, second, timeout) && file in agents[a].files && file in refs
    requires file !in PrunedRefs(agents, refs, first, timeout)
    ensures second(a) < first(a) && Stale(agents[a], first(a), timeout)
  {
    assert !HeldByAny(agents, file, first, timeout, false);
  }

  /** One agent, last seen at 0 with a timeout of 10. Read at 11 and then at 10, it survives and its
      file loses its count; read at 5 and then at 4, the clock goes back too and the count stays. */
  lemma ClockBackLosesCount()
    ensures var agents := map["a" := AgentState(["f"], 0, None, None, None)];
            && "a" in Fresh(agents, _ => 10, 10) && "f" !in PrunedRefs(agents, map["f" := 1], _ => 11, 10)
            && "a" in Fresh(agents, _ => 4, 10) && "f" in PrunedRefs(agents, map["f" := 1], _ => 5, 10)
  {
    var agents := map["a" := AgentState(["f"], 0, None, None, None)];
    var late: Clock, early: Clock := _ => 11, _ => 5;
    assert "f" in agents["a"].files && Stale(agents["a"], late("a"), 10) && !Stale(agents["a"], early("a"), 10);
    assert HeldByAny(agents, "f", late, 10, true) && !HeldByAny(agents, "f", late, 10, false);
    assert HeldByAny(agents, "f", early, 10, false);
  }

  /** Pruning changes no answer that can be asked for at its own clock or any later one. */
  lemma PruneKeepsAnswers(agents: map<string, AgentState>, second: Clock, timeout: int, file: string,
          now: Clock, r: Option<string>)
    requires forall a :: second(a) <= now(a)
    ensures var pruned := Fresh(agents, second, timeout);
            && Fresh(pruned, now, timeout) == Fresh(agents, now, timeout)
            && (IsActiveAgent(pruned, file, now, timeout, r) <==> IsActiveAgent(agents, file, now, timeout, r))
  {
    var pruned := Fresh(agents, second, timeout);
    forall a ensures Holds(pruned, file, now, timeout, a) <==> Holds(agents, file, now, timeout, a) {}
    assert forall a :: a in pruned ==> pruned[a] == agents[a];
  }

  /** Exactly the files of those agents of a group that are stale, or fresh. */
  ghost predicate Collected(agents: map<string, AgentState>, seen: set<string>, clock: Clock, timeout: int,
          stale: bool, files: set<string>)
    requires seen <= agents.Keys
  {
    forall f :: f in files <==>
        exists a | a in seen :: f in agents[a].files && Stale(agents[a], clock(a), timeout) == stale
  }

  lemma CollectOne(agents: map<string, AgentState>, seen: set<string>, clock: Clock, timeout: int, stale: bool,
          files: set<string>, a: string)
    requires seen <= agents.Keys && a in agents && Collected(agents, seen, clock, timeout, stale, files)
    ensures Stale(agents[a], clock(a), timeout) == stale ==>
              Collected(agents, seen + {a}, clock, timeout, stale, files + (set f | f in agents[a].files))
    ensures Stale(agents[a], clock(a), timeout) != stale ==> Collected(agents, seen + {a}, clock, timeout, stale, files)
  {
    var all := if Stale(agents[a], clock(a), timeout) == stale then files + (set f | f in agents[a].files) else files;
    forall f ensures f in all <==>
        exists b | b in seen + {a} :: f in agents[b].files && Stale(agents[b], clock(b), timeout) == stale {
      if f in files {
        var b: string :| b in seen && f in agents[b].files && Stale(agents[b], clock(b), timeout) == stale;
        assert b in seen + {a};
      }
    }
  }

  lemma CollectedAll(agents: map<string, AgentState>, refs: map<string, nat>, clock: Clock, timeout: int,
          staleFiles: set<string>, freshFiles: set<string>)
    requires Collected(agents, agents.Keys, clock, timeout, true, staleFiles)
    requires Collected(agents, agents.Keys, clock, timeout, false, freshFiles)
    ensures (map f | f in refs && !(f in staleFiles && f !in freshFiles) :: refs[f]) ==
              PrunedRefs(agents, refs, clock, timeout)
  {
    forall f ensures f in staleFiles <==> HeldByAny(agents, f, clock, timeout, true) {}
    forall f ensures f in freshFiles <==> HeldByAny(agents, f, clock, timeout, false) {}
  }

  lemma FewerKeys(a: map<string, AgentState>, b: map<string, AgentState>)
    requires a.Keys <= b.Keys
    ensures |a| <= |b|
    decreases |b|
  {
    if b != map[] {
      var k: string :| k in b;
      assert |b - {k}| == |b| - 1 by { assert (b - {k}).Keys == b.Keys - {k}; }
      FewerKeys(a - {k}, b - {k});
      assert k in a ==> |a - {k}| == |a| - 1 by { assert (a - {k}).Keys == a.Keys - {k}; }
      assert k !in a ==> a - {k} == a;
    }
  }

  // ----- every run of lock sections -----

  /** The files held by the agents that were stale, or fresh, when the clock was read for them. */
  function FilesHeld(agents: map<string, AgentState>, clock: Clock, timeout: int, stale: bool): set<string> {
    set a, f | a in agents && f in agents[a].files && Stale(agents[a], clock(a), timeout) == stale :: f
  }

  /** One section of code under one lock: an activity's under `agents` and under `file_references`,
      and a prune's. The later section of a call names the earlier one by its place in the log. */
  datatype Entry =
    | Seen(agent: string, file: string, done: bool)
    | Count(call: nat, file: string)
    | Collect(staleFiles: set<string>, freshFiles: set<string>)
    | Reset(call: nat)

  /** The tracker, the sections run so far, and the calls that are between their two locks. */
  datatype World = World(
    agents: map<string, AgentState>,
    refs: map<string, nat>,
    log: seq<Entry>,
    updating: set<nat>,
    pruning: set<nat>)

  const INITIAL := World(map[], map[], [], {}, {})

  datatype Action =
    | UpdateAgents(activity: Activity)
    | UpdateRefs(call: nat)
    | PruneAgents(first: Clock, second: Clock)
    | PruneRefs(call: nat)

  /** The files whose counts a prune is about to remove. */
  function ResetBy(log: seq<Entry>, call: nat): set<string> {
    if call < |log| && log[call].Collect? then log[call].staleFiles - log[call].freshFiles else {}
  }

  /** A second section that no call is waiting for does nothing. */
  ghost function Apply(w: World, a: Action, timeout: int): World {
    match a
    case UpdateAgents(activity) =>
      w.(agents := Updated(w.agents, activity), updating := w.updating + {|w.log|},
         log := w.log + [Seen(activity.agent, activity.file, activity.done)])
    case UpdateRefs(i) =>
      if i in w.updating && i < |w.log| && w.log[i].Seen? then
        w.(refs := Counted(w.refs, w.log[i].file), updating := w.updating - {i},
          log := w.log + [Count(i, w.log[i].file)])
      else w
    case PruneAgents(first, second) =>
      w.(agents := Fresh(w.agents, second, timeout), pruning := w.pruning + {|w.log|},
         log := w.log +
           [Collect(FilesHeld(w.agents, first, timeout, true), FilesHeld(w.agents, first, timeout, false))])
    case PruneRefs(i) =>
      if i in w.pruning then
        w.(refs := w.refs - ResetBy(w.log, i), pruning := w.pruning - {i}, log := w.log + [Reset(i)])
      else w
  }

  ghost function Run(w: World, actions: seq<Action>, timeout: int): World
    decreases |actions|
  {
    if actions == [] then w else Run(Apply(w, actions[0], timeout), actions[1..], timeout)
  }

  ghost predicate Forwards(actions: seq<Action>) {
    forall a | a in actions && a.PruneAgents? :: Later(a.first, a.second)
  }

  /** How often the file has been counted since a prune last removed its count, one section later. */
  function CountsAfter(log: seq<Entry>, e: Entry, before: nat, file: string): nat {
    if e.Count? && e.file == file then before + 1
    else if e.Reset? && file in ResetBy(log, e.call) then 0
    else before
  }

  function CountsSince(log: seq<Entry>, file: string): nat {
    if log == [] then 0
    else
      var n := |log| - 1;
      CountsAfter(log[..n], log[n], CountsSince(log[..n], file), file)
  }

  lemma CountsSnoc(log: seq<Entry>, e: Entry, file: string)
    ensures CountsSince(log + [e], file) == CountsAfter(log, e, CountsSince(log, file), file)
  {
    assert (log + [e])[..|log|] == log;
  }

  predicate RefsOk(w: World, file: string) {
    && (file in w.refs <==> CountsSince(w.log, file) > 0)
    && (file in w.refs ==> w.refs[file] == CountsSince(w.log, file) % TWO_TO_THE_32)
  }

  predicate CallsOk(w: World) {
    (forall i | i in w.updating :: i < |w.log| && w.log[i].Seen?) && (forall i | i in w.pruning :: i < |w.log|)
  }

  lemma Wrap(n: nat)
    ensures (n % TWO_TO_THE_32 + 1) % TWO_TO_THE_32 == (n + 1) % TWO_TO_THE_32
  {
  }

  lemma CountStep(w: World, i: nat, timeout: int, file: string)
    requires RefsOk(w, file) && CallsOk(w) && i in w.updating
    ensures RefsOk(Apply(w, UpdateRefs(i), timeout), file)
  {
    CountsSnoc(w.log, Count(i, w.log[i].file), file);
    Wrap(CountsSince(w.log, file));
  }

  lemma ResetStep(w: World, i: nat, timeout: int, file: string)
    requires RefsOk(w, file) && CallsOk(w) && i in w.pruning
    ensures RefsOk(Apply(w, PruneRefs(i), timeout), file)
  {
    CountsSnoc(w.log, Reset(i), file);
  }

  lemma RefsStep(w: World, a: Action, timeout: int, file: string)
    requires RefsOk(w, file) && CallsOk(w)
    ensures RefsOk(Apply(w, a, timeout), file)
  {
    match a
    case UpdateRefs(i) => if i in w.updating { CountStep(w, i, timeout, file); }
    case PruneRefs(i) => if i in w.pruning { ResetStep(w, i, timeout, file); }
    case UpdateAgents(activity) => CountsSnoc(w.log, Seen(activity.agent, activity.file, activity.done), file);
    case PruneAgents(first, second) =>
      CountsSnoc(w.log,
          Collect(FilesHeld(w.agents, first, timeout, true), FilesHeld(w.agents, first, timeout, false)), file);
  }

  lemma CallsStep(w: World, a: Action, timeout: int)
    requires CallsOk(w)
    ensures CallsOk(Apply(w, a, timeout))
  {
  }

  /** After every run, whatever the interleaving and the clocks: a file has a count exactly when it
      has been counted since a prune last removed it, and the count is how often, in 32 bits. */
  lemma {:induction false} CountsFollowLog(w: World, actions: seq<Action>, timeout: int, file: string)
    requires RefsOk(w, file) && CallsOk(w)
    ensures RefsOk(Run(w, actions, timeout), file) && CallsOk(Run(w, actions, timeout))
    decreases |actions|
  {
    if actions != [] {
      RefsStep(w, actions[0], timeout, file);
      CallsStep(w, actions[0], timeout);
      CountsFollowLog(Apply(w, actions[0], timeout), actions[1..], timeout, file);
    }
  }

  /** How often the second section of call i has run. */
  function Finished(log: seq<Entry>, i: nat): nat {
    if log == [] then 0
    else
      var n := |log| - 1;
      Finished(log[..n], i) + if (log[n].Count? || log[n].Reset?) && log[n].call == i then 1 else 0
  }

  /** A call is waiting for its second section or has run it once. */
  predicate OnceOk(w: World, i: nat) {
    && (i in w.updating ==> i < |w.log| && w.log[i].Seen?)
    && (i in w.pruning ==> i < |w.log| && w.log[i].Collect?)
    && Finished(w.log, i) + (if i in w.updating || i in w.pruning then 1 else 0) ==
         if i < |w.log| && (w.log[i].Seen? || w.log[i].Collect?) then 1 else 0
  }

  predicate CountsOwnFile(log: seq<Entry>, k: nat) {
    k < |log| && log[k].Count? ==>
      log[k].call < k && log[log[k].call].Seen? && log[log[k].call].file == log[k].file
  }

  lemma FinishedSnoc(log: seq<Entry>, e: Entry, i: nat)
    ensures Finished(log + [e], i) == Finished(log, i) + if (e.Count? || e.Reset?) && e.call == i then 1 else 0
  {
    assert (log + [e])[..|log|] == log;
  }

  lemma OnceStep(w: World, a: Action, timeout: int, i: nat)
    requires CallsOk(w) && forall c: nat :: OnceOk(w, c)
    ensures OnceOk(Apply(w, a, timeout), i)
  {
    var t := Apply(w, a, timeout);
    assert OnceOk(w, i);
    if a.PruneRefs? { assert OnceOk(w, a.call); }
    if t.log != w.log { FinishedSnoc(w.log, t.log[|w.log|], i); }
  }

  ghost predicate OnceInv(w: World) {
    && CallsOk(w) && (forall i: nat :: OnceOk(w, i)) && forall k: nat :: CountsOwnFile(w.log, k)
  }

  /** In every run each activity and each prune runs its second section once, or has it still to run; and
      what an activity counts is its own file. */
  lemma CallsFinishOnce(actions: seq<Action>, timeout: int, i: nat)
    ensures var w := Run(INITIAL, actions, timeout);
            && Finished(w.log, i) + (if i in w.updating || i in w.pruning then 1 else 0) ==
                 (if i < |w.log| && (w.log[i].Seen? || w.log[i].Collect?) then 1 else 0)
            && (i < |w.log| && w.log[i].Count? ==>
                  w.log[i].call < i && w.log[w.log[i].call].Seen? && w.log[w.log[i].call].file == w.log[i].file)
  {
    assert forall k: nat :: OnceOk(INITIAL, k) && CountsOwnFile(INITIAL.log, k);
    OnceRun(INITIAL, actions, timeout);
    var w := Run(INITIAL, actions, timeout);
    assert OnceOk(w, i) && CountsOwnFile(w.log, i);
  }

  lemma {:induction false} OnceRun(w: World, actions: seq<Action>, timeout: int)
    requires OnceInv(w)
    ensures OnceInv(Run(w, actions, timeout))
    decreases |actions|
  {
    if actions != [] {
      var t := Apply(w, actions[0], timeout);
      CallsStep(w, actions[0], timeout);
      forall i: nat ensures OnceOk(t, i) { OnceStep(w, actions[0], timeout, i); }
      forall k: nat ensures CountsOwnFile(t.log, k) { assert CountsOwnFile(w.log, k); }
      OnceRun(t, actions[1..], timeout);
    }
  }

  predicate Distinct(files: seq<string>) {
    forall i, j | 0 <= i < j < |files| :: files[i] != files[j]
  }

  predicate OnFile(w: World, a: string, file: string) {
    a in w.agents && file in w.agents[a].files
  }

  /** The agent took the file up in section k, and that call has still to count it. */
  predicate Uncounted(w: World, a: string, file: string, k: nat) {
    k < |w.log| && w.log[k] == Seen(a, file, false) && k in w.updating
  }

  /** The agent took the file up in section k, and then a prune that had collected it from stale
      agents only removed its count: `overlap` says that k came between the prune's two sections. */
  predicate ResetAfter(w: World, a: string, file: string, i: nat, k: nat, j: nat, overlap: bool) {
    && k < j < |w.log| && (overlap ==> i < k)
    && w.log[k] == Seen(a, file, false) && w.log[j] == Reset(i) && file in ResetBy(w.log, i)
  }

  ghost predicate Excused(w: World, a: string, file: string, overlap: bool) {
    || (exists k: nat :: Uncounted(w, a, file, k))
    || (exists i: nat, k: nat, j: nat :: ResetAfter(w, a, file, i, k, j, overlap))
  }

  /** The agent has taken the file up after section i. */
  predicate TookUpSince(w: World, a: string, file: string, i: int) {
    exists k: nat | i < k < |w.log| :: w.log[k] == Seen(a, file, false)
  }

  /** `overlap` is claimed for runs whose prunes read the clock forwards. */
  ghost predicate HolderOk(w: World, a: string, file: string, overlap: bool) {
    OnFile(w, a, file) ==>
      && TookUpSince(w, a, file, -1)
      && (file in w.refs || Excused(w, a, file, overlap))
      && (overlap ==> forall i | i in w.pruning && file in ResetBy(w.log, i) :: TookUpSince(w, a, file, i))
  }

  ghost predicate AgentOk(w: World, a: string, overlap: bool) {
    CallsOk(w) && (a in w.agents ==> Distinct(w.agents[a].files)) && forall file :: HolderOk(w, a, file, overlap)
  }

  lemma {:induction false} RetainDistinct(files: seq<string>, file: string)
    requires Distinct(files)
    ensures Distinct(Retain(files, file))
  {
    if files != [] {
      RetainDistinct(files[1..], file);
      assert files[0] !in files[1..];
      var r := Retain(files[1..], file);
      if files[0] != file {
        assert files[0] !in r;
        assert Retain(files, file) == [files[0]] + r;
      } else {
        assert Retain(files, file) == r;
      }
    }
  }

  /** What is in the log stays as it is. */
  lemma LogGrows(w: World, a: Action, timeout: int)
    ensures w.log <= Apply(w, a, timeout).log
    ensures forall i: nat | i < |w.log| :: ResetBy(Apply(w, a, timeout).log, i) == ResetBy(w.log, i)
  {
  }

  lemma StillTookUp(w: World, t: World, a: string, file: string, i: int)
    requires TookUpSince(w, a, file, i) && w.log <= t.log
    ensures TookUpSince(t, a, file, i)
  {
    var k: nat :| i < k < |w.log| && w.log[k] == Seen(a, file, false);
    assert t.log[k] == Seen(a, file, false);
  }

  /** An excuse lasts until the waiting call counts the file. */
  lemma StillExcused(w: World, action: Action, timeout: int, a: string, file: string, overlap: bool)
    requires CallsOk(w) && Excused(w, a, file, overlap)
    ensures var t := Apply(w, action, timeout); file in t.refs || Excused(t, a, file, overlap)
  {
    var t := Apply(w, action, timeout);
    LogGrows(w, action, timeout);
    if i: nat, k: nat, j: nat :| ResetAfter(w, a, file, i, k, j, overlap) {
      assert ResetAfter(t, a, file, i, k, j, overlap);
    } else {
      var k: nat :| Uncounted(w, a, file, k);
      if action == UpdateRefs(k) {
        assert file in t.refs;
      } else {
        assert Uncounted(t, a, file, k);
      }
    }
  }

  /** What a step leaves standing for an agent that stays on the file. */
  lemma StillHeld(w: World, action: Action, timeout: int, a: string, file: string, overlap: bool)
    requires CallsOk(w) && HolderOk(w, a, file, overlap) && OnFile(w, a, file)
    ensures var t := Apply(w, action, timeout);
            && TookUpSince(t, a, file, -1)
            && (Excused(w, a, file, overlap) ==> file in t.refs || Excused(t, a, file, overlap))
            && (overlap ==> forall i | i in w.pruning && file in ResetBy(w.log, i) :: TookUpSince(t, a, file, i))
  {
    var t := Apply(w, action, timeout);
    LogGrows(w, action, timeout);
    StillTookUp(w, t, a, file, -1);
    if Excused(w, a, file, overlap) { StillExcused(w, action, timeout, a, file, overlap); }
    if overlap {
      forall i | i in w.pruning && file in ResetBy(w.log, i) ensures TookUpSince(t, a, file, i) {
        StillTookUp(w, t, a, file, i);
      }
    }
  }

  lemma UpdateStep(w: World, activity: Activity, timeout: int, a: string, file: string, overlap: bool)
    requires CallsOk(w) && HolderOk(w, a, file, overlap)
    ensures HolderOk(Apply(w, UpdateAgents(activity), timeout), a, file, overlap)
  {
    var t := Apply(w, UpdateAgents(activity), timeout);
    LogGrows(w, UpdateAgents(activity), timeout);
    if OnFile(t, a, file) {
      if OnFile(w, a, file) {
        StillHeld(w, UpdateAgents(activity), timeout, a, file, overlap);
      } else {
        assert t.log[|w.log|] == Seen(a, file, false) && Uncounted(t, a, file, |w.log|);
      }
    }
  }

  lemma RefsSectionStep(w: World, action: Action, timeout: int, a: string, file: string, overlap: bool)
    requires CallsOk(w) && HolderOk(w, a, file, overlap) && (action.UpdateRefs? || action.PruneRefs?)
    ensures HolderOk(Apply(w, action, timeout), a, file, overlap)
  {
    var t := Apply(w, action, timeout);
    LogGrows(w, action, timeout);
    if OnFile(t, a, file) {
      StillHeld(w, action, timeout, a, file, overlap);
      if !Excused(w, a, file, overlap) && file !in t.refs {
        var from: int := if overlap then action.call else -1;
        var k: nat :| from < k < |w.log| && w.log[k] == Seen(a, file, false);
        assert ResetAfter(t, a, file, action.call, k, |w.log|, overlap);
      }
    }
  }

  /** With the clock read forwards, no survivor holds a file the prune is about to reset. */
  lemma PruneStep(w: World, first: Clock, second: Clock, timeout: int, a: string, file: string, overlap: bool)
    requires CallsOk(w) && HolderOk(w, a, file, overlap) && (overlap ==> Later(first, second))
    ensures HolderOk(Apply(w, PruneAgents(first, second), timeout), a, file, overlap)
  {
    var t := Apply(w, PruneAgents(first, second), timeout);
    LogGrows(w, PruneAgents(first, second), timeout);
    if OnFile(t, a, file) {
      StillHeld(w, PruneAgents(first, second), timeout, a, file, overlap);
      if overlap {
        assert first(a) <= second(a);
        assert file in FilesHeld(w.agents, first, timeout, false);
      }
    }
  }

  lemma StepKeeps(w: World, action: Action, timeout: int, a: string, overlap: bool)
    requires AgentOk(w, a, overlap)
    requires overlap && action.PruneAgents? ==> Later(action.first, action.second)
    ensures AgentOk(Apply(w, action, timeout), a, overlap)
  {
    var t := Apply(w, action, timeout);
    CallsStep(w, action, timeout);
    if action.UpdateAgents? && a in w.agents { RetainDistinct(w.agents[a].files, action.activity.file); }
    forall file ensures HolderOk(t, a, file, overlap) {
      assert HolderOk(w, a, file, overlap);
      match action
      case UpdateAgents(activity) => UpdateStep(w, activity, timeout, a, file, overlap);
      case PruneAgents(first, second) => PruneStep(w, first, second, timeout, a, file, overlap);
      case _ => RefsSectionStep(w, action, timeout, a, file, overlap);
    }
  }

  lemma {:induction false} RunKeeps(w: World, actions: seq<Action>, timeout: int, a: string, overlap: bool)
    requires AgentOk(w, a, overlap) && (overlap ==> Forwards(actions))
    ensures AgentOk(Run(w, actions, timeout), a, overlap)
    decreases |actions|
  {
    if actions != [] {
      assert actions[0] in actions;
      StepKeeps(w, actions[0], timeout, a, overlap);
      RunKeeps(Apply(w, actions[0], timeout), actions[1..], timeout, a, overlap);
    }
  }

  /** After every interleaving of lock sections: a file that an agent is listed on is listed once, and
      has a count unless the agent's own call has still to count it, or after the agent took it up its
      count was removed by a prune that had collected it from stale agents only. When prunes read the
      clock forwards, the agent took it up between the two locks of that prune. */
  lemma HeldFilesAreCounted(actions: seq<Action>, timeout: int, a: string, file: string)
    ensures var w := Run(INITIAL, actions, timeout);
            && (a in w.agents ==> Distinct(w.agents[a].files))
            && (OnFile(w, a, file) && file !in w.refs ==> Excused(w, a, file, Forwards(actions)))
            && (file in w.refs <==> CountsSince(w.log, file) > 0)
  {
    RunKeeps(INITIAL, actions, timeout, a, Forwards(actions));
    CountsFollowLog(INITIAL, actions, timeout, file);
    assert HolderOk(Run(INITIAL, actions, timeout), a, file, Forwards(actions));
  }

  /** The second section of a prune takes the count of a held file if and only if its first section
      found the file with stale agents only. When prunes read the clock forwards, every agent then
      holding it took it up in between. */
  lemma PruneTakesCountIff(actions: seq<Action>, timeout: int, call: nat, a: string, file: string)
    requires var w := Run(INITIAL, actions, timeout); call in w.pruning && OnFile(w, a, file) && file in w.refs
    ensures var w := Run(INITIAL, actions, timeout);
            var taken := file !in Apply(w, PruneRefs(call), timeout).refs;
            && call < |w.log|
            && (taken <==> w.log[call].Collect? && file in w.log[call].staleFiles && file !in w.log[call].freshFiles)
            && (taken && Forwards(actions) ==> TookUpSince(w, a, file, call))
  {
    RunKeeps(INITIAL, actions, timeout, a, Forwards(actions));
    assert HolderOk(Run(INITIAL, actions, timeout), a, file, Forwards(actions));
  }

  // ----- who is on which file -----

  predicate By(action: Action, a: string) {
    action.UpdateAgents? && action.activity.agent == a
  }

  predicate Concerns(action: Action, a: string, file: string) {
    By(action, a) && action.activity.file == file
  }

  /** The time of the agent's last activity. */
  function LastSeen(actions: seq<Action>, a: string): Option<int> {
    if actions == [] then None
    else
      var n := |actions| - 1;
      if By(actions[n], a) then Some(actions[n].activity.seen) else LastSeen(actions[..n], a)
  }

  /** A prune that reads a clock by which the agent's last activity is longer ago than the timeout. */
  predicate Removes(actions: seq<Action>, j: nat, a: string, timeout: int)
    requires j < |actions|
  {
    && actions[j].PruneAgents?
    && LastSeen(actions[..j], a).Some?
    && actions[j].second(a) - LastSeen(actions[..j], a).value > timeout
  }

  ghost predicate KeptSince(actions: seq<Action>, k: nat, a: string, timeout: int) {
    forall j | k < j < |actions| :: !Removes(actions, j, a, timeout)
  }

  ghost predicate PresentBy(actions: seq<Action>, k: nat, a: string, timeout: int) {
    k < |actions| && By(actions[k], a) && KeptSince(actions, k, a, timeout)
  }

  ghost predicate OnFileBy(actions: seq<Action>, k: nat, a: string, file: string, timeout: int) {
    && k < |actions| && Concerns(actions[k], a, file) && !actions[k].activity.done
    && KeptSince(actions, k, a, timeout)
    && forall j | k < j < |actions| :: !Concerns(actions[j], a, file)
  }

  lemma {:induction false} RunSnoc(w: World, actions: seq<Action>, action: Action, timeout: int)
    ensures Run(w, actions + [action], timeout) == Apply(Run(w, actions, timeout), action, timeout)
    decreases |actions|
  {
    if actions == [] {
      assert [] + [action] == [action] && [action][1..] == [];
      assert Run(Apply(w, action, timeout), [], timeout) == Apply(w, action, timeout);
    } else {
      assert (actions + [action])[1..] == actions[1..] + [action];
      RunSnoc(Apply(w, actions[0], timeout), actions[1..], action, timeout);
    }
  }

  lemma KeptSnoc(actions: seq<Action>, action: Action, k: nat, a: string, timeout: int)
    requires k < |actions|
    ensures KeptSince(actions + [action], k, a, timeout) <==>
            KeptSince(actions, k, a, timeout) && !Removes(actions + [action], |actions|, a, timeout)
  {
    var more := actions + [action];
    assert forall j | 0 <= j <= |actions| :: more[..j] == actions[..j];
    assert forall j | k < j < |actions| :: Removes(more, j, a, timeout) <==> Removes(actions, j, a, timeout);
  }

  lemma SeenSnoc(actions: seq<Action>, action: Action, a: string)
    ensures LastSeen(actions + [action], a) ==
              if By(action, a) then Some(action.activity.seen) else LastSeen(actions, a)
    ensures (actions + [action])[..|actions|] == actions
  {
  }

  lemma PresentSnoc(actions: seq<Action>, action: Action, a: string, timeout: int)
    ensures var more := actions + [action];
            (exists k: nat :: PresentBy(more, k, a, timeout)) <==>
            By(action, a) || ((exists k: nat :: PresentBy(actions, k, a, timeout)) &&
                              !Removes(more, |actions|, a, timeout))
  {
    var more := actions + [action];
    if By(action, a) { assert PresentBy(more, |actions|, a, timeout); }
    if k: nat :| PresentBy(more, k, a, timeout) && k < |actions| {
      KeptSnoc(actions, action, k, a, timeout);
      assert PresentBy(actions, k, a, timeout);
    }
    if k: nat :| PresentBy(actions, k, a, timeout) && !Removes(more, |actions|, a, timeout) {
      KeptSnoc(actions, action, k, a, timeout);
      assert PresentBy(more, k, a, timeout);
    }
  }

  lemma OnFileSnoc(actions: seq<Action>, action: Action, a: string, file: string, timeout: int)
    ensures var more := actions + [action];
            (exists k: nat :: OnFileBy(more, k, a, file, timeout)) <==>
            if Concerns(action, a, file) then !action.activity.done
            else (exists k: nat :: OnFileBy(actions, k, a, file, timeout)) && !Removes(more, |actions|, a, timeout)
  {
    var more := actions + [action];
    if Concerns(action, a, file) && !action.activity.done { assert OnFileBy(more, |actions|, a, file, timeout); }
    if k: nat :| OnFileBy(more, k, a, file, timeout) && k < |actions| {
      KeptSnoc(actions, action, k, a, timeout);
      assert !Concerns(more[|actions|], a, file);
      assert forall j | k < j < |actions| :: more[j] == actions[j];
      assert OnFileBy(actions, k, a, file, timeout);
    }
    if !Concerns(action, a, file) && !Removes(more, |actions|, a, timeout) {
      if k: nat :| OnFileBy(actions, k, a, file, timeout) {
        KeptSnoc(actions, action, k, a, timeout);
        assert OnFileBy(more, k, a, file, timeout);
      }
    }
  }

  /** After every run, an agent is known exactly when no prune has removed it since its last activity,
      and then it was last seen at that activity. */
  lemma {:induction false} KnownIff(actions: seq<Action>, timeout: int, a: string)
    ensures var w := Run(INITIAL, actions, timeout);
            && (a in w.agents <==> exists k: nat :: PresentBy(actions, k, a, timeout))
            && (a in w.agents ==> LastSeen(actions, a) == Some(w.agents[a].lastSeen))
    decreases |actions|
  {
    if actions != [] {
      var n := |actions| - 1;
      var before, action := actions[..n], actions[n];
      assert actions == before + [action];
      KnownIff(before, timeout, a);
      RunSnoc(INITIAL, before, action, timeout);
      SeenSnoc(before, action, a);
      PresentSnoc(before, action, a, timeout);
      if action.UpdateAgents? { ActivityMeaning(Run(INITIAL, before, timeout).agents, action.activity); }
    }
  }

  /** After every run, an agent is listed on a file exactly when its last activity on that file was not
      done and no prune has removed the agent since. */
  lemma {:induction false} OnFileIff(actions: seq<Action>, timeout: int, a: string, file: string)
    ensures OnFile(Run(INITIAL, actions, timeout), a, file) <==>
            exists k: nat :: OnFileBy(actions, k, a, file, timeout)
    decreases |actions|
  {
    if actions != [] {
      var n := |actions| - 1;
      var before, action := actions[..n], actions[n];
      assert actions == before + [action];
      OnFileIff(before, timeout, a, file);
      KnownIff(before, timeout, a);
      RunSnoc(INITIAL, before, action, timeout);
      OnFileSnoc(before, action, a, file, timeout);
      SeenSnoc(before, action, a);
      if action.UpdateAgents? { ActivityMeaning(Run(INITIAL, before, timeout).agents, action.activity); }
    }
  }

  // ----- undisturbed and disturbed calls -----

  lemma Run2(w: World, a: Action, b: Action, timeout: int)
    ensures Run(w, [a, b], timeout) == Apply(Apply(w, a, timeout), b, timeout)
  {
    var t := Apply(w, a, timeout);
    assert [a, b][1..] == [b] && [b][1..] == [];
    assert Run(t, [b], timeout) == Run(Apply(t, b, timeout), [b][1..], timeout);
  }

  lemma HeldIff(agents: map<string, AgentState>, file: string, clock: Clock, timeout: int, stale: bool)
    ensures file in FilesHeld(agents, clock, timeout, stale) <==> HeldByAny(agents, file, clock, timeout, stale)
  {
  }

  lemma HeldFiles(agents: map<string, AgentState>, refs: map<string, nat>, clock: Clock, timeout: int)
    ensures refs - (FilesHeld(agents, clock, timeout, true) - FilesHeld(agents, clock, timeout, false))
         == PrunedRefs(agents, refs, clock, timeout)
  {
    forall f, stale
      ensures f in FilesHeld(agents, clock, timeout, stale) <==> HeldByAny(agents, f, clock, timeout, stale) {
      HeldIff(agents, f, clock, timeout, stale);
    }
  }

  /** The two sections of one call, with nothing in between, have exactly the effect of the call. */
  lemma SoloCalls(w: World, activity: Activity, first: Clock, second: Clock, timeout: int)
    ensures var u := Run(w, [UpdateAgents(activity), UpdateRefs(|w.log|)], timeout);
            u.agents == Updated(w.agents, activity) && u.refs == Counted(w.refs, activity.file)
    ensures var u := Run(w, [PruneAgents(first, second), PruneRefs(|w.log|)], timeout);
            u.agents == Fresh(w.agents, second, timeout) && u.refs == PrunedRefs(w.agents, w.refs, first, timeout)
  {
    Run2(w, UpdateAgents(activity), UpdateRefs(|w.log|), timeout);
    Run2(w, PruneAgents(first, second), PruneRefs(|w.log|), timeout);
    HeldFiles(w.agents, w.refs, first, timeout);
  }

  /** A whole activity between the two sections of a prune: its file stays counted if and only if the
      prune had not found it with stale agents only. */
  lemma ActivityDuringPrune(w: World, activity: Activity, first: Clock, second: Clock, timeout: int)
    requires !activity.done
    ensures var n := |w.log|;
            var u := Run(Run(w, [PruneAgents(first, second), UpdateAgents(activity)], timeout),
                         [UpdateRefs(n + 1), PruneRefs(n)], timeout);
            && OnFile(u, activity.agent, activity.file)
            && (activity.file in u.refs <==>
                !HeldByAny(w.agents, activity.file, first, timeout, true) ||
                HeldByAny(w.agents, activity.file, first, timeout, false))
  {
    var n, f := |w.log|, activity.file;
    var p := Apply(w, PruneAgents(first, second), timeout);
    var q := Apply(p, UpdateAgents(activity), timeout);
    Run2(w, PruneAgents(first, second), UpdateAgents(activity), timeout);
    Run2(q, UpdateRefs(n + 1), PruneRefs(n), timeout);
    HeldIff(w.agents, f, first, timeout, true);
    HeldIff(w.agents, f, first, timeout, false);
    assert OnFile(q, activity.agent, f);
    assert q.log[n] == p.log[n] && q.log[n + 1] == Seen(activity.agent, f, false);
    var r := Apply(q, UpdateRefs(n + 1), timeout);
    assert f in r.refs && r.agents == q.agents && n in r.pruning && r.log[n] == p.log[n];
    assert f in ResetBy(r.log, n) <==>
             f in FilesHeld(w.agents, first, timeout, true) && f !in FilesHeld(w.agents, first, timeout, false);
  }

  /** So a run with a clock that never moves can leave an agent on a file without a count: `b` was
      last seen at 0, the prune reads 11, and `a` takes the file up before the counts are reset. */
  lemma HeldFileLosesCount()
    ensures var b := Activity(0, "b", "f", None, None, None, false);
            var a := b.(seen := 11, agent := "a");
            var w := Run(INITIAL, [UpdateAgents(b), UpdateRefs(0)], 10);
            var v := Run(w, [PruneAgents(_ => 11, _ => 11), UpdateAgents(a)], 10);
            var u := Run(v, [UpdateRefs(3), PruneRefs(2)], 10);
            OnFile(u, "a", "f") && "f" !in u.refs
  {
    var b := Activity(0, "b", "f", None, None, None, false);
    var clock: Clock := _ => 11;
    var w := Run(INITIAL, [UpdateAgents(b), UpdateRefs(0)], 10);
    Run2(INITIAL, UpdateAgents(b), UpdateRefs(0), 10);
    assert |w.log| == 2 && w.agents.Keys == {"b"} && "f" in w.agents["b"].files && Stale(w.agents["b"], clock("b"), 10);
    assert HeldByAny(w.agents, "f", clock, 10, true) && !HeldByAny(w.agents, "f", clock, 10, false);
    ActivityDuringPrune(w, b.(seen := 11, agent := "a"), clock, clock, 10);
  }

  class AgentTracker {
    var agents: map<string, AgentState>
    var refs: map<string, nat>
    const timeout: int

    constructor (timeout: int)
      ensures this.timeout == timeout && agents == map[] && refs == map[]
    {
      this.timeout := timeout;
      agents, refs := map[], map[];
    }

    method UpdateFromActivity(activity: Activity)
      modifies this
      ensures agents == Updated(old(agents), activity) && Acted(old(agents), agents, activity)
      ensures refs == Counted(old(refs), activity.file)
      ensures refs.Keys == old(refs).Keys + {activity.file}
      ensures forall f | f in refs :: refs[f] ==
                var was := if f in old(refs) then old(refs)[f] else 0;
                if f == activity.file then (was + 1) % 0x1_0000_0000 else was
    {
      ActivityMeaning(agents, activity);
      var files := if activity.agent in agents then agents[activity.agent].files else [];
      if activity.done {
        files := Retain(files, activity.file);
      } else if activity.file !in files {
        files := files + [activity.file];
      }
      agents :=
          agents[activity.agent := AgentState(files, activity.seen, activity.intent, activity.tool, activity.session)];
      var n := if activity.file in refs then refs[activity.file] else 0;
      refs := refs[activity.file := (n + 1) % TWO_TO_THE_32];
    }

    method GetActiveAgent(file: string, clock: Clock) returns (r: Option<string>)
      ensures IsActiveAgent(agents, file, clock, timeout, r)
      ensures r.None? ==> forall a | a in agents && file in agents[a].files ::
                clock(a) - agents[a].lastSeen > timeout
      ensures r.Some? ==>
                && r.value in agents && file in agents[r.value].files
                && clock(r.value) - agents[r.value].lastSeen <= timeout
                && forall a | a in agents && file in agents[a].files && clock(a) - agents[a].lastSeen <= timeout ::
                     agents[a].lastSeen <= agents[r.value].lastSeen
    {
      r := None;
      var left := agents.Keys;
      while left != {}
        invariant left <= agents.Keys
        invariant r.Some? ==> Holds(agents, file, clock, timeout, r.value)
        invariant forall a | Holds(agents, file, clock, timeout, a) && a !in left ::
                    r.Some? && agents[a].lastSeen <= agents[r.value].lastSeen
        decreases left
      {
        var a: string :| a in left;
        left := left - {a};
        if !Stale(agents[a], clock(a), timeout) && file in agents[a].files {
          assert Holds(agents, file, clock, timeout, a);
          if r.None? || agents[a].lastSeen > agents[r.value].lastSeen {
            r := Some(a);
          }
        }
      }
      assert forall a | a in agents && file in agents[a].files && clock(a) - agents[a].lastSeen <= timeout ::
          Holds(agents, file, clock, timeout, a);
    }

    method GetAllAgents(clock: Clock) returns (r: map<string, AgentState>)
      ensures r == Fresh(agents, clock, timeout)
      ensures forall a :: a in r <==> a in agents && clock(a) - agents[a].lastSeen <= timeout
    {
      r := Fresh(agents, clock, timeout);
    }

    static method CountFiles(counts: map<string, nat>, files: seq<string>) returns (r: map<string, nat>)
      ensures r.Keys == counts.Keys + (set f | f in files)
    {
      r := counts;
      for i := 0 to |files|
        invariant r.Keys == counts.Keys + (set f | f in files[..i])
      {
        assert files[..i + 1] == files[..i] + [files[i]];
        r := r[files[i] := (if files[i] in r then r[files[i]] else 0) + 1];
      }
    }

    method CollectFiles(first: Clock) returns (staleFiles: map<string, nat>, freshFiles: map<string, nat>)
      ensures Collected(agents, agents.Keys, first, timeout, true, staleFiles.Keys)
      ensures Collected(agents, agents.Keys, first, timeout, false, freshFiles.Keys)
    {
      staleFiles, freshFiles := map[], map[];
      var seen: set<string> := {};
      while agents.Keys - seen != {}
        invariant seen <= agents.Keys
        invariant Collected(agents, seen, first, timeout, true, staleFiles.Keys)
        invariant Collected(agents, seen, first, timeout, false, freshFiles.Keys)
        decreases agents.Keys - seen
      {
        var a: string :| a in agents.Keys - seen;
        CollectOne(agents, seen, first, timeout, true, staleFiles.Keys, a);
        CollectOne(agents, seen, first, timeout, false, freshFiles.Keys, a);
        if Stale(agents[a], first(a), timeout) {
          staleFiles := CountFiles(staleFiles, agents[a].files);
        } else {
          freshFiles := CountFiles(freshFiles, agents[a].files);
        }
        seen := seen + {a};
      }
      forall a | a in agents ensures a in seen { assert a !in agents.Keys - seen; }
      assert seen == agents.Keys;
    }

    /** Reads the clock once per agent to collect the files, and once more to remove the agents. */
    method PruneStale(first: Clock, second: Clock) returns (pruned: nat)
      modifies this
      ensures agents == Fresh(old(agents), second, timeout)
      ensures refs == PrunedRefs(old(agents), old(refs), first, timeout)
      ensures pruned == |old(agents)| - |agents|
      ensures forall a :: a in agents <==> a in old(agents) && second(a) - old(agents)[a].lastSeen <= timeout
      ensures forall a | a in agents :: agents[a] == old(agents)[a]
      ensures forall f :: f in refs <==>
                && f in old(refs)
                && ((forall a | a in old(agents) && f in old(agents)[a].files ::
                       first(a) - old(agents)[a].lastSeen <= timeout) ||
                    exists a | a in old(agents) :: f in old(agents)[a].files &&
                      first(a) - old(agents)[a].lastSeen <= timeout)
      ensures forall f | f in refs :: refs[f] == old(refs)[f]
    {
      var staleFiles, freshFiles := CollectFiles(first);
      CollectedAll(agents, refs, first, timeout, staleFiles.Keys, freshFiles.Keys);
      var before := agents;
      agents := Fresh(agents, second, timeout);
      FewerKeys(agents, before);
      pruned := |before| - |agents|;
      refs := map f | f in refs && !(f in staleFiles && f !in freshFiles) :: refs[f];
    }
  }
}
