/** The subscription manager's two maps under two locks, as interleaved lock steps of any number
    of tasks. */
module Subscriptions {
  import opened Text

  /** Where a task stands inside `subscribe` or `unsubscribe`. */
  datatype Phase =
    | Idle
    | SubProjects(project: string)     // holds projects
    | SubBoth(project: string)         // holds projects and counts
    | SubOpened(project: string)       // channel entry ensured
    | SubCounted(project: string)      // count raised, both locks still held
    | UnsubCounts(project: string)     // holds counts
    | UnsubZero(project: string)       // count entry removed, waiting for projects
    | UnsubBoth(project: string)       // holds counts and projects
    | UnsubDone(project: string)       // finished its changes, still holds counts

  datatype Change = Sub(project: string) | Unsub(project: string)

  datatype State = State(
    projects: map<string, nat>,      // project -> channel
    counts: map<string, nat>,
    projectsLock: Option<nat>,       // the task holding the write lock
    countsLock: Option<nat>,
    phases: map<nat, Phase>,
    nextChannel: nat,
    history: seq<Change>)            // in the order the counts lock was used

  const INITIAL := State(map[], map[], None, None, map[], 0, [])

  datatype Action =
    | BeginSub(task: nat, project: string)     // projects.write()
    | LockCounts(task: nat)                    // counts.write()
    | OpenChannel(task: nat)                   // projects.entry(..).or_insert_with(..)
    | Count(task: nat)                         // *counts.entry(..).or_insert(0) += 1
    | EndSub(task: nat)                        // both guards dropped
    | BeginUnsub(task: nat, project: string)   // counts.write()
    | Uncount(task: nat)                       // decrement, and remove at zero
    | LockProjects(task: nat)                  // projects.write()
    | CloseChannel(task: nat)                  // projects.remove(..)
    | EndUnsub(task: nat)

  function PhaseOf(s: State, task: nat): Phase {
    if task in s.phases then s.phases[task] else Idle
  }

  predicate Enabled(s: State, a: Action) {
    var p := PhaseOf(s, a.task);
    match a
    case BeginSub(_, _) => p.Idle? && s.projectsLock.None?
    case LockCounts(_) => p.SubProjects? && s.countsLock.None?
    case OpenChannel(_) => p.SubBoth?
    case Count(_) => p.SubOpened?
    case EndSub(_) => p.SubCounted?
    case BeginUnsub(_, _) => p.Idle? && s.countsLock.None?
    case Uncount(_) => p.UnsubCounts?
    case LockProjects(_) => p.UnsubZero? && s.projectsLock.None?
    case CloseChannel(_) => p.UnsubBoth?
    case EndUnsub(_) => p.UnsubDone?
  }

  function Apply(s: State, a: Action): State
    requires Enabled(s, a)
  {
    var t := a.task;
    var p := PhaseOf(s, t);
    match a
    case BeginSub(_, q) => s.(projectsLock := Some(t), phases := s.phases[t := SubProjects(q)])
    case LockCounts(_) => s.(countsLock := Some(t), phases := s.phases[t := SubBoth(p.project)])
    case OpenChannel(_) =>
      if p.project in s.projects then s.(phases := s.phases[t := SubOpened(p.project)])
      else s.(projects := s.projects[p.project := s.nextChannel], nextChannel := s.nextChannel + 1,
              phases := s.phases[t := SubOpened(p.project)])
    case Count(_) =>
      var n := if p.project in s.counts then s.counts[p.project] else 0;
      s.(counts := s.counts[p.project := n + 1], phases := s.phases[t := SubCounted(p.project)],
         history := s.history + [Sub(p.project)])
    case EndSub(_) => s.(projectsLock := None, countsLock := None, phases := s.phases[t := Idle])
    case BeginUnsub(_, q) => s.(countsLock := Some(t), phases := s.phases[t := UnsubCounts(q)])
    case Uncount(_) =>
      var h := s.history + [Unsub(p.project)];
      if p.project !in s.counts then s.(phases := s.phases[t := UnsubDone(p.project)], history := h)
      else
        var n := if s.counts[p.project] > 0 then s.counts[p.project] - 1 else 0;
        if n == 0 then s.(counts := s.counts - {p.project}, phases := s.phases[t := UnsubZero(p.project)], history := h)
        else s.(counts := s.counts[p.project := n], phases := s.phases[t := UnsubDone(p.project)], history := h)
    case LockProjects(_) => s.(projectsLock := Some(t), phases := s.phases[t := UnsubBoth(p.project)])
    case CloseChannel(_) =>
      s.(projects := s.projects - {p.project}, projectsLock := None, phases := s.phases[t := UnsubDone(p.project)])
    case EndUnsub(_) => s.(countsLock := None, phases := s.phases[t := Idle])
  }

  predicate IsRun(s: State, actions: seq<Action>)
    decreases |actions|
  {
    actions != [] ==> Enabled(s, actions[0]) && IsRun(Apply(s, actions[0]), actions[1..])
  }

  function Run(s: State, actions: seq<Action>): State
    requires IsRun(s, actions)
    decreases |actions|
  {
    if actions == [] then s else Run(Apply(s, actions[0]), actions[1..])
  }

  /** Subscribes and unsubscribes in the order given, never going below zero. */
  function Balance(history: seq<Change>, project: string): nat {
    if history == [] then 0
    else
      var before := Balance(history[..|history| - 1], project);
      match history[|history| - 1]
      case Sub(p) => if p == project then before + 1 else before
      case Unsub(p) => if p == project && before > 0 then before - 1 else before
  }

  predicate HoldsProjects(p: Phase) {
    p.SubProjects? || p.SubBoth? || p.SubOpened? || p.SubCounted? || p.UnsubBoth?
  }

  predicate HoldsCounts(p: Phase) {
    p.SubBoth? || p.SubOpened? || p.SubCounted? || p.UnsubCounts? || p.UnsubZero? || p.UnsubBoth? || p.UnsubDone?
  }

  /** The one project whose two entries may disagree, because the task holding `counts` is between
      its two changes. */
  predicate InTransit(s: State, project: string) {
    s.countsLock.Some? &&
    var p := PhaseOf(s, s.countsLock.value);
    (p.SubOpened? || p.UnsubZero? || p.UnsubBoth?) && p.project == project
  }

  /** The task holding `counts` has removed the project's count and is about to drop its channel. */
  predicate Closing(s: State, project: string) {
    s.countsLock.Some? &&
    var p := PhaseOf(s, s.countsLock.value);
    (p.UnsubZero? || p.UnsubBoth?) && p.project == project
  }

  predicate ProjectOk(s: State, project: string) {
    && (project in s.counts ==> s.counts[project] > 0)
    && (if project in s.counts then s.counts[project] else 0) == Balance(s.history, project)
    && (InTransit(s, project) ==> project in s.projects)
    && (!InTransit(s, project) ==> (project in s.projects <==> project in s.counts))
    && (Closing(s, project) ==> project !in s.counts)
  }

  predicate TaskOk(s: State, task: nat) {
    && (HoldsProjects(PhaseOf(s, task)) <==> s.projectsLock == Some(task))
    && (HoldsCounts(PhaseOf(s, task)) <==> s.countsLock == Some(task))
  }

  ghost predicate Inv(s: State) {
    (forall task: nat :: TaskOk(s, task)) && (forall project: string :: ProjectOk(s, project))
  }

  lemma BalanceSnoc(history: seq<Change>, c: Change, project: string)
    ensures Balance(history + [c], project) ==
              match c
              case Sub(p) => Balance(history, project) + (if p == project then 1 else 0)
              case Unsub(p) => if p == project && Balance(history, project) > 0 then Balance(history, project) - 1
                               else Balance(history, project)
  {
    assert (history + [c])[..|history|] == history;
  }

  lemma TaskStep(s: State, a: Action, task: nat)
    requires Inv(s) && Enabled(s, a)
    ensures TaskOk(Apply(s, a), task)
  {
    assert TaskOk(s, a.task) && TaskOk(s, task);
  }

  /** Steps of `subscribe`, seen from one project. */
  lemma SubStep(s: State, a: Action, project: string)
    requires Inv(s) && Enabled(s, a)
    requires a.BeginSub? || a.LockCounts? || a.OpenChannel? || a.EndSub?
    ensures ProjectOk(Apply(s, a), project)
  {
    assert TaskOk(s, a.task) && ProjectOk(s, project);
    if s.countsLock.Some? { assert TaskOk(s, s.countsLock.value); }
  }

  lemma CountStep(s: State, task: nat, project: string)
    requires Inv(s) && Enabled(s, Count(task))
    ensures ProjectOk(Apply(s, Count(task)), project)
  {
    assert TaskOk(s, task) && ProjectOk(s, project);
    BalanceSnoc(s.history, Sub(PhaseOf(s, task).project), project);
  }

  /** Steps of `unsubscribe`, seen from one project. */
  lemma UnsubStep(s: State, a: Action, project: string)
    requires Inv(s) && Enabled(s, a)
    requires a.BeginUnsub? || a.LockProjects? || a.CloseChannel? || a.EndUnsub?
    ensures ProjectOk(Apply(s, a), project)
  {
    assert TaskOk(s, a.task) && ProjectOk(s, project);
  }

  lemma UncountStep(s: State, task: nat, project: string)
    requires Inv(s) && Enabled(s, Uncount(task))
    ensures ProjectOk(Apply(s, Uncount(task)), project)
  {
    assert TaskOk(s, task) && ProjectOk(s, project);
    var p := PhaseOf(s, task).project;
    BalanceSnoc(s.history, Unsub(p), project);
    var t := Apply(s, Uncount(task));
    assert t.projects == s.projects && t.history == s.history + [Unsub(p)];
    assert PhaseOf(t, task) == if p in s.counts && s.counts[p] == 1 then UnsubZero(p) else UnsubDone(p) by {
      assert ProjectOk(s, p);
    }
    assert project != p ==> (project in t.counts <==> project in s.counts);
  }

  lemma StepKeeps(s: State, a: Action)
    requires Inv(s) && Enabled(s, a)
    ensures Inv(Apply(s, a))
  {
    forall task: nat ensures TaskOk(Apply(s, a), task) { TaskStep(s, a, task); }
    forall project: string ensures ProjectOk(Apply(s, a), project) {
      match a
      case Count(task) => CountStep(s, task, project);
      case Uncount(task) => UncountStep(s, task, project);
      case BeginSub(_, _) => SubStep(s, a, project);
      case LockCounts(_) => SubStep(s, a, project);
      case OpenChannel(_) => SubStep(s, a, project);
      case EndSub(_) => SubStep(s, a, project);
      case BeginUnsub(_, _) => UnsubStep(s, a, project);
      case LockProjects(_) => UnsubStep(s, a, project);
      case CloseChannel(_) => UnsubStep(s, a, project);
      case EndUnsub(_) => UnsubStep(s, a, project);
    }
  }

  lemma {:induction false} RunKeeps(s: State, actions: seq<Action>)
    requires Inv(s) && IsRun(s, actions)
    ensures Inv(Run(s, actions))
    decreases |actions|
  {
    if actions != [] {
      StepKeeps(s, actions[0]);
      RunKeeps(Apply(s, actions[0]), actions[1..]);
    }
  }

  /** Under every interleaving: whenever the `counts` lock is free the two maps have the same
      projects, every count is positive, and each count is what the subscribes and unsubscribes
      add up to in the order they held the lock. */
  lemma MapsAgreeWhenFree(actions: seq<Action>)
    requires IsRun(INITIAL, actions)
    ensures var s := Run(INITIAL, actions);
            s.countsLock.None? ==>
              && s.projects.Keys == s.counts.Keys
              && forall p | p in s.counts :: s.counts[p] > 0 && s.counts[p] == Balance(s.history, p)
    ensures var s := Run(INITIAL, actions);
            forall p :: (if p in s.counts then s.counts[p] else 0) == Balance(s.history, p)
  {
    var s := Run(INITIAL, actions);
    assert Inv(INITIAL);
    RunKeeps(INITIAL, actions);
    forall p: string
      ensures (if p in s.counts then s.counts[p] else 0) == Balance(s.history, p)
      ensures s.countsLock.None? ==> (p in s.projects <==> p in s.counts)
      ensures p in s.counts ==> s.counts[p] > 0
    {
      assert ProjectOk(s, p);
    }
  }

  /** The locks exclude: two tasks are never both inside the sections that change a map. */
  lemma LocksExclude(actions: seq<Action>, a: nat, b: nat)
    requires IsRun(INITIAL, actions) && a != b
    ensures var s := Run(INITIAL, actions);
            && !(HoldsCounts(PhaseOf(s, a)) && HoldsCounts(PhaseOf(s, b)))
            && !(HoldsProjects(PhaseOf(s, a)) && HoldsProjects(PhaseOf(s, b)))
  {
    var s := Run(INITIAL, actions);
    assert Inv(INITIAL);
    RunKeeps(INITIAL, actions);
    assert TaskOk(s, a) && TaskOk(s, b);
  }

  // ----- which channel a project has -----

  ghost predicate ChannelsOk(s: State) {
    && (forall p | p in s.projects :: s.projects[p] < s.nextChannel)
    && (forall p, q | p in s.projects && q in s.projects && s.projects[p] == s.projects[q] :: p == q)
  }

  lemma ChannelStep(s: State, a: Action)
    requires ChannelsOk(s) && Enabled(s, a)
    ensures var t := Apply(s, a);
            && ChannelsOk(t) && t.nextChannel >= s.nextChannel
            && (forall p | p in t.projects ::
                  if p in s.projects then t.projects[p] == s.projects[p] else t.projects[p] >= s.nextChannel)
  {
  }

  lemma {:induction false} ChannelRun(s: State, actions: seq<Action>)
    requires ChannelsOk(s) && IsRun(s, actions)
    ensures ChannelsOk(Run(s, actions)) && Run(s, actions).nextChannel >= s.nextChannel
    ensures var t := Run(s, actions);
            forall p | p in t.projects ::
              (p in s.projects && t.projects[p] == s.projects[p]) || t.projects[p] >= s.nextChannel
    decreases |actions|
  {
    if actions != [] {
      ChannelStep(s, actions[0]);
      ChannelRun(Apply(s, actions[0]), actions[1..]);
    }
  }

  /** Under every interleaving: no two projects share a channel; as long as a project has one, no step
      gives it another; and a channel that is gone never comes back. */
  lemma ChannelsAreOwn(before: seq<Action>, a: Action, after: seq<Action>)
    requires IsRun(INITIAL, before) && Enabled(Run(INITIAL, before), a)
    requires IsRun(Apply(Run(INITIAL, before), a), after)
    ensures var s := Run(INITIAL, before);
            var t := Apply(s, a);
            && (forall p, q | p in s.projects && q in s.projects && p != q :: s.projects[p] != s.projects[q])
            && (forall p | p in s.projects && p in t.projects :: t.projects[p] == s.projects[p])
            && (forall p, q | p in s.projects && p !in t.projects && q in Run(t, after).projects ::
                  Run(t, after).projects[q] != s.projects[p])
  {
    var s := Run(INITIAL, before);
    ChannelRun(INITIAL, before);
    ChannelStep(s, a);
    ChannelRun(Apply(s, a), after);
  }

  function Times(history: seq<Change>, c: Change): nat {
    if history == [] then 0
    else (if history[|history| - 1] == c then 1 else 0) + Times(history[..|history| - 1], c)
  }

  /** A count that would never have gone below zero is the number of subscribes less that of unsubscribes. */
  lemma {:induction false} BalanceIsDifference(history: seq<Change>, p: string)
    requires forall n | 0 <= n <= |history| :: Times(history[..n], Unsub(p)) <= Times(history[..n], Sub(p))
    ensures Balance(history, p) == Times(history, Sub(p)) - Times(history, Unsub(p))
    decreases |history|
  {
    assert history[..|history|] == history;
    if history != [] {
      var before := history[..|history| - 1];
      assert forall n | 0 <= n <= |before| :: before[..n] == history[..n];
      BalanceIsDifference(before, p);
    }
  }

  // ----- one undisturbed call -----

  /** The two maps and the next unused channel. */
  datatype Maps = Maps(projects: map<string, nat>, counts: map<string, nat>, nextChannel: nat)

  function MapsOf(s: State): Maps {
    Maps(s.projects, s.counts, s.nextChannel)
  }

  function Subscribed(m: Maps, project: string): Maps {
    Maps(if project in m.projects then m.projects else m.projects[project := m.nextChannel],
         m.counts[project := (if project in m.counts then m.counts[project] else 0) + 1],
         if project in m.projects then m.nextChannel else m.nextChannel + 1)
  }

  function Unsubscribed(m: Maps, project: string): Maps {
    if project !in m.counts then m
    else if m.counts[project] > 1 then m.(counts := m.counts[project := m.counts[project] - 1])
    else m.(projects := m.projects - {project}, counts := m.counts - {project})
  }

  lemma Unroll(s: State, a: Action, rest: seq<Action>)
    requires Enabled(s, a) && IsRun(Apply(s, a), rest)
    ensures IsRun(s, [a] + rest) && Run(s, [a] + rest) == Run(Apply(s, a), rest)
  {
    assert ([a] + rest)[1..] == rest;
  }

  lemma Unroll3(s: State, a: Action, b: Action, c: Action, rest: seq<Action>)
    requires Enabled(s, a) && Enabled(Apply(s, a), b) && Enabled(Apply(Apply(s, a), b), c)
    requires IsRun(Apply(Apply(Apply(s, a), b), c), rest)
    ensures IsRun(s, [a, b, c] + rest) && Run(s, [a, b, c] + rest) == Run(Apply(Apply(Apply(s, a), b), c), rest)
  {
    Unroll(Apply(Apply(s, a), b), c, rest);
    Unroll(Apply(s, a), b, [c] + rest);
    Unroll(s, a, [b] + ([c] + rest));
    assert [a, b, c] + rest == [a] + ([b] + ([c] + rest));
  }

  /** One `subscribe` with no other task in between. */
  lemma SoloSubscribe(s: State, task: nat, project: string)
    requires s.projectsLock.None? && s.countsLock.None? && PhaseOf(s, task).Idle?
    ensures var run := [BeginSub(task, project), LockCounts(task), OpenChannel(task)] + [Count(task), EndSub(task)];
            IsRun(s, run) && MapsOf(Run(s, run)) == Subscribed(MapsOf(s), project)
  {
    var s3 := Apply(Apply(Apply(s, BeginSub(task, project)), LockCounts(task)), OpenChannel(task));
    var s4 := Apply(s3, Count(task));
    Unroll(s4, EndSub(task), []);
    Unroll(s3, Count(task), [EndSub(task)]);
    assert [Count(task)] + [EndSub(task)] == [Count(task), EndSub(task)];
    assert [EndSub(task)] + [] == [EndSub(task)];
    Unroll3(s, BeginSub(task, project), LockCounts(task), OpenChannel(task), [Count(task), EndSub(task)]);
  }

  /** One `unsubscribe` with no other task in between; only the last subscriber takes `projects`. */
  lemma SoloUnsubscribe(s: State, task: nat, project: string) returns (run: seq<Action>)
    requires s.projectsLock.None? && s.countsLock.None? && PhaseOf(s, task).Idle?
    ensures IsRun(s, run) && MapsOf(Run(s, run)) == Unsubscribed(MapsOf(s), project)
    ensures LockProjects(task) in run <==> project in s.counts && s.counts[project] <= 1
  {
    var s2 := Apply(Apply(s, BeginUnsub(task, project)), Uncount(task));
    if project in s.counts && s.counts[project] <= 1 {
      var s4 := Apply(Apply(s2, LockProjects(task)), CloseChannel(task));
      Unroll(s4, EndUnsub(task), []);
      assert [EndUnsub(task)] + [] == [EndUnsub(task)];
      Unroll(Apply(s2, LockProjects(task)), CloseChannel(task), [EndUnsub(task)]);
      run := [BeginUnsub(task, project), Uncount(task), LockProjects(task)] + ([CloseChannel(task)] + [EndUnsub(task)]);
      Unroll3(s, BeginUnsub(task, project), Uncount(task), LockProjects(task), [CloseChannel(task)] + [EndUnsub(task)]);
      assert run[2] == LockProjects(task);
    } else {
      run := [BeginUnsub(task, project), Uncount(task), EndUnsub(task)] + [];
      Unroll3(s, BeginUnsub(task, project), Uncount(task), EndUnsub(task), []);
    }
  }

  class SubscriptionManager {
    var maps: Maps

    constructor ()
      ensures maps == Maps(map[], map[], 0)
    {
      maps := Maps(map[], map[], 0);
    }

    method Subscribe(project: string) returns (channel: nat)
      modifies this
      ensures maps == Subscribed(old(maps), project)
      ensures project in maps.projects && channel == maps.projects[project]
      ensures project in old(maps).projects ==>
                maps.projects == old(maps).projects && maps.nextChannel == old(maps).nextChannel
      ensures project !in old(maps).projects ==>
                && maps.projects == old(maps).projects[project := channel]
                && channel == old(maps).nextChannel < maps.nextChannel
      ensures project in maps.counts
      ensures maps.counts[project] == (if project in old(maps).counts then old(maps).counts[project] else 0) + 1
      ensures maps.counts - {project} == old(maps).counts - {project}
    {
      if project !in maps.projects {
        maps := maps.(projects := maps.projects[project := maps.nextChannel], nextChannel := maps.nextChannel + 1);
      }
      var n := if project in maps.counts then maps.counts[project] else 0;
      maps := maps.(counts := maps.counts[project := n + 1]);
      channel := maps.projects[project];
    }

    method Unsubscribe(project: string)
      modifies this
      ensures maps == Unsubscribed(old(maps), project)
      ensures maps.nextChannel == old(maps).nextChannel
      ensures project !in old(maps).counts ==> maps == old(maps)
      ensures project in old(maps).counts && old(maps).counts[project] <= 1 ==>
                maps.counts == old(maps).counts - {project} && maps.projects == old(maps).projects - {project}
      ensures project in old(maps).counts && old(maps).counts[project] > 1 ==>
                && maps.projects == old(maps).projects
                && maps.counts == old(maps).counts[project := old(maps).counts[project] - 1]
    {
      if project in maps.counts {
        var n := maps.counts[project];
        if n > 0 {
          n := n - 1;
        }
        if n == 0 {
          maps := maps.(counts := maps.counts - {project});
          maps := maps.(projects := maps.projects - {project});
        } else {
          maps := maps.(counts := maps.counts[project := n]);
        }
      }
    }

    method SubscriberCount(project: string) returns (n: nat)
      ensures n == if project in maps.counts then maps.counts[project] else 0
    {
      n := if project in maps.counts then maps.counts[project] else 0;
    }
  }
}
