/** One client connection among any number of others: its receivers on the projects' broadcast
    channels, what it forwards, and what it may miss. */
module Forwarding {
  import opened Text
  import Subscriptions

  /** Entries a broadcast channel keeps for receivers that are behind. */
  const CAPACITY: nat := 256

  /** A receiver's place in its channel's log. The last three fields record, for the proofs, how
      much had been offered and received when it subscribed, and whether it has lagged since. */
  datatype Receiver = Receiver(channel: nat, next: nat, offeredAt: nat, receivedAt: nat, lagged: bool)

  datatype State = State(
    maps: Subscriptions.Maps,
    broadcasts: seq<string>,              // the project of every notification ever broadcast
    logs: map<nat, seq<nat>>,             // per channel, the broadcasts sent into it
    owner: map<nat, string>,              // per channel, its project
    subs: map<string, Receiver>,          // this connection's receivers
    offered: map<string, seq<nat>>,       // broadcasts made while this connection was subscribed
    received: map<string, seq<nat>>)      // broadcasts forwarded to this client, in order

  const INITIAL := State(Subscriptions.Maps(map[], map[], 0), [], map[], map[], map[], map[], map[])

  datatype Action =
    | Broadcast(project: string)
    | Join(project: string)        // another connection subscribes in the manager
    | Leave(project: string)       // any connection unsubscribes in the manager
    | Subscribe(project: string)   // this connection subscribes, replacing any receiver it has
    | Drop(project: string)        // this connection drops its receiver
    | Poll(project: string)        // this connection looks at its receiver once

  function ListAt(m: map<string, seq<nat>>, project: string): seq<nat> {
    if project in m then m[project] else []
  }

  function LogOf(s: State, channel: nat): seq<nat> {
    if channel in s.logs then s.logs[channel] else []
  }

  /** Subscribing in the manager creates the channel, empty, if there is none. */
  function WithChannel(s: State, project: string): (t: State)
  {
    var maps := Subscriptions.Subscribed(s.maps, project);
    if project in s.maps.projects then s.(maps := maps)
    else s.(maps := maps, logs := s.logs[s.maps.nextChannel := []], owner := s.owner[s.maps.nextChannel := project])
  }

  /** The log position of the oldest entry still held. */
  function Oldest(log: seq<nat>): nat {
    if |log| > CAPACITY then |log| - CAPACITY else 0
  }

  /** The sender of the receiver's channel has been dropped. */
  predicate Closed(s: State, project: string)
    requires project in s.subs
  {
    !(project in s.maps.projects && s.maps.projects[project] == s.subs[project].channel)
  }

  /** `try_recv` on one receiver, and what the loop does with its answer. */
  function PollOne(s: State, project: string): (t: State)
    requires project in s.subs
  {
    var r := s.subs[project];
    var log := LogOf(s, r.channel);
    if r.next < Oldest(log) then s.(subs := s.subs[project := r.(next := Oldest(log), lagged := true)])
    else if r.next < |log| then
      s.(subs := s.subs[project := r.(next := r.next + 1)],
         received := s.received[project := ListAt(s.received, project) + [log[r.next]]])
    else if Closed(s, project) then s.(subs := s.subs - {project})
    else s
  }

  function SendTo(s: State, project: string): State
  {
    var i := |s.broadcasts|;
    var t := s.(broadcasts := s.broadcasts + [project]);
    if project !in s.maps.projects then t
    else
      var c := s.maps.projects[project];
      var u := t.(logs := s.logs[c := LogOf(s, c) + [i]]);
      if project in s.subs && s.subs[project].channel == c then
        u.(offered := s.offered[project := ListAt(s.offered, project) + [i]])
      else u
  }

  function Apply(s: State, a: Action): (t: State)
  {
    match a
    case Broadcast(p) => SendTo(s, p)
    case Join(p) => WithChannel(s, p)
    case Leave(p) => s.(maps := Subscriptions.Unsubscribed(s.maps, p))
    case Subscribe(p) =>
      var t := WithChannel(s, p);
      var c := t.maps.projects[p];
      t.(subs := t.subs[p := Receiver(c, |LogOf(t, c)|, |ListAt(t.offered, p)|, |ListAt(t.received, p)|, false)])
    case Drop(p) => s.(subs := s.subs - {p})
    case Poll(p) => if p in s.subs then PollOne(s, p) else s
  }

  function Run(s: State, actions: seq<Action>): (t: State)
    decreases |actions|
  {
    if actions == [] then s else Run(Apply(s, actions[0]), actions[1..])
  }

  /** What this connection has still to read of a project. */
  function Unread(s: State, project: string): seq<nat>
  {
    if project !in s.subs then []
    else
      var r := s.subs[project];
      if r.next <= |LogOf(s, r.channel)| then LogOf(s, r.channel)[r.next..] else []
  }

  // ----- invariants -----

  predicate Ascending(list: seq<nat>) {
    forall i, j | 0 <= i < j < |list| :: list[i] < list[j]
  }

  predicate Within(list: seq<nat>, all: seq<nat>) {
    forall x | x in list :: x in all
  }

  /** Every entry is a broadcast of the project. */
  predicate Of(list: seq<nat>, broadcasts: seq<string>, project: string) {
    forall x | x in list :: x < |broadcasts| && broadcasts[x] == project
  }

  lemma Grow(list: seq<nat>, broadcasts: seq<string>, project: string)
    requires Ascending(list) && Of(list, broadcasts, project)
    ensures Ascending(list + [|broadcasts|])
    ensures Of(list + [|broadcasts|], broadcasts + [project], project)
  {
    forall i, j | 0 <= i < j < |list| + 1 ensures (list + [|broadcasts|])[i] < (list + [|broadcasts|])[j] {
      assert list[i] in list;
    }
  }

  lemma StillOf(list: seq<nat>, broadcasts: seq<string>, project: string, q: string)
    requires Of(list, broadcasts, project)
    ensures Of(list, broadcasts + [q], project)
  {
  }

  lemma Skip(got: seq<nat>, unread: seq<nat>, k: nat, all: seq<nat>)
    requires k <= |unread| && Ascending(got + unread) && Within(got + unread, all)
    ensures Ascending(got + unread[k..]) && Within(got + unread[k..], all)
  {
    var t := got + unread[k..];
    forall i | 0 <= i < |t| ensures t[i] == (got + unread)[if i < |got| then i else i + k] {}
    forall x | x in t ensures x in got + unread {}
  }

  predicate ChannelOk(s: State, c: nat) {
    && (c in s.logs <==> c < s.maps.nextChannel)
    && (c in s.logs ==> c in s.owner && Ascending(s.logs[c]) && Of(s.logs[c], s.broadcasts, s.owner[c]))
  }

  predicate OwnerOk(s: State, p: string)
  {
    && (p in s.maps.projects ==> var c := s.maps.projects[p]; c in s.logs && c in s.owner && s.owner[c] == p)
    && (p in s.subs ==>
         var c := s.subs[p].channel; c in s.logs && c in s.owner && s.owner[c] == p && s.subs[p].next <= |LogOf(s, c)|)
  }

  /** What has been received, followed by what is still to read, is ascending and was offered. */
  predicate ViewOk(s: State, p: string)
  {
    var offered, all := ListAt(s.offered, p), ListAt(s.received, p) + Unread(s, p);
    Ascending(offered) && Of(offered, s.broadcasts, p) && Ascending(all) && Within(all, offered)
  }

  /** Without a lag, what was offered since subscribing is what was received since then, followed
      by what is still to read. */
  predicate CompleteOk(s: State, p: string)
  {
    p in s.subs && !s.subs[p].lagged ==>
      var r := s.subs[p];
      && r.offeredAt <= |ListAt(s.offered, p)| && r.receivedAt <= |ListAt(s.received, p)|
      && ListAt(s.offered, p)[r.offeredAt..] == ListAt(s.received, p)[r.receivedAt..] + Unread(s, p)
  }

  predicate ProjectOk(s: State, p: string)
  {
    OwnerOk(s, p) && ViewOk(s, p) && CompleteOk(s, p)
  }

  ghost predicate Inv(s: State) {
    && (forall c: nat :: ChannelOk(s, c))
    && (forall p: string :: ProjectOk(s, p))
  }

  lemma ChannelGrows(s: State, q: string, c: nat)
    requires ChannelOk(s, c) && OwnerOk(s, q)
    ensures ChannelOk(SendTo(s, q), c)
  {
    if c in s.logs {
      StillOf(s.logs[c], s.broadcasts, s.owner[c], q);
      Grow(s.logs[c], s.broadcasts, s.owner[c]);
    }
  }

  lemma ChannelStep(s: State, a: Action, c: nat)
    requires Inv(s)
    ensures ChannelOk(Apply(s, a), c)
  {
    assert ChannelOk(s, c);
    if a.Broadcast? {
      assert ProjectOk(s, a.project);
      ChannelGrows(s, a.project, c);
    }
  }

  predicate Offers(s: State, q: string, p: string) {
    p == q && p in s.subs && p in s.maps.projects && s.maps.projects[p] == s.subs[p].channel
  }

  lemma OfferLists(s: State, p: string)
    requires OwnerOk(s, p) && Offers(s, p, p)
    ensures var t, i := SendTo(s, p), |s.broadcasts|;
            && OwnerOk(t, p) && t.subs == s.subs && t.broadcasts == s.broadcasts + [p]
            && ListAt(t.offered, p) == ListAt(s.offered, p) + [i] && ListAt(t.received, p) == ListAt(s.received, p)
            && Unread(t, p) == Unread(s, p) + [i]
  {
  }

  /** A broadcast this connection's receiver sees. */
  lemma OfferStep(s: State, p: string)
    requires ProjectOk(s, p) && Offers(s, p, p)
    ensures ProjectOk(SendTo(s, p), p)
  {
    var i := |s.broadcasts|;
    OfferLists(s, p);
    var o, r, u := ListAt(s.offered, p), ListAt(s.received, p), Unread(s, p);
    Grow(o, s.broadcasts, p);
    assert Of(r + u, s.broadcasts, p);
    Grow(r + u, s.broadcasts, p);
    Assoc(r, u, [i]);
    if !s.subs[p].lagged {
      var n, m := s.subs[p].offeredAt, s.subs[p].receivedAt;
      Assoc(r[m..], u, [i]);
      assert (o + [i])[n..] == o[n..] + [i];
    }
  }

  /** What a project looks like to this connection is the same in both states. */
  predicate SameView(s: State, t: State, p: string) {
    && ListAt(t.offered, p) == ListAt(s.offered, p) && ListAt(t.received, p) == ListAt(s.received, p)
    && (p in t.subs ==> p in s.subs && t.subs[p] == s.subs[p])
    && Unread(t, p) == Unread(s, p)
  }

  lemma Untouched(s: State, t: State, p: string)
    requires ProjectOk(s, p) && OwnerOk(t, p) && SameView(s, t, p) && t.broadcasts == s.broadcasts
    ensures ProjectOk(t, p)
  {
  }

  lemma UntouchedByBroadcast(s: State, t: State, q: string, p: string)
    requires ProjectOk(s, p) && OwnerOk(t, p) && SameView(s, t, p) && t.broadcasts == s.broadcasts + [q]
    ensures ProjectOk(t, p)
  {
    StillOf(ListAt(s.offered, p), s.broadcasts, p, q);
  }

  lemma NotOffered(s: State, q: string, p: string)
    requires OwnerOk(s, p) && OwnerOk(s, q) && !Offers(s, q, p)
    ensures SameView(s, SendTo(s, q), p) && OwnerOk(SendTo(s, q), p)
  {
    if p in s.subs {
      assert LogOf(SendTo(s, q), s.subs[p].channel) == LogOf(s, s.subs[p].channel);
    }
  }

  lemma BroadcastStep(s: State, q: string, p: string)
    requires Inv(s)
    ensures ProjectOk(Apply(s, Broadcast(q)), p)
  {
    assert ProjectOk(s, p) && ProjectOk(s, q);
    if Offers(s, q, p) {
      OfferStep(s, p);
    } else {
      NotOffered(s, q, p);
      UntouchedByBroadcast(s, SendTo(s, q), q, p);
    }
  }

  lemma JoinView(s: State, q: string, p: string)
    requires OwnerOk(s, p) && ChannelOk(s, s.maps.nextChannel)
    ensures SameView(s, WithChannel(s, q), p) && OwnerOk(WithChannel(s, q), p)
  {
  }

  lemma JoinStep(s: State, q: string, p: string)
    requires Inv(s)
    ensures ProjectOk(WithChannel(s, q), p)
  {
    assert ProjectOk(s, p) && ChannelOk(s, s.maps.nextChannel);
    JoinView(s, q, p);
    Untouched(s, WithChannel(s, q), p);
  }

  lemma LeaveStep(s: State, q: string, p: string)
    requires ProjectOk(s, p)
    ensures ProjectOk(Apply(s, Leave(q)), p)
  {
    var t := Apply(s, Leave(q));
    assert SameView(s, t, p) && OwnerOk(t, p);
    Untouched(s, t, p);
  }

  lemma DropElsewhere(s: State, q: string, p: string)
    requires OwnerOk(s, p) && p != q
    ensures SameView(s, Apply(s, Drop(q)), p) && OwnerOk(Apply(s, Drop(q)), p)
  {
  }

  lemma DropHere(s: State, p: string)
    requires ViewOk(s, p)
    ensures ViewOk(Apply(s, Drop(p)), p)
  {
    var u := Unread(s, p);
    Skip(ListAt(s.received, p), u, |u|, ListAt(s.offered, p));
    assert Unread(Apply(s, Drop(p)), p) == u[|u|..];
  }

  lemma DropStep(s: State, q: string, p: string)
    requires ProjectOk(s, p)
    ensures ProjectOk(Apply(s, Drop(q)), p)
  {
    if q == p {
      DropHere(s, p);
    } else {
      DropElsewhere(s, q, p);
      Untouched(s, Apply(s, Drop(q)), p);
    }
  }

  /** A new receiver starts at the end of its channel's log. */
  lemma Resubscribe(w: State, p: string)
    requires ProjectOk(w, p) && p in w.maps.projects
    ensures var c := w.maps.projects[p];
            var t := w.(subs :=
                w.subs[p := Receiver(c, |LogOf(w, c)|, |ListAt(w.offered, p)|, |ListAt(w.received, p)|, false)]);
            ProjectOk(t, p)
  {
    var c := w.maps.projects[p];
    var t := w.(subs :=
        w.subs[p := Receiver(c, |LogOf(w, c)|, |ListAt(w.offered, p)|, |ListAt(w.received, p)|, false)]);
    var got, u := ListAt(w.received, p), Unread(w, p);
    Skip(got, u, |u|, ListAt(w.offered, p));
    assert Unread(t, p) == u[|u|..];
    assert got[|got|..] + Unread(t, p) == ListAt(w.offered, p)[|ListAt(w.offered, p)|..];
  }

  lemma SubscribeStep(s: State, q: string, p: string)
    requires Inv(s)
    ensures ProjectOk(Apply(s, Subscribe(q)), p)
  {
    var w := WithChannel(s, q);
    JoinStep(s, q, p);
    if p == q {
      Resubscribe(w, q);
    } else {
      assert SameView(w, Apply(s, Subscribe(q)), p);
      Untouched(w, Apply(s, Subscribe(q)), p);
    }
  }

  lemma SliceSlice(log: seq<nat>, i: nat, k: nat)
    requires i + k <= |log|
    ensures log[i..][k..] == log[i + k..]
  {
  }

  lemma MoveFirst(got: seq<nat>, unread: seq<nat>, from: nat)
    requires unread != []
    ensures got + unread == (got + [unread[0]]) + unread[1..]
    ensures from <= |got| ==> got[from..] + unread == (got + [unread[0]])[from..] + unread[1..]
  {
  }

  /** What a receiver that was too far behind skips to. */
  lemma PollSkipsTo(s: State, p: string)
    requires p in s.subs && s.subs[p].next < Oldest(LogOf(s, s.subs[p].channel))
    ensures var t, k := PollOne(s, p), Oldest(LogOf(s, s.subs[p].channel)) - s.subs[p].next;
            && ListAt(t.received, p) == ListAt(s.received, p) && ListAt(t.offered, p) == ListAt(s.offered, p)
            && k <= |Unread(s, p)| && Unread(t, p) == Unread(s, p)[k..]
  {
    var log := LogOf(s, s.subs[p].channel);
    SliceSlice(log, s.subs[p].next, Oldest(log) - s.subs[p].next);
  }

  lemma PollSkips(s: State, p: string)
    requires ProjectOk(s, p) && p in s.subs && s.subs[p].next < Oldest(LogOf(s, s.subs[p].channel))
    ensures ProjectOk(PollOne(s, p), p)
  {
    var t := PollOne(s, p);
    PollSkipsTo(s, p);
    assert OwnerOk(t, p) && CompleteOk(t, p);
    assert t.broadcasts == s.broadcasts;
    Skip(ListAt(s.received, p), Unread(s, p), Oldest(LogOf(s, s.subs[p].channel)) - s.subs[p].next,
        ListAt(s.offered, p));
  }

  predicate Readable(s: State, p: string)
  {
    p in s.subs && Oldest(LogOf(s, s.subs[p].channel)) <= s.subs[p].next < |LogOf(s, s.subs[p].channel)|
  }

  /** An entry moves from unread to received. */
  lemma PollMoves(s: State, p: string)
    requires Readable(s, p)
    ensures var t := PollOne(s, p);
            && Unread(s, p) != [] && Unread(t, p) == Unread(s, p)[1..]
            && ListAt(t.received, p) == ListAt(s.received, p) + [Unread(s, p)[0]]
            && ListAt(t.offered, p) == ListAt(s.offered, p)
  {
    SliceSlice(LogOf(s, s.subs[p].channel), s.subs[p].next, 1);
  }

  lemma PollReceives(s: State, p: string)
    requires ProjectOk(s, p) && Readable(s, p)
    ensures ProjectOk(PollOne(s, p), p)
  {
    var t := PollOne(s, p);
    PollMoves(s, p);
    MoveFirst(ListAt(s.received, p), Unread(s, p), s.subs[p].receivedAt);
    assert ListAt(t.received, p) + Unread(t, p) == ListAt(s.received, p) + Unread(s, p);
    assert ViewOk(t, p);
    assert CompleteOk(t, p);
  }

  /** Nothing to read: the receiver goes if its channel is closed. */
  lemma PollsNothing(s: State, p: string)
    requires ProjectOk(s, p) && p in s.subs && s.subs[p].next >= |LogOf(s, s.subs[p].channel)|
    ensures ProjectOk(PollOne(s, p), p)
  {
    assert SameView(s, PollOne(s, p), p);
    Untouched(s, PollOne(s, p), p);
  }

  lemma PollElsewhere(s: State, q: string, p: string)
    requires OwnerOk(s, p) && q in s.subs && p != q
    ensures SameView(s, PollOne(s, q), p) && OwnerOk(PollOne(s, q), p)
  {
  }

  lemma PollStep(s: State, q: string, p: string)
    requires ProjectOk(s, p) && q in s.subs
    ensures ProjectOk(PollOne(s, q), p)
  {
    if p != q {
      PollElsewhere(s, q, p);
      Untouched(s, PollOne(s, q), p);
    } else if s.subs[p].next < Oldest(LogOf(s, s.subs[p].channel)) {
      PollSkips(s, p);
    } else if s.subs[p].next < |LogOf(s, s.subs[p].channel)| {
      PollReceives(s, p);
    } else {
      PollsNothing(s, p);
    }
  }

  lemma StepKeeps(s: State, a: Action)
    requires Inv(s)
    ensures Inv(Apply(s, a))
  {
    var t := Apply(s, a);
    forall c: nat ensures ChannelOk(t, c) { ChannelStep(s, a, c); }
    forall p: string ensures ProjectOk(t, p) {
      match a
      case Broadcast(q) => BroadcastStep(s, q, p);
      case Join(q) => JoinStep(s, q, p);
      case Leave(q) =>
        assert ProjectOk(s, p);
        LeaveStep(s, q, p);
      case Drop(q) =>
        assert ProjectOk(s, p);
        DropStep(s, q, p);
      case Subscribe(q) => SubscribeStep(s, q, p);
      case Poll(q) =>
        assert ProjectOk(s, p);
        if q in s.subs { PollStep(s, q, p); }
    }
  }

  lemma {:induction false} RunKeeps(s: State, actions: seq<Action>)
    requires Inv(s)
    ensures Inv(Run(s, actions))
    decreases |actions|
  {
    if actions != [] {
      StepKeeps(s, actions[0]);
      RunKeeps(Apply(s, actions[0]), actions[1..]);
    }
  }

  // ----- what every run gives a client -----

  /** After any run, what a client received for a project is in broadcast order, without repeats,
      all of that project, and all of it offered while the client was subscribed. */
  lemma ForwardedInOrder(actions: seq<Action>, p: string)
    ensures var s := Run(INITIAL, actions);
            var received, offered := ListAt(s.received, p), ListAt(s.offered, p);
            && Ascending(received) && Within(received, offered)
            && Ascending(offered) && Of(offered, s.broadcasts, p)
            && Of(received, s.broadcasts, p)
  {
    assert Inv(INITIAL);
    RunKeeps(INITIAL, actions);
    var s := Run(INITIAL, actions);
    assert ProjectOk(s, p);
    var received := ListAt(s.received, p);
    var all := received + Unread(s, p);
    assert forall i | 0 <= i < |received| :: received[i] == all[i];
    assert forall x | x in received :: x in all;
  }

  /** The client neither subscribes again nor drops its receiver, and never looks at it when more
      than a channel's capacity is unread. */
  predicate Steady(s: State, actions: seq<Action>, p: string)
    decreases |actions|
  {
    actions != [] ==>
      && actions[0] != Subscribe(p) && actions[0] != Drop(p)
      && (actions[0] == Poll(p) ==> |Unread(s, p)| <= CAPACITY)
      && Steady(Apply(s, actions[0]), actions[1..], p)
  }

  /** Since the client had been offered n and had received m entries, it has been kept complete. */
  predicate Tracks(s: State, p: string, n: nat, m: nat) {
    if p in s.subs then s.subs[p].offeredAt == n && s.subs[p].receivedAt == m && !s.subs[p].lagged
    else
      && n <= |ListAt(s.offered, p)| && m <= |ListAt(s.received, p)|
      && ListAt(s.offered, p)[n..] == ListAt(s.received, p)[m..]
  }

  /** The receiver, and the two lists, are as they were. */
  predicate SameLists(s: State, t: State, p: string) {
    && ListAt(t.offered, p) == ListAt(s.offered, p) && ListAt(t.received, p) == ListAt(s.received, p)
    && (p in t.subs <==> p in s.subs) && (p in s.subs ==> t.subs[p] == s.subs[p])
  }

  lemma QuietStep(s: State, a: Action, p: string)
    requires a.Join? || a.Leave? || a.Subscribe? || a.Drop?
    requires a != Subscribe(p) && a != Drop(p)
    ensures SameLists(s, Apply(s, a), p)
  {
  }

  lemma TracksBroadcast(s: State, q: string, p: string, n: nat, m: nat)
    requires Tracks(s, p, n, m)
    ensures Tracks(SendTo(s, q), p, n, m)
  {
    if p !in s.subs { assert SameLists(s, SendTo(s, q), p); }
  }

  lemma TracksStep(s: State, a: Action, p: string, n: nat, m: nat)
    requires ProjectOk(s, p) && Tracks(s, p, n, m)
    requires a != Subscribe(p) && a != Drop(p) && (a == Poll(p) ==> |Unread(s, p)| <= CAPACITY)
    ensures Tracks(Apply(s, a), p, n, m)
  {
    match a
    case Broadcast(q) => TracksBroadcast(s, q, p, n, m);
    case Poll(q) => if q in s.subs { TracksPoll(s, q, p, n, m); }
    case _ => QuietStep(s, a, p);
  }

  lemma TracksPoll(s: State, q: string, p: string, n: nat, m: nat)
    requires ProjectOk(s, p) && Tracks(s, p, n, m) && q in s.subs && (q == p ==> |Unread(s, p)| <= CAPACITY)
    ensures Tracks(PollOne(s, q), p, n, m)
  {
    if q == p {
      var r, log := s.subs[p], LogOf(s, s.subs[p].channel);
      assert |Unread(s, p)| == |log| - r.next;
      if r.next == |log| {
        assert Unread(s, p) == [];
        assert ListAt(s.offered, p)[n..] == ListAt(s.received, p)[m..] + [];
      }
    }
  }

  lemma {:induction false} TracksRun(s: State, actions: seq<Action>, p: string, n: nat, m: nat)
    requires Inv(s) && Tracks(s, p, n, m) && Steady(s, actions, p)
    ensures Inv(Run(s, actions)) && Tracks(Run(s, actions), p, n, m)
    decreases |actions|
  {
    if actions != [] {
      assert ProjectOk(s, p);
      TracksStep(s, actions[0], p, n, m);
      StepKeeps(s, actions[0]);
      TracksRun(Apply(s, actions[0]), actions[1..], p, n, m);
    }
  }

  /** Nothing offered is skipped while a client keeps its receiver and keeps up: all it was offered
      since it subscribed it has received, in order, but for what it has not read yet. What is offered
      is settled below. */
  lemma NothingSkipped(before: seq<Action>, p: string, after: seq<Action>)
    requires Steady(Apply(Run(INITIAL, before), Subscribe(p)), after, p)
    ensures var s := Run(INITIAL, before);
            var t := Run(Apply(s, Subscribe(p)), after);
            var n, m := |ListAt(s.offered, p)|, |ListAt(s.received, p)|;
            && n <= |ListAt(t.offered, p)| && m <= |ListAt(t.received, p)|
            && ListAt(t.offered, p)[n..] == ListAt(t.received, p)[m..] + Unread(t, p)
  {
    assert Inv(INITIAL);
    RunKeeps(INITIAL, before);
    var s := Run(INITIAL, before);
    var n, m := |ListAt(s.offered, p)|, |ListAt(s.received, p)|;
    StepKeeps(s, Subscribe(p));
    TracksRun(Apply(s, Subscribe(p)), after, p, n, m);
    var t := Run(Apply(s, Subscribe(p)), after);
    assert ProjectOk(t, p);
    if p !in t.subs {
      assert ListAt(t.received, p)[m..] + [] == ListAt(t.received, p)[m..];
    }
  }

  // ----- which broadcasts are offered -----

  /** The client has a receiver on the project's present channel. */
  predicate Attached(s: State, p: string) {
    p in s.subs && !Closed(s, p)
  }

  /** The project's broadcasts from number `from` on. */
  function MadeSince(broadcasts: seq<string>, from: nat, p: string): (r: seq<nat>)
    ensures forall x :: x in r <==> from <= x < |broadcasts| && broadcasts[x] == p
  {
    if |broadcasts| <= from then []
    else
      var n := |broadcasts| - 1;
      MadeSince(broadcasts[..n], from, p) + if broadcasts[n] == p then [n] else []
  }

  lemma MadeSnoc(broadcasts: seq<string>, from: nat, p: string, q: string)
    requires from <= |broadcasts|
    ensures MadeSince(broadcasts + [q], from, p) ==
              MadeSince(broadcasts, from, p) + if q == p then [|broadcasts|] else []
  {
    assert (broadcasts + [q])[..|broadcasts|] == broadcasts;
  }

  lemma DetachedByJoin(s: State, q: string, p: string)
    requires OwnerOk(s, p) && ChannelOk(s, s.maps.nextChannel) && !Attached(s, p)
    ensures !Attached(WithChannel(s, q), p)
  {
  }

  lemma DetachedByRest(s: State, a: Action, p: string)
    requires !Attached(s, p) && (a.Broadcast? || a.Leave? || a.Drop?)
    ensures !Attached(Apply(s, a), p)
  {
  }

  /** Once the receiver is gone or its channel is closed, only subscribing again attaches the client. */
  lemma DetachedStays(s: State, a: Action, p: string)
    requires Inv(s) && !Attached(s, p) && a != Subscribe(p)
    ensures !Attached(Apply(s, a), p)
  {
    match a
    case Subscribe(q) =>
      assert ProjectOk(s, p) && ChannelOk(s, s.maps.nextChannel);
      DetachedByJoin(s, q, p);
    case Join(q) =>
      assert ProjectOk(s, p) && ChannelOk(s, s.maps.nextChannel);
      DetachedByJoin(s, q, p);
    case Poll(q) => if q in s.subs { PollMaps(s, q, p); }
    case _ => DetachedByRest(s, a, p);
  }

  lemma PollMaps(s: State, q: string, p: string)
    requires q in s.subs
    ensures PollOne(s, q).maps == s.maps && PollOne(s, q).offered == s.offered
            && PollOne(s, q).broadcasts == s.broadcasts
    ensures p in PollOne(s, q).subs ==> p in s.subs && PollOne(s, q).subs[p].channel == s.subs[p].channel
  {
  }

  /** The list of offers grows by exactly the broadcasts made while the client is attached. */
  lemma OfferedStep(s: State, a: Action, p: string)
    ensures var t := Apply(s, a);
            && ListAt(t.offered, p) ==
                 ListAt(s.offered, p) + (if a == Broadcast(p) && Attached(s, p) then [|s.broadcasts|] else [])
            && t.broadcasts == s.broadcasts + (if a.Broadcast? then [a.project] else [])
  {
    match a
    case Poll(q) => if q in s.subs { PollMaps(s, q, p); }
    case _ =>
  }

  /** Every broadcast of the project in the run is made while the client is attached. */
  predicate AllAttached(s: State, actions: seq<Action>, p: string)
    decreases |actions|
  {
    actions != [] ==>
      && (actions[0] == Broadcast(p) ==> Attached(s, p))
      && AllAttached(Apply(s, actions[0]), actions[1..], p)
  }

  /** What was offered since `n` is what was broadcast since `from`. */
  predicate OffersAll(s: State, p: string, n: nat, from: nat) {
    n <= |ListAt(s.offered, p)| && from <= |s.broadcasts|
        && ListAt(s.offered, p)[n..] == MadeSince(s.broadcasts, from, p)
  }

  lemma OffersAllStep(s: State, a: Action, p: string, n: nat, from: nat)
    requires OffersAll(s, p, n, from) && (a == Broadcast(p) ==> Attached(s, p))
    ensures OffersAll(Apply(s, a), p, n, from)
  {
    OfferedStep(s, a, p);
    if a.Broadcast? { MadeSnoc(s.broadcasts, from, p, a.project); }
  }

  lemma {:induction false} OffersAllRun(s: State, actions: seq<Action>, p: string, n: nat, from: nat)
    requires OffersAll(s, p, n, from) && AllAttached(s, actions, p)
    ensures OffersAll(Run(s, actions), p, n, from)
    decreases |actions|
  {
    if actions != [] {
      OffersAllStep(s, actions[0], p, n, from);
      OffersAllRun(Apply(s, actions[0]), actions[1..], p, n, from);
    }
  }

  /** A broadcast of the project that was not offered when it was made. */
  predicate Missed(s: State, p: string, x: nat) {
    x < |s.broadcasts| && s.broadcasts[x] == p && x !in ListAt(s.offered, p)
  }

  /** What is not offered when it is made is never offered. */
  lemma {:induction false} MissedStays(s: State, actions: seq<Action>, p: string, x: nat)
    requires Missed(s, p, x)
    ensures Missed(Run(s, actions), p, x)
    decreases |actions|
  {
    if actions != [] {
      OfferedStep(s, actions[0], p);
      MissedStays(Apply(s, actions[0]), actions[1..], p, x);
    }
  }

  lemma {:induction false} SomeMissed(s: State, actions: seq<Action>, p: string) returns (x: nat)
    requires Inv(s) && !AllAttached(s, actions, p)
    ensures |s.broadcasts| <= x && Missed(Run(s, actions), p, x)
    decreases |actions|
  {
    var t := Apply(s, actions[0]);
    OfferedStep(s, actions[0], p);
    if actions[0] == Broadcast(p) && !Attached(s, p) {
      x := |s.broadcasts|;
      assert ProjectOk(s, p);
      assert Missed(t, p, x);
      MissedStays(t, actions[1..], p, x);
    } else {
      StepKeeps(s, actions[0]);
      x := SomeMissed(t, actions[1..], p);
    }
  }

  /** From a subscribe on, a client that keeps its receiver and keeps up has received, or has still to
      read, every broadcast the project made since, in order, if and only if all of them were made
      while its receiver's channel was the project's channel. */
  lemma NothingMissedIff(before: seq<Action>, p: string, after: seq<Action>)
    requires Steady(Apply(Run(INITIAL, before), Subscribe(p)), after, p)
    ensures var s := Run(INITIAL, before);
            var t := Run(Apply(s, Subscribe(p)), after);
            var m := |ListAt(s.received, p)|;
            && m <= |ListAt(t.received, p)|
            && (ListAt(t.received, p)[m..] + Unread(t, p) == MadeSince(t.broadcasts, |s.broadcasts|, p) <==>
                AllAttached(Apply(s, Subscribe(p)), after, p))
  {
    assert Inv(INITIAL);
    RunKeeps(INITIAL, before);
    var s := Run(INITIAL, before);
    var u := Apply(s, Subscribe(p));
    StepKeeps(s, Subscribe(p));
    NothingSkipped(before, p, after);
    var t := Run(u, after);
    var n := |ListAt(s.offered, p)|;
    OfferedStep(s, Subscribe(p), p);
    if AllAttached(u, after, p) {
      assert ListAt(u.offered, p)[n..] == MadeSince(u.broadcasts, |s.broadcasts|, p);
      OffersAllRun(u, after, p, n, |s.broadcasts|);
    } else {
      var x := SomeMissed(u, after, p);
      assert x in MadeSince(t.broadcasts, |s.broadcasts|, p);
      assert forall y | y in ListAt(t.offered, p)[n..] :: y in ListAt(t.offered, p);
    }
  }

  lemma {:induction false} AttachedThroughout(s: State, actions: seq<Action>, p: string)
    requires Inv(s) && Attached(Run(s, actions), p) && Subscribe(p) !in actions
    ensures Attached(s, p) && AllAttached(s, actions, p)
    decreases |actions|
  {
    if actions != [] {
      StepKeeps(s, actions[0]);
      assert actions[0] in actions;
      AttachedThroughout(Apply(s, actions[0]), actions[1..], p);
      if !Attached(s, p) { DetachedStays(s, actions[0], p); }
    }
  }

  lemma {:induction false} SteadyNeverSubscribes(s: State, actions: seq<Action>, p: string)
    requires Steady(s, actions, p)
    ensures Subscribe(p) !in actions
    decreases |actions|
  {
    if actions != [] {
      SteadyNeverSubscribes(Apply(s, actions[0]), actions[1..], p);
      assert actions == [actions[0]] + actions[1..];
    }
  }

  /** So as long as the receiver is held and its channel stays in place, nothing broadcast since the
      subscribe is missing. */
  lemma NothingMissedWhileInPlace(before: seq<Action>, p: string, after: seq<Action>)
    requires Steady(Apply(Run(INITIAL, before), Subscribe(p)), after, p)
    requires Attached(Run(Apply(Run(INITIAL, before), Subscribe(p)), after), p)
    ensures var s := Run(INITIAL, before);
            var t := Run(Apply(s, Subscribe(p)), after);
            var m := |ListAt(s.received, p)|;
            && m <= |ListAt(t.received, p)|
            && ListAt(t.received, p)[m..] + Unread(t, p) == MadeSince(t.broadcasts, |s.broadcasts|, p)
  {
    assert Inv(INITIAL);
    RunKeeps(INITIAL, before);
    StepKeeps(Run(INITIAL, before), Subscribe(p));
    SteadyNeverSubscribes(Apply(Run(INITIAL, before), Subscribe(p)), after, p);
    AttachedThroughout(Apply(Run(INITIAL, before), Subscribe(p)), after, p);
    NothingMissedIff(before, p, after);
  }

  lemma {:induction false} DetachedRun(s: State, quiet: seq<Action>, p: string, x: nat)
    requires Inv(s) && !Attached(s, p) && Subscribe(p) !in quiet
    requires |s.broadcasts| <= x < |Run(s, quiet).broadcasts| && Run(s, quiet).broadcasts[x] == p
    ensures Missed(Run(s, quiet), p, x)
    decreases |quiet|
  {
    if quiet != [] {
      var t := Apply(s, quiet[0]);
      assert quiet[0] in quiet;
      OfferedStep(s, quiet[0], p);
      DetachedStays(s, quiet[0], p);
      StepKeeps(s, quiet[0]);
      if x < |t.broadcasts| {
        BroadcastsGrow(t, quiet[1..]);
        assert ProjectOk(s, p);
        assert Missed(t, p, x);
        MissedStays(t, quiet[1..], p, x);
      } else {
        DetachedRun(t, quiet[1..], p, x);
      }
    }
  }

  lemma {:induction false} BroadcastsGrow(s: State, actions: seq<Action>)
    ensures s.broadcasts <= Run(s, actions).broadcasts
    decreases |actions|
  {
    if actions != [] {
      OfferedStep(s, actions[0], "");
      BroadcastsGrow(Apply(s, actions[0]), actions[1..]);
    }
  }

  /** A broadcast made after the client's channel was torn down, or its receiver dropped, and before
      it subscribes again never arrives, whatever comes later. */
  lemma BroadcastWhileDetachedIsLost(before: seq<Action>, p: string, quiet: seq<Action>, x: nat, after: seq<Action>)
    requires !Attached(Run(INITIAL, before), p) && Subscribe(p) !in quiet
    requires var s := Run(INITIAL, before);
             var t := Run(s, quiet);
             |s.broadcasts| <= x < |t.broadcasts| && t.broadcasts[x] == p
    ensures var u := Run(Run(Run(INITIAL, before), quiet), after);
            x !in ListAt(u.received, p) && x !in Unread(u, p)
  {
    assert Inv(INITIAL);
    RunKeeps(INITIAL, before);
    var s := Run(INITIAL, before);
    RunKeeps(s, quiet);
    RunKeeps(Run(s, quiet), after);
    DetachedRun(s, quiet, p, x);
    MissedStays(Run(s, quiet), after, p, x);
    var u := Run(Run(s, quiet), after);
    assert ProjectOk(u, p);
    var all := ListAt(u.received, p) + Unread(u, p);
    assert x in ListAt(u.received, p) || x in Unread(u, p) ==> x in all;
  }

  /** The client subscribes; any connection's unsubscribe takes the shared count to zero and the
      channel with it; someone else subscribes and opens a new one. The next broadcast never reaches
      the client, although it has kept its receiver. */
  lemma TornDownChannelLosesBroadcast(p: string, after: seq<Action>)
    ensures var s := Run(INITIAL, [Subscribe(p), Leave(p), Join(p)]);
            var t := Run(s, [Broadcast(p)]);
            && p in t.subs && t.broadcasts == [p] && ListAt(t.received, p) + Unread(t, p) == []
            && 0 !in ListAt(Run(t, after).received, p)
  {
    var s1 := Apply(INITIAL, Subscribe(p));
    assert s1.maps == Subscriptions.Maps(map[p := 0], map[p := 1], 1)
           && s1.subs == map[p := Receiver(0, 0, 0, 0, false)];
    var s2 := Apply(s1, Leave(p));
    assert s2.maps == Subscriptions.Maps(map[], map[], 1) && s2.subs == s1.subs;
    var s3 := Apply(s2, Join(p));
    assert s3.maps == Subscriptions.Maps(map[p := 1], map[p := 1], 2) && s3.subs == s1.subs && LogOf(s3, 0) == [];
    RunSnoc(INITIAL, [], Subscribe(p));
    RunSnoc(INITIAL, [Subscribe(p)], Leave(p));
    RunSnoc(INITIAL, [Subscribe(p), Leave(p)], Join(p));
    assert [] + [Subscribe(p)] == [Subscribe(p)] && [Subscribe(p)] + [Leave(p)] == [Subscribe(p), Leave(p)]
        && [Subscribe(p), Leave(p)] + [Join(p)] == [Subscribe(p), Leave(p), Join(p)];
    RunSnoc(s3, [], Broadcast(p));
    assert [] + [Broadcast(p)] == [Broadcast(p)];
    BroadcastWhileDetachedIsLost([Subscribe(p), Leave(p), Join(p)], p, [Broadcast(p)], 0, after);
  }

  /** A receiver loses entries exactly when it is read while more than the capacity is unread, and
      then it loses all but the newest entries the channel holds. */
  lemma LagLosesOldest(actions: seq<Action>, p: string)
    requires p in Run(INITIAL, actions).subs
    ensures var s := Run(INITIAL, actions);
            var t := Apply(s, Poll(p));
            && (|Unread(s, p)| > 256 ==> ListAt(t.received, p) == ListAt(s.received, p) &&
                                         Unread(t, p) == Unread(s, p)[|Unread(s, p)| - 256..])
            && (|Unread(s, p)| <= 256 ==>
                 ListAt(t.received, p) + Unread(t, p) == ListAt(s.received, p) + Unread(s, p))
  {
    assert Inv(INITIAL);
    RunKeeps(INITIAL, actions);
    var s := Run(INITIAL, actions);
    assert ProjectOk(s, p);
    PollEffect(s, p);
  }

  lemma PollEffect(s: State, p: string)
    requires p in s.subs && OwnerOk(s, p)
    ensures var t := PollOne(s, p);
            && (|Unread(s, p)| > CAPACITY ==> ListAt(t.received, p) == ListAt(s.received, p) &&
                                              Unread(t, p) == Unread(s, p)[|Unread(s, p)| - CAPACITY..])
            && (|Unread(s, p)| <= CAPACITY ==>
                 ListAt(t.received, p) + Unread(t, p) == ListAt(s.received, p) + Unread(s, p))
  {
    var log := LogOf(s, s.subs[p].channel);
    assert |Unread(s, p)| == |log| - s.subs[p].next;
    if |Unread(s, p)| > CAPACITY {
      PollSkipsTo(s, p);
    } else if Unread(s, p) != [] {
      PollMoves(s, p);
      MoveFirst(ListAt(s.received, p), Unread(s, p), 0);
    } else {
      assert Unread(PollOne(s, p), p) == [];
    }
  }

  /** The receiver's channel is the one the project has now. */
  predicate InPlace(s: State, p: string) {
    p in s.subs && p in s.maps.projects && s.maps.projects[p] == s.subs[p].channel
  }

  lemma PollOutcome(s: State, p: string)
    requires p in s.subs && OwnerOk(s, p)
    ensures var t := PollOne(s, p);
            && (Unread(s, p) != [] ==> p in t.subs)
            && (Unread(s, p) == [] ==> t == if InPlace(s, p) then s else s.(subs := s.subs - {p}))
  {
    assert |Unread(s, p)| == |LogOf(s, s.subs[p].channel)| - s.subs[p].next;
  }

  lemma PollForwards(s: State, p: string)
    requires p in s.subs && OwnerOk(s, p) && 0 < |Unread(s, p)| <= CAPACITY
    ensures var t := PollOne(s, p);
            && Unread(t, p) == Unread(s, p)[1..]
            && ListAt(t.received, p) == ListAt(s.received, p) + [Unread(s, p)[0]]
  {
    assert |Unread(s, p)| == |LogOf(s, s.subs[p].channel)| - s.subs[p].next;
    PollMoves(s, p);
  }

  /** One look at a receiver: the oldest unread entry is forwarded, unless the receiver has lagged; with
      nothing unread it is dropped if its channel is no longer the project's, and kept if it is. */
  lemma PollMeaning(actions: seq<Action>, p: string)
    requires p in Run(INITIAL, actions).subs
    ensures var s := Run(INITIAL, actions);
            var t := Apply(s, Poll(p));
            && (0 < |Unread(s, p)| <= 256 ==> Unread(t, p) == Unread(s, p)[1..] &&
                                              ListAt(t.received, p) == ListAt(s.received, p) + [Unread(s, p)[0]])
            && (Unread(s, p) != [] ==> p in t.subs)
            && (Unread(s, p) == [] ==> t == if InPlace(s, p) then s else s.(subs := s.subs - {p}))
  {
    assert Inv(INITIAL);
    RunKeeps(INITIAL, actions);
    var s := Run(INITIAL, actions);
    assert ProjectOk(s, p);
    PollOutcome(s, p);
    if 0 < |Unread(s, p)| <= CAPACITY { PollForwards(s, p); }
  }

  /** A client loses its receiver only by dropping it, or when it looks at it with nothing unread after the
      channel was torn down. */
  lemma ReceiverGoesIff(actions: seq<Action>, a: Action, p: string)
    requires p in Run(INITIAL, actions).subs
    ensures var s := Run(INITIAL, actions);
            p !in Apply(s, a).subs <==>
              a == Drop(p) || (a == Poll(p) && Unread(s, p) == [] && !InPlace(s, p))
  {
    if a == Poll(p) { PollMeaning(actions, p); } else { SubsStay(Run(INITIAL, actions), a, p); }
  }

  lemma SubsStay(s: State, a: Action, p: string)
    requires p in s.subs && a != Poll(p)
    ensures p in Apply(s, a).subs <==> a != Drop(p)
  {
  }

  // ----- the loop of one connection -----

  function Polls(projects: seq<string>): seq<Action> {
    seq(|projects|, i requires 0 <= i < |projects| => Poll(projects[i]))
  }

  lemma {:induction false} RunSnoc(s: State, actions: seq<Action>, a: Action)
    ensures Run(s, actions + [a]) == Apply(Run(s, actions), a)
    decreases |actions|
  {
    if actions == [] {
      assert Run(s, [a]) == Run(Apply(s, a), [a][1..]);
    } else {
      RunSnoc(Apply(s, actions[0]), actions[1..], a);
      assert (actions + [a])[1..] == actions[1..] + [a];
    }
  }

  class Connection {
    var world: State

    constructor (world: State)
      ensures this.world == world
    {
      this.world := world;
    }

    /** One pass over the receivers: each is looked at once, unless one turns out closed, which is
        removed and ends the pass. */
    method ForwardPass() returns (polled: seq<string>)
      modifies this
      ensures world == Run(old(world), Polls(polled))
      ensures forall i, j | 0 <= i < j < |polled| :: polled[i] != polled[j]
      ensures forall p | p in polled :: p in old(world).subs
      ensures (world.subs.Keys == old(world).subs.Keys && (forall p | p in old(world).subs :: p in polled)) ||
              (polled != [] && world.subs.Keys == old(world).subs.Keys - {polled[|polled| - 1]})
    {
      polled := [];
      var left := world.subs.Keys;
      while left != {}
        invariant world == Run(old(world), Polls(polled))
        invariant world.subs.Keys == old(world).subs.Keys
        invariant left <= old(world).subs.Keys
        invariant forall p | p in old(world).subs :: p in polled <==> p !in left
        invariant forall p | p in polled :: p in old(world).subs
        invariant forall i, j | 0 <= i < j < |polled| :: polled[i] != polled[j]
        decreases left
      {
        var p: string :| p in left;
        RunSnoc(old(world), Polls(polled), Poll(p));
        assert Polls(polled + [p]) == Polls(polled) + [Poll(p)];
        left, polled := left - {p}, polled + [p];
        world := PollOne(world, p);
        if p !in world.subs {
          return;
        }
      }
    }
  }
}
