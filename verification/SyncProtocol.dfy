/** Runs of whole-history syncs: every machine relabels and truncates what it receives and sends
    it on, yet only boundedly many syncs ever insert anything. */
module SyncProtocol {
  import opened Text
  import opened Timestamps
  import opened Calendar
  import opened Events
  import opened Grpc
  import opened Sync
  import opened SyncStream
  import S = EventStore

  // ----- what a sync can and cannot add -----

  /** Everything about an event that an echo keeps and a duplicate check looks at. */
  datatype Key = Key(projectId: string, filePath: string, second: DateTime)

  function KeyOf(e: FileEvent): Key {
    Key(e.projectId, e.filePath, Truncated(e.timestamp))
  }

  function KeysOf(contents: seq<FileEvent>): set<Key> {
    set e | e in contents :: KeyOf(e)
  }

  /** The keys a machine holds under its own name at a whole second: the duplicates it detects. */
  function Settled(contents: seq<FileEvent>, machineId: string): set<Key> {
    set e | e in contents && e.machineId == machineId && e.timestamp.frac == 0 :: KeyOf(e)
  }

  lemma HasEchoIsSettled(contents: seq<FileEvent>, e: FileEvent, machineId: string)
    ensures Has(contents, Echo(e, machineId)) <==> KeyOf(e) in Settled(contents, machineId)
  {
  }

  ghost predicate EchoOfSome(x: FileEvent, machineId: string, peer: seq<FileEvent>, projectId: string,
          since: DateTime) {
    exists e | e in peer :: Sent(e, projectId, since) && e.machineId != machineId && x == Echo(e, machineId)
  }

  /** What one sent message contributes. */
  lemma ExamineSent(contents: seq<FileEvent>, machineId: string, e: FileEvent)
    requires S.Storable(e)
    ensures Examine(contents, machineId, ToMessage(e)) ==
              if e.machineId == machineId || KeyOf(e) in Settled(contents, machineId) then Skip
              else Fresh(Echo(e, machineId))
  {
    MessageRoundTrip(e, machineId);
    HasEchoIsSettled(contents, e, machineId);
  }

  /** Everything a sync inserts is the echo of another machine's sent event that was not settled. */
  lemma {:induction false} AddedAreEchoes(contents: seq<FileEvent>, machineId: string, peer: seq<FileEvent>,
                                          projectId: string, since: DateTime, stream: seq<FileEventMessage>)
    requires S.AllStorable(peer) && forall m | m in stream :: SentBySome(peer, projectId, since, m)
    ensures NewEvents(contents, machineId, stream).Some?
    ensures forall x | x in NewEvents(contents, machineId, stream).value ::
              EchoOfSome(x, machineId, peer, projectId, since) && KeyOf(x) !in Settled(contents, machineId)
  {
    if stream != [] {
      AddedAreEchoes(contents, machineId, peer, projectId, since, stream[1..]);
      assert stream[0] in stream;
      var i :| 0 <= i < |peer| && Sent(peer[i], projectId, since) && stream[0] == ToMessage(peer[i]);
      ExamineSent(contents, machineId, peer[i]);
      assert KeyOf(Echo(peer[i], machineId)) == KeyOf(peer[i]);
    }
  }

  /** What is new is inserted. */
  lemma {:induction false} FreshArrives(contents: seq<FileEvent>, machineId: string, m: FileEventMessage,
          stream: seq<FileEventMessage>)
    requires m in stream && NewEvents(contents, machineId, stream).Some?
    ensures var v := Examine(contents, machineId, m);
            v.Fresh? ==> v.event in NewEvents(contents, machineId, stream).value
  {
    if stream[0] != m { FreshArrives(contents, machineId, m, stream[1..]); }
  }

  function After(contents: seq<FileEvent>, machineId: string, stream: seq<FileEventMessage>): seq<FileEvent> {
    contents + NewEvents(contents, machineId, stream).GetOr([])
  }

  lemma AfterKeeps(contents: seq<FileEvent>, machineId: string, peer: seq<FileEvent>,
                   projectId: string, since: DateTime, stream: seq<FileEventMessage>)
    requires S.AllStorable(contents) && S.AllStorable(peer) && IsStream(peer, projectId, since, stream)
    ensures NewEvents(contents, machineId, stream).Some?
    ensures var after := After(contents, machineId, stream);
            && S.AllStorable(after)
            && KeysOf(after) <= KeysOf(contents) + KeysOf(peer)
            && Settled(contents, machineId) <= Settled(after, machineId)
    ensures forall x | x in NewEvents(contents, machineId, stream).value ::
              EchoOfSome(x, machineId, peer, projectId, since) && KeyOf(x) !in Settled(contents, machineId)
  {
    AddedAreEchoes(contents, machineId, peer, projectId, since, stream);
    var added := NewEvents(contents, machineId, stream).value;
    forall x | x in added ensures S.Storable(x) && KeyOf(x) in KeysOf(peer) {
      AddedFacts(contents, machineId, peer, projectId, since, x);
    }
  }

  /** A sync keeps what is there, brings no new key into the world, settles every sent event of
      another machine, and inserts something exactly when one of those was not settled. */
  lemma SyncEffect(contents: seq<FileEvent>, machineId: string, peer: seq<FileEvent>,
                   projectId: string, since: DateTime, stream: seq<FileEventMessage>)
    requires S.AllStorable(contents) && S.AllStorable(peer) && IsStream(peer, projectId, since, stream)
    ensures NewEvents(contents, machineId, stream).Some?
    ensures var after := After(contents, machineId, stream);
            && S.AllStorable(after)
            && KeysOf(after) <= KeysOf(contents) + KeysOf(peer)
            && Settled(contents, machineId) <= Settled(after, machineId)
            && (forall e | e in peer && Sent(e, projectId, since) && e.machineId != machineId ::
                  KeyOf(e) in Settled(after, machineId))
            && (after == contents <==> AllSettled(contents, machineId, peer, projectId, since))
            && (after != contents ==> Settled(contents, machineId) != Settled(after, machineId))
  {
    var after := After(contents, machineId, stream);
    AfterKeeps(contents, machineId, peer, projectId, since, stream);
    var added := NewEvents(contents, machineId, stream).value;
    forall e | e in peer && Sent(e, projectId, since) && e.machineId != machineId
      ensures KeyOf(e) in Settled(after, machineId)
    {
      ExamineSent(contents, machineId, e);
      FreshArrives(contents, machineId, ToMessage(e), stream);
      SettledAfter(contents, machineId, e, added);
    }
    if added == [] {
      assert after == contents;
    } else {
      AddedFacts(contents, machineId, peer, projectId, since, added[0]);
      assert added[0] in after && KeyOf(added[0]) in Settled(after, machineId);
      assert |after| > |contents|;
    }
  }

  lemma AddedFacts(contents: seq<FileEvent>, machineId: string, peer: seq<FileEvent>, projectId: string,
          since: DateTime, x: FileEvent)
    requires S.AllStorable(peer) && EchoOfSome(x, machineId, peer, projectId, since)
    requires KeyOf(x) !in Settled(contents, machineId)
    ensures S.Storable(x) && x.machineId == machineId && x.timestamp.frac == 0 && KeyOf(x) in KeysOf(peer)
    ensures !AllSettled(contents, machineId, peer, projectId, since)
  {
    var e :| e in peer && Sent(e, projectId, since) && e.machineId != machineId && x == Echo(e, machineId);
    assert KeyOf(x) == KeyOf(e);
  }

  lemma SettledAfter(contents: seq<FileEvent>, machineId: string, e: FileEvent, added: seq<FileEvent>)
    requires KeyOf(e) in Settled(contents, machineId) || Echo(e, machineId) in added
    ensures KeyOf(e) in Settled(contents + added, machineId)
  {
    var x := Echo(e, machineId);
    assert KeyOf(x) == KeyOf(e);
    assert x in added ==> x in contents + added;
  }

  ghost predicate AllSettled(contents: seq<FileEvent>, machineId: string, peer: seq<FileEvent>,
          projectId: string, since: DateTime) {
    forall e | e in peer && Sent(e, projectId, since) && e.machineId != machineId ::
      KeyOf(e) in Settled(contents, machineId)
  }

  // ----- any number of machines, any schedule -----

  type World = seq<seq<FileEvent>>

  datatype SyncStep = SyncStep(into: nat, from: nat, projectId: string, since: DateTime, stream: seq<FileEventMessage>)

  ghost predicate Stored(w: World) {
    forall i | 0 <= i < |w| :: S.AllStorable(w[i])
  }

  ghost predicate StepOk(w: World, s: SyncStep)
    requires Stored(w)
  {
    s.into < |w| && s.from < |w| && IsStream(w[s.from], s.projectId, s.since, s.stream)
  }

  function Next(w: World, ids: seq<string>, s: SyncStep): World
    requires |ids| == |w| && s.into < |w|
  {
    w[s.into := After(w[s.into], ids[s.into], s.stream)]
  }

  ghost predicate RunOk(w: World, ids: seq<string>, steps: seq<SyncStep>)
    requires |ids| == |w|
    decreases |steps|
  {
    Stored(w) && (steps != [] ==> StepOk(w, steps[0]) && RunOk(Next(w, ids, steps[0]), ids, steps[1..]))
  }

  /** How many steps of the run insert anything. */
  ghost function Inserting(w: World, ids: seq<string>, steps: seq<SyncStep>): nat
    requires |ids| == |w| && RunOk(w, ids, steps)
    decreases |steps|
  {
    if steps == [] then 0
    else
      var next := Next(w, ids, steps[0]);
      (if next != w then 1 else 0) + Inserting(next, ids, steps[1..])
  }

  /** All keys anywhere in the world. */
  function AllKeys(w: World): set<Key> {
    set i, e | 0 <= i < |w| && e in w[i] :: KeyOf(e)
  }

  /** How many keys of `keys` are still missing, summed over the first `n` machines. */
  ghost function Missing(w: World, ids: seq<string>, keys: set<Key>, n: nat): nat
    requires n <= |w| == |ids|
  {
    if n == 0 then 0 else Missing(w, ids, keys, n - 1) + |keys - Settled(w[n - 1], ids[n - 1])|
  }

  lemma {:induction false} MissingBound(w: World, ids: seq<string>, keys: set<Key>, n: nat)
    requires n <= |w| == |ids|
    ensures Missing(w, ids, keys, n) <= n * |keys|
  {
    if n > 0 {
      MissingBound(w, ids, keys, n - 1);
      SubsetSize(keys - Settled(w[n - 1], ids[n - 1]), keys);
      assert n * |keys| == (n - 1) * |keys| + |keys|;
    }
  }

  lemma {:induction false} SubsetSize<T>(a: set<T>, b: set<T>)
    requires a <= b
    ensures |a| <= |b|
    ensures a != b ==> |a| < |b|
  {
    if a != {} {
      var x :| x in a;
      SubsetSize(a - {x}, b - {x});
    } else if b != {} {
      var x :| x in b;
    }
  }

  lemma FewerMissing(keys: set<Key>, a: set<Key>, b: set<Key>)
    requires a <= b <= keys
    ensures |keys - b| <= |keys - a|
    ensures a != b ==> |keys - b| < |keys - a|
  {
    SubsetSize(keys - b, keys - a);
    if a != b {
      var k :| k in b && k !in a;
      assert k in keys - a && k !in keys - b;
    }
  }

  lemma {:induction false} MissingDrops(w: World, u: World, ids: seq<string>, keys: set<Key>, i: nat, n: nat)
    requires n <= |w| == |ids| == |u| && i < |w| && forall k | 0 <= k < |w| && k != i :: u[k] == w[k]
    requires Settled(w[i], ids[i]) <= Settled(u[i], ids[i]) <= keys
    ensures Missing(u, ids, keys, n) <= Missing(w, ids, keys, n)
    ensures i < n && Settled(w[i], ids[i]) != Settled(u[i], ids[i]) ==>
              Missing(u, ids, keys, n) < Missing(w, ids, keys, n)
  {
    if n > 0 {
      MissingDrops(w, u, ids, keys, i, n - 1);
      if n - 1 == i {
        FewerMissing(keys, Settled(w[i], ids[i]), Settled(u[i], ids[i]));
      } else {
        assert u[n - 1] == w[n - 1];
      }
    }
  }

  lemma StepKeys(w: World, ids: seq<string>, s: SyncStep)
    requires |ids| == |w| && Stored(w) && StepOk(w, s)
    ensures Stored(Next(w, ids, s)) && AllKeys(Next(w, ids, s)) <= AllKeys(w)
    ensures Settled(Next(w, ids, s)[s.into], ids[s.into]) <= AllKeys(w)
    ensures Settled(w[s.into], ids[s.into]) <= Settled(Next(w, ids, s)[s.into], ids[s.into])
    ensures Next(w, ids, s) != w ==> Settled(w[s.into], ids[s.into]) != Settled(Next(w, ids, s)[s.into], ids[s.into])
  {
    var c := w[s.into];
    SyncEffect(c, ids[s.into], w[s.from], s.projectId, s.since, s.stream);
    var after := After(c, ids[s.into], s.stream);
    var u := Next(w, ids, s);
    assert KeysOf(c) <= AllKeys(w) && KeysOf(w[s.from]) <= AllKeys(w);
    forall k | k in AllKeys(u)
      ensures k in AllKeys(w)
    {
      var i, e :| 0 <= i < |u| && e in u[i] && k == KeyOf(e);
      if i == s.into { assert k in KeysOf(after); }
    }
    assert Settled(after, ids[s.into]) <= KeysOf(after);
    assert after == c ==> u == w;
  }

  /** However the syncs are scheduled and whatever windows they read, no run has more inserting
      syncs than machines times distinct (project, path, second) keys at its start. */
  lemma {:induction false} EchoesDieOut(w: World, ids: seq<string>, steps: seq<SyncStep>)
    requires |ids| == |w| && RunOk(w, ids, steps)
    ensures Inserting(w, ids, steps) <= |w| * |AllKeys(w)|
  {
    InsertingBound(w, ids, AllKeys(w), steps);
    MissingBound(w, ids, AllKeys(w), |w|);
  }

  lemma {:induction false} InsertingBound(w: World, ids: seq<string>, keys: set<Key>, steps: seq<SyncStep>)
    requires |ids| == |w| && RunOk(w, ids, steps) && AllKeys(w) <= keys
    ensures Inserting(w, ids, steps) <= Missing(w, ids, keys, |w|)
    decreases |steps|
  {
    if steps != [] {
      var s := steps[0];
      StepKeys(w, ids, s);
      MissingDrops(w, Next(w, ids, s), ids, keys, s.into, |w|);
      InsertingBound(Next(w, ids, s), ids, keys, steps[1..]);
    }
  }

  // ----- two machines -----

  predicate OwnOnly(contents: seq<FileEvent>, machineId: string) {
    forall e | e in contents :: e.machineId == machineId
  }

  lemma SyncKeepsOwn(contents: seq<FileEvent>, machineId: string, peer: seq<FileEvent>,
                     projectId: string, since: DateTime, stream: seq<FileEventMessage>)
    requires S.AllStorable(contents) && S.AllStorable(peer) && IsStream(peer, projectId, since, stream)
    requires OwnOnly(contents, machineId)
    ensures OwnOnly(After(contents, machineId, stream), machineId)
    ensures forall x | x in After(contents, machineId, stream) ::
              x in contents || EchoOfSome(x, machineId, peer, projectId, since)
  {
    AddedAreEchoes(contents, machineId, peer, projectId, since, stream);
  }

  /** Two machines with different names, each starting with its own events only, read each other's
      whole history in turn. After A has read B, B has read A and A has read B again, neither sync
      direction inserts anything any more, so nothing ever changes again. */
  lemma TwoMachinesSettle(a: seq<FileEvent>, ida: string, b: seq<FileEvent>, idb: string,
                          projectId: string, since: DateTime,
                          s1: seq<FileEventMessage>, s2: seq<FileEventMessage>, s3: seq<FileEventMessage>,
                          toA: seq<FileEventMessage>, toB: seq<FileEventMessage>)
    requires ida != idb && S.AllStorable(a) && S.AllStorable(b) && OwnOnly(a, ida) && OwnOnly(b, idb)
    requires since.frac == 0 && IsStream(b, projectId, since, s1)
    requires var a1 := After(a, ida, s1);
             S.AllStorable(a1) && IsStream(a1, projectId, since, s2) &&
             var b1 := After(b, idb, s2);
             S.AllStorable(b1) && IsStream(b1, projectId, since, s3) &&
             var a2 := After(a1, ida, s3);
             S.AllStorable(a2) && IsStream(b1, projectId, since, toA) && IsStream(a2, projectId, since, toB)
    ensures var a1 := After(a, ida, s1);
            var b1 := After(b, idb, s2);
            var a2 := After(a1, ida, s3);
            After(a2, ida, toA) == a2 && After(b1, idb, toB) == b1
  {
    var a1 := After(a, ida, s1);
    var b1 := After(b, idb, s2);
    var a2 := After(a1, ida, s3);
    SyncEffect(a, ida, b, projectId, since, s1);
    SyncKeepsOwn(a, ida, b, projectId, since, s1);
    SyncEffect(b, idb, a1, projectId, since, s2);
    SyncKeepsOwn(b, idb, a1, projectId, since, s2);
    SyncEffect(a1, ida, b1, projectId, since, s3);
    SyncKeepsOwn(a1, ida, b1, projectId, since, s3);
    SyncEffect(a2, ida, b1, projectId, since, toA);
    SyncEffect(b1, idb, a2, projectId, since, toB);
    forall x | x in a2 && Sent(x, projectId, since)
      ensures KeyOf(x) in Settled(b1, idb)
    {
      if x !in a1 {
        // an echo of something B holds, which is B's own or an echo from A
        var e :| e in b1 && Sent(e, projectId, since) && e.machineId != ida && x == Echo(e, ida);
        assert KeyOf(x) == KeyOf(e);
        if e in b {
          var y := EchoInA(a, ida, b, idb, projectId, since, s1, e);
          assert KeyOf(y) == KeyOf(e);
        } else {
          var y :| y in a1 && Sent(y, projectId, since) && y.machineId != idb && e == Echo(y, idb);
          assert KeyOf(y) == KeyOf(e);
        }
      }
    }
  }

  /** After A has read B, A holds an event with the key of any event B sends. */
  lemma EchoInA(a: seq<FileEvent>, ida: string, b: seq<FileEvent>, idb: string, projectId: string, since: DateTime,
                s1: seq<FileEventMessage>, e: FileEvent) returns (y: FileEvent)
    requires ida != idb && S.AllStorable(a) && S.AllStorable(b) && OwnOnly(a, ida) && OwnOnly(b, idb)
    requires since.frac == 0 && IsStream(b, projectId, since, s1) && e in b && Sent(e, projectId, since)
    ensures y in After(a, ida, s1) && y.machineId == ida && Sent(y, projectId, since) && KeyOf(y) == KeyOf(e)
  {
    SyncEffect(a, ida, b, projectId, since, s1);
    assert KeyOf(e) in Settled(After(a, ida, s1), ida);
    y :| y in After(a, ida, s1) && y.machineId == ida && y.timestamp.frac == 0 && KeyOf(y) == KeyOf(e);
    assert y.timestamp == Truncated(e.timestamp);
  }

  /** Two syncs are enough exactly when every event A sends already had, to the second, a
      whole-second event of A or any sent event of B beside it; otherwise A's third sync inserts
      truncated copies of A's own events. */
  lemma ThirdSyncInsertsIff(a: seq<FileEvent>, ida: string, b: seq<FileEvent>, idb: string,
                            projectId: string, since: DateTime,
                            s1: seq<FileEventMessage>, s2: seq<FileEventMessage>, s3: seq<FileEventMessage>)
    requires ida != idb && S.AllStorable(a) && S.AllStorable(b) && OwnOnly(a, ida) && OwnOnly(b, idb)
    requires since.frac == 0 && IsStream(b, projectId, since, s1)
    requires var a1 := After(a, ida, s1);
             S.AllStorable(a1) && IsStream(a1, projectId, since, s2) &&
             var b1 := After(b, idb, s2);
             S.AllStorable(b1) && IsStream(b1, projectId, since, s3)
    ensures var a1 := After(a, ida, s1);
            After(a1, ida, s3) == a1 <==>
            forall e | e in a && Sent(e, projectId, since) :: Doubled(e, a, ida, b, projectId, since)
  {
    var a1 := After(a, ida, s1);
    var b1 := After(b, idb, s2);
    SyncEffect(a, ida, b, projectId, since, s1);
    SyncKeepsOwn(a, ida, b, projectId, since, s1);
    SyncEffect(b, idb, a1, projectId, since, s2);
    SyncKeepsOwn(b, idb, a1, projectId, since, s2);
    SyncEffect(a1, ida, b1, projectId, since, s3);
    if After(a1, ida, s3) == a1 {
      forall e | e in a && Sent(e, projectId, since)
        ensures Doubled(e, a, ida, b, projectId, since)
      {
        EchoComesBack(ida, idb, projectId, since, a1, b1, e);
        SettledComesFrom(a, ida, b, projectId, since, a1, e);
      }
    }
    if forall e | e in a && Sent(e, projectId, since) :: Doubled(e, a, ida, b, projectId, since) {
      forall y | y in b1 && Sent(y, projectId, since) && y.machineId != ida
        ensures KeyOf(y) in Settled(a1, ida)
      {
        if y !in b { EchoBackIsSettled(a, ida, b, idb, projectId, since, a1, y); }
      }
    }
  }

  /** What B has settled for A it sends to A, and A then has it settled if nothing of B is new to it. */
  lemma EchoComesBack(ida: string, idb: string, projectId: string, since: DateTime, a1: seq<FileEvent>,
          b1: seq<FileEvent>, e: FileEvent)
    requires ida != idb && since.frac == 0 && Sent(e, projectId, since)
    requires KeyOf(e) in Settled(b1, idb) && AllSettled(a1, ida, b1, projectId, since)
    ensures KeyOf(e) in Settled(a1, ida)
  {
    var y :| y in b1 && y.machineId == idb && y.timestamp.frac == 0 && KeyOf(y) == KeyOf(e);
    assert y.timestamp == Truncated(e.timestamp) && Sent(y, projectId, since);
  }

  /** What B sends back of an event it got from A is settled at A, if all that A sent was doubled. */
  lemma EchoBackIsSettled(a: seq<FileEvent>, ida: string, b: seq<FileEvent>, idb: string, projectId: string,
          since: DateTime, a1: seq<FileEvent>, y: FileEvent)
    requires ida != idb && OwnOnly(b, idb) && EchoOfSome(y, idb, a1, projectId, since)
    requires forall x | x in a1 :: x in a || EchoOfSome(x, ida, b, projectId, since)
    requires Settled(a, ida) <= Settled(a1, ida) && AllSettled(a1, ida, b, projectId, since)
    requires forall e | e in a && Sent(e, projectId, since) :: Doubled(e, a, ida, b, projectId, since)
    ensures KeyOf(y) in Settled(a1, ida)
  {
    var e :| e in a1 && Sent(e, projectId, since) && e.machineId != idb && y == Echo(e, idb);
    assert KeyOf(y) == KeyOf(e);
    if e in a {
      assert Doubled(e, a, ida, b, projectId, since);
    } else {
      var x :| x in b && Sent(x, projectId, since) && x.machineId != ida && e == Echo(x, ida);
      assert KeyOf(x) == KeyOf(e);
    }
  }

  /** A whole-second twin of `e` under A's own name, or a sent twin of B. */
  ghost predicate Doubled(e: FileEvent, a: seq<FileEvent>, ida: string, b: seq<FileEvent>, projectId: string,
          since: DateTime) {
    KeyOf(e) in Settled(a, ida) || exists x | x in b :: Sent(x, projectId, since) && KeyOf(x) == KeyOf(e)
  }

  /** An empty peer sends A's only event back. When that event is not on a whole second, A's next
      sync inserts a truncated copy of it. */
  lemma OwnEventComesBack(e: FileEvent, ida: string, idb: string)
    requires ida != idb && S.Storable(e) && e.machineId == ida && e.timestamp.frac != 0
    ensures var since := Truncated(e.timestamp);
            var s2, s3 := [ToMessage(e)], [ToMessage(Echo(e, idb))];
            && IsStream([], e.projectId, since, []) && After([e], ida, []) == [e]
            && IsStream([e], e.projectId, since, s2) && After([], idb, s2) == [Echo(e, idb)]
            && IsStream([Echo(e, idb)], e.projectId, since, s3)
            && After([e], ida, s3) == [e, Echo(e, ida)] && Echo(e, ida) != e
  {
    var x, since := Echo(e, idb), Truncated(e.timestamp);
    ExamineSent([], idb, e);
    ExamineSent([e], ida, x);
    assert Echo(x, ida) == Echo(e, ida) && Echo(e, ida).timestamp.frac == 0;
    assert KeyOf(x) !in Settled([e], ida);
    OneStream(e, e.projectId, since);
    OneStream(x, e.projectId, since);
    OneNew([], idb, ToMessage(e));
    OneNew([e], ida, ToMessage(x));
  }

  lemma OneStream(e: FileEvent, projectId: string, since: DateTime)
    requires S.Storable(e) && Sent(e, projectId, since)
    ensures IsStream([e], projectId, since, [ToMessage(e)])
  {
    assert [e][0] == e && [ToMessage(e)][0] == ToMessage(e);
  }

  lemma OneNew(contents: seq<FileEvent>, machineId: string, m: FileEventMessage)
    requires Examine(contents, machineId, m).Fresh?
    ensures NewEvents(contents, machineId, [m]) == Some([Examine(contents, machineId, m).event])
  {
    var e := Examine(contents, machineId, m).event;
    assert [m][1..] == [] && NewEvents(contents, machineId, []) == Some([]);
    assert [e] + [] == [e];
  }

  lemma SettledComesFrom(a: seq<FileEvent>, ida: string, b: seq<FileEvent>, projectId: string, since: DateTime,
                         a1: seq<FileEvent>, e: FileEvent)
    requires forall x | x in a1 :: x in a || EchoOfSome(x, ida, b, projectId, since)
    requires KeyOf(e) in Settled(a1, ida)
    ensures Doubled(e, a, ida, b, projectId, since)
  {
    var y :| y in a1 && y.machineId == ida && y.timestamp.frac == 0 && KeyOf(y) == KeyOf(e);
    if y !in a {
      var x :| x in b && Sent(x, projectId, since) && x.machineId != ida && y == Echo(x, ida);
      assert KeyOf(x) == KeyOf(e);
    }
  }
}
