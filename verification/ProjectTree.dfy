/** A project's tree: events applied to it, the patches they emit, and replaying the patches. */
module ProjectTree {
  import opened Text
  import opened Paths
  import opened Events
  import opened FileTree
  import opened TreeMap
  import opened TreeOrder
  import opened DirectoryScan
  import H = TreeHeap

  datatype TreePatch =
    | AddPatch(path: string, isDir: bool)
    | RemovePatch(path: string)
    | RenamePatch(oldPath: string, newPath: string, isDir: bool)

  // ----- what an event does to the tree value -----

  function RenameEffect(t: Tree, oldPath: string, newPath: string, isDir: bool): (Tree, Option<TreePatch>) {
    var (u, renamed) := Rename(t, oldPath, newPath, isDir);
    (u, if renamed then Some(RenamePatch(oldPath, newPath, isDir)) else None)
  }

  function EventEffect(t: Tree, e: FileEvent): (Tree, Option<TreePatch>) {
    match e.eventType
    case Created =>
      var (u, added) := Add(t, e.filePath, false);
      (u, if added then Some(AddPatch(e.filePath, false)) else None)
    case Deleted =>
      var (u, removed) := Remove(t, e.filePath);
      (u, if removed then Some(RemovePatch(e.filePath)) else None)
    case Renamed =>
      if e.oldPath.Some? then RenameEffect(t, e.oldPath.value, e.filePath, false) else (t, None)
    case Modified => (t, None)
  }

  /** What an event does, on the map of paths to kinds: a created path is recorded as a file, with its
      missing prefixes as directories; a deleted one is gone with all that lies below it; a renamed one is
      gone likewise and its new path recorded as a file, unless that is in the way; anything else changes
      nothing. A patch with the event's own paths says so exactly when something was done as asked. */
  ghost predicate EventDoes(t: Tree, e: FileEvent, u: Tree, patch: Option<TreePatch>) {
    var path := Components(e.filePath);
    match e.eventType
    case Created =>
      && (forall q :: KindAt(u, q) ==
            if KindAt(t, q).Some? then KindAt(t, q)
            else if q == path then Some(false)
            else if q < path then Some(true)
            else None)
      && patch == if KindAt(t, path).None? then Some(AddPatch(e.filePath, false)) else None
    case Deleted =>
      && (forall q :: KindAt(u, q) == if path != [] && path <= q then None else KindAt(t, q))
      && patch == if path != [] && KindAt(t, path).Some? then Some(RemovePatch(e.filePath)) else None
    case Renamed =>
      if e.oldPath.None? then u == t && patch == None
      else RenameDoes(t, Components(e.oldPath.value), path, u) &&
           patch == if Renames(t, Components(e.oldPath.value), path)
                    then Some(RenamePatch(e.oldPath.value, e.filePath, false)) else None
    case Modified => u == t && patch == None
  }

  /** The old path is there, and the new one is not there once the old one is gone. */
  predicate Renames(t: Tree, from: seq<string>, to: seq<string>) {
    from != [] && KindAt(t, from).Some? && (from <= to || KindAt(t, to).None?)
  }

  ghost predicate RenameDoes(t: Tree, from: seq<string>, to: seq<string>, u: Tree) {
    forall q :: KindAt(u, q) ==
      var kept := if from != [] && from <= q then None else KindAt(t, q);
      if kept.Some? || !Renames(t, from, to) then kept
      else if q == to then Some(false)
      else if q < to then Some(true)
      else None
  }

  lemma EventMeaning(t: Tree, e: FileEvent)
    requires Distinct(t)
    ensures var (u, patch) := EventEffect(t, e); EventDoes(t, e, u, patch)
  {
    match e.eventType
    case Created =>
      AddRefines(t, e.filePath, false);
      assert Find(t, []).Some?;
    case Deleted => RemoveRefines(t, e.filePath);
    case Renamed => if e.oldPath.Some? { RenameMeaning(t, e.oldPath.value, e.filePath); }
    case Modified =>
  }

  lemma RenameMeaning(t: Tree, oldPath: string, newPath: string)
    requires Distinct(t)
    ensures var (u, renamed) := Rename(t, oldPath, newPath, false);
            && RenameDoes(t, Components(oldPath), Components(newPath), u)
            && (renamed <==> Renames(t, Components(oldPath), Components(newPath)))
  {
    RenameRefines(t, oldPath, newPath, false);
    RemoveRefines(t, oldPath);
  }

  // ----- a subscriber's copy -----

  function Replay(t: Tree, patch: Option<TreePatch>): Tree {
    match patch
    case None => t
    case Some(AddPatch(path, isDir)) => Add(t, path, isDir).0
    case Some(RemovePatch(path)) => Remove(t, path).0
    case Some(RenamePatch(oldPath, newPath, isDir)) => Rename(t, oldPath, newPath, isDir).0
  }

  /** A rename whose old path goes away although the new one is in the way. */
  predicate LosesNodeSilently(t: Tree, e: FileEvent) {
    e.eventType == Renamed && e.oldPath.Some? && LosesNode(t, e.oldPath.value, e.filePath)
  }

  lemma EventKeepsDistinct(t: Tree, e: FileEvent)
    requires Distinct(t)
    ensures Distinct(EventEffect(t, e).0)
  {
    AddRefines(t, e.filePath, false);
    RemoveRefines(t, e.filePath);
    if e.oldPath.Some? { RenameRefines(t, e.oldPath.value, e.filePath, false); }
  }

  /** One event's patch reproduces the event, and no patch means no change, exactly when the
      event is not a rename that loses its node. */
  lemma PatchIsFaithfulIff(t: Tree, e: FileEvent)
    requires Distinct(t)
    ensures var (u, patch) := EventEffect(t, e);
            && (Replay(t, patch) == u <==> !LosesNodeSilently(t, e))
            && (LosesNodeSilently(t, e) ==>
                 patch == None && Present(t, e.oldPath.value) && !Present(u, e.oldPath.value))
  {
    if e.eventType == Renamed && e.oldPath.Some? {
      RenameRefines(t, e.oldPath.value, e.filePath, false);
      RemoveRefines(t, e.oldPath.value);
    } else {
      AddRefines(t, e.filePath, false);
      RemoveRefines(t, e.filePath);
    }
  }

  /** In a project of two files, renaming `a` onto `b` removes `a`, leaves `b` and emits no patch. */
  lemma RenameOntoAnother(e: FileEvent)
    requires e.eventType == Renamed && e.oldPath == Some("a") && e.filePath == "b"
    ensures var t := Add(Add(EMPTY_ROOT, "a", false).0, "b", false).0;
            var (u, patch) := EventEffect(t, e);
            && Distinct(t) && LosesNodeSilently(t, e) && patch == None
            && Present(t, "a") && !Present(u, "a") && Present(u, "b")
  {
    ComponentsOfJoin(["a"]);
    ComponentsOfJoin(["b"]);
    var one := Add(EMPTY_ROOT, "a", false).0;
    var two := Add(one, "b", false).0;
    AddRefines(EMPTY_ROOT, "a", false);
    AddRefines(one, "b", false);
    RenameRefines(two, "a", "b", false);
    RemoveRefines(two, "a");
  }

  /** The tree after each event of a run. */
  function ServerTrees(t: Tree, events: seq<FileEvent>): (s: seq<Tree>)
    ensures |s| == |events|
    decreases |events|
  {
    if events == [] then []
    else var u := EventEffect(t, events[0]).0; [u] + ServerTrees(u, events[1..])
  }

  function Patches(t: Tree, events: seq<FileEvent>): (s: seq<Option<TreePatch>>)
    ensures |s| == |events|
    decreases |events|
  {
    if events == [] then []
    else var (u, patch) := EventEffect(t, events[0]); [patch] + Patches(u, events[1..])
  }

  /** A copy after each patch of a stream. */
  function ReplicaTrees(t: Tree, patches: seq<Option<TreePatch>>): (s: seq<Tree>)
    ensures |s| == |patches|
    decreases |patches|
  {
    if patches == [] then []
    else var u := Replay(t, patches[0]); [u] + ReplicaTrees(u, patches[1..])
  }

  /** The tree an event of the run meets. */
  function TreeBefore(t: Tree, events: seq<FileEvent>, i: nat): Tree
    requires i < |events|
  {
    if i == 0 then t else ServerTrees(t, events)[i - 1]
  }

  /** Over any run, a copy that replays the patches agrees with the server after every event
      exactly when no event of the run is a rename that loses its node. */
  lemma {:induction false} ReplayFollowsServer(t: Tree, events: seq<FileEvent>)
    requires Distinct(t)
    ensures ReplicaTrees(t, Patches(t, events)) == ServerTrees(t, events) <==>
            forall i | 0 <= i < |events| :: !LosesNodeSilently(TreeBefore(t, events, i), events[i])
    decreases |events|
  {
    if events != [] {
      var (u, patch) := EventEffect(t, events[0]);
      var rest := events[1..];
      PatchIsFaithfulIff(t, events[0]);
      EventKeepsDistinct(t, events[0]);
      ReplayFollowsServer(u, rest);
      var server, replica := ServerTrees(t, events), ReplicaTrees(t, Patches(t, events));
      assert Patches(t, events)[1..] == Patches(u, rest);
      assert server[0] == u && server[1..] == ServerTrees(u, rest);
      assert replica[0] == Replay(t, patch);
      assert LosesNodeSilently(TreeBefore(t, events, 0), events[0]) <==> replica[0] != server[0];
      if replica[0] == u {
        assert replica[1..] == ReplicaTrees(u, Patches(u, rest));
        assert replica == server <==> replica[1..] == server[1..] by {
          assert replica == [u] + replica[1..] && server == [u] + server[1..];
        }
        forall i | 0 <= i < |rest|
          ensures TreeBefore(t, events, i + 1) == TreeBefore(u, rest, i) && events[i + 1] == rest[i]
        {
        }
        assert forall i | 0 < i < |events| ::
            TreeBefore(t, events, i) == TreeBefore(u, rest, i - 1) && events[i] == rest[i - 1];
      }
    }
  }

  // ----- the stateful object -----

  class ProjectTree {
    var root: H.TreeNode
    const projectId: string

    ghost predicate Valid()
      reads this, root, root.Repr
    {
      root.Valid() && this !in root.Repr
    }

    constructor (projectId: string)
      ensures Valid() && fresh(root.Repr) && this.projectId == projectId
      ensures root.Value == Tree("", "", true, [])
    {
      this.projectId := projectId;
      root := new H.TreeNode("", "", true);
    }

    method ApplyEvent(e: FileEvent) returns (patch: Option<TreePatch>)
      requires Valid()
      modifies root.Repr
      ensures Valid() && root == old(root) && fresh(root.Repr - old(root.Repr))
      ensures (root.Value, patch) == EventEffect(old(root.Value), e)
      ensures Distinct(old(root.Value)) ==> Distinct(root.Value) && EventDoes(old(root.Value), e, root.Value, patch)
    {
      if Distinct(root.Value) {
        EventMeaning(root.Value, e);
        EventKeepsDistinct(root.Value, e);
      }
      match e.eventType
      case Created =>
        var added := H.AddNode(root, e.filePath, false);
        patch := if added then Some(AddPatch(e.filePath, false)) else None;
      case Deleted =>
        var removed := H.RemoveNode(root, e.filePath);
        patch := if removed then Some(RemovePatch(e.filePath)) else None;
      case Renamed =>
        if e.oldPath.Some? {
          patch := ApplyRename(e.oldPath.value, e.filePath, false);
        } else {
          patch := None;
        }
      case Modified =>
        patch := None;
    }

    method ApplyRename(oldPath: string, newPath: string, isDir: bool) returns (patch: Option<TreePatch>)
      requires Valid()
      modifies root.Repr
      ensures Valid() && root == old(root) && fresh(root.Repr - old(root.Repr))
      ensures (root.Value, patch) == RenameEffect(old(root.Value), oldPath, newPath, isDir)
    {
      var renamed := H.RenameNode(root, oldPath, newPath, isDir);
      patch := if renamed then Some(RenamePatch(oldPath, newPath, isDir)) else None;
    }

    /** One directory of the walk: loops over its entries until one qualifies beyond the limit. */
    method ScanDirectory(listing: Listing, relative: string, patterns: seq<string>, depth: nat, entryCount: nat)
      returns (count: nat)
      requires Valid() && entryCount <= MAX_ENTRIES
      modifies root.Repr
      ensures Valid() && root == old(root) && fresh(root.Repr - old(root.Repr))
      ensures Progress(old(root.Value), root.Value, Scan(listing, relative, patterns, depth),
                       MAX_ENTRIES - entryCount, count - entryCount)
      decreases listing
    {
      count := entryCount;
      if depth >= MAX_DEPTH || listing.Unreadable? {
        return;
      }
      ghost var start, room := root.Value, MAX_ENTRIES - entryCount;
      var entries := listing.entries;
      for i := 0 to |entries|
        invariant Valid() && root == old(root) && fresh(root.Repr - old(root.Repr))
        invariant entryCount <= count <= MAX_ENTRIES
        invariant Progress(start, root.Value, ScanEntries(entries[..i], relative, patterns, depth), room,
                  count - entryCount)
      {
        ghost var mid, used := root.Value, count - entryCount;
        var stop;
        assert entries[i] in entries;
        count, stop := ScanOne(entries[i], relative, patterns, depth, count);
        if stop {
          ScanRest(entries, i, relative, patterns, depth, start, root.Value, room);
          return;
        }
        ProgressOne(entries, i, relative, patterns, depth, start, mid, room, used, root.Value);
      }
      assert entries[..|entries|] == entries;
    }

    /** One entry: added if it qualifies and the limit allows, then entered if it is a directory;
        `stop` when only the limit is in the way. */
    method ScanOne(e: Entry, relative: string, patterns: seq<string>, depth: nat, entryCount: nat)
      returns (count: nat, stop: bool)
      requires Valid() && entryCount <= MAX_ENTRIES
      modifies root.Repr
      ensures Valid() && root == old(root) && fresh(root.Repr - old(root.Repr))
      ensures entryCount <= count <= MAX_ENTRIES
      ensures stop ==> count == entryCount == MAX_ENTRIES && root.Value == old(root.Value)
      ensures Progress(old(root.Value), root.Value, ScanEntry(e, relative, patterns, depth),
                       MAX_ENTRIES - entryCount, count - entryCount)
      decreases e
    {
      count, stop := entryCount, false;
      if !Qualifies(e, relative, patterns) {
        return;
      }
      if count >= MAX_ENTRIES {
        stop := true;
        return;
      }
      var child := ChildPath(relative, e.name);
      var isDir := e.kind.Directory?;
      ghost var start, first := root.Value, [Item(child, isDir)];
      var _ := H.AddNode(root, child, isDir);
      assert AddAll(start, first) == root.Value by { assert first[1..] == []; }
      count := count + 1;
      if isDir {
        ghost var mid := root.Value;
        count := ScanDirectory(e.kind.listing, child, patterns, depth + 1, count);
        ProgressStep(start, mid, first, MAX_ENTRIES - entryCount, 1,
                     Scan(e.kind.listing, child, patterns, depth + 1), root.Value);
      } else {
        assert first + [] == first;
      }
    }
  }

  /** Once the limit is reached, the entries left over change nothing. */
  lemma ScanRest(entries: seq<Entry>, i: nat, relative: string, patterns: seq<string>, depth: nat,
                 start: Tree, now: Tree, room: nat)
    requires i <= |entries|
    requires Progress(start, now, ScanEntries(entries[..i], relative, patterns, depth), room, room)
    ensures Progress(start, now, ScanEntries(entries, relative, patterns, depth), room, room)
  {
    ScanEntriesConcat(entries[..i], entries[i..], relative, patterns, depth);
    assert entries[..i] + entries[i..] == entries;
    ProgressStep(start, now, ScanEntries(entries[..i], relative, patterns, depth), room, room,
                 ScanEntries(entries[i..], relative, patterns, depth), now);
  }

  /** `now` is `start` after the first `room` items of `done`, `used` in number. */
  ghost predicate Progress(start: Tree, now: Tree, done: seq<Item>, room: nat, used: int) {
    now == AddAll(start, Take(done, room)) && used == |Take(done, room)|
  }

  lemma ProgressStep(start: Tree, mid: Tree, done: seq<Item>, room: nat, used: int, more: seq<Item>, now: Tree)
    requires Progress(start, mid, done, room, used)
    requires now == AddAll(mid, Take(more, room - used))
    ensures Progress(start, now, done + more, room, used + |Take(more, room - used)|)
  {
    TakeConcat(done, more, room);
    AddAllConcat(start, Take(done, room), Take(more, room - used));
  }

  lemma ProgressOne(entries: seq<Entry>, i: nat, relative: string, patterns: seq<string>, depth: nat,
                    start: Tree, mid: Tree, room: nat, used: int, now: Tree)
    requires i < |entries| && Progress(start, mid, ScanEntries(entries[..i], relative, patterns, depth), room, used)
    requires used <= room && now == AddAll(mid, Take(ScanEntry(entries[i], relative, patterns, depth), room - used))
    ensures Progress(start, now, ScanEntries(entries[..i + 1], relative, patterns, depth), room,
                     used + |Take(ScanEntry(entries[i], relative, patterns, depth), room - used)|)
  {
    ScanOneMore(entries, i, relative, patterns, depth);
    ProgressStep(start, mid, ScanEntries(entries[..i], relative, patterns, depth), room, used,
                 ScanEntry(entries[i], relative, patterns, depth), now);
  }

  lemma ScanOneMore(entries: seq<Entry>, i: nat, relative: string, patterns: seq<string>, depth: nat)
    requires i < |entries|
    ensures ScanEntries(entries[..i + 1], relative, patterns, depth)
         == ScanEntries(entries[..i], relative, patterns, depth) + ScanEntry(entries[i], relative, patterns, depth)
  {
    ScanEntriesConcat(entries[..i], [entries[i]], relative, patterns, depth);
    assert entries[..i] + [entries[i]] == entries[..i + 1];
    assert [entries[i]][1..] == [];
    var one := ScanEntry(entries[i], relative, patterns, depth);
    assert one + [] == one;
  }

  /** `from_directory`: an empty tree, then the capped walk. */
  method FromDirectory(listing: Listing, patterns: seq<string>, projectId: string) returns (tree: ProjectTree)
    ensures tree.Valid() && fresh(tree) && fresh(tree.root.Repr) && tree.projectId == projectId
    ensures tree.root.Value == ScanTree(listing, patterns)
  {
    tree := new ProjectTree(projectId);
    var _ := tree.ScanDirectory(listing, "", patterns, 0, 0);
  }
}
