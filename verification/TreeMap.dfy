/** The tree refines a prefix-closed partial map from component lists to kinds: what adding,
    removing and renaming do to that map, and the invariants they keep. */
module TreeMap {
  import opened Text
  import opened Paths
  import opened FileTree

  /** Anything above a recorded path is recorded too. */
  lemma {:induction false} PrefixClosed(t: Tree, p: seq<string>, q: seq<string>)
    requires p <= q && KindAt(t, q).Some?
    ensures KindAt(t, p).Some?
    decreases |p|
  {
    if p != [] {
      var i := IndexOf(t.children, p[0]);
      PrefixClosed(t.children[i], p[1..], q[1..]);
    }
  }

  /** Changing only children called `name` leaves every other lookup alone. */
  lemma OtherNames(t: Tree, u: Tree, name: string, q: seq<string>)
    requires NamesDiffer(t.children) && NamesDiffer(u.children)
    requires forall c: Tree | c.name != name :: c in t.children <==> c in u.children
    requires q != [] && q[0] != name
    ensures Find(t, q) == Find(u, q)
  {
    LookupByMembers(t.children, u.children, q[0]);
  }

  lemma ReplaceMembers(children: seq<Tree>, i: nat, child: Tree)
    requires NamesDiffer(children) && i < |children| && child.name == children[i].name
    ensures var u := children[i := child];
            NamesDiffer(u) && IndexOf(u, child.name) == i &&
            (forall c: Tree | c in u :: c == child || c in children) &&
            (forall c: Tree | c.name != child.name :: c in children <==> c in u)
  {
    var u := children[i := child];
    assert forall j | 0 <= j < |u| :: u[j].name == children[j].name;
    IndexOfUnique(u, i);
    forall c: Tree | c.name != child.name
      ensures c in children <==> c in u
    {
      if c in children {
        var j :| 0 <= j < |children| && children[j] == c;
        assert u[j] == c;
      }
    }
  }

  lemma InsertFound(children: seq<Tree>, node: Tree)
    requires NamesDiffer(children) && IndexOf(children, node.name) == |children|
    ensures var u := Insert(children, node);
            NamesDiffer(u) && IndexOf(u, node.name) < |u| && u[IndexOf(u, node.name)] == node &&
            (forall c: Tree | c.name != node.name :: c in children <==> c in u)
  {
    InsertKeepsNames(children, node);
    InsertMembers(children, node);
    IndexOfMember(Insert(children, node), node);
  }

  /** Comparing two paths that start alike is comparing what follows. */
  lemma SameHead(p: seq<string>, q: seq<string>)
    requires p != [] && q != []
    ensures p[0] == q[0] ==> (p == q <==> p[1..] == q[1..]) && (p <= q <==> p[1..] <= q[1..])
    ensures p <= q ==> p[0] == q[0]
    ensures p < q <==> p <= q && p != q
  {
    assert p == [p[0]] + p[1..] && q == [q[0]] + q[1..];
    if p[0] == q[0] && p[1..] <= q[1..] {
      assert q == [q[0]] + (p[1..] + q[1..][|p| - 1..]);
    }
  }

  /** Adding keeps names distinct, leaves the root's own fields alone, and reports `false`
      exactly when the path was there, and then changes nothing. */
  lemma {:induction false} AddPartsShape(t: Tree, parts: seq<string>, fullPath: string, isDir: bool)
    requires Distinct(t) && parts != [] && |parts| <= |Components(fullPath)|
    ensures var (u, added) := AddParts(t, parts, fullPath, isDir);
            && Distinct(u)
            && u.(children := []) == t.(children := [])
            && (added <==> Find(t, parts).None?)
            && (!added ==> u == t)
    decreases |parts|
  {
    var i := IndexOf(t.children, parts[0]);
    if i < |t.children| {
      if |parts| > 1 {
        AddPartsShape(t.children[i], parts[1..], fullPath, isDir);
        var child := AddParts(t.children[i], parts[1..], fullPath, isDir).0;
        ReplaceMembers(t.children, i, child);
        assert child == t.children[i] ==> t.children[i := child] == t.children;
      }
    } else {
      var made := Tree(parts[0], BuildPath(fullPath, |parts|), true, []);
      if |parts| > 1 {
        AddPartsShape(made, parts[1..], fullPath, isDir);
        InsertFound(t.children, AddParts(made, parts[1..], fullPath, isDir).0);
        InsertMembers(t.children, AddParts(made, parts[1..], fullPath, isDir).0);
      } else {
        InsertFound(t.children, Tree(parts[0], fullPath, isDir, []));
        InsertMembers(t.children, Tree(parts[0], fullPath, isDir, []));
      }
    }
  }

  /** The kind expected at `q` after adding `parts`, from the kind `before`. */
  function KindAfterAdd(before: Option<bool>, parts: seq<string>, isDir: bool, q: seq<string>): Option<bool> {
    if before.Some? then before
    else if q == parts then Some(isDir)
    else if q < parts then Some(true)
    else None
  }

  /** Below a replaced or inserted child called `parts[0]`, looking up is looking up in it. */
  lemma KindThroughChild(t: Tree, u: Tree, child: Tree, parts: seq<string>, isDir: bool, q: seq<string>)
    requires NamesDiffer(t.children) && NamesDiffer(u.children) && u.isDir == t.isDir
    requires parts != [] && child.name == parts[0]
    requires forall c: Tree | c.name != child.name :: c in t.children <==> c in u.children
    requires var j := IndexOf(u.children, child.name); j < |u.children| && u.children[j] == child
    requires q != [] && q[0] == parts[0] ==>
      var i := IndexOf(t.children, parts[0]);
      KindAt(child, q[1..]) ==
        KindAfterAdd(if i < |t.children| then KindAt(t.children[i], q[1..]) else None, parts[1..], isDir, q[1..])
    ensures KindAt(u, q) == KindAfterAdd(KindAt(t, q), parts, isDir, q)
  {
    if q != [] {
      SameHead(q, parts);
      if q[0] != parts[0] {
        OtherNames(t, u, parts[0], q);
      }
    }
  }

  /** Adding records the path and its missing prefixes, and nothing else. */
  lemma {:induction false} AddPartsKind(t: Tree, parts: seq<string>, fullPath: string, isDir: bool, q: seq<string>)
    requires Distinct(t) && parts != [] && |parts| <= |Components(fullPath)|
    ensures KindAt(AddParts(t, parts, fullPath, isDir).0, q) == KindAfterAdd(KindAt(t, q), parts, isDir, q)
    decreases |parts|
  {
    AddPartsShape(t, parts, fullPath, isDir);
    if Find(t, parts).Some? {
      if q <= parts { PrefixClosed(t, q, parts); }
    } else {
      var i := IndexOf(t.children, parts[0]);
      if i < |t.children| {
        AddKindInChild(t, parts, fullPath, isDir, q);
      } else {
        AddKindOfNew(t, parts, fullPath, isDir, q);
      }
    }
  }

  lemma {:induction false} AddKindInChild(t: Tree, parts: seq<string>, fullPath: string, isDir: bool, q: seq<string>)
    requires Distinct(t) && |parts| > 1 && |parts| <= |Components(fullPath)|
    requires IndexOf(t.children, parts[0]) < |t.children|
    ensures KindAt(AddParts(t, parts, fullPath, isDir).0, q) == KindAfterAdd(KindAt(t, q), parts, isDir, q)
    decreases |parts|, 0
  {
    var i := IndexOf(t.children, parts[0]);
    var child := AddParts(t.children[i], parts[1..], fullPath, isDir).0;
    AddPartsShape(t.children[i], parts[1..], fullPath, isDir);
    ReplaceMembers(t.children, i, child);
    if q != [] {
      AddPartsKind(t.children[i], parts[1..], fullPath, isDir, q[1..]);
    }
    KindThroughChild(t, AddParts(t, parts, fullPath, isDir).0, child, parts, isDir, q);
  }

  lemma {:induction false} AddKindOfNew(t: Tree, parts: seq<string>, fullPath: string, isDir: bool, q: seq<string>)
    requires Distinct(t) && parts != [] && |parts| <= |Components(fullPath)|
    requires IndexOf(t.children, parts[0]) == |t.children|
    ensures KindAt(AddParts(t, parts, fullPath, isDir).0, q) == KindAfterAdd(KindAt(t, q), parts, isDir, q)
    decreases |parts|, 0
  {
    var u := AddParts(t, parts, fullPath, isDir).0;
    if |parts| == 1 {
      AddKindOfLeaf(t, parts, fullPath, isDir, q);
    } else {
      var made := Tree(parts[0], BuildPath(fullPath, |parts|), true, []);
      var node := AddParts(made, parts[1..], fullPath, isDir).0;
      AddPartsShape(made, parts[1..], fullPath, isDir);
      assert node.name == parts[0];
      InsertFound(t.children, node);
      assert u == t.(children := Insert(t.children, node));
      if q != [] {
        AddPartsKind(made, parts[1..], fullPath, isDir, q[1..]);
        assert KindAt(made, q[1..]) == if q[1..] == [] then Some(true) else None;
      }
      KindThroughChild(t, u, node, parts, isDir, q);
    }
  }

  lemma AddKindOfLeaf(t: Tree, parts: seq<string>, fullPath: string, isDir: bool, q: seq<string>)
    requires Distinct(t) && |parts| == 1 && |parts| <= |Components(fullPath)|
    requires IndexOf(t.children, parts[0]) == |t.children|
    ensures KindAt(AddParts(t, parts, fullPath, isDir).0, q) == KindAfterAdd(KindAt(t, q), parts, isDir, q)
  {
    var leaf := Tree(parts[0], fullPath, isDir, []);
    InsertFound(t.children, leaf);
    KindThroughChild(t, AddParts(t, parts, fullPath, isDir).0, leaf, parts, isDir, q);
  }

  /** Removing keeps names distinct and reports whether the path was there. */
  lemma {:induction false} RemovePartsShape(t: Tree, parts: seq<string>)
    requires Distinct(t) && parts != []
    ensures var (u, removed) := RemoveParts(t, parts);
            && Distinct(u)
            && u.(children := []) == t.(children := [])
            && (removed <==> Find(t, parts).Some?)
            && (!removed ==> u == t)
    decreases |parts|
  {
    var i := IndexOf(t.children, parts[0]);
    if |parts| == 1 {
      WithoutNames(t.children, parts[0]);
      assert i < |t.children| ==> Find(t.children[i], parts[1..]).Some?;
    } else if i < |t.children| {
      RemovePartsShape(t.children[i], parts[1..]);
      var child := RemoveParts(t.children[i], parts[1..]).0;
      ReplaceMembers(t.children, i, child);
      assert child == t.children[i] ==> t.children[i := child] == t.children;
    }
  }

  /** Removing deletes the path and everything below it. */
  lemma {:induction false} RemovePartsKind(t: Tree, parts: seq<string>, q: seq<string>)
    requires Distinct(t) && parts != []
    ensures KindAt(RemoveParts(t, parts).0, q) == if parts <= q then None else KindAt(t, q)
    decreases |parts|
  {
    var u := RemoveParts(t, parts).0;
    var i := IndexOf(t.children, parts[0]);
    RemovePartsShape(t, parts);
    if q != [] {
      SameHead(parts, q);
      if |parts| == 1 {
        WithoutNames(t.children, parts[0]);
        IndexOfAbsent(u.children, parts[0]);
        if q[0] != parts[0] {
          OtherNames(t, u, parts[0], q);
        }
      } else if i < |t.children| {
        var child := RemoveParts(t.children[i], parts[1..]).0;
        RemovePartsShape(t.children[i], parts[1..]);
        ReplaceMembers(t.children, i, child);
        if q[0] == parts[0] {
          RemovePartsKind(t.children[i], parts[1..], q[1..]);
        } else {
          OtherNames(t, u, parts[0], q);
        }
      }
    }
  }

  lemma {:induction false} WithoutNames(children: seq<Tree>, name: string)
    requires NamesDiffer(children)
    ensures var kept := Without(children, name);
            && NamesDiffer(kept)
            && (|kept| < |children| <==> IndexOf(children, name) < |children|)
            && (|kept| == |children| ==> kept == children)
  {
    if children != [] {
      WithoutNames(children[1..], name);
      if children[0].name != name {
        var kept := Without(children[1..], name);
        forall j | 0 <= j < |kept|
          ensures children[0].name != kept[j].name
        {
          assert kept[j] in children[1..];
        }
      }
    }
  }

  // ----- the public operations -----

  predicate Present(t: Tree, path: string) {
    KindAt(t, Components(path)).Some?
  }

  /** `add_node` on the map: `false`, and no change, exactly for an empty or recorded path. */
  lemma AddRefines(t: Tree, path: string, isDir: bool)
    requires Distinct(t)
    ensures var (u, added) := Add(t, path, isDir);
            && Distinct(u)
            && u.(children := []) == t.(children := [])
            && (!added <==> Components(path) == [] || Present(t, path))
            && (!added ==> u == t)
            && (forall q :: KindAt(u, q) == KindAfterAdd(KindAt(t, q), Components(path), isDir, q))
  {
    var parts := Components(path);
    if parts != [] {
      AddPartsShape(t, parts, path, isDir);
      forall q { AddPartsKind(t, parts, path, isDir, q); }
    }
  }

  /** `remove_node` on the map; the root itself, the empty path, cannot be removed. */
  lemma RemoveRefines(t: Tree, path: string)
    requires Distinct(t)
    ensures var (u, removed) := Remove(t, path);
            && Distinct(u)
            && u.(children := []) == t.(children := [])
            && (removed <==> Components(path) != [] && Present(t, path))
            && (!removed ==> u == t)
            && (forall q :: KindAt(u, q) ==
                  if Components(path) != [] && Components(path) <= q then None else KindAt(t, q))
  {
    var parts := Components(path);
    if parts != [] {
      RemovePartsShape(t, parts);
      forall q { RemovePartsKind(t, parts, q); }
    }
  }

  /** The old path can be removed, but the new one is empty or outlives the removal. */
  predicate LosesNode(t: Tree, oldPath: string, newPath: string) {
    var old0, new0 := Components(oldPath), Components(newPath);
    old0 != [] && Present(t, oldPath) && !(old0 <= new0) && Present(t, newPath)
  }

  /** `rename_node` takes away the whole subtree and puts back one childless node; it reports
      success exactly when the old path was there and the new one was not in the way. */
  lemma RenameRefines(t: Tree, oldPath: string, newPath: string, isDir: bool)
    requires Distinct(t)
    ensures var (u, renamed) := Rename(t, oldPath, newPath, isDir);
            var old0, new0 := Components(oldPath), Components(newPath);
            && Distinct(u)
            && (renamed <==> old0 != [] && Present(t, oldPath) && !LosesNode(t, oldPath, newPath))
            && (!renamed ==> u == if LosesNode(t, oldPath, newPath) then Remove(t, oldPath).0 else t)
            && (renamed ==> forall q :: (KindAt(u, q) ==
                  KindAfterAdd(if old0 <= q then None else KindAt(t, q), new0, isDir, q)))
  {
    RemoveRefines(t, oldPath);
    AddRefines(Remove(t, oldPath).0, newPath, isDir);
    if Components(newPath) == [] {
      assert Find(t, []) == Some(t);
      assert Components(oldPath) <= [] ==> Components(oldPath) == [];
    }
  }
}
