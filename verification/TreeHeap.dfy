/** The tree as the program keeps it: nodes owning vectors of children that the operations change
    in place. Every method is proved equal to the function of `FileTree` with the same job. */
module TreeHeap {
  import opened Text
  import opened Paths
  import opened FileTree

  class TreeNode {
    const name: string
    const path: string
    const isDir: bool
    var children: seq<TreeNode>
    ghost var Repr: set<object>
    /** The tree this node and its descendants hold. */
    ghost var Value: Tree

    /** The node owns its children, no two of them share a node, and `Value` is up to date. */
    ghost predicate Valid()
      reads this, Repr
      decreases Repr
    {
      && this in Repr
      && Value.name == name && Value.path == path && Value.isDir == isDir
      && |Value.children| == |children|
      && (forall i | 0 <= i < |children| ::
            && children[i] in Repr && children[i].Repr <= Repr && this !in children[i].Repr
            && children[i].Valid() && children[i].Value == Value.children[i])
      && Separate(children)
    }

    static ghost predicate Separate(nodes: seq<TreeNode>)
      reads nodes
    {
      forall i, j | 0 <= i < j < |nodes| :: nodes[i].Repr !! nodes[j].Repr
    }

    constructor (name: string, path: string, isDir: bool)
      ensures Valid() && fresh(Repr) && Value == Tree(name, path, isDir, [])
    {
      this.name, this.path, this.isDir := name, path, isDir;
      children := [];
      Repr := {this};
      Value := Tree(name, path, isDir, []);
    }

    function SortKey(): Key {
      KeyFor(name, isDir)
    }

    /** `iter().find` by name, as an index; the number of children when there is none. */
    method IndexOfChild(wanted: string) returns (i: nat)
      requires Valid()
      ensures i == IndexOf(Value.children, wanted)
    {
      i := 0;
      while i < |children| && children[i].name != wanted
        invariant i <= |children|
        invariant forall j | 0 <= j < i :: Value.children[j].name != wanted
      {
        assert children[i].Value == Value.children[i];
        i := i + 1;
      }
      assert i < |children| ==> children[i].Value == Value.children[i];
    }

    /** `binary_search_by` on the sort keys. */
    static method FindPosition(nodes: seq<TreeNode>, key: Key, ghost keys: seq<Key>) returns (pos: nat)
      requires |keys| == |nodes| && forall i | 0 <= i < |nodes| :: keys[i] == nodes[i].SortKey()
      ensures pos == Position(keys, key)
    {
      var left, right := 0, |nodes|;
      while left < right
        invariant left <= right <= |nodes|
        invariant Probe(keys, key, left, right) == Position(keys, key)
      {
        var mid := left + (right - left) / 2;
        var probe := nodes[mid].SortKey();
        if KeyLess(probe, key) {
          left := mid + 1;
        } else if KeyLess(key, probe) {
          right := mid;
        } else {
          return mid;
        }
      }
      pos := left;
    }

    method InsertSorted(node: TreeNode)
      requires Valid() && node.Valid() && Repr !! node.Repr
      modifies this
      ensures Valid() && Repr == old(Repr) + node.Repr
      ensures Value == old(Value).(children := Insert(old(Value).children, node.Value))
      ensures Listed(old(Value).children) ==>
                Listed(Value.children) &&
                multiset(Value.children) == multiset(old(Value).children) + multiset{old(node.Value)}
    {
      if Listed(Value.children) { InsertKeepsListed(Value.children, node.Value); }
      ghost var keys := Keys(Value.children);
      assert forall i | 0 <= i < |children| :: keys[i] == KeyOf(children[i].Value) == children[i].SortKey();
      var pos := FindPosition(children, node.SortKey(), keys);
      assert node.SortKey() == KeyOf(node.Value);
      ghost var values := InsertAt(Value.children, pos, node.Value);
      var now := children[..pos] + [node] + children[pos..];
      SeparateInsert(children, pos, node);
      InsertedFits(pos, node, now, values);
      Install(now, values, Repr + node.Repr);
    }

    lemma InsertedFits(pos: nat, node: TreeNode, now: seq<TreeNode>, values: seq<Tree>)
      requires Valid() && node.Valid() && Repr !! node.Repr && pos <= |children|
      requires now == children[..pos] + [node] + children[pos..] && values == InsertAt(Value.children, pos, node.Value)
      ensures |now| == |values|
      ensures forall k | 0 <= k < |now| ::
        && now[k].Valid() && now[k].Value == values[k] && this !in now[k].Repr
        && now[k] in Repr + node.Repr && now[k].Repr <= Repr + node.Repr
    {
      forall k | 0 <= k < |now|
        ensures now[k].Valid() && now[k].Value == values[k] && this !in now[k].Repr
        ensures now[k] in Repr + node.Repr && now[k].Repr <= Repr + node.Repr
      {
        assert now[k] == if k < pos then children[k] else if k == pos then node else children[k - 1];
      }
    }

    /** Gives the node a new list of sound, separate children. */
    method Install(now: seq<TreeNode>, ghost values: seq<Tree>, ghost grown: set<object>)
      requires this in grown && Value.(children := []) == Tree(name, path, isDir, [])
      requires |now| == |values| && Separate(now)
      requires forall k | 0 <= k < |now| ::
        && now[k] in grown && now[k].Repr <= grown && this !in now[k].Repr
        && now[k].Valid() && now[k].Value == values[k]
      modifies this
      ensures Valid() && children == now && Repr == grown
      ensures Value == old(Value).(children := values)
    {
      forall k | 0 <= k < |now| ensures now[k] != this { assert now[k].Valid(); }
      children := now;
      Repr := grown;
      Value := Value.(children := values);
      forall k | 0 <= k < |now|
        ensures now[k].Valid()
      {
        assert old(now[k].Valid());
      }
    }

    static lemma SeparateInsert(nodes: seq<TreeNode>, pos: nat, node: TreeNode)
      requires pos <= |nodes| && Separate(nodes)
      requires forall k | 0 <= k < |nodes| :: nodes[k].Repr !! node.Repr
      ensures Separate(nodes[..pos] + [node] + nodes[pos..])
    {
      var u := nodes[..pos] + [node] + nodes[pos..];
      forall i, j | 0 <= i < j < |u|
        ensures u[i].Repr !! u[j].Repr
      {
        assert i != pos ==> u[i] == nodes[if i < pos then i else i - 1];
        assert j != pos ==> u[j] == nodes[if j < pos then j else j - 1];
      }
    }

    method AddRecursive(parts: seq<string>, fullPath: string, dir: bool) returns (added: bool)
      requires Valid() && |parts| <= |Components(fullPath)|
      modifies Repr
      ensures Valid() && fresh(Repr - old(Repr))
      ensures (Value, added) == AddParts(old(Value), parts, fullPath, dir)
      decreases |parts|, 1
    {
      if parts == [] {
        return false;
      }
      var i := IndexOfChild(parts[0]);
      if i < |children| {
        if |parts| == 1 {
          return false;
        }
        added := AddBelow(i, parts, fullPath, dir);
      } else if |parts| == 1 {
        var node := new TreeNode(parts[0], fullPath, dir);
        InsertSorted(node);
        return true;
      } else {
        added := AddDirectory(parts, fullPath, dir);
      }
    }

    /** Makes a missing directory, fills it, and puts it in its place. */
    method AddDirectory(parts: seq<string>, fullPath: string, dir: bool) returns (added: bool)
      requires Valid() && 1 < |parts| <= |Components(fullPath)|
      modifies this
      ensures Valid() && fresh(Repr - old(Repr))
      ensures var made := Tree(parts[0], BuildPath(fullPath, |parts|), true, []);
              var (child, a) := AddParts(made, parts[1..], fullPath, dir);
              added == a && Value == old(Value).(children := Insert(old(Value).children, child))
      decreases |parts|, 0
    {
      var node := new TreeNode(parts[0], BuildPath(fullPath, |parts|), true);
      added := node.AddRecursive(parts[1..], fullPath, dir);
      InsertSorted(node);
    }

    /** Walks on into child `i`. */
    method AddBelow(i: nat, parts: seq<string>, fullPath: string, dir: bool) returns (added: bool)
      requires Valid() && |parts| <= |Components(fullPath)| && |parts| > 1 && i < |children|
      modifies Repr
      ensures Valid() && fresh(Repr - old(Repr)) && i < |old(Value).children|
      ensures var (child, a) := AddParts(old(Value).children[i], parts[1..], fullPath, dir);
              added == a && Value == old(Value).(children := old(Value).children[i := child])
      decreases |parts|, 0
    {
      ghost var was := children;
      assert Separate(was);
      added := children[i].AddRecursive(parts[1..], fullPath, dir);
      forall j | 0 <= j < |children| && j != i
        ensures children[j].Valid() && children[j].Repr == old(was[j].Repr) && children[j].Value == Value.children[j]
      {
        assert old(was[j].Valid() && was[j].Repr !! was[i].Repr);
      }
      AdoptChild(i);
    }

    /** After child `i` alone has changed, growing only by new nodes, the parent takes it over. */
    method AdoptChild(i: nat)
      requires this in Repr && i < |children| == |Value.children|
      requires Value.(children := []) == Tree(name, path, isDir, [])
      requires Separate(children)
      requires forall j | 0 <= j < |children| ::
        children[j] in Repr && this !in children[j].Repr && children[j].Valid()
      requires forall j | 0 <= j < |children| && j != i ::
        children[j].Repr <= Repr && children[j].Value == Value.children[j]
      modifies this
      ensures Valid() && children == old(children) && Repr == old(Repr) + children[i].Repr
      ensures Value == old(Value).(children := old(Value).children[i := children[i].Value])
    {
      Install(children, Value.children[i := children[i].Value], Repr + children[i].Repr);
    }

    method RemoveRecursive(parts: seq<string>) returns (removed: bool)
      requires Valid()
      modifies Repr
      ensures Valid() && Repr == old(Repr)
      ensures (Value, removed) == RemoveParts(old(Value), parts)
      decreases |parts|, 1
    {
      if parts == [] {
        return false;
      }
      if |parts| == 1 {
        var before := |children|;
        RetainOthers(parts[0]);
        removed := |children| < before;
      } else {
        var i := IndexOfChild(parts[0]);
        if i < |children| {
          removed := RemoveBelow(i, parts);
        } else {
          removed := false;
        }
      }
    }

    method RemoveBelow(i: nat, parts: seq<string>) returns (removed: bool)
      requires Valid() && |parts| > 1 && i < |children|
      modifies Repr
      ensures Valid() && Repr == old(Repr) && i < |old(Value).children|
      ensures var (child, r) := RemoveParts(old(Value).children[i], parts[1..]);
              removed == r && Value == old(Value).(children := old(Value).children[i := child])
      decreases |parts|, 0
    {
      ghost var was := children;
      assert Separate(was);
      removed := children[i].RemoveRecursive(parts[1..]);
      forall j | 0 <= j < |children| && j != i
        ensures children[j].Valid() && children[j].Repr == old(was[j].Repr) && children[j].Value == Value.children[j]
      {
        assert old(was[j].Valid() && was[j].Repr !! was[i].Repr);
      }
      AdoptChild(i);
    }

    /** `kept` are the nodes at the ascending indices `from`, all below `k`. */
    static ghost predicate Selects(from: seq<nat>, k: nat, nodes: seq<TreeNode>, kept: seq<TreeNode>) {
      && |from| == |kept|
      && (forall i | 0 <= i < |from| :: from[i] < k && from[i] < |nodes| && kept[i] == nodes[from[i]])
      && (forall i, j | 0 <= i < j < |from| :: from[i] < from[j])
    }

    /** The loop of `retain(|c| c.name != name)`: `from` says where each kept node was. */
    static method KeepOthers(nodes: seq<TreeNode>, gone: string, ghost all: seq<Tree>)
      returns (kept: seq<TreeNode>, ghost from: seq<nat>)
      requires |all| == |nodes| && forall i | 0 <= i < |nodes| :: all[i].name == nodes[i].name
      ensures Selects(from, |nodes|, nodes, kept) && Holds(from, all, Without(all, gone))
    {
      kept, from := [], [];
      for k := 0 to |nodes|
        invariant Selects(from, k, nodes, kept)
        invariant Holds(from, all, Without(all[..k], gone))
      {
        KeepNext(from, k, nodes, kept, all, gone);
        if nodes[k].name != gone {
          kept, from := kept + [nodes[k]], from + [k];
        }
      }
      assert all[..|nodes|] == all;
    }

    /** `part` lists the trees at the indices `from`. */
    static ghost predicate Holds(from: seq<nat>, all: seq<Tree>, part: seq<Tree>) {
      |from| == |part| && forall i | 0 <= i < |part| :: from[i] < |all| && part[i] == all[from[i]]
    }

    static lemma PickNext(from: seq<nat>, k: nat, nodes: seq<TreeNode>, kept: seq<TreeNode>,
                          all: seq<Tree>, part: seq<Tree>)
      requires k < |nodes| == |all| && Selects(from, k, nodes, kept) && Holds(from, all, part)
      ensures Selects(from, k + 1, nodes, kept) && Selects(from + [k], k + 1, nodes, kept + [nodes[k]])
      ensures Holds(from + [k], all, part + [all[k]]) && part + [] == part
    {
    }

    static lemma {:induction false} WithoutConcat(a: seq<Tree>, b: seq<Tree>, gone: string)
      ensures Without(a + b, gone) == Without(a, gone) + Without(b, gone)
    {
      if a == [] {
        assert a + b == b;
      } else {
        assert (a + b)[1..] == a[1..] + b;
        WithoutConcat(a[1..], b, gone);
      }
    }

    static lemma WithoutNext(all: seq<Tree>, k: nat, gone: string)
      requires k < |all|
      ensures Without(all[..k + 1], gone)
           == Without(all[..k], gone) + (if all[k].name == gone then [] else [all[k]])
    {
      assert all[..k + 1] == all[..k] + [all[k]];
      WithoutConcat(all[..k], [all[k]], gone);
      assert [all[k]][1..] == [];
    }

    static lemma KeepNext(from: seq<nat>, k: nat, nodes: seq<TreeNode>, kept: seq<TreeNode>,
                          all: seq<Tree>, gone: string)
      requires k < |nodes| == |all| && Selects(from, k, nodes, kept) && Holds(from, all, Without(all[..k], gone))
      ensures Selects(from, k + 1, nodes, kept) && Selects(from + [k], k + 1, nodes, kept + [nodes[k]])
      ensures all[k].name == gone ==> Holds(from, all, Without(all[..k + 1], gone))
      ensures all[k].name != gone ==> Holds(from + [k], all, Without(all[..k + 1], gone))
    {
      var part := Without(all[..k], gone);
      WithoutNext(all, k, gone);
      PickNext(from, k, nodes, kept, all, part);
    }

    /** `children.retain(|c| c.name != name)`. */
    method RetainOthers(gone: string)
      requires Valid()
      modifies this
      ensures Valid() && Repr == old(Repr)
      ensures Value == old(Value).(children := Without(old(Value).children, gone))
    {
      ghost var all := Value.children;
      assert forall i | 0 <= i < |children| :: children[i].Value == all[i] && children[i].Valid();
      var kept, from := KeepOthers(children, gone, all);
      SeparatePart(children, kept, from);
      forall k | 0 <= k < |kept|
        ensures kept[k].Valid() && kept[k].Value == Without(all, gone)[k]
        ensures kept[k] in Repr && kept[k].Repr <= Repr && this !in kept[k].Repr
      {
        assert children[from[k]].Valid();
      }
      Install(kept, Without(all, gone), Repr);
    }

    static lemma SeparatePart(nodes: seq<TreeNode>, part: seq<TreeNode>, from: seq<nat>)
      requires Separate(nodes) && Selects(from, |nodes|, nodes, part)
      ensures Separate(part)
    {
    }

    method FindRecursive(parts: seq<string>) returns (found: TreeNode?)
      requires Valid()
      ensures found == null <==> Find(Value, parts).None?
      ensures found != null ==> found in Repr && found.Valid() && Find(Value, parts) == Some(found.Value)
      decreases |parts|
    {
      if parts == [] {
        return this;
      }
      var i := IndexOfChild(parts[0]);
      if i == |children| {
        return null;
      }
      assert children[i].Value == Value.children[i];
      if |parts| == 1 {
        assert Find(children[i].Value, []) == Some(children[i].Value);
        return children[i];
      }
      found := children[i].FindRecursive(parts[1..]);
    }
  }

  method AddNode(root: TreeNode, filePath: string, isDir: bool) returns (added: bool)
    requires root.Valid()
    modifies root.Repr
    ensures root.Valid() && fresh(root.Repr - old(root.Repr))
    ensures (root.Value, added) == Add(old(root.Value), filePath, isDir)
  {
    added := root.AddRecursive(Components(filePath), filePath, isDir);
  }

  method RemoveNode(root: TreeNode, filePath: string) returns (removed: bool)
    requires root.Valid()
    modifies root.Repr
    ensures root.Valid() && root.Repr == old(root.Repr)
    ensures (root.Value, removed) == Remove(old(root.Value), filePath)
  {
    removed := root.RemoveRecursive(Components(filePath));
  }

  method RenameNode(root: TreeNode, oldPath: string, newPath: string, isDir: bool) returns (renamed: bool)
    requires root.Valid()
    modifies root.Repr
    ensures root.Valid() && fresh(root.Repr - old(root.Repr))
    ensures (root.Value, renamed) == Rename(old(root.Value), oldPath, newPath, isDir)
  {
    var removed := RemoveNode(root, oldPath);
    if !removed {
      return false;
    }
    renamed := AddNode(root, newPath, isDir);
  }

  method FindNode(root: TreeNode, filePath: string) returns (found: TreeNode?)
    requires root.Valid()
    ensures found == null <==> Find(root.Value, Components(filePath)).None?
    ensures found != null ==> found.Valid() && Find(root.Value, Components(filePath)) == Some(found.Value)
  {
    found := root.FindRecursive(Components(filePath));
  }
}
