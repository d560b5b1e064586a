/** `sort_recursive` on the nodes themselves, proved equal to the sort of the tree they hold. */
module TreeSort {
  import opened FileTree
  import opened TreeHeap
  import T = TreeInvariants

  /** `sorted` rearranges `nodes` as `trees` rearranges `all`: `from` says where each one was. */
  ghost predicate Rearranges(from: seq<nat>, nodes: seq<TreeNode>, sorted: seq<TreeNode>, all: seq<Tree>,
          trees: seq<Tree>) {
    && |from| == |sorted| == |trees| && |nodes| == |all|
    && (forall i | 0 <= i < |from| :: from[i] < |nodes| && sorted[i] == nodes[from[i]] && trees[i] == all[from[i]])
    && (forall i, j | 0 <= i < j < |from| :: from[i] != from[j])
  }

  ghost predicate SameKeys(nodes: seq<TreeNode>, trees: seq<Tree>) {
    |nodes| == |trees| && forall i | 0 <= i < |nodes| :: nodes[i].SortKey() == KeyOf(trees[i])
  }

  /** Where `Slot` puts its element. */
  lemma {:induction false} SlotAt(x: Tree, s: seq<Tree>, pos: nat)
    requires pos <= |s| && (forall i | 0 <= i < pos :: KeyLess(KeyOf(s[i]), KeyOf(x)))
    requires pos < |s| ==> !KeyLess(KeyOf(s[pos]), KeyOf(x))
    ensures T.Slot(x, s) == InsertAt(s, pos, x)
    decreases pos
  {
    InsertAtHead(s, pos, x);
    if pos > 0 { SlotAt(x, s[1..], pos - 1); }
  }

  lemma InsertAtHead(s: seq<Tree>, pos: nat, x: Tree)
    requires pos <= |s|
    ensures pos == 0 ==> InsertAt(s, pos, x) == [x] + s
    ensures pos > 0 ==> InsertAt(s, pos, x) == [s[0]] + InsertAt(s[1..], pos - 1, x)
  {
  }

  function Shifted(from: seq<nat>): seq<nat> {
    seq(|from|, i requires 0 <= i < |from| => from[i] + 1)
  }

  lemma InsertShifted(from: seq<nat>, pos: nat)
    requires pos <= |from| && forall i, j | 0 <= i < j < |from| :: from[i] != from[j]
    ensures var f := InsertAt(Shifted(from), pos, 0); forall i, j | 0 <= i < j < |f| :: f[i] != f[j]
  {
    var f := InsertAt(Shifted(from), pos, 0);
    forall i, j | 0 <= i < j < |f| ensures f[i] != f[j] {
      assert f[i] == if i < pos then from[i] + 1 else if i == pos then 0 else from[i - 1] + 1;
      assert f[j] == if j < pos then from[j] + 1 else if j == pos then 0 else from[j - 1] + 1;
    }
  }

  /** What `from` picks, for a list with something put in front and the same picked out at `pos`. */
  lemma InsertPicked<X>(from: seq<nat>, list: seq<X>, picked: seq<X>, pos: nat)
    requires list != [] && |from| == |picked| && pos <= |from|
    requires forall i | 0 <= i < |from| :: from[i] < |list| - 1 && picked[i] == list[1..][from[i]]
    ensures var f, u := InsertAt(Shifted(from), pos, 0), InsertAt(picked, pos, list[0]);
            |f| == |u| && forall i | 0 <= i < |f| :: f[i] < |list| && u[i] == list[f[i]]
  {
  }

  lemma InsertRearranged(from: seq<nat>, nodes: seq<TreeNode>, sorted: seq<TreeNode>, all: seq<Tree>,
          trees: seq<Tree>, pos: nat)
    requires nodes != [] && |nodes| == |all| && Rearranges(from, nodes[1..], sorted, all[1..], trees) && pos <= |from|
    ensures Rearranges(InsertAt(Shifted(from), pos, 0), nodes, InsertAt(sorted, pos, nodes[0]), all,
            InsertAt(trees, pos, all[0]))
  {
    InsertShifted(from, pos);
    InsertPicked(from, nodes, sorted, pos);
    InsertPicked(from, all, trees, pos);
  }

  lemma KeysRearranged(from: seq<nat>, nodes: seq<TreeNode>, sorted: seq<TreeNode>, all: seq<Tree>, trees: seq<Tree>)
    requires SameKeys(nodes, all) && Rearranges(from, nodes, sorted, all, trees)
    ensures SameKeys(sorted, trees)
  {
  }

  /** The first node of a list that does not sort before the key. */
  method FindSlot(nodes: seq<TreeNode>, key: Key, ghost trees: seq<Tree>) returns (pos: nat)
    requires SameKeys(nodes, trees)
    ensures pos <= |nodes| && (forall i | 0 <= i < pos :: KeyLess(KeyOf(trees[i]), key))
    ensures pos < |nodes| ==> !KeyLess(KeyOf(trees[pos]), key)
  {
    pos := 0;
    while pos < |nodes| && KeyLess(nodes[pos].SortKey(), key)
      invariant pos <= |nodes|
      invariant forall i | 0 <= i < pos :: KeyLess(KeyOf(trees[i]), key)
    {
      pos := pos + 1;
    }
  }

  /** A stable sort of the nodes by their keys. */
  method SortNodes(nodes: seq<TreeNode>, ghost all: seq<Tree>) returns (sorted: seq<TreeNode>, ghost from: seq<nat>)
    requires SameKeys(nodes, all)
    ensures Rearranges(from, nodes, sorted, all, T.StableSort(all))
    decreases |nodes|
  {
    if nodes == [] {
      return [], [];
    }
    var rest, tail := SortNodes(nodes[1..], all[1..]);
    ghost var trees := T.StableSort(all[1..]);
    KeysRearranged(tail, nodes[1..], rest, all[1..], trees);
    var pos := FindSlot(rest, nodes[0].SortKey(), trees);
    SlotAt(all[0], trees, pos);
    InsertRearranged(tail, nodes, rest, all, trees, pos);
    sorted := InsertAt(rest, pos, nodes[0]);
    from := InsertAt(Shifted(tail), pos, 0);
  }

  /** `children.sort_by(..)`. */
  method SortChildren(node: TreeNode)
    requires node.Valid()
    modifies node
    ensures node.Valid() && node.Repr == old(node.Repr)
    ensures node.Value == old(node.Value).(children := T.StableSort(old(node.Value).children))
  {
    ghost var all := node.Value.children;
    assert forall i | 0 <= i < |node.children| :: node.children[i].Valid() && node.children[i].Value == all[i];
    var sorted, from := SortNodes(node.children, all);
    SeparateRearranged(from, node.children, sorted, all, T.StableSort(all));
    forall k | 0 <= k < |sorted|
      ensures sorted[k].Valid() && sorted[k].Value == T.StableSort(all)[k]
      ensures sorted[k] in node.Repr && sorted[k].Repr <= node.Repr && node !in sorted[k].Repr
    {
      assert node.children[from[k]].Valid();
    }
    node.Install(sorted, T.StableSort(all), node.Repr);
  }

  lemma SeparateRearranged(from: seq<nat>, nodes: seq<TreeNode>, sorted: seq<TreeNode>, all: seq<Tree>,
          trees: seq<Tree>)
    requires TreeNode.Separate(nodes) && Rearranges(from, nodes, sorted, all, trees)
    ensures TreeNode.Separate(sorted)
  {
    forall i, j | 0 <= i < j < |sorted| ensures sorted[i].Repr !! sorted[j].Repr {
      assert from[i] != from[j];
      assert nodes[from[i]].Repr !! nodes[from[j]].Repr;
    }
  }

  /** Sorts the children, then each child in turn. */
  method SortRecursive(node: TreeNode)
    requires node.Valid()
    modifies node.Repr
    ensures node.Valid() && node.Repr == old(node.Repr)
    ensures node.Value == T.SortRecursive(old(node.Value)) && AllListed(node.Value)
    decreases node.Repr, 1
  {
    T.SortRecursiveLists(node.Value);
    SortChildren(node);
    ghost var sorted := node.Value;
    var i := 0;
    while i < |node.children|
      invariant node.Valid() && node.Repr == old(node.Repr)
      invariant i <= |node.children| == |sorted.children| && node.Value.(children := []) == sorted.(children := [])
      invariant forall k | 0 <= k < |sorted.children| ::
                  node.Value.children[k] == if k < i then T.SortRecursive(sorted.children[k]) else sorted.children[k]
      decreases |sorted.children| - i
    {
      SortChild(node, i);
      i := i + 1;
    }
    assert node.Value.children == T.SortRecursive(old(node.Value)).children;
  }

  method SortChild(node: TreeNode, i: nat)
    requires node.Valid() && i < |node.children|
    modifies node.Repr
    ensures node.Valid() && node.Repr == old(node.Repr) && node.children == old(node.children)
    ensures i < |old(node.Value).children|
    ensures node.Value ==
              old(node.Value).(children := old(node.Value).children[i := T.SortRecursive(old(node.Value).children[i])])
    decreases node.Repr, 0
  {
    ghost var was := node.children;
    assert TreeNode.Separate(was);
    SortRecursive(node.children[i]);
    forall j | 0 <= j < |node.children| && j != i
      ensures node.children[j].Valid() && node.children[j].Repr == old(was[j].Repr)
              && node.children[j].Value == node.Value.children[j]
    {
      assert old(was[j].Valid() && was[j].Repr !! was[i].Repr);
    }
    node.AdoptChild(i);
  }
}
