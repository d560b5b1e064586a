/** Building a tree from a list of paths: when the order of the list does not matter. */
module TreeOrder {
  import opened Text
  import opened Paths
  import opened FileTree
  import opened TreeMap
  import opened TreeInvariants

  /** One call of `add_node`. */
  datatype Item = Item(path: string, isDir: bool)

  function AddAll(t: Tree, items: seq<Item>): Tree
    decreases |items|
  {
    if items == [] then t else AddAll(Add(t, items[0].path, items[0].isDir).0, items[1..])
  }

  const EMPTY_ROOT := Tree("", "", true, [])

  // ----- the map after a list of additions -----

  /** The kind an item gives `q` when nothing is recorded there. */
  function Touch(item: Item, q: seq<string>): Option<bool> {
    KindAfterAdd(None, Components(item.path), item.isDir, q)
  }

  function FirstTouch(items: seq<Item>, q: seq<string>): Option<bool> {
    if items == [] then None
    else if Touch(items[0], q).Some? then Touch(items[0], q)
    else FirstTouch(items[1..], q)
  }

  lemma {:induction false} AddAllKind(t: Tree, items: seq<Item>, q: seq<string>)
    requires Distinct(t)
    ensures Distinct(AddAll(t, items)) && AddAll(t, items).(children := []) == t.(children := [])
    ensures KindAt(AddAll(t, items), q) == if KindAt(t, q).Some? then KindAt(t, q) else FirstTouch(items, q)
    decreases |items|
  {
    if items != [] {
      AddRefines(t, items[0].path, items[0].isDir);
      AddAllKind(Add(t, items[0].path, items[0].isDir).0, items[1..], q);
    }
  }

  lemma {:induction false} AddAllKeeps(t: Tree, items: seq<Item>)
    requires Distinct(t) && Sorted(t) && PathsFrom(t, [])
    requires forall x | x in items :: Canonical(x.path)
    ensures Sorted(AddAll(t, items)) && PathsFrom(AddAll(t, items), [])
    decreases |items|
  {
    if items != [] {
      var u := Add(t, items[0].path, items[0].isDir).0;
      AddRefines(t, items[0].path, items[0].isDir);
      AddKeepsPathsIff(t, items[0].path, items[0].isDir);
      AddPartsKeepsSorted(t, Components(items[0].path), items[0].path, items[0].isDir);
      AddAllKeeps(u, items[1..]);
    }
  }

  lemma {:induction false} AddAllConcat(t: Tree, a: seq<Item>, b: seq<Item>)
    ensures AddAll(t, a + b) == AddAll(AddAll(t, a), b)
    decreases |a|
  {
    if a == [] {
      assert a + b == b;
    } else {
      AddAllConcat(Add(t, a[0].path, a[0].isDir).0, a[1..], b);
      assert (a + b)[1..] == a[1..] + b;
    }
  }

  // ----- the two obstacles -----

  /** Two items disagree about a node: one path under two kinds, or a file above another path. */
  predicate Clash(a: Item, b: Item) {
    var p, q := Components(a.path), Components(b.path);
    p != [] && ((p == q && a.isDir != b.isDir) || (p < q && !a.isDir))
  }

  /** The kind of the node an item needs at depth `n + 1`. */
  function KindAtDepth(item: Item, n: nat): bool {
    n + 1 < |Components(item.path)| || item.isDir
  }

  /** Two items need different siblings of one kind whose names are equal up to case. */
  predicate TieAt(a: Item, b: Item, n: nat) {
    var p, q := Components(a.path), Components(b.path);
    n < |p| && n < |q| && p[..n] == q[..n] && p[n] != q[n] &&
    Lower(p[n]) == Lower(q[n]) && KindAtDepth(a, n) == KindAtDepth(b, n)
  }

  predicate Tie(a: Item, b: Item) {
    exists n: nat | n < |Components(a.path)| :: TieAt(a, b, n)
  }

  predicate Harmonious(items: seq<Item>) {
    forall a, b | a in items && b in items :: !Clash(a, b) && !Tie(a, b)
  }

  ghost predicate SameMembers(a: seq<Item>, b: seq<Item>) {
    forall x :: x in a <==> x in b
  }

  predicate AllCanonical(items: seq<Item>) {
    forall x | x in items :: Canonical(x.path)
  }

  // ----- sufficiency -----

  lemma {:induction false} FirstTouchFrom(items: seq<Item>, q: seq<string>) returns (item: Item)
    requires FirstTouch(items, q).Some?
    ensures item in items && Touch(item, q) == FirstTouch(items, q)
  {
    if Touch(items[0], q).Some? {
      item := items[0];
    } else {
      item := FirstTouchFrom(items[1..], q);
    }
  }

  lemma {:induction false} FirstTouchSome(items: seq<Item>, item: Item, q: seq<string>)
    requires item in items && Touch(item, q).Some?
    ensures FirstTouch(items, q).Some?
  {
    if Touch(items[0], q).None? {
      FirstTouchSome(items[1..], item, q);
    }
  }

  /** Without clashes any item that touches `q` gives it the same kind. */
  lemma TouchAgree(a: Item, b: Item, q: seq<string>)
    requires !Clash(a, b) && !Clash(b, a)
    requires Touch(a, q).Some? && Touch(b, q).Some?
    requires q != []
    ensures Touch(a, q) == Touch(b, q)
  {
  }

  /** The first touch is `kind` exactly when some item gives that kind. */
  lemma FirstTouchIs(items: seq<Item>, item: Item, q: seq<string>)
    requires forall a, b | a in items && b in items :: !Clash(a, b)
    requires item in items && Touch(item, q).Some? && q != []
    ensures FirstTouch(items, q) == Touch(item, q)
  {
    FirstTouchSome(items, item, q);
    var other := FirstTouchFrom(items, q);
    TouchAgree(item, other, q);
  }

  lemma SameFirstTouch(a: seq<Item>, b: seq<Item>, q: seq<string>)
    requires forall x, y | x in a && y in a :: !Clash(x, y)
    requires SameMembers(a, b) && q != []
    ensures FirstTouch(a, q) == FirstTouch(b, q)
  {
    if FirstTouch(a, q).Some? {
      var item := FirstTouchFrom(a, q);
      FirstTouchIs(b, item, q);
    } else if FirstTouch(b, q).Some? {
      var item := FirstTouchFrom(b, q);
      FirstTouchSome(a, item, q);
    }
  }

  /** A recorded sibling pair comes from two items that need those siblings. */
  lemma TouchDepth(item: Item, v: seq<string>, x: string)
    requires Touch(item, v + [x]).Some?
    ensures var p := Components(item.path);
            |v| < |p| && p[..|v|] == v && p[|v|] == x && Touch(item, v + [x]) == Some(KindAtDepth(item, |v|))
  {
    var p := Components(item.path);
    assert v + [x] <= p;
    assert (v + [x])[|v|] == x;
    assert (v + [x])[..|v|] == v;
  }

  lemma BuiltTieFree(items: seq<Item>)
    requires Harmonious(items)
    ensures TieFree(AddAll(EMPTY_ROOT, items))
  {
    var t := AddAll(EMPTY_ROOT, items);
    forall v, x, y | x != y && KindAt(t, v + [x]).Some? && KindAt(t, v + [x]) == KindAt(t, v + [y])
      ensures Lower(x) != Lower(y)
    {
      AddAllKind(EMPTY_ROOT, items, v + [x]);
      AddAllKind(EMPTY_ROOT, items, v + [y]);
      var a := FirstTouchFrom(items, v + [x]);
      var b := FirstTouchFrom(items, v + [y]);
      TouchDepth(a, v, x);
      TouchDepth(b, v, y);
      assert TieAt(a, b, |v|) <==> Lower(x) == Lower(y);
      assert !Tie(a, b);
    }
  }

  /** Harmonious canonical items build the same tree in every order, repetitions included. */
  lemma OrderDoesNotMatter(a: seq<Item>, b: seq<Item>)
    requires SameMembers(a, b) && AllCanonical(a) && Harmonious(a)
    ensures AddAll(EMPTY_ROOT, a) == AddAll(EMPTY_ROOT, b)
  {
    BuiltShape(a);
    assert Harmonious(b);
    BuiltShape(b);
    BuiltSameMap(a, b);
    MapDeterminesTree(AddAll(EMPTY_ROOT, a), AddAll(EMPTY_ROOT, b), []);
  }

  lemma BuiltShape(items: seq<Item>)
    requires AllCanonical(items) && Harmonious(items)
    ensures var t := AddAll(EMPTY_ROOT, items);
            Distinct(t) && Sorted(t) && PathsFrom(t, []) && TieFree(t) && t.name == ""
  {
    AddAllKeeps(EMPTY_ROOT, items);
    BuiltTieFree(items);
    AddAllKind(EMPTY_ROOT, items, []);
  }

  lemma BuiltSameMap(a: seq<Item>, b: seq<Item>)
    requires SameMembers(a, b) && Harmonious(a)
    ensures SameMap(AddAll(EMPTY_ROOT, a), AddAll(EMPTY_ROOT, b))
  {
    forall q
      ensures KindAt(AddAll(EMPTY_ROOT, a), q) == KindAt(AddAll(EMPTY_ROOT, b), q)
    {
      AddAllKind(EMPTY_ROOT, a, q);
      AddAllKind(EMPTY_ROOT, b, q);
      if q != [] { SameFirstTouch(a, b, q); }
    }
  }

  // ----- necessity: clashes -----

  lemma ClashShows(a: Item, b: Item, rest: seq<Item>)
    requires Clash(a, b)
    ensures AddAll(EMPTY_ROOT, [a, b] + rest) != AddAll(EMPTY_ROOT, [b, a] + rest)
  {
    var q := Components(a.path);
    AddAllKind(EMPTY_ROOT, [a, b] + rest, q);
    AddAllKind(EMPTY_ROOT, [b, a] + rest, q);
    assert FirstTouch([a, b] + rest, q) == Touch(a, q);
    assert FirstTouch([b, a] + rest, q) == Touch(b, q);
  }

  // ----- necessity: ties -----

  /** Below `w`, the child `x` comes before the child `y`. */
  predicate BeforeAt(t: Tree, w: seq<string>, x: string, y: string) {
    var n := Find(t, w);
    n.Some? && IndexOf(n.value.children, x) < IndexOf(n.value.children, y) < |n.value.children|
  }

  /** Where a name is found once a node has been inserted. */
  lemma IndexAfterInsert(children: seq<Tree>, node: Tree, x: string)
    requires NamesDiffer(children) && IndexOf(children, node.name) == |children| && IndexOf(children, x) < |children|
    ensures var u, i := Insert(children, node), IndexOf(children, x);
            |u| == |children| + 1 && IndexOf(u, x) == if i < Position(Keys(children), KeyOf(node)) then i else i + 1
  {
    var pos, i := Position(Keys(children), KeyOf(node)), IndexOf(children, x);
    var u := Insert(children, node);
    InsertKeepsNames(children, node);
    var k := if i < pos then i else i + 1;
    assert u[k] == children[i];
    IndexOfUnique(u, k);
  }

  lemma InsertKeepsBefore(children: seq<Tree>, node: Tree, x: string, y: string)
    requires NamesDiffer(children) && IndexOf(children, node.name) == |children|
    requires IndexOf(children, x) < IndexOf(children, y) < |children|
    ensures var u := Insert(children, node); IndexOf(u, x) < IndexOf(u, y) < |u|
  {
    IndexAfterInsert(children, node, x);
    IndexAfterInsert(children, node, y);
  }

  lemma {:induction false} AddPartsKeepsBefore(t: Tree, parts: seq<string>, fullPath: string, isDir: bool,
                                               w: seq<string>, x: string, y: string)
    requires Distinct(t) && |parts| <= |Components(fullPath)| && BeforeAt(t, w, x, y)
    ensures BeforeAt(AddParts(t, parts, fullPath, isDir).0, w, x, y)
    decreases |parts|
  {
    if parts != [] {
      var i := IndexOf(t.children, parts[0]);
      var u := AddParts(t, parts, fullPath, isDir).0;
      if i < |t.children| {
        if |parts| > 1 {
          var child := AddParts(t.children[i], parts[1..], fullPath, isDir).0;
          AddPartsShape(t.children[i], parts[1..], fullPath, isDir);
          ReplaceMembers(t.children, i, child);
          if w == [] {
            ReplaceKeepsIndex(t.children, i, child, x);
            ReplaceKeepsIndex(t.children, i, child, y);
          } else if w[0] == parts[0] {
            AddPartsKeepsBefore(t.children[i], parts[1..], fullPath, isDir, w[1..], x, y);
          } else {
            OtherNames(t, u, parts[0], w);
          }
        }
      } else {
        var node := AddedNode(t, parts, fullPath, isDir);
        if w == [] {
          InsertKeepsBefore(t.children, node, x, y);
        } else {
          InsertFound(t.children, node);
          OtherNames(t, u, parts[0], w);
        }
      }
    }
  }

  lemma ReplaceKeepsIndex(children: seq<Tree>, i: nat, child: Tree, name: string)
    requires i < |children| && child.name == children[i].name
    ensures IndexOf(children[i := child], name) == IndexOf(children, name)
  {
    var u := children[i := child];
    assert forall j | 0 <= j < |u| :: u[j].name == children[j].name;
    var a, b := IndexOf(children, name), IndexOf(u, name);
    assert a < |u| ==> u[a].name == name;
    assert b < |u| ==> children[b].name == name;
  }

  /** The child that an addition inserts when the first component is new. */
  lemma AddedNode(t: Tree, parts: seq<string>, fullPath: string, isDir: bool) returns (node: Tree)
    requires Distinct(t) && parts != [] && |parts| <= |Components(fullPath)|
    requires IndexOf(t.children, parts[0]) == |t.children|
    ensures node.name == parts[0] && node.isDir == (|parts| > 1 || isDir)
    ensures AddParts(t, parts, fullPath, isDir).0 == t.(children := Insert(t.children, node))
  {
    if |parts| == 1 {
      node := Tree(parts[0], fullPath, isDir, []);
    } else {
      var made := Tree(parts[0], BuildPath(fullPath, |parts|), true, []);
      AddPartsShape(made, parts[1..], fullPath, isDir);
      node := AddParts(made, parts[1..], fullPath, isDir).0;
    }
  }

  lemma {:induction false} AddAllKeepsBefore(t: Tree, items: seq<Item>, w: seq<string>, x: string, y: string)
    requires Distinct(t) && BeforeAt(t, w, x, y)
    ensures BeforeAt(AddAll(t, items), w, x, y)
    decreases |items|
  {
    if items != [] {
      AddRefines(t, items[0].path, items[0].isDir);
      AddPartsKeepsBefore(t, Components(items[0].path), items[0].path, items[0].isDir, w, x, y);
      AddAllKeepsBefore(Add(t, items[0].path, items[0].isDir).0, items[1..], w, x, y);
    }
  }

  /** Adding one path to a childless node makes a chain. */
  lemma {:induction false} ChainAt(t: Tree, parts: seq<string>, fullPath: string, isDir: bool, n: nat)
    requires t.children == [] && n < |parts| <= |Components(fullPath)|
    ensures var node := Find(AddParts(t, parts, fullPath, isDir).0, parts[..n]);
            && node.Some? && |node.value.children| == 1
            && node.value.children[0].name == parts[n]
            && node.value.children[0].isDir == (n + 1 < |parts| || isDir)
    decreases n
  {
    var node := AddedNode(t, parts, fullPath, isDir);
    assert Insert([], node) == [node];
    if n > 0 {
      var made := Tree(parts[0], BuildPath(fullPath, |parts|), true, []);
      ChainAt(made, parts[1..], fullPath, isDir, n - 1);
      assert parts[..n][1..] == parts[1..][..n - 1];
    }
  }

  /** Adding a tied sibling to a single child puts it in front. */
  lemma SecondGoesFirstHere(t: Tree, parts: seq<string>, fullPath: string, isDir: bool)
    requires Distinct(t) && 0 < |parts| <= |Components(fullPath)|
    requires |t.children| == 1 && t.children[0].name != parts[0]
    requires KeyOf(t.children[0]) == KeyFor(parts[0], 1 < |parts| || isDir)
    ensures BeforeAt(AddParts(t, parts, fullPath, isDir).0, [], parts[0], t.children[0].name)
  {
    var old0 := t.children[0];
    var node := AddedNode(t, parts, fullPath, isDir);
    KeyLessTotal(KeyOf(old0), KeyOf(node));
    assert Insert(t.children, node) == [node, old0];
  }

  lemma {:induction false} SecondGoesFirst(t: Tree, parts: seq<string>, fullPath: string, isDir: bool, n: nat)
    requires Distinct(t) && n < |parts| <= |Components(fullPath)|
    requires var node := Find(t, parts[..n]);
             && node.Some? && |node.value.children| == 1
             && node.value.children[0].name != parts[n]
             && KeyOf(node.value.children[0]) == KeyFor(parts[n], n + 1 < |parts| || isDir)
    ensures BeforeAt(AddParts(t, parts, fullPath, isDir).0, parts[..n], parts[n],
                     Find(t, parts[..n]).value.children[0].name)
    decreases n
  {
    if n == 0 {
      SecondGoesFirstHere(t, parts, fullPath, isDir);
    } else {
      var i := IndexOf(t.children, parts[0]);
      assert parts[..n][1..] == parts[1..][..n - 1] && parts[..n][0] == parts[0];
      assert i < |t.children| && Find(t, parts[..n]) == Find(t.children[i], parts[1..][..n - 1]);
      SecondGoesFirst(t.children[i], parts[1..], fullPath, isDir, n - 1);
      AddPartsShape(t.children[i], parts[1..], fullPath, isDir);
      var child := AddParts(t.children[i], parts[1..], fullPath, isDir).0;
      ReplaceMembers(t.children, i, child);
      assert Find(AddParts(t, parts, fullPath, isDir).0, parts[..n]) == Find(child, parts[1..][..n - 1]);
    }
  }

  lemma TieOrder(a: Item, b: Item, n: nat, rest: seq<Item>)
    requires TieAt(a, b, n)
    ensures BeforeAt(AddAll(EMPTY_ROOT, [a, b] + rest), Components(a.path)[..n],
                     Components(b.path)[n], Components(a.path)[n])
  {
    var p, q := Components(a.path), Components(b.path);
    var t := Add(EMPTY_ROOT, a.path, a.isDir).0;
    ChainAt(EMPTY_ROOT, p, a.path, a.isDir, n);
    AddRefines(EMPTY_ROOT, a.path, a.isDir);
    SecondGoesFirst(t, q, b.path, b.isDir, n);
    AddRefines(t, b.path, b.isDir);
    AddAllKeepsBefore(Add(t, b.path, b.isDir).0, rest, p[..n], q[n], p[n]);
    var items := [a, b] + rest;
    assert items[1..][1..] == rest;
  }

  lemma TieShows(a: Item, b: Item, rest: seq<Item>)
    requires Tie(a, b)
    ensures AddAll(EMPTY_ROOT, [a, b] + rest) != AddAll(EMPTY_ROOT, [b, a] + rest)
  {
    var n: nat :| n < |Components(a.path)| && TieAt(a, b, n);
    TieOrder(a, b, n, rest);
    TieOrder(b, a, n, rest);
  }

  // ----- the characterisation -----

  /** All orders of the list, each item as often as the list has it, build one tree. */
  ghost predicate EveryOrderAgrees(items: seq<Item>) {
    forall a, b | multiset(a) == multiset(items) && multiset(b) == multiset(items) ::
      AddAll(EMPTY_ROOT, a) == AddAll(EMPTY_ROOT, b)
  }

  /** A list of canonical paths builds the same tree in every order exactly when no file lies above
      another path, no path has two kinds and no two siblings of one kind are equal up to case. */
  lemma OrderIndependence(items: seq<Item>)
    requires AllCanonical(items)
    ensures EveryOrderAgrees(items) <==> Harmonious(items)
  {
    if Harmonious(items) {
      forall a, b | multiset(a) == multiset(items) && multiset(b) == multiset(items)
        ensures AddAll(EMPTY_ROOT, a) == AddAll(EMPTY_ROOT, b)
      {
        OrdersShareMembers(a, items);
        OrdersShareMembers(b, items);
        assert AllCanonical(a) && Harmonious(a);
        OrderDoesNotMatter(a, b);
      }
    } else {
      var a, b := OrderMatters(items);
    }
  }

  lemma OrdersShareMembers(a: seq<Item>, items: seq<Item>)
    requires multiset(a) == multiset(items)
    ensures SameMembers(a, items)
  {
    forall x ensures x in a <==> x in items {
      assert x in a <==> x in multiset(a);
      assert x in items <==> x in multiset(items);
    }
  }

  /** Two orders of a list that is not harmonious, and the two trees they build. */
  lemma OrderMatters(items: seq<Item>) returns (u: seq<Item>, v: seq<Item>)
    requires !Harmonious(items)
    ensures multiset(u) == multiset(items) && multiset(v) == multiset(items)
    ensures AddAll(EMPTY_ROOT, u) != AddAll(EMPTY_ROOT, v)
  {
    var a, b :| a in items && b in items && (Clash(a, b) || Tie(a, b));
    assert a != b;
    var rest := WithoutOne(WithoutOne(items, a), b);
    u, v := [a, b] + rest, [b, a] + rest;
    PairInFront(a, b, rest, items);
    if Clash(a, b) { ClashShows(a, b, rest); } else { TieShows(a, b, rest); }
  }

  function WithoutOne(items: seq<Item>, x: Item): (rest: seq<Item>)
    ensures multiset(rest) == multiset(items) - multiset{x}
  {
    if items == [] then []
    else
      assert items == [items[0]] + items[1..];
      if items[0] == x then items[1..] else [items[0]] + WithoutOne(items[1..], x)
  }

  lemma PairInFront(a: Item, b: Item, rest: seq<Item>, items: seq<Item>)
    requires a != b && a in items && b in items && multiset(rest) == multiset(items) - multiset{a} - multiset{b}
    ensures multiset([a, b] + rest) == multiset(items) && multiset([b, a] + rest) == multiset(items)
  {
    assert a in multiset(items) && b in multiset(items);
    assert multiset([a, b]) == multiset{a, b} && multiset([b, a]) == multiset{a, b};
  }

  /** `A` and `a` in one directory: which of the two files comes first depends on which was added
      first. */
  lemma CaseTieShows()
    ensures AddAll(EMPTY_ROOT, [Item("A", false), Item("a", false)]) !=
              AddAll(EMPTY_ROOT, [Item("a", false), Item("A", false)])
  {
    var x, y := Item("A", false), Item("a", false);
    ComponentsOfJoin(["A"]);
    ComponentsOfJoin(["a"]);
    assert Join(["A"], '/') == "A" && Join(["a"], '/') == "a";
    assert Lower("A") == Lower("a");
    assert TieAt(x, y, 0);
    TieShows(x, y, []);
    assert [x, y] + [] == [x, y] && [y, x] + [] == [y, x];
  }

  /** Re-sorting any tree built by additions changes nothing. */
  lemma BuiltTreeNeedsNoSort(items: seq<Item>)
    ensures SortRecursive(AddAll(EMPTY_ROOT, items)) == AddAll(EMPTY_ROOT, items)
  {
    BuiltSorted(EMPTY_ROOT, items);
    SortRecursiveFixes(AddAll(EMPTY_ROOT, items));
  }

  /** Every sibling list of a built tree has directories first, and within a kind lower-case names in
      order. */
  lemma BuiltTreeIsListed(items: seq<Item>)
    ensures AllListed(AddAll(EMPTY_ROOT, items))
  {
    BuiltSorted(EMPTY_ROOT, items);
    SortedIsListed(AddAll(EMPTY_ROOT, items));
  }

  lemma {:induction false} BuiltSorted(t: Tree, items: seq<Item>)
    requires Sorted(t)
    ensures Sorted(AddAll(t, items))
    decreases |items|
  {
    if items != [] {
      AddPartsKeepsSorted(t, Components(items[0].path), items[0].path, items[0].isDir);
      BuiltSorted(Add(t, items[0].path, items[0].isDir).0, items[1..]);
    }
  }
}
