/** Sibling order and recorded paths: what every operation keeps, what re-sorting a tree does,
    and why a sorted tree is determined by its map. */
module TreeInvariants {
  import opened Text
  import opened Paths
  import opened FileTree
  import opened TreeMap

  // ----- sorted siblings -----

  lemma {:induction false} AddPartsKeepsSorted(t: Tree, parts: seq<string>, fullPath: string, isDir: bool)
    requires Sorted(t) && |parts| <= |Components(fullPath)|
    ensures Sorted(AddParts(t, parts, fullPath, isDir).0)
    ensures KeyOf(AddParts(t, parts, fullPath, isDir).0) == KeyOf(t)
    decreases |parts|
  {
    if parts != [] {
      var i := IndexOf(t.children, parts[0]);
      if i < |t.children| {
        if |parts| > 1 {
          AddPartsKeepsSorted(t.children[i], parts[1..], fullPath, isDir);
          var child := AddParts(t.children[i], parts[1..], fullPath, isDir).0;
          assert Keys(t.children[i := child]) == Keys(t.children);
        }
      } else {
        var made := Tree(parts[0], BuildPath(fullPath, |parts|), true, []);
        if |parts| > 1 { AddPartsKeepsSorted(made, parts[1..], fullPath, isDir); }
        var node := if |parts| == 1 then Tree(parts[0], fullPath, isDir, [])
                    else AddParts(made, parts[1..], fullPath, isDir).0;
        InsertKeepsOrder(t.children, node);
        InsertMembers(t.children, node);
      }
    }
  }

  /** The first of an ordered list sorts after none of the others, and what it sorts after none of
      can be put behind it. */
  lemma HeadIsLeast(s: seq<Tree>, c: Tree)
    requires s != [] && KeysAscend(Keys(s)) && c in s[1..]
    ensures !KeyLess(KeyOf(c), KeyOf(s[0]))
  {
    var k :| 0 <= k < |s[1..]| && s[1..][k] == c;
    var keys := Keys(s);
    assert keys[k + 1] == KeyOf(c) && keys[0] == KeyOf(s[0]);
  }

  lemma ConsOrders(first: Tree, rest: seq<Tree>)
    requires KeysAscend(Keys(rest)) && forall c | c in rest :: !KeyLess(KeyOf(c), KeyOf(first))
    ensures KeysAscend(Keys([first] + rest))
  {
    KeyLessTotal(KeyOf(first), KeyOf(first));
    var keys := Keys([first] + rest);
    assert keys == [KeyOf(first)] + Keys(rest);
    forall j | 1 <= j < |keys| ensures !KeyLess(keys[j], keys[0]) {
      assert keys[j] == KeyOf(rest[j - 1]) && rest[j - 1] in rest;
    }
  }

  lemma TailKeys(s: seq<Tree>)
    requires s != [] && KeysAscend(Keys(s))
    ensures KeysAscend(Keys(s[1..]))
  {
    assert Keys(s[1..]) == Keys(s)[1..];
  }

  lemma {:induction false} WithoutKeepsOrder(children: seq<Tree>, name: string)
    requires KeysAscend(Keys(children))
    ensures KeysAscend(Keys(Without(children, name)))
  {
    if children != [] {
      TailKeys(children);
      WithoutKeepsOrder(children[1..], name);
      if children[0].name != name {
        var kept := Without(children[1..], name);
        forall c | c in kept ensures !KeyLess(KeyOf(c), KeyOf(children[0])) { HeadIsLeast(children, c); }
        ConsOrders(children[0], kept);
      }
    }
  }

  lemma {:induction false} RemovePartsKeepsSorted(t: Tree, parts: seq<string>)
    requires Sorted(t)
    ensures Sorted(RemoveParts(t, parts).0) && KeyOf(RemoveParts(t, parts).0) == KeyOf(t)
    decreases |parts|
  {
    if |parts| == 1 {
      WithoutKeepsOrder(t.children, parts[0]);
    } else if parts != [] {
      var i := IndexOf(t.children, parts[0]);
      if i < |t.children| {
        RemovePartsKeepsSorted(t.children[i], parts[1..]);
        var child := RemoveParts(t.children[i], parts[1..]).0;
        assert Keys(t.children[i := child]) == Keys(t.children);
      }
    }
  }

  // ----- what the order is -----

  lemma AddKeepsListed(t: Tree, path: string, isDir: bool)
    requires AllListed(t)
    ensures AllListed(Add(t, path, isDir).0)
  {
    SortedIsListed(t);
    AddPartsKeepsSorted(t, Components(path), path, isDir);
    SortedIsListed(Add(t, path, isDir).0);
  }

  lemma RemoveKeepsListed(t: Tree, path: string)
    requires AllListed(t)
    ensures AllListed(Remove(t, path).0)
  {
    SortedIsListed(t);
    RemovePartsKeepsSorted(t, Components(path));
    SortedIsListed(Remove(t, path).0);
  }

  // ----- sort_recursive -----

  /** `x` in front of the first element that does not sort before it. */
  function Slot(x: Tree, s: seq<Tree>): (r: seq<Tree>)
    ensures multiset(r) == multiset(s) + multiset{x}
  {
    if s == [] then [x]
    else if KeyLess(KeyOf(s[0]), KeyOf(x)) then
      assert s == [s[0]] + s[1..];
      [s[0]] + Slot(x, s[1..])
    else [x] + s
  }

  /** The stable sort by sort key. */
  function StableSort(s: seq<Tree>): (r: seq<Tree>)
    ensures multiset(r) == multiset(s)
    ensures |r| == |s|
  {
    if s == [] then []
    else
      assert s == [s[0]] + s[1..];
      var r := Slot(s[0], StableSort(s[1..]));
      assert |r| == |multiset(r)| && |s| == |multiset(s)|;
      r
  }

  function SortRecursive(t: Tree): Tree {
    var s := StableSort(t.children);
    t.(children := seq(|s|, i requires 0 <= i < |s| =>
      assert s[i] in multiset(t.children); SortRecursive(s[i])))
  }

  lemma {:induction false} SlotOrders(x: Tree, s: seq<Tree>)
    requires KeysAscend(Keys(s))
    ensures KeysAscend(Keys(Slot(x, s)))
  {
    if s == [] {
      ConsOrders(x, []);
    } else if KeyLess(KeyOf(s[0]), KeyOf(x)) {
      TailKeys(s);
      SlotOrders(x, s[1..]);
      KeyLessTotal(KeyOf(s[0]), KeyOf(x));
      var r := Slot(x, s[1..]);
      forall c | c in r ensures !KeyLess(KeyOf(c), KeyOf(s[0])) {
        assert c in multiset(r);
        if c != x { HeadIsLeast(s, c); }
      }
      ConsOrders(s[0], r);
    } else {
      forall c | c in s ensures !KeyLess(KeyOf(c), KeyOf(x)) {
        if c != s[0] {
          assert s == [s[0]] + s[1..];
          HeadIsLeast(s, c);
          KeyLessTransitive(KeyOf(x), KeyOf(s[0]), KeyOf(c));
        }
      }
      ConsOrders(x, s);
    }
  }

  lemma {:induction false} StableSortOrders(s: seq<Tree>)
    ensures KeysAscend(Keys(StableSort(s)))
  {
    if s != [] {
      StableSortOrders(s[1..]);
      SlotOrders(s[0], StableSort(s[1..]));
    }
  }

  function WithKey(s: seq<Tree>, key: Key): seq<Tree> {
    if s == [] then []
    else if KeyOf(s[0]) == key then [s[0]] + WithKey(s[1..], key)
    else WithKey(s[1..], key)
  }

  lemma {:induction false} SlotStable(x: Tree, s: seq<Tree>, key: Key)
    ensures WithKey(Slot(x, s), key) == WithKey([x] + s, key)
  {
    assert ([x] + s)[1..] == s;
    if s != [] && KeyLess(KeyOf(s[0]), KeyOf(x)) {
      SlotStable(x, s[1..], key);
      KeyLessTotal(KeyOf(s[0]), KeyOf(x));
      assert ([x] + s[1..])[1..] == s[1..];
      assert Slot(x, s)[1..] == Slot(x, s[1..]);
    }
  }

  /** Nodes with equal sort keys keep their order. */
  lemma {:induction false} StableSortStable(s: seq<Tree>, key: Key)
    ensures WithKey(StableSort(s), key) == WithKey(s, key)
  {
    if s != [] {
      StableSortStable(s[1..], key);
      SlotStable(s[0], StableSort(s[1..]), key);
      assert ([s[0]] + StableSort(s[1..]))[1..] == StableSort(s[1..]);
    }
  }

  lemma {:induction false} StableSortFixes(s: seq<Tree>)
    requires KeysAscend(Keys(s))
    ensures StableSort(s) == s
  {
    if s != [] {
      assert Keys(s[1..]) == Keys(s)[1..];
      StableSortFixes(s[1..]);
      if |s| > 1 {
        assert !KeyLess(Keys(s)[1], Keys(s)[0]);
      }
    }
  }

  /** `sort_recursive` orders every sibling list. */
  lemma {:induction false} SortRecursiveSorts(t: Tree)
    ensures Sorted(SortRecursive(t)) && KeyOf(SortRecursive(t)) == KeyOf(t)
    decreases t
  {
    var s := StableSort(t.children);
    var u := SortRecursive(t);
    StableSortOrders(t.children);
    forall i | 0 <= i < |s|
      ensures Sorted(u.children[i]) && KeyOf(u.children[i]) == KeyOf(s[i])
    {
      assert s[i] in multiset(t.children);
      SortRecursiveSorts(s[i]);
    }
    assert Keys(u.children) == Keys(s);
  }

  /** So every sibling list ends up with directories first, and within a kind by lower-case name. */
  lemma SortRecursiveLists(t: Tree)
    ensures AllListed(SortRecursive(t))
  {
    SortRecursiveSorts(t);
    SortedIsListed(SortRecursive(t));
  }

  /** It leaves a tree alone exactly when the tree was already sorted. */
  lemma {:induction false} SortRecursiveFixes(t: Tree)
    ensures SortRecursive(t) == t <==> Sorted(t)
    decreases t
  {
    SortRecursiveSorts(t);
    if Sorted(t) {
      StableSortFixes(t.children);
      forall i | 0 <= i < |t.children|
        ensures SortRecursive(t.children[i]) == t.children[i]
      {
        SortRecursiveFixes(t.children[i]);
      }
    }
  }

  lemma SameNames(a: seq<Tree>, b: seq<Tree>)
    requires multiset(a) == multiset(b) && NamesDiffer(a)
    ensures NamesDiffer(b)
    ensures forall c :: c in a <==> c in b
  {
    forall c ensures c in a <==> c in b { assert c in multiset(a) <==> c in multiset(b); }
    forall i, j | 0 <= i < j < |b| ensures b[i].name != b[j].name {
      if b[i].name == b[j].name {
        assert b[i] in a && b[j] in a;
        IndexOfMember(a, b[i]);
        IndexOfMember(a, b[j]);
        OnceAtMost(a, b[i]);
        Twice(b, i, j);
      }
    }
  }

  lemma Twice(b: seq<Tree>, i: nat, j: nat)
    requires i < j < |b| && b[i] == b[j]
    ensures multiset(b)[b[i]] >= 2
  {
    assert b == b[..i] + [b[i]] + b[i + 1..j] + [b[j]] + b[j + 1..];
  }

  lemma {:induction false} OnceAtMost(a: seq<Tree>, c: Tree)
    requires NamesDiffer(a)
    ensures multiset(a)[c] <= 1
  {
    if a != [] {
      OnceAtMost(a[1..], c);
      assert a == [a[0]] + a[1..];
      if a[0] == c {
        forall x | x in a[1..] ensures x != c {}
        assert c !in multiset(a[1..]);
      }
    }
  }

  lemma {:induction false} SortKeepsRoot(t: Tree)
    ensures SortRecursive(t).(children := []) == t.(children := [])
    ensures |SortRecursive(t).children| == |StableSort(t.children)|
  {
  }

  lemma SortedNames(t: Tree)
    requires NamesDiffer(t.children)
    ensures var s, u := StableSort(t.children), SortRecursive(t);
            && NamesDiffer(s) && (forall c :: c in t.children <==> c in s)
            && |u.children| == |s| && NamesDiffer(u.children)
            && forall i | 0 <= i < |s| :: u.children[i] == SortRecursive(s[i]) && u.children[i].name == s[i].name
  {
    var s, u := StableSort(t.children), SortRecursive(t);
    SameNames(t.children, s);
    forall i | 0 <= i < |s| ensures u.children[i] == SortRecursive(s[i]) && u.children[i].name == s[i].name {
      assert s[i] in multiset(t.children);
      SortKeepsRoot(s[i]);
    }
  }

  /** Sorting moves nodes about among their siblings and does nothing else: every path keeps its kind. */
  lemma {:induction false} SortRecursiveKeepsMap(t: Tree, q: seq<string>)
    requires Distinct(t)
    ensures KindAt(SortRecursive(t), q) == KindAt(t, q)
    decreases |q|
  {
    SortKeepsRoot(t);
    if q != [] {
      var s, u := StableSort(t.children), SortRecursive(t);
      SortedNames(t);
      LookupByMembers(t.children, s, q[0]);
      var i := IndexOf(s, q[0]);
      if i < |s| {
        IndexOfUnique(u.children, i);
        assert Distinct(s[i]);
        SortRecursiveKeepsMap(s[i], q[1..]);
      }
    }
  }

  // ----- recorded paths -----

  /** In a tree with correct paths, a node found at `q` records the join of `at + q`. */
  lemma {:induction false} FoundPath(t: Tree, at: seq<string>, q: seq<string>)
    requires PathsFrom(t, at) && Find(t, q).Some?
    ensures Find(t, q).value.path == Join(at + q, '/')
    decreases |q|
  {
    if q == [] {
      assert at + q == at;
    } else {
      var i := IndexOf(t.children, q[0]);
      FoundPath(t.children[i], at + [q[0]], q[1..]);
      assert at + [q[0]] + q[1..] == at + q;
    }
  }

  lemma {:induction false} AddPartsKeepsPaths(t: Tree, at: seq<string>, parts: seq<string>, fullPath: string,
          isDir: bool)
    requires PathsFrom(t, at) && at + parts == Components(fullPath) && Canonical(fullPath)
    ensures PathsFrom(AddParts(t, parts, fullPath, isDir).0, at)
    decreases |parts|
  {
    if parts != [] {
      var i := IndexOf(t.children, parts[0]);
      var below := at + [parts[0]];
      assert below + parts[1..] == at + parts;
      if i < |t.children| {
        if |parts| > 1 {
          AddPartsKeepsPaths(t.children[i], below, parts[1..], fullPath, isDir);
        }
      } else if |parts| == 1 {
        assert below == Components(fullPath);
        InsertMembers(t.children, Tree(parts[0], fullPath, isDir, []));
      } else {
        assert Components(fullPath)[..|at| + 1] == below;
        var made := Tree(parts[0], BuildPath(fullPath, |parts|), true, []);
        AddPartsKeepsPaths(made, below, parts[1..], fullPath, isDir);
        InsertMembers(t.children, AddParts(made, parts[1..], fullPath, isDir).0);
      }
    }
  }

  /** The node an addition creates records the path exactly as it was given. */
  lemma {:induction false} AddedPath(t: Tree, parts: seq<string>, fullPath: string, isDir: bool)
    requires Distinct(t) && parts != [] && |parts| <= |Components(fullPath)|
    requires Find(t, parts).None?
    ensures var n := Find(AddParts(t, parts, fullPath, isDir).0, parts);
            n.Some? && n.value.path == fullPath
    decreases |parts|
  {
    var i := IndexOf(t.children, parts[0]);
    if i < |t.children| {
      AddPartsShape(t.children[i], parts[1..], fullPath, isDir);
      ReplaceMembers(t.children, i, AddParts(t.children[i], parts[1..], fullPath, isDir).0);
      AddedPath(t.children[i], parts[1..], fullPath, isDir);
    } else if |parts| == 1 {
      InsertFound(t.children, Tree(parts[0], fullPath, isDir, []));
    } else {
      var made := Tree(parts[0], BuildPath(fullPath, |parts|), true, []);
      AddPartsShape(made, parts[1..], fullPath, isDir);
      InsertFound(t.children, AddParts(made, parts[1..], fullPath, isDir).0);
      AddedPath(made, parts[1..], fullPath, isDir);
    }
  }

  /** Every recorded path is right after an addition exactly when the path was spelled the
      tree's own way or nothing was added: `src//a.rs` is recorded as written. */
  lemma AddKeepsPathsIff(t: Tree, path: string, isDir: bool)
    requires Distinct(t) && PathsFrom(t, [])
    ensures PathsFrom(Add(t, path, isDir).0, []) <==> Canonical(path) || !Add(t, path, isDir).1
  {
    var parts := Components(path);
    AddRefines(t, path, isDir);
    assert [] + parts == parts;
    if Canonical(path) {
      AddPartsKeepsPaths(t, [], parts, path, isDir);
    } else if Add(t, path, isDir).1 {
      AddedPath(t, parts, path, isDir);
      if PathsFrom(Add(t, path, isDir).0, []) {
        FoundPath(Add(t, path, isDir).0, [], parts);
      }
    }
  }

  /** Added as `/a` to an empty tree, the file `a` records a path that is not its own. */
  lemma SlashedPathStays(isDir: bool)
    ensures var (u, added) := Add(Tree("", "", true, []), "/a", isDir);
            added && Present(u, "a") && !PathsFrom(u, [])
  {
    var t := Tree("", "", true, []);
    ComponentsOfJoin(["a"]);
    SlashedComponents();
    AddRefines(t, "/a", isDir);
    AddKeepsPathsIff(t, "/a", isDir);
  }

  lemma SlashedComponents()
    ensures Components("/a") == ["a"]
  {
    SplitPlain("a", '/');
    assert Split("/a", '/') == ["", "a"] by { assert "/a"[1..] == "a"; }
    assert DropEmpty(["", "a"]) == DropEmpty(["a"]);
    assert ["a"][1..] == [];
  }

  lemma {:induction false} RemovePartsKeepsPaths(t: Tree, at: seq<string>, parts: seq<string>)
    requires PathsFrom(t, at)
    ensures PathsFrom(RemoveParts(t, parts).0, at)
    decreases |parts|
  {
    if |parts| > 1 {
      var i := IndexOf(t.children, parts[0]);
      if i < |t.children| {
        RemovePartsKeepsPaths(t.children[i], at + [parts[0]], parts[1..]);
      }
    }
  }

  // ----- the map determines the tree -----

  /** No two recorded siblings of one kind are equal up to case. */
  ghost predicate TieFree(t: Tree) {
    forall v, x, y | x != y && KindAt(t, v + [x]).Some? && KindAt(t, v + [x]) == KindAt(t, v + [y]) ::
      Lower(x) != Lower(y)
  }

  lemma KindOfChild(t: Tree, i: nat, q: seq<string>)
    requires NamesDiffer(t.children) && i < |t.children|
    ensures KindAt(t, [t.children[i].name] + q) == KindAt(t.children[i], q)
  {
    IndexOfUnique(t.children, i);
    assert ([t.children[i].name] + q)[1..] == q;
  }

  lemma TieFreeChild(t: Tree, i: nat)
    requires NamesDiffer(t.children) && TieFree(t) && i < |t.children|
    ensures TieFree(t.children[i])
  {
    var c := t.children[i];
    forall v, x, y | x != y && KindAt(c, v + [x]).Some? && KindAt(c, v + [x]) == KindAt(c, v + [y])
      ensures Lower(x) != Lower(y)
    {
      KindOfChild(t, i, v + [x]);
      KindOfChild(t, i, v + [y]);
      assert [c.name] + (v + [x]) == ([c.name] + v) + [x];
      assert [c.name] + (v + [y]) == ([c.name] + v) + [y];
    }
  }

  ghost predicate StrictlyAscend(keys: seq<Key>) {
    forall i, j | 0 <= i < j < |keys| :: KeyLess(keys[i], keys[j])
  }

  lemma TieFreeStrict(t: Tree)
    requires Distinct(t) && Sorted(t) && TieFree(t)
    ensures StrictlyAscend(Keys(t.children))
  {
    forall i, j | 0 <= i < j < |t.children|
      ensures KeyLess(Keys(t.children)[i], Keys(t.children)[j])
    {
      var a, b := t.children[i], t.children[j];
      KindOfChild(t, i, []);
      KindOfChild(t, j, []);
      assert [a.name] + [] == [] + [a.name] && [b.name] + [] == [] + [b.name];
      KeyLessTotal(KeyOf(a), KeyOf(b));
      if KeyOf(a) == KeyOf(b) {
        assert KindAt(t, [] + [a.name]) == KindAt(t, [] + [b.name]);
      }
    }
  }

  /** Names and kinds of a sibling list. */
  function Labels(children: seq<Tree>): (labels: seq<(string, bool)>)
    ensures |labels| == |children|
    ensures forall i | 0 <= i < |labels| :: labels[i] == (children[i].name, children[i].isDir)
  {
    seq(|children|, i requires 0 <= i < |children| => (children[i].name, children[i].isDir))
  }

  ghost predicate LabelsAscend(labels: seq<(string, bool)>) {
    forall i, j | 0 <= i < j < |labels| ::
      KeyLess(KeyFor(labels[i].0, labels[i].1), KeyFor(labels[j].0, labels[j].1))
  }

  lemma HeadOnce(a: seq<(string, bool)>)
    requires LabelsAscend(a) && a != []
    ensures a[0] !in a[1..]
  {
    KeyLessTotal(KeyFor(a[0].0, a[0].1), KeyFor(a[0].0, a[0].1));
  }

  /** Two strictly ascending lists with the same members are the same list. */
  lemma {:induction false} AscendingUnique(a: seq<(string, bool)>, b: seq<(string, bool)>)
    requires LabelsAscend(a) && LabelsAscend(b)
    requires forall l :: l in a <==> l in b
    ensures a == b
  {
    assert b != [] ==> b[0] in b;
    if a != [] {
      assert a[0] in b && b != [] && b[0] in a;
      var j :| 0 <= j < |b| && b[j] == a[0];
      var k :| 0 <= k < |a| && a[k] == b[0];
      KeyLessTotal(KeyFor(a[0].0, a[0].1), KeyFor(b[0].0, b[0].1));
      assert a[0] == b[0];
      forall l
        ensures l in a[1..] <==> l in b[1..]
      {
        HeadOnce(a);
        HeadOnce(b);
        assert a == [a[0]] + a[1..] && b == [b[0]] + b[1..];
        assert l in a <==> l == a[0] || l in a[1..];
        assert l in b <==> l == a[0] || l in b[1..];
      }
      AscendingUnique(a[1..], b[1..]);
    }
  }

  ghost predicate SameMap(t: Tree, u: Tree) {
    forall q :: KindAt(t, q) == KindAt(u, q)
  }

  lemma LabelKind(t: Tree, name: string, isDir: bool)
    requires NamesDiffer(t.children)
    ensures (name, isDir) in Labels(t.children) <==> KindAt(t, [name]) == Some(isDir)
  {
    var i := IndexOf(t.children, name);
    assert [name][1..] == [];
    if (name, isDir) in Labels(t.children) {
      var j :| 0 <= j < |t.children| && Labels(t.children)[j] == (name, isDir);
      IndexOfUnique(t.children, j);
    }
    if i < |t.children| {
      assert Labels(t.children)[i] == (name, t.children[i].isDir);
      assert Find(t.children[i], []) == Some(t.children[i]);
    }
  }

  lemma SameLabels(t: Tree, u: Tree)
    requires Distinct(t) && Distinct(u) && Sorted(t) && Sorted(u) && TieFree(t) && TieFree(u)
    requires SameMap(t, u)
    ensures Labels(t.children) == Labels(u.children)
  {
    TieFreeStrict(t);
    TieFreeStrict(u);
    var a, b := Labels(t.children), Labels(u.children);
    assert forall i | 0 <= i < |a| :: KeyFor(a[i].0, a[i].1) == Keys(t.children)[i];
    assert forall i | 0 <= i < |b| :: KeyFor(b[i].0, b[i].1) == Keys(u.children)[i];
    forall l
      ensures l in a <==> l in b
    {
      LabelKind(t, l.0, l.1);
      LabelKind(u, l.0, l.1);
    }
    AscendingUnique(a, b);
  }

  lemma SameMapChild(t: Tree, u: Tree, i: nat)
    requires Distinct(t) && Distinct(u) && SameMap(t, u)
    requires i < |t.children| && i < |u.children| && t.children[i].name == u.children[i].name
    ensures SameMap(t.children[i], u.children[i])
  {
    forall q
      ensures KindAt(t.children[i], q) == KindAt(u.children[i], q)
    {
      KindOfChild(t, i, q);
      KindOfChild(u, i, q);
    }
  }

  /** Sorted, correctly labelled trees without case ties are equal once their maps are. */
  lemma {:induction false} MapDeterminesTree(t: Tree, u: Tree, at: seq<string>)
    requires Distinct(t) && Distinct(u) && Sorted(t) && Sorted(u) && TieFree(t) && TieFree(u)
    requires PathsFrom(t, at) && PathsFrom(u, at)
    requires t.name == u.name && SameMap(t, u)
    ensures t == u
    decreases t
  {
    assert KindAt(t, []) == KindAt(u, []);
    SameLabels(t, u);
    var n := |Labels(t.children)|;
    forall i | 0 <= i < n
      ensures t.children[i] == u.children[i]
    {
      var c, d := t.children[i], u.children[i];
      assert Labels(t.children)[i] == Labels(u.children)[i];
      SameMapChild(t, u, i);
      TieFreeChild(t, i);
      TieFreeChild(u, i);
      MapDeterminesTree(c, d, at + [c.name]);
    }
  }
}
