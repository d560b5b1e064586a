/** The file tree as a value: what each operation of `tree.rs` computes, and the
    path-to-kind map that the tree represents. */
module FileTree {
  import opened Text
  import opened Paths

  datatype Tree = Tree(name: string, path: string, isDir: bool, children: seq<Tree>)

  // ----- sort key -----

  datatype Key = Key(isFile: bool, folded: string)

  /** ASCII lower case. */
  function Lower(s: string): string {
    if s == "" then ""
    else [if 'A' <= s[0] <= 'Z' then (s[0] as int + 32) as char else s[0]] + Lower(s[1..])
  }

  function KeyFor(name: string, isDir: bool): Key {
    Key(!isDir, Lower(name))
  }

  function KeyOf(t: Tree): Key {
    KeyFor(t.name, t.isDir)
  }

  /** Directories before files, then by lower-cased name. */
  predicate KeyLess(a: Key, b: Key) {
    (!a.isFile && b.isFile) || (a.isFile == b.isFile && Less(a.folded, b.folded))
  }

  lemma KeyLessTotal(a: Key, b: Key)
    ensures KeyLess(a, b) || a == b || KeyLess(b, a)
    ensures !(KeyLess(a, b) && KeyLess(b, a))
    ensures !KeyLess(a, a)
  {
    LessTrichotomy(a.folded, b.folded);
    LessTrichotomy(a.folded, a.folded);
  }

  lemma KeyLessTransitive(a: Key, b: Key, c: Key)
    requires !KeyLess(b, a) && !KeyLess(c, b)
    ensures !KeyLess(c, a)
    ensures KeyLess(a, b) || KeyLess(b, c) ==> KeyLess(a, c)
  {
    KeyLessTotal(a, b);
    KeyLessTotal(b, c);
    KeyLessTotal(a, c);
    if KeyLess(a, b) && KeyLess(b, c) && a.isFile == c.isFile {
      LessTransitive(a.folded, b.folded, c.folded);
    }
  }

  // ----- sorted insertion -----

  function Keys(children: seq<Tree>): (keys: seq<Key>)
    ensures |keys| == |children|
    ensures forall i | 0 <= i < |keys| :: keys[i] == KeyOf(children[i])
  {
    seq(|children|, i requires 0 <= i < |children| => KeyOf(children[i]))
  }

  /** The bisection of a sorted list: the first equal key it probes, else where the key belongs. */
  function Probe(keys: seq<Key>, key: Key, left: nat, right: nat): (pos: nat)
    requires left <= right <= |keys|
    ensures left <= pos <= right
    decreases right - left
  {
    if left == right then left
    else
      var mid := left + (right - left) / 2;
      if KeyLess(keys[mid], key) then Probe(keys, key, mid + 1, right)
      else if KeyLess(key, keys[mid]) then Probe(keys, key, left, mid)
      else mid
  }

  function Position(keys: seq<Key>, key: Key): (pos: nat)
    ensures pos <= |keys|
  {
    Probe(keys, key, 0, |keys|)
  }

  function InsertAt<T>(s: seq<T>, pos: nat, x: T): (r: seq<T>)
    requires pos <= |s|
  {
    s[..pos] + [x] + s[pos..]
  }

  function Insert(children: seq<Tree>, node: Tree): seq<Tree> {
    InsertAt(children, Position(Keys(children), KeyOf(node)), node)
  }

  // ----- the operations -----

  /** Index of the first child called `name`, or the number of children. */
  function IndexOf(children: seq<Tree>, name: string): (i: nat)
    ensures i <= |children|
    ensures i < |children| ==> children[i].name == name
    ensures forall j | 0 <= j < i :: children[j].name != name
  {
    if children == [] || children[0].name == name then 0 else 1 + IndexOf(children[1..], name)
  }

  function Find(t: Tree, parts: seq<string>): Option<Tree>
    decreases |parts|
  {
    if parts == [] then Some(t)
    else
      var i := IndexOf(t.children, parts[0]);
      if i < |t.children| then Find(t.children[i], parts[1..]) else None
  }

  function AddParts(t: Tree, parts: seq<string>, fullPath: string, isDir: bool): (r: (Tree, bool))
    requires |parts| <= |Components(fullPath)|
    decreases |parts|
  {
    if parts == [] then (t, false)
    else
      var i := IndexOf(t.children, parts[0]);
      if i < |t.children| then
        if |parts| == 1 then (t, false)
        else
          var (child, added) := AddParts(t.children[i], parts[1..], fullPath, isDir);
          (t.(children := t.children[i := child]), added)
      else if |parts| == 1 then
        (t.(children := Insert(t.children, Tree(parts[0], fullPath, isDir, []))), true)
      else
        var made := Tree(parts[0], BuildPath(fullPath, |parts|), true, []);
        var (dir, added) := AddParts(made, parts[1..], fullPath, isDir);
        (t.(children := Insert(t.children, dir)), added)
  }

  function Add(t: Tree, path: string, isDir: bool): (Tree, bool) {
    AddParts(t, Components(path), path, isDir)
  }

  /** The children not called `name`. */
  function Without(children: seq<Tree>, name: string): (kept: seq<Tree>)
    ensures |kept| <= |children|
    ensures forall c :: c in kept <==> c in children && c.name != name
  {
    if children == [] then []
    else if children[0].name == name then Without(children[1..], name)
    else [children[0]] + Without(children[1..], name)
  }

  function RemoveParts(t: Tree, parts: seq<string>): (Tree, bool)
    decreases |parts|
  {
    if parts == [] then (t, false)
    else if |parts| == 1 then
      var kept := Without(t.children, parts[0]);
      (t.(children := kept), |kept| < |t.children|)
    else
      var i := IndexOf(t.children, parts[0]);
      if i < |t.children| then
        var (child, removed) := RemoveParts(t.children[i], parts[1..]);
        (t.(children := t.children[i := child]), removed)
      else (t, false)
  }

  function Remove(t: Tree, path: string): (Tree, bool) {
    RemoveParts(t, Components(path))
  }

  function Rename(t: Tree, oldPath: string, newPath: string, isDir: bool): (Tree, bool) {
    var (without, removed) := Remove(t, oldPath);
    if !removed then (without, false) else Add(without, newPath, isDir)
  }

  // ----- the map a tree represents -----

  /** The kind recorded for a component list: `Some(true)` for a directory. */
  function KindAt(t: Tree, parts: seq<string>): Option<bool> {
    match Find(t, parts)
    case Some(n) => Some(n.isDir)
    case None => None
  }

  // ----- invariants -----

  ghost predicate NamesDiffer(children: seq<Tree>) {
    forall i, j | 0 <= i < j < |children| :: children[i].name != children[j].name
  }

  /** No two siblings share a name, anywhere. */
  ghost predicate Distinct(t: Tree) {
    NamesDiffer(t.children) && forall c | c in t.children :: Distinct(c)
  }

  ghost predicate KeysAscend(keys: seq<Key>) {
    forall i, j | 0 <= i < j < |keys| :: !KeyLess(keys[j], keys[i])
  }

  /** Every sibling list is in sort-key order. */
  ghost predicate Sorted(t: Tree) {
    KeysAscend(Keys(t.children)) && forall c | c in t.children :: Sorted(c)
  }

  /** Every node's `path` is the join of the names leading to it. */
  ghost predicate PathsFrom(t: Tree, at: seq<string>) {
    t.path == Join(at, '/') && forall c | c in t.children :: PathsFrom(c, at + [c.name])
  }

  // ----- facts about insertion -----

  lemma {:induction false} ProbeBounds(keys: seq<Key>, key: Key, left: nat, right: nat)
    requires left <= right <= |keys| && KeysAscend(keys)
    requires forall i | 0 <= i < left :: !KeyLess(key, keys[i])
    requires forall i | right <= i < |keys| :: !KeyLess(keys[i], key)
    ensures var pos := Probe(keys, key, left, right);
            (forall i | 0 <= i < pos :: !KeyLess(key, keys[i])) &&
            (forall i | pos <= i < |keys| :: !KeyLess(keys[i], key))
    decreases right - left
  {
    if left < right {
      var mid := left + (right - left) / 2;
      KeyLessTotal(keys[mid], key);
      forall i | 0 <= i < mid && !KeyLess(key, keys[mid])
        ensures !KeyLess(key, keys[i])
      {
        KeyLessTransitive(keys[i], keys[mid], key);
      }
      forall i | mid < i < |keys| && !KeyLess(keys[mid], key)
        ensures !KeyLess(keys[i], key)
      {
        KeyLessTransitive(key, keys[mid], keys[i]);
      }
      if KeyLess(keys[mid], key) {
        ProbeBounds(keys, key, mid + 1, right);
      } else if KeyLess(key, keys[mid]) {
        ProbeBounds(keys, key, left, mid);
      }
    }
  }

  lemma KeysInsert(keys: seq<Key>, pos: nat, key: Key)
    requires KeysAscend(keys) && pos <= |keys|
    requires forall i | 0 <= i < pos :: !KeyLess(key, keys[i])
    requires forall i | pos <= i < |keys| :: !KeyLess(keys[i], key)
    ensures KeysAscend(InsertAt(keys, pos, key))
  {
    var u := InsertAt(keys, pos, key);
    forall i, j | 0 <= i < j < |u| ensures !KeyLess(u[j], u[i]) {
      assert i != pos ==> u[i] == keys[if i < pos then i else i - 1];
      assert j != pos ==> u[j] == keys[if j < pos then j else j - 1];
    }
  }

  lemma KeysOfInsert(children: seq<Tree>, pos: nat, node: Tree)
    requires pos <= |children|
    ensures Keys(InsertAt(children, pos, node)) == InsertAt(Keys(children), pos, KeyOf(node))
  {
  }

  lemma InsertKeepsOrder(children: seq<Tree>, node: Tree)
    requires KeysAscend(Keys(children))
    ensures KeysAscend(Keys(Insert(children, node)))
  {
    var keys := Keys(children);
    var pos := Position(keys, KeyOf(node));
    ProbeBounds(keys, KeyOf(node), 0, |keys|);
    KeysInsert(keys, pos, KeyOf(node));
    KeysOfInsert(children, pos, node);
  }

  lemma InsertMembers(children: seq<Tree>, node: Tree)
    ensures forall c :: c in Insert(children, node) <==> c == node || c in children
  {
    var pos := Position(Keys(children), KeyOf(node));
    assert children == children[..pos] + children[pos..];
  }

  lemma InsertAtKeepsNames(children: seq<Tree>, pos: nat, node: Tree)
    requires NamesDiffer(children) && pos <= |children| && forall c | c in children :: c.name != node.name
    ensures NamesDiffer(InsertAt(children, pos, node))
  {
  }

  lemma InsertKeepsNames(children: seq<Tree>, node: Tree)
    requires NamesDiffer(children) && IndexOf(children, node.name) == |children|
    ensures NamesDiffer(Insert(children, node))
  {
    InsertAtKeepsNames(children, Position(Keys(children), KeyOf(node)), node);
  }

  /** With distinct names, a name is found exactly where it is. */
  lemma IndexOfUnique(children: seq<Tree>, i: nat)
    requires NamesDiffer(children) && i < |children|
    ensures IndexOf(children, children[i].name) == i
  {
  }

  lemma IndexOfMember(children: seq<Tree>, c: Tree)
    requires NamesDiffer(children) && c in children
    ensures var i := IndexOf(children, c.name); i < |children| && children[i] == c
  {
    var i :| 0 <= i < |children| && children[i] == c;
    IndexOfUnique(children, i);
  }

  lemma IndexOfAbsent(children: seq<Tree>, name: string)
    ensures IndexOf(children, name) == |children| <==> (forall c | c in children :: c.name != name)
  {
  }

  /** What looking up a child by name yields depends only on the members. */
  lemma LookupByMembers(a: seq<Tree>, b: seq<Tree>, name: string)
    requires NamesDiffer(a) && NamesDiffer(b)
    requires forall c: Tree | c.name == name :: c in a <==> c in b
    ensures var i, j := IndexOf(a, name), IndexOf(b, name);
            (i < |a| <==> j < |b|) && (i < |a| ==> a[i] == b[j])
  {
    var i, j := IndexOf(a, name), IndexOf(b, name);
    if i < |a| {
      assert a[i] in b;
      IndexOfMember(b, a[i]);
    }
    if j < |b| {
      assert b[j] in a;
      IndexOfMember(a, b[j]);
    }
  }

  // ----- what the order is -----

  /** Directories stand before files, and names of one kind in the order of their lower-case spelling. */
  ghost predicate Listed(children: seq<Tree>) {
    forall i, j | 0 <= i < j < |children| ::
      && (children[j].isDir ==> children[i].isDir)
      && (children[i].isDir == children[j].isDir ==> !Less(Lower(children[j].name), Lower(children[i].name)))
  }

  ghost predicate AllListed(t: Tree) {
    Listed(t.children) && forall c | c in t.children :: AllListed(c)
  }

  /** Lower case changes the letters `A` to `Z` and nothing else. */
  lemma {:induction false} LowerAt(s: string)
    ensures |Lower(s)| == |s|
    ensures forall i | 0 <= i < |s| ::
              Lower(s)[i] == if 'A' <= s[i] <= 'Z' then 'a' + (s[i] - 'A') else s[i]
  {
    if s != "" { LowerAt(s[1..]); }
  }

  lemma AscendIsListed(children: seq<Tree>)
    ensures KeysAscend(Keys(children)) <==> Listed(children)
  {
    var keys := Keys(children);
    if Listed(children) {
      forall i, j | 0 <= i < j < |keys| ensures !KeyLess(keys[j], keys[i]) {
        assert children[j].isDir ==> children[i].isDir;
      }
    }
    if KeysAscend(keys) {
      forall i, j | 0 <= i < j < |children|
        ensures children[j].isDir ==> children[i].isDir
        ensures children[i].isDir == children[j].isDir ==> !Less(Lower(children[j].name), Lower(children[i].name))
      {
        assert !KeyLess(keys[j], keys[i]);
      }
    }
  }

  /** Being in sort-key order is just that, all the way down. */
  lemma {:induction false} SortedIsListed(t: Tree)
    ensures Sorted(t) <==> AllListed(t)
    decreases t
  {
    AscendIsListed(t.children);
    forall c | c in t.children ensures Sorted(c) <==> AllListed(c) { SortedIsListed(c); }
  }

  lemma InsertKeepsListed(children: seq<Tree>, node: Tree)
    requires Listed(children)
    ensures Listed(Insert(children, node)) && multiset(Insert(children, node)) == multiset(children) + multiset{node}
  {
    AscendIsListed(children);
    InsertKeepsOrder(children, node);
    AscendIsListed(Insert(children, node));
    var pos := Position(Keys(children), KeyOf(node));
    assert children == children[..pos] + children[pos..];
  }
}
