/** Scanning a directory: which additions the capped walk makes, and what tree they build. */
module DirectoryScan {
  import opened Text
  import opened Paths
  import opened PathFilter
  import opened FileTree
  import opened TreeOrder

  /** What `read_dir` yields for one entry. */
  datatype Entry =
    | Broken
    | NotUtf8
    | Entry(name: string, kind: EntryKind)

  datatype EntryKind = UnknownType | Symlink | PlainFile | Directory(listing: Listing)

  datatype Listing = Unreadable | Listing(entries: seq<Entry>)

  const MAX_DEPTH: nat := 20
  const MAX_ENTRIES: nat := 10000

  function ChildPath(relative: string, name: string): string {
    if relative == "" then name else relative + "/" + name
  }

  /** The entry gets past every check but the entry limit. */
  predicate Qualifies(e: Entry, relative: string, patterns: seq<string>) {
    e.Entry? && !ShouldIgnore(patterns, ChildPath(relative, e.name)) &&
    !e.kind.UnknownType? && !e.kind.Symlink?
  }

  // ----- the walk without the entry limit -----

  function Scan(listing: Listing, relative: string, patterns: seq<string>, depth: nat): seq<Item>
    decreases listing
  {
    if depth >= MAX_DEPTH || listing.Unreadable? then []
    else ScanEntries(listing.entries, relative, patterns, depth)
  }

  function ScanEntries(entries: seq<Entry>, relative: string, patterns: seq<string>, depth: nat): seq<Item>
    decreases entries
  {
    if entries == [] then []
    else ScanEntry(entries[0], relative, patterns, depth) + ScanEntries(entries[1..], relative, patterns, depth)
  }

  function ScanEntry(e: Entry, relative: string, patterns: seq<string>, depth: nat): seq<Item>
    decreases e
  {
    if !Qualifies(e, relative, patterns) then []
    else
      var child := ChildPath(relative, e.name);
      [Item(child, e.kind.Directory?)] +
      (if e.kind.Directory? then Scan(e.kind.listing, child, patterns, depth + 1) else [])
  }

  function Take<T>(s: seq<T>, n: nat): (r: seq<T>)
    ensures |r| == if |s| < n then |s| else n
    ensures r <= s
  {
    if |s| < n then s else s[..n]
  }

  lemma TakeConcat<T>(a: seq<T>, b: seq<T>, n: nat)
    ensures Take(a + b, n) == Take(a, n) + Take(b, n - |Take(a, n)|)
  {
  }

  lemma {:induction false} ScanEntriesConcat(a: seq<Entry>, b: seq<Entry>, relative: string,
          patterns: seq<string>, depth: nat)
    ensures ScanEntries(a + b, relative, patterns, depth)
         == ScanEntries(a, relative, patterns, depth) + ScanEntries(b, relative, patterns, depth)
  {
    if a == [] {
      assert a + b == b;
    } else {
      ScanEntriesConcat(a[1..], b, relative, patterns, depth);
      assert (a + b)[1..] == a[1..] + b;
      Assoc(ScanEntry(a[0], relative, patterns, depth), ScanEntries(a[1..], relative, patterns, depth),
            ScanEntries(b, relative, patterns, depth));
    }
  }

  // ----- what a file system can hold -----

  predicate IsEntryName(name: string) {
    IsName(name) && name != "." && name != ".."
  }

  ghost predicate SoundListing(listing: Listing)
    decreases listing
  {
    listing.Listing? ==>
      && (forall i | 0 <= i < |listing.entries| :: SoundEntry(listing.entries[i]))
      && NamesOnce(listing.entries)
  }

  ghost predicate SoundEntry(e: Entry)
    decreases e
  {
    e.Entry? ==> IsEntryName(e.name) && (e.kind.Directory? ==> SoundListing(e.kind.listing))
  }

  ghost predicate NamesOnce(entries: seq<Entry>) {
    forall i, j | 0 <= i < j < |entries| ::
      entries[i].Entry? && entries[j].Entry? ==> entries[i].name != entries[j].name
  }

  /** The kind of the entry reached by following `q` down from `listing`, seen through readable
      directories only. */
  function KindInListing(listing: Listing, q: seq<string>): Option<bool>
    decreases listing
  {
    if q == [] || listing.Unreadable? then None else KindInEntries(listing.entries, q)
  }

  function KindInEntries(entries: seq<Entry>, q: seq<string>): Option<bool>
    requires q != []
    decreases entries
  {
    if entries == [] then None
    else if entries[0].Entry? && entries[0].name == q[0] then KindInEntry(entries[0], q)
    else KindInEntries(entries[1..], q)
  }

  function KindInEntry(e: Entry, q: seq<string>): Option<bool>
    requires q != [] && e.Entry?
    decreases e
  {
    if e.kind.UnknownType? || e.kind.Symlink? then None
    else if |q| == 1 then Some(e.kind.Directory?)
    else if e.kind.Directory? then KindInListing(e.kind.listing, q[1..])
    else None
  }

  // ----- how an entry is reached -----

  /** Files and directories, one inside the other, from an entry of the listing downwards. */
  ghost predicate Leads(listing: Listing, chain: seq<Entry>)
    decreases |chain|
  {
    && chain != [] && listing.Listing? && chain[0] in listing.entries
    && chain[0].Entry? && (chain[0].kind.PlainFile? || chain[0].kind.Directory?)
    && (|chain| > 1 ==> chain[0].kind.Directory? && Leads(chain[0].kind.listing, chain[1..]))
  }

  ghost predicate Named(chain: seq<Entry>, q: seq<string>) {
    |chain| == |q| && forall i | 0 <= i < |q| :: chain[i].Entry? && chain[i].name == q[i]
  }

  ghost predicate Reaches(listing: Listing, chain: seq<Entry>, q: seq<string>, isDir: bool) {
    && Leads(listing, chain) && Named(chain, q)
    && chain[|chain| - 1].Entry? && chain[|chain| - 1].kind.Directory? == isDir
  }

  ghost predicate Reached(listing: Listing, q: seq<string>, isDir: bool) {
    exists chain :: Reaches(listing, chain, q, isDir)
  }

  lemma ReachedStep(listing: Listing, e: Entry, q: seq<string>, isDir: bool)
    requires listing.Listing? && e in listing.entries && e.Entry? && e.kind.Directory? && q != [] && q[0] == e.name
    requires Reached(e.kind.listing, q[1..], isDir)
    ensures Reached(listing, q, isDir)
  {
    var chain :| Reaches(e.kind.listing, chain, q[1..], isDir);
    var more := [e] + chain;
    assert more[1..] == chain;
    assert Leads(listing, more) && more[|more| - 1] == chain[|chain| - 1];
    forall i | 0 <= i < |q| ensures more[i].Entry? && more[i].name == q[i] {
      if i > 0 { assert more[i] == chain[i - 1] && q[i] == q[1..][i - 1]; }
    }
    assert Reaches(listing, more, q, isDir);
  }

  /** The entry of a name, if there is one. */
  lemma {:induction false} EntryNamed(entries: seq<Entry>, q: seq<string>, e: Entry)
    requires NamesOnce(entries) && q != [] && e in entries && e.Entry? && e.name == q[0]
    ensures KindInEntries(entries, q) == KindInEntry(e, q)
  {
    if !(entries[0].Entry? && entries[0].name == q[0]) {
      assert entries == [entries[0]] + entries[1..];
      EntryNamed(entries[1..], q, e);
    } else {
      var k :| 0 <= k < |entries| && entries[k] == e;
      assert k == 0;
    }
  }

  lemma {:induction false} NamedEntry(entries: seq<Entry>, q: seq<string>)
    requires q != [] && KindInEntries(entries, q).Some?
    ensures exists e | e in entries :: e.Entry? && e.name == q[0] && KindInEntry(e, q) == KindInEntries(entries, q)
  {
    if !(entries[0].Entry? && entries[0].name == q[0]) { NamedEntry(entries[1..], q); }
  }

  /** The kind found at a path is that of the last of a chain of files and directories with those names: no
      symbolic link, entry of unknown type or unreadable directory is on the way. */
  lemma {:induction false} KindMeaning(listing: Listing, q: seq<string>, isDir: bool)
    requires SoundListing(listing)
    ensures KindInListing(listing, q) == Some(isDir) <==> Reached(listing, q, isDir)
    decreases |q|
  {
    if KindInListing(listing, q) == Some(isDir) {
      NamedEntry(listing.entries, q);
      var e :| e in listing.entries && e.Entry? && e.name == q[0] && KindInEntry(e, q) == Some(isDir);
      if |q| == 1 {
        assert Reaches(listing, [e], q, isDir);
      } else {
        KindMeaning(e.kind.listing, q[1..], isDir);
        ReachedStep(listing, e, q, isDir);
      }
    }
    if Reached(listing, q, isDir) {
      var chain :| Reaches(listing, chain, q, isDir);
      var e := chain[0];
      EntryNamed(listing.entries, q, e);
      if |q| > 1 {
        assert Reaches(e.kind.listing, chain[1..], q[1..], isDir);
        KindMeaning(e.kind.listing, q[1..], isDir);
      }
    }
  }

  // ----- paths of the walk -----

  predicate PlainNames(at: seq<string>) {
    forall n | n in at :: IsEntryName(n)
  }

  lemma {:induction false} JoinSnoc(at: seq<string>, name: string)
    requires AreNames(at)
    ensures Join(at + [name], '/') == ChildPath(Join(at, '/'), name)
    ensures Join(at, '/') == "" <==> at == []
  {
    if at == [] {
      assert at + [name] == [name];
    } else {
      assert IsName(at[0]);
      JoinSnoc(at[1..], name);
      assert (at + [name])[1..] == at[1..] + [name];
      if |at| == 1 {
        assert Join(at, '/') == at[0];
      } else {
        var rest := Join(at[1..], '/');
        assert at[0] + ['/'] + (rest + "/" + name) == (at[0] + ['/'] + rest) + "/" + name;
      }
    }
  }

  /** Ignoring a joined path ignores every continuation. */
  lemma {:induction false} IgnoredBelow(patterns: seq<string>, p: seq<string>, q: seq<string>)
    requires PlainNames(q) && p <= q && ShouldIgnore(patterns, Join(p, '/'))
    ensures ShouldIgnore(patterns, Join(q, '/'))
    decreases |q| - |p|
  {
    if |p| < |q| {
      assert PathComponents("") == [];
      var next := q[..|p| + 1];
      assert forall n | n in p :: n in q;
      assert next == p + [q[|p|]];
      JoinSnoc(p, q[|p|]);
      if p != [] {
        IgnoringExtends(patterns, Join(p, '/'), q[|p|]);
      }
      IgnoredBelow(patterns, next, q);
    } else {
      assert p == q;
    }
  }

  /** Every item of the walk lies below its starting point, no deeper than the cap, and is not
      ignored. */
  ghost predicate GoodItem(item: Item, at: seq<string>, patterns: seq<string>) {
    var p := Components(item.path);
    at < p && |p| <= MAX_DEPTH && PlainNames(p) && item.path == Join(p, '/') &&
    !ShouldIgnore(patterns, item.path)
  }

  ghost predicate GoodItems(items: seq<Item>, at: seq<string>, patterns: seq<string>) {
    forall i | 0 <= i < |items| :: GoodItem(items[i], at, patterns)
  }

  lemma {:induction false} ScanGood(listing: Listing, at: seq<string>, patterns: seq<string>)
    requires SoundListing(listing) && PlainNames(at)
    ensures GoodItems(Scan(listing, Join(at, '/'), patterns, |at|), at, patterns)
    decreases listing
  {
    if |at| < MAX_DEPTH && listing.Listing? {
      ScanEntriesGood(listing.entries, at, patterns);
    }
  }

  lemma {:induction false} ScanEntriesGood(entries: seq<Entry>, at: seq<string>, patterns: seq<string>)
    requires forall i | 0 <= i < |entries| :: SoundEntry(entries[i])
    requires PlainNames(at) && |at| < MAX_DEPTH
    ensures GoodItems(ScanEntries(entries, Join(at, '/'), patterns, |at|), at, patterns)
    decreases entries
  {
    if entries != [] {
      if Qualifies(entries[0], Join(at, '/'), patterns) {
        ScanEntryGood(entries[0], at, patterns);
        var below := at + [entries[0].name];
        var items := ScanEntry(entries[0], Join(at, '/'), patterns, |at|);
        forall i | 0 <= i < |items|
          ensures GoodItem(items[i], at, patterns)
        {
          assert at < below <= Components(items[i].path);
        }
      }
      ScanEntriesGood(entries[1..], at, patterns);
    }
  }

  lemma {:induction false} ScanEntryGood(e: Entry, at: seq<string>, patterns: seq<string>)
    requires SoundEntry(e) && PlainNames(at) && |at| < MAX_DEPTH
    requires Qualifies(e, Join(at, '/'), patterns)
    ensures var items := ScanEntry(e, Join(at, '/'), patterns, |at|);
            var below := at + [e.name];
            && |items| > 0 && Components(items[0].path) == below
            && (e.kind.Directory? ==> items[1..] == Scan(e.kind.listing, Join(below, '/'), patterns, |below|))
            && (!e.kind.Directory? ==> items == [items[0]])
            && GoodItem(items[0], at, patterns) && GoodItems(items[1..], below, patterns)
            && forall i | 0 <= i < |items| :: below <= Components(items[i].path) && GoodItem(items[i], at, patterns)
    decreases e
  {
    var items := ScanEntry(e, Join(at, '/'), patterns, |at|);
    var below := at + [e.name];
    JoinSnoc(at, e.name);
    assert AreNames(below);
    ComponentsOfJoin(below);
    if e.kind.Directory? {
      ScanGood(e.kind.listing, below, patterns);
      assert items[1..] == Scan(e.kind.listing, Join(below, '/'), patterns, |below|);
    }
    forall i | 0 < i < |items|
      ensures below <= Components(items[i].path) && GoodItem(items[i], at, patterns)
    {
      assert GoodItem(items[1..][i - 1], below, patterns);
    }
  }

  // ----- parents come first -----

  /** Each node between `at` and an item is the path of an earlier item. */
  ghost predicate ParentsFirst(items: seq<Item>, at: seq<string>) {
    forall k, p | 0 <= k < |items| && at < p < Components(items[k].path) :: Listed(items[..k], p)
  }

  ghost predicate Listed(items: seq<Item>, p: seq<string>) {
    exists j | 0 <= j < |items| :: Components(items[j].path) == p
  }

  lemma ParentsFirstConcat(a: seq<Item>, b: seq<Item>, at: seq<string>)
    requires ParentsFirst(a, at) && ParentsFirst(b, at)
    ensures ParentsFirst(a + b, at)
  {
    var c := a + b;
    forall k, p | 0 <= k < |c| && at < p < Components(c[k].path)
      ensures Listed(c[..k], p)
    {
      if k < |a| {
        assert c[..k] == a[..k];
        assert a[k] == c[k];
      } else {
        assert b[k - |a|] == c[k];
        assert Listed(b[..k - |a|], p);
        var j :| 0 <= j < k - |a| && Components(b[j].path) == p;
        assert c[..k][j + |a|] == b[j];
      }
    }
  }

  lemma ParentsFirstBelow(items: seq<Item>, at: seq<string>, below: seq<string>)
    requires items != [] && |below| == |at| + 1 && at < below && Components(items[0].path) == below
    requires ParentsFirst(items[1..], below)
    requires forall i | 0 <= i < |items| :: below <= Components(items[i].path)
    ensures ParentsFirst(items, at)
  {
    forall k, p | 0 <= k < |items| && at < p < Components(items[k].path)
      ensures Listed(items[..k], p)
    {
      assert below <= Components(items[k].path);
      if |p| == |below| {
        assert p == below;
        assert k > 0 && items[..k][0] == items[0];
      } else {
        assert p[..|below|] == below;
        assert k > 0 && items[1..][k - 1] == items[k];
        assert Listed(items[1..][..k - 1], p);
        var j :| 0 <= j < k - 1 && Components(items[1..][j].path) == p;
        assert items[..k][j + 1] == items[1..][j];
      }
    }
  }

  lemma {:induction false} ScanParents(listing: Listing, at: seq<string>, patterns: seq<string>)
    requires SoundListing(listing) && PlainNames(at)
    ensures ParentsFirst(Scan(listing, Join(at, '/'), patterns, |at|), at)
    decreases listing
  {
    if |at| < MAX_DEPTH && listing.Listing? {
      ScanEntriesParents(listing.entries, at, patterns);
    }
  }

  lemma {:induction false} ScanEntriesParents(entries: seq<Entry>, at: seq<string>, patterns: seq<string>)
    requires forall i | 0 <= i < |entries| :: SoundEntry(entries[i])
    requires PlainNames(at) && |at| < MAX_DEPTH
    ensures ParentsFirst(ScanEntries(entries, Join(at, '/'), patterns, |at|), at)
    decreases entries
  {
    if entries != [] {
      var e := entries[0];
      var items := ScanEntry(e, Join(at, '/'), patterns, |at|);
      if Qualifies(e, Join(at, '/'), patterns) {
        var below := at + [e.name];
        ScanEntryGood(e, at, patterns);
        assert PlainNames(below);
        if e.kind.Directory? {
          ScanParents(e.kind.listing, below, patterns);
        }
        ParentsFirstBelow(items, at, below);
      }
      ScanEntriesParents(entries[1..], at, patterns);
      ParentsFirstConcat(items, ScanEntries(entries[1..], Join(at, '/'), patterns, |at|), at);
    }
  }

  // ----- the caps -----

  function ItemPaths(items: seq<Item>): (s: set<seq<string>>)
    ensures |s| <= |items|
    ensures forall i | 0 <= i < |items| :: Components(items[i].path) in s
    ensures forall p | p in s :: exists i | 0 <= i < |items| :: Components(items[i].path) == p
  {
    if items == [] then {} else {Components(items[0].path)} + ItemPaths(items[1..])
  }

  function ScanTree(listing: Listing, patterns: seq<string>): Tree {
    AddAll(EMPTY_ROOT, Take(Scan(listing, "", patterns, 0), MAX_ENTRIES))
  }

  /** The paths the capped walk adds. */
  function CappedPaths(listing: Listing, patterns: seq<string>): (s: set<seq<string>>)
    ensures |s| <= MAX_ENTRIES
  {
    ItemPaths(Take(Scan(listing, "", patterns, 0), MAX_ENTRIES))
  }

  /** A scanned tree records, besides the root, only the paths added: at most 10000, none deeper
      than 20 components and none with an ignored component. */
  lemma ScanRespectsCaps(listing: Listing, patterns: seq<string>)
    requires SoundListing(listing)
    ensures |CappedPaths(listing, patterns)| <= 10000
    ensures forall q | q != [] :: KindAt(ScanTree(listing, patterns), q).Some? <==> q in CappedPaths(listing, patterns)
    ensures forall q | q in CappedPaths(listing, patterns) ::
              |q| <= 20 && forall n | n in q :: !MatchesAny(n, patterns)
  {
    var all := Scan(listing, "", patterns, 0);
    var items := Take(all, MAX_ENTRIES);
    ScanGood(listing, [], patterns);
    ScanParents(listing, [], patterns);
    forall q | q != []
      ensures KindAt(ScanTree(listing, patterns), q).Some? <==> q in CappedPaths(listing, patterns)
    {
      AddAllKind(EMPTY_ROOT, items, q);
      RecordedIsListed(all, items, q);
    }
    forall q | q in CappedPaths(listing, patterns)
      ensures |q| <= MAX_DEPTH && forall n | n in q :: !MatchesAny(n, patterns)
    {
      CappedPathIsGood(all, items, q, patterns);
    }
  }

  lemma CappedPathIsGood(all: seq<Item>, items: seq<Item>, q: seq<string>, patterns: seq<string>)
    requires GoodItems(all, [], patterns) && items <= all && q in ItemPaths(items)
    ensures |q| <= MAX_DEPTH && forall n | n in q :: !MatchesAny(n, patterns)
  {
    var i :| 0 <= i < |items| && Components(items[i].path) == q;
    assert items[i] == all[i] && GoodItem(all[i], [], patterns);
    IgnoreNames(patterns, q);
  }

  lemma RecordedIsListed(all: seq<Item>, items: seq<Item>, q: seq<string>)
    requires items <= all && ParentsFirst(all, []) && q != []
    ensures FirstTouch(items, q).Some? <==> q in ItemPaths(items)
  {
    if FirstTouch(items, q).Some? {
      var item := FirstTouchFrom(items, q);
      var k :| 0 <= k < |items| && items[k] == item;
      assert all[k] == item && all[..k] == items[..k];
      if q < Components(item.path) {
        assert Listed(all[..k], q);
        var j :| 0 <= j < k && Components(all[..k][j].path) == q;
        assert items[j] == all[j];
      }
    }
    if q in ItemPaths(items) {
      var i :| 0 <= i < |items| && Components(items[i].path) == q;
      FirstTouchSome(items, items[i], q);
    }
  }

  // ----- exactness -----

  lemma {:induction false} FirstTouchConcat(a: seq<Item>, b: seq<Item>, q: seq<string>)
    ensures FirstTouch(a + b, q) == if FirstTouch(a, q).Some? then FirstTouch(a, q) else FirstTouch(b, q)
  {
    if a == [] {
      assert a + b == b;
    } else {
      FirstTouchConcat(a[1..], b, q);
      assert (a + b)[1..] == a[1..] + b;
    }
  }

  /** The kind the walk should record: what is there, unless it is too deep or ignored. */
  function Wanted(found: Option<bool>, q: seq<string>, patterns: seq<string>): Option<bool> {
    if |q| <= MAX_DEPTH && !ShouldIgnore(patterns, Join(q, '/')) then found else None
  }

  lemma {:induction false} ScanTouch(listing: Listing, at: seq<string>, patterns: seq<string>, r: seq<string>)
    requires SoundListing(listing) && PlainNames(at + r) && r != []
    ensures FirstTouch(Scan(listing, Join(at, '/'), patterns, |at|), at + r)
         == Wanted(KindInListing(listing, r), at + r, patterns)
    decreases listing
  {
    if |at| < MAX_DEPTH && listing.Listing? {
      ScanEntriesTouch(listing.entries, at, patterns, r);
    }
  }

  lemma {:induction false} ScanEntriesTouch(entries: seq<Entry>, at: seq<string>, patterns: seq<string>,
          r: seq<string>)
    requires (forall i | 0 <= i < |entries| :: SoundEntry(entries[i])) && NamesOnce(entries)
    requires PlainNames(at + r) && r != [] && |at| < MAX_DEPTH
    ensures FirstTouch(ScanEntries(entries, Join(at, '/'), patterns, |at|), at + r)
         == Wanted(KindInEntries(entries, r), at + r, patterns)
    decreases entries
  {
    if entries != [] {
      var e := entries[0];
      var first := ScanEntry(e, Join(at, '/'), patterns, |at|);
      var rest := ScanEntries(entries[1..], Join(at, '/'), patterns, |at|);
      FirstTouchConcat(first, rest, at + r);
      ScanEntriesTouch(entries[1..], at, patterns, r);
      assert PlainNames(at) by { assert forall n | n in at :: n in at + r; }
      ScanEntryTouch(e, at, patterns, r);
      if e.Entry? && e.name == r[0] {
        NameGone(entries, r);
      }
    }
  }

  lemma {:induction false} NameGone(entries: seq<Entry>, r: seq<string>)
    requires entries != [] && entries[0].Entry? && r != [] && entries[0].name == r[0] && NamesOnce(entries)
    ensures KindInEntries(entries[1..], r) == None
  {
    NoSuchEntry(entries[1..], r);
  }

  lemma {:induction false} NoSuchEntry(entries: seq<Entry>, r: seq<string>)
    requires r != [] && forall i | 0 <= i < |entries| :: entries[i].Entry? ==> entries[i].name != r[0]
    ensures KindInEntries(entries, r) == None
  {
    if entries != [] { NoSuchEntry(entries[1..], r); }
  }

  lemma {:induction false} ScanEntryTouch(e: Entry, at: seq<string>, patterns: seq<string>, r: seq<string>)
    requires SoundEntry(e) && PlainNames(at) && PlainNames(at + r) && r != [] && |at| < MAX_DEPTH
    ensures FirstTouch(ScanEntry(e, Join(at, '/'), patterns, |at|), at + r)
         == if e.Entry? && e.name == r[0] then Wanted(KindInEntry(e, r), at + r, patterns) else None
    decreases e
  {
    var items := ScanEntry(e, Join(at, '/'), patterns, |at|);
    if e.Entry? {
      var below := at + [e.name];
      JoinSnoc(at, e.name);
      if Qualifies(e, Join(at, '/'), patterns) {
        ScanEntryGood(e, at, patterns);
        if e.name == r[0] {
          assert below + r[1..] == at + r;
          if |r| == 1 {
            assert at + r == below;
          } else {
            assert items == [items[0]] + items[1..];
            assert Touch(items[0], at + r) == None;
            if e.kind.Directory? {
              ScanTouch(e.kind.listing, below, patterns, r[1..]);
            }
          }
        } else {
          Apart(items, at, e.name, r);
        }
      } else if e.name == r[0] && ShouldIgnore(patterns, Join(below, '/')) {
        assert below <= at + r by { assert below + r[1..] == at + r; }
        IgnoredBelow(patterns, below, at + r);
      }
    }
  }

  /** Items below one sibling say nothing about another. */
  lemma {:induction false} Apart(items: seq<Item>, at: seq<string>, name: string, r: seq<string>)
    requires forall i | 0 <= i < |items| :: at + [name] <= Components(items[i].path)
    requires r != [] && r[0] != name
    ensures FirstTouch(items, at + r) == None
  {
    if items != [] {
      assert at + [name] <= Components(items[0].path);
      assert Components(items[0].path)[|at|] == (at + [name])[|at|] == name;
      assert (at + r)[|at|] == r[0];
      Apart(items[1..], at, name, r);
    }
  }

  /** When no more than 10000 entries qualify, the scanned tree records, up to depth 20, exactly
      the reachable entries that are not ignored, with their kinds. */
  lemma ScanIsExact(listing: Listing, patterns: seq<string>, q: seq<string>)
    requires SoundListing(listing) && |Scan(listing, "", patterns, 0)| <= 10000
    requires PlainNames(q) && q != []
    ensures KindAt(ScanTree(listing, patterns), q) ==
              if |q| <= 20 && forall n, p | n in q && p in patterns :: !MatchesComponent(n, p)
              then KindInListing(listing, q) else None
  {
    ScanRecords(listing, patterns, q);
    WantedMeaning(KindInListing(listing, q), q, patterns);
  }

  lemma ScanRecords(listing: Listing, patterns: seq<string>, q: seq<string>)
    requires SoundListing(listing) && |Scan(listing, "", patterns, 0)| <= MAX_ENTRIES
    requires PlainNames(q) && q != []
    ensures KindAt(ScanTree(listing, patterns), q) == Wanted(KindInListing(listing, q), q, patterns)
  {
    var items := Scan(listing, "", patterns, 0);
    assert Take(items, MAX_ENTRIES) == items;
    AddAllKind(EMPTY_ROOT, items, q);
    assert [] + q == q;
    ScanTouch(listing, [], patterns, q);
  }

  lemma WantedMeaning(found: Option<bool>, q: seq<string>, patterns: seq<string>)
    requires PlainNames(q)
    ensures Wanted(found, q, patterns) ==
              if |q| <= 20 && forall n, p | n in q && p in patterns :: !MatchesComponent(n, p) then found else None
  {
    IgnoreNames(patterns, q);
  }
}
