/** Slash-separated paths as the tree code reads them: the non-empty pieces between slashes. */
module Paths {
  import opened Text

  function DropEmpty(parts: seq<string>): (kept: seq<string>)
    ensures forall part | part in kept :: part in parts && part != ""
  {
    if parts == [] then []
    else if parts[0] == "" then DropEmpty(parts[1..])
    else [parts[0]] + DropEmpty(parts[1..])
  }

  predicate IsName(s: string) {
    s != "" && '/' !in s
  }

  predicate AreNames(parts: seq<string>) {
    forall part | part in parts :: IsName(part)
  }

  function Components(path: string): (parts: seq<string>)
    ensures AreNames(parts)
  {
    DropEmpty(Split(path, '/'))
  }

  /** The spelling the tree itself uses for a component list. */
  predicate Canonical(path: string) {
    path == Join(Components(path), '/')
  }

  lemma {:induction false} DropEmptyAll(parts: seq<string>)
    requires AreNames(parts)
    ensures DropEmpty(parts) == parts
  {
    if parts != [] {
      assert parts[0] in parts;
      DropEmptyAll(parts[1..]);
    }
  }

  /** Names survive being joined into a path and read back. */
  lemma ComponentsOfJoin(parts: seq<string>)
    requires AreNames(parts)
    ensures Components(Join(parts, '/')) == parts
    ensures Canonical(Join(parts, '/'))
  {
    if parts == [] {
      assert DropEmpty([""]) == [];
    } else {
      SplitJoin(parts, '/');
      DropEmptyAll(parts);
    }
  }

  lemma {:induction false} DropEmptyConcat(a: seq<string>, b: seq<string>)
    ensures DropEmpty(a + b) == DropEmpty(a) + DropEmpty(b)
  {
    if a == [] {
      assert a + b == b;
    } else {
      DropEmptyConcat(a[1..], b);
      assert (a + b)[1..] == a[1..] + b;
      if a[0] != "" { Assoc([a[0]], DropEmpty(a[1..]), DropEmpty(b)); }
    }
  }

  /** A path has no components if it is empty, itself if it has no slash, and the components on both sides
      of each slash: repeated, leading and trailing slashes do not count. */
  lemma ComponentsMeaning(a: string, b: string)
    ensures Components("") == []
    ensures a != "" && '/' !in a ==> Components(a) == [a]
    ensures Components(a + "/" + b) == Components(a) + Components(b)
  {
    assert DropEmpty([""]) == [];
    if a != "" && '/' !in a { SplitPlain(a, '/'); }
    var l, r := Split(a, '/'), Split("/" + b, '/');
    SplitAppend(a, "/" + b, '/');
    assert a + "/" + b == a + ("/" + b) && ("/" + b)[1..] == b;
    assert r == [""] + Split(b, '/');
    assert l[|l| - 1] + "" == l[|l| - 1];
    assert Glue(l, r) == l + Split(b, '/');
    DropEmptyConcat(l, Split(b, '/'));
  }

  /** The path of the first components of `fullPath` when `remaining` of them, counting the
      current one, are still to be walked. */
  function BuildPath(fullPath: string, remaining: nat): string
    requires 1 <= remaining <= |Components(fullPath)|
  {
    var all := Components(fullPath);
    Join(all[..|all| - remaining + 1], '/')
  }
}
