/** Ignore patterns, matched against every component of a path. */
module PathFilter {
  import opened Text
  import opened Paths

  /** Ordinary components: empty pieces and interior `.` pieces do not count. */
  function KeepNormal(pieces: seq<string>): seq<string> {
    if pieces == [] then []
    else if pieces[0] == "" || pieces[0] == "." then KeepNormal(pieces[1..])
    else [pieces[0]] + KeepNormal(pieces[1..])
  }

  /** `Path::components` on Unix: a leading slash is a component, and so is a leading `.`. */
  function PathComponents(path: string): seq<string> {
    var pieces := Split(path, '/');
    if path != "" && path[0] == '/' then ["/"] + KeepNormal(pieces)
    else if pieces[0] == "." then ["."] + KeepNormal(pieces[1..])
    else KeepNormal(pieces)
  }

  function TrimSlashes(pattern: string): string {
    if pattern != "" && pattern[|pattern| - 1] == '/' then TrimSlashes(pattern[..|pattern| - 1])
    else pattern
  }

  predicate EndsWith(s: string, suffix: string) {
    |suffix| <= |s| && s[|s| - |suffix|..] == suffix
  }

  /** `*suffix`, `prefix*` or an exact name; a lone `*` is an exact name. */
  predicate MatchesComponent(component: string, rawPattern: string) {
    var pattern := TrimSlashes(rawPattern);
    if pattern != "" && pattern[0] == '*' && |pattern| > 1 then EndsWith(component, pattern[1..])
    else if pattern != "" && pattern[|pattern| - 1] == '*' && |pattern| > 1 then
      pattern[..|pattern| - 1] <= component
    else component == pattern
  }

  /** A pattern without trailing slashes: a star and more text matches what ends with that text, text and
      a star what begins with it, and anything else only itself. */
  lemma PatternMeaning(component: string, text: string)
    requires text != "" && text[|text| - 1] != '/'
    ensures MatchesComponent(component, "*" + text) <==> exists front :: component == front + text
    ensures text[0] != '*' ==> (MatchesComponent(component, text + "*") <==> text <= component)
    ensures text[0] != '*' && text[|text| - 1] != '*' ==> (MatchesComponent(component, text) <==> component == text)
    ensures MatchesComponent(component, "*") <==> component == "*"
  {
    StarFirst(component, text);
    if text[0] != '*' { StarLast(component, text); }
  }

  lemma StarFirst(component: string, text: string)
    requires text != "" && text[|text| - 1] != '/'
    ensures MatchesComponent(component, "*" + text) <==> exists front :: component == front + text
  {
    var star := "*" + text;
    assert star[|star| - 1] == text[|text| - 1] && star[1..] == text;
    if EndsWith(component, text) {
      assert component == component[..|component| - |text|] + text;
    }
    if front :| component == front + text {
      assert component[|component| - |text|..] == text;
    }
  }

  lemma StarLast(component: string, text: string)
    requires text != "" && text[0] != '*'
    ensures MatchesComponent(component, text + "*") <==> text <= component
  {
    var open := text + "*";
    assert open[|open| - 1] == '*' && open[..|open| - 1] == text && open[0] == text[0];
  }

  /** Trailing slashes of a pattern do not matter. */
  lemma SlashesDoNotMatter(component: string, pattern: string)
    ensures MatchesComponent(component, pattern + "/") <==> MatchesComponent(component, pattern)
  {
    var more := pattern + "/";
    assert more[|more| - 1] == '/' && more[..|more| - 1] == pattern;
  }

  predicate MatchesAny(component: string, patterns: seq<string>) {
    exists p | p in patterns :: MatchesComponent(component, p)
  }

  predicate ShouldIgnore(patterns: seq<string>, path: string) {
    exists c | c in PathComponents(path) :: MatchesAny(c, patterns)
  }

  lemma {:induction false} KeepNormalConcat(a: seq<string>, b: seq<string>)
    ensures KeepNormal(a + b) == KeepNormal(a) + KeepNormal(b)
  {
    if a == [] {
      assert a + b == b;
    } else {
      KeepNormalConcat(a[1..], b);
      assert (a + b)[1..] == a[1..] + b;
      if a[0] != "" && a[0] != "." { Assoc([a[0]], KeepNormal(a[1..]), KeepNormal(b)); }
    }
  }

  lemma GlueEmpty(a: seq<string>, b: seq<string>)
    requires |a| >= 1
    ensures Glue(a, [""] + b) == a + b
  {
    assert a[|a| - 1] + "" == a[|a| - 1];
  }

  lemma PiecesExtend(path: string, more: string)
    ensures Split(path + "/" + more, '/') == Split(path, '/') + Split(more, '/')
  {
    Assoc(path, "/", more);
    SplitAppend(path, "/" + more, '/');
    assert ("/" + more)[1..] == more;
    GlueEmpty(Split(path, '/'), Split(more, '/'));
  }

  /** Extending a path keeps its components in front. */
  lemma ComponentsExtend(path: string, more: string)
    requires path != ""
    ensures PathComponents(path) <= PathComponents(path + "/" + more)
  {
    var a, b := Split(path, '/'), Split(more, '/');
    PiecesExtend(path, more);
    KeepNormalConcat(a, b);
    KeepNormalConcat(a[1..], b);
    assert (a + b)[1..] == a[1..] + b;
  }

  /** What is ignored stays ignored however the path continues. */
  lemma IgnoringExtends(patterns: seq<string>, path: string, more: string)
    requires ShouldIgnore(patterns, path)
    ensures ShouldIgnore(patterns, path + "/" + more)
  {
    assert PathComponents("") == [];
    ComponentsExtend(path, more);
  }

  lemma {:induction false} KeepNames(names: seq<string>)
    requires AreNames(names) && "." !in names
    ensures KeepNormal(names) == names
  {
    if names != [] {
      assert names[0] in names;
      KeepNames(names[1..]);
    }
  }

  /** For ordinary names a path is ignored exactly when one of them matches a pattern. */
  lemma IgnoreNames(patterns: seq<string>, names: seq<string>)
    requires AreNames(names) && "." !in names
    ensures ShouldIgnore(patterns, Join(names, '/')) <==>
            exists n, p :: n in names && p in patterns && MatchesComponent(n, p)
  {
    var path := Join(names, '/');
    if names != [] {
      SplitJoin(names, '/');
      KeepNames(names);
      assert IsName(names[0]);
      assert path[0] == names[0][0] && names[0][0] in names[0];
    }
    assert PathComponents(path) == names;
    if n, p :| n in names && p in patterns && MatchesComponent(n, p) {
      assert MatchesAny(n, patterns);
    }
  }
}
