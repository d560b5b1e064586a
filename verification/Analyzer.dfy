/** The tier-1 file metrics: counting lines, and the one-pass scanner for TODO comments, proved
    equal to a definition line by line. Characters are ASCII. */
module Analyzer {
  import opened Text

  const TWO_TO_THE_32: nat := 0x1_0000_0000

  /** A run of word characters longer than this is cut. */
  const WORD_LIMIT: nat := 11

  predicate IsWord(c: char) {
    'a' <= c <= 'z' || 'A' <= c <= 'Z' || c == ':'
  }

  function Upper(s: string): string {
    seq(|s|, i requires 0 <= i < |s| => if 'a' <= s[i] <= 'z' then s[i] - 'a' + 'A' else s[i])
  }

  predicate Contains(s: string, part: string) {
    exists i | 0 <= i <= |s| :: part <= s[i..]
  }

  predicate IsKeyword(word: string) {
    Contains(Upper(word), "TODO") || Contains(Upper(word), "FIXME") || Contains(Upper(word), "HACK")
  }

  // ----- one line -----

  /** The length of the comment marker a text starts with, if it does. */
  function MarkerLength(s: string): nat {
    if s == "" then 0
    else if s[0] == '#' then 1
    else if |s| >= 2 && (s[0] == '/' || s[0] == '-') && s[1] == s[0] then 2
    else 0
  }

  /** What follows the first comment marker. */
  function Comment(line: string): Option<string> {
    if line == "" then None
    else if MarkerLength(line) > 0 then Some(line[MarkerLength(line)..])
    else Comment(line[1..])
  }

  /** At most n word characters from the front. */
  function Word(s: string, n: nat): string
    decreases n
  {
    if n == 0 || s == "" || !IsWord(s[0]) then "" else [s[0]] + Word(s[1..], n - 1)
  }

  function FirstWord(s: string): string {
    if s == "" then "" else if IsWord(s[0]) then Word(s, WORD_LIMIT) else FirstWord(s[1..])
  }

  /** A line counts when the first word after its first marker holds a keyword. */
  predicate Counts(line: string) {
    Comment(line).Some? && IsKeyword(FirstWord(Comment(line).value))
  }

  function Tally(lines: seq<string>): nat {
    if lines == [] then 0 else One(lines[0]) + Tally(lines[1..])
  }

  function Todos(text: string): nat {
    Tally(Split(text, '\n'))
  }

  /** Only the first marker of a line decides: what comes before it is irrelevant. */
  lemma {:induction false} FirstMarkerDecides(before: string, marker: string, rest: string)
    requires marker == "#" || marker == "//" || marker == "--"
    requires Comment(before).None? && (before == "" || before[|before| - 1] != marker[0])
    ensures Comment(before + marker + rest) == Some(rest)
    ensures Counts(before + marker + rest) <==> IsKeyword(FirstWord(rest))
  {
    var line := before + marker + rest;
    if before == "" {
      assert line[|marker|..] == rest;
    } else {
      assert line[1..] == before[1..] + marker + rest;
      FirstMarkerDecides(before[1..], marker, rest);
      if |before| >= 2 { assert line[1] == before[1]; }
    }
  }

  // ----- which lines count, written out -----

  predicate LetterOrColon(c: char) {
    'a' <= c <= 'z' || 'A' <= c <= 'Z' || c == ':'
  }

  /** A comment starts at position i. */
  predicate MarkedAt(line: string, i: nat) {
    i < |line| && (line[i] == '#' || "//" <= line[i..] || "--" <= line[i..])
  }

  /** `upper`, in upper or lower case letter by letter, stands in the word from position i. */
  predicate SpelledAt(word: string, upper: string, lower: string, i: nat)
    requires |upper| == |lower|
  {
    i + |upper| <= |word| && forall j | 0 <= j < |upper| :: word[i + j] == upper[j] || word[i + j] == lower[j]
  }

  ghost predicate HasKeyword(word: string) {
    exists i: nat ::
      SpelledAt(word, "TODO", "todo", i) || SpelledAt(word, "FIXME", "fixme", i) || SpelledAt(word, "HACK", "hack", i)
  }

  /** The word is the first run of letters and colons in the text, or its first 11 characters. */
  predicate FirstRun(text: string, from: nat, word: string) {
    && from + |word| <= |text| && text[from..from + |word|] == word
    && (forall j | 0 <= j < from :: !LetterOrColon(text[j]))
    && (forall c | c in word :: LetterOrColon(c)) && |word| <= 11
    && (|word| == 11 || from + |word| == |text| || !LetterOrColon(text[from + |word|]))
    && (word == "" ==> from == |text|)
  }

  /** Position i starts the first comment of the line, and `rest` is what follows its marker. */
  predicate FirstComment(line: string, i: nat, rest: string) {
    && MarkedAt(line, i) && (forall j | 0 <= j < i :: !MarkedAt(line, j))
    && rest == line[if line[i] == '#' then i + 1 else i + 2..]
  }

  lemma MarkerIsMark(s: string)
    ensures MarkerLength(s) > 0 <==> MarkedAt(s, 0)
    ensures MarkedAt(s, 0) ==> MarkerLength(s) == if s[0] == '#' then 1 else 2
  {
    if |s| >= 2 {
      assert s[0..] == s;
      assert "//" <= s <==> s[0] == '/' && s[1] == '/';
      assert "--" <= s <==> s[0] == '-' && s[1] == '-';
    }
  }

  lemma MarkShift(line: string, j: nat)
    requires line != ""
    ensures MarkedAt(line[1..], j) <==> MarkedAt(line, j + 1)
  {
    if j + 1 < |line| { assert line[1..][j..] == line[j + 1..]; }
  }

  /** `Comment` finds the first comment and nothing else. */
  lemma {:induction false} CommentIsFirst(line: string)
    ensures Comment(line).None? <==> forall i: nat :: !MarkedAt(line, i)
    ensures forall i: nat, rest :: FirstComment(line, i, rest) ==> Comment(line) == Some(rest)
  {
    MarkerIsMark(line);
    if line != "" && MarkerLength(line) == 0 {
      CommentIsFirst(line[1..]);
      forall j: nat ensures MarkedAt(line[1..], j) <==> MarkedAt(line, j + 1) { MarkShift(line, j); }
      assert forall i: nat :: MarkedAt(line, i) ==> i > 0 && MarkedAt(line[1..], i - 1);
      forall i: nat, rest | FirstComment(line, i, rest) ensures Comment(line) == Some(rest) {
        assert i > 0;
        assert FirstComment(line[1..], i - 1, rest);
      }
    }
  }

  lemma {:induction false} WordIsRun(s: string, n: nat)
    ensures var w := Word(s, n);
            && |w| <= n && |w| <= |s| && s[..|w|] == w
            && (forall c | c in w :: LetterOrColon(c))
            && (|w| == n || |w| == |s| || !LetterOrColon(s[|w|]))
    decreases n
  {
    if !(n == 0 || s == "" || !IsWord(s[0])) {
      WordIsRun(s[1..], n - 1);
      var w := Word(s[1..], n - 1);
      assert s[..|w| + 1] == [s[0]] + s[1..][..|w|];
    }
  }

  lemma {:induction false} FirstWordIsRun(s: string) returns (from: nat)
    ensures FirstRun(s, from, FirstWord(s))
  {
    if s == "" {
      from := 0;
    } else if IsWord(s[0]) {
      from := 0;
      WordIsRun(s, 11);
      assert s[0..|FirstWord(s)|] == s[..|FirstWord(s)|];
    } else {
      var k := FirstWordIsRun(s[1..]);
      from := k + 1;
      var w := FirstWord(s);
      assert s[from..from + |w|] == s[1..][k..k + |w|];
      forall j | 0 <= j < from ensures !LetterOrColon(s[j]) { assert j > 0 ==> s[1..][j - 1] == s[j]; }
    }
  }

  /** There is one such run at most. */
  lemma RunIsUnique(text: string, a: nat, x: string, b: nat, y: string)
    requires FirstRun(text, a, x) && FirstRun(text, b, y)
    ensures x == y
  {
    if x != "" { assert x[0] in x && text[a..a + |x|][0] == x[0]; }
    if y != "" { assert y[0] in y && text[b..b + |y|][0] == y[0]; }
    if x != "" && y != "" {
      assert a == b;
      RunNotShorter(text, a, x, y);
      RunNotShorter(text, a, y, x);
    }
  }

  lemma RunNotShorter(text: string, a: nat, x: string, y: string)
    requires FirstRun(text, a, x) && FirstRun(text, a, y)
    ensures |x| >= |y|
  {
    if |x| < |y| { InRun(text, a, y, |x|); }
  }

  lemma InRun(text: string, a: nat, y: string, k: nat)
    requires FirstRun(text, a, y) && k < |y|
    ensures LetterOrColon(text[a + k])
  {
    assert y[k] in y && text[a..a + |y|][k] == y[k];
  }

  lemma ContainsSpelled(word: string, upper: string, lower: string)
    requires |upper| == |lower|
    requires forall j | 0 <= j < |upper| :: 'A' <= upper[j] <= 'Z' && lower[j] == upper[j] - 'A' + 'a'
    ensures Contains(Upper(word), upper) <==> exists i: nat :: SpelledAt(word, upper, lower, i)
  {
    var u := Upper(word);
    if i :| 0 <= i <= |u| && upper <= u[i..] {
      forall j | 0 <= j < |upper| ensures word[i + j] == upper[j] || word[i + j] == lower[j] {
        assert u[i..][j] == upper[j];
      }
      assert SpelledAt(word, upper, lower, i);
    }
    if i: nat :| SpelledAt(word, upper, lower, i) {
      assert forall j | 0 <= j < |upper| :: u[i + j] == upper[j];
      assert upper <= u[i..];
    }
  }

  lemma KeywordIsSpelled(word: string)
    ensures IsKeyword(word) <==> HasKeyword(word)
  {
    ContainsSpelled(word, "TODO", "todo");
    ContainsSpelled(word, "FIXME", "fixme");
    ContainsSpelled(word, "HACK", "hack");
  }

  /** A line counts exactly when it has a comment and the first run of letters and colons in its first
      comment, cut at 11 characters, has TODO, FIXME or HACK in it, in any case. */
  lemma CountsIff(line: string)
    ensures Counts(line) <==>
            exists i: nat, rest, from: nat, word ::
              FirstComment(line, i, rest) && FirstRun(rest, from, word) && HasKeyword(word)
  {
    CommentIsFirst(line);
    if Counts(line) {
      var i := FirstMark(line);
      var rest := line[if line[i] == '#' then i + 1 else i + 2..];
      assert FirstComment(line, i, rest);
      var from := FirstWordIsRun(rest);
      KeywordIsSpelled(FirstWord(rest));
    }
    if i: nat, rest, from: nat, word :|
      FirstComment(line, i, rest) && FirstRun(rest, from, word) && HasKeyword(word)
    {
      var k := FirstWordIsRun(rest);
      RunIsUnique(rest, from, word, k, FirstWord(rest));
      KeywordIsSpelled(word);
    }
  }

  lemma {:induction false} FirstMark(line: string) returns (i: nat)
    requires exists k: nat :: MarkedAt(line, k)
    ensures MarkedAt(line, i) && forall j | 0 <= j < i :: !MarkedAt(line, j)
    ensures line[i] != '#' ==> i + 2 <= |line|
  {
    if MarkedAt(line, 0) {
      i := 0;
      assert line[0..] == line;
    } else {
      var k: nat :| MarkedAt(line, k);
      MarkShift(line, k - 1);
      var j := FirstMark(line[1..]);
      i := j + 1;
      MarkShift(line, j);
      forall m | 0 <= m < i ensures !MarkedAt(line, m) { if m > 0 { MarkShift(line, m - 1); } }
    }
  }

  // ----- the text as lines -----

  lemma {:induction false} TallyAppend(a: seq<string>, b: seq<string>)
    ensures Tally(a + b) == Tally(a) + Tally(b)
  {
    if a == [] {
      assert a + b == b;
    } else {
      assert (a + b)[1..] == a[1..] + b;
      TallyAppend(a[1..], b);
    }
  }

  /** Counting is additive across a newline. */
  lemma TodosAdditive(a: string, b: string)
    ensures Todos(a + "\n" + b) == Todos(a) + Todos(b)
  {
    var l, r := Split(a, '\n'), Split(b, '\n');
    assert a + "\n" + b == a + ("\n" + b);
    SplitAppend(a, "\n" + b, '\n');
    assert ("\n" + b)[1..] == b;
    assert Split("\n" + b, '\n') == [""] + r;
    assert l[|l| - 1] + "" == l[|l| - 1];
    assert Glue(l, [""] + r) == l + r;
    TallyAppend(l, r);
  }

  /** The position of the first newline, or the end. */
  function LineEnd(s: string): (e: nat)
    ensures e <= |s| && '\n' !in s[..e] && (e < |s| ==> s[e] == '\n')
  {
    if s == "" || s[0] == '\n' then 0
    else
      var e := LineEnd(s[1..]);
      assert s[..e + 1] == [s[0]] + s[1..][..e];
      e + 1
  }

  lemma {:induction false} LineEndAt(s: string, e: nat)
    requires e <= |s| && '\n' !in s[..e] && (e < |s| ==> s[e] == '\n')
    ensures LineEnd(s) == e
  {
    if e > 0 {
      assert s[..e][0] == s[0];
      assert s[1..][..e - 1] == s[..e][1..];
      LineEndAt(s[1..], e - 1);
    }
  }

  function One(line: string): nat {
    if Counts(line) then 1 else 0
  }

  lemma OneLine(line: string)
    requires '\n' !in line
    ensures Todos(line) == One(line)
  {
    SplitPlain(line, '\n');
    assert Tally([line]) == One([line][0]) + Tally([line][1..]);
  }

  lemma CutAt(s: string, e: nat)
    requires e < |s| && s[e] == '\n'
    ensures s == s[..e] + "\n" + s[e + 1..]
  {
  }

  lemma LineThen(line: string, rest: string)
    requires '\n' !in line
    ensures Todos(line + "\n" + rest) == One(line) + Todos(rest)
  {
    OneLine(line);
    TodosAdditive(line, rest);
  }

  /** The first line, then the rest. */
  lemma FirstLine(s: string)
    ensures Todos(s) == One(s[..LineEnd(s)]) + (if LineEnd(s) < |s| then Todos(s[LineEnd(s) + 1..]) else 0)
  {
    var e := LineEnd(s);
    if e < |s| {
      CutAt(s, e);
      LineThen(s[..e], s[e + 1..]);
    } else {
      assert s[..e] == s;
      OneLine(s);
    }
  }

  /** A character that starts no marker can be dropped from the front. */
  lemma SkipChar(s: string)
    requires s != "" && MarkerLength(s) == 0
    ensures Todos(s) == Todos(s[1..])
  {
    FirstLine(s);
    if s[0] == '\n' {
      assert LineEnd(s) == 0;
    } else {
      FirstLine(s[1..]);
      var e := LineEnd(s);
      assert LineEnd(s[1..]) == e - 1;
      assert s[..e][1..] == s[1..][..e - 1];
      assert MarkerLength(s[..e]) == 0;
      if e < |s| { assert s[1..][e..] == s[e + 1..]; }
    }
  }

  /** At a marker, the rest of the line decides, and scanning goes on with the next line. */
  lemma AtMarker(s: string)
    requires MarkerLength(s) > 0
    ensures var rest := s[MarkerLength(s)..];
            var e := LineEnd(rest);
            Todos(s) ==
                (if IsKeyword(FirstWord(rest[..e])) then 1 else 0) + (if e < |rest| then Todos(rest[e + 1..]) else 0)
  {
    var k := MarkerLength(s);
    var rest := s[k..];
    var e := LineEnd(rest);
    assert s[..k + e] == s[..k] + rest[..e];
    LineEndAt(s, k + e);
    FirstLine(s);
    assert MarkerLength(s[..k + e]) == k;
    assert s[..k + e][k..] == rest[..e];
    if e < |rest| { assert rest[e + 1..] == s[k + e + 1..]; }
  }

  /** Every counted line is one of the lines `count_lines` counts. */
  lemma {:induction false} TallyAtMost(lines: seq<string>)
    ensures Tally(lines) <= |lines|
  {
    if lines != [] { TallyAtMost(lines[1..]); }
  }

  /** The lines of a text; a final newline starts no further line. */
  function Lines(text: string): nat {
    var parts := Split(text, '\n');
    if parts[|parts| - 1] == "" then |parts| - 1 else |parts|
  }

  lemma TodosAtMostLines(text: string)
    ensures Todos(text) <= Lines(text)
  {
    var parts := Split(text, '\n');
    var n := |parts|;
    TallyAtMost(parts);
    if parts[n - 1] == "" {
      assert parts == parts[..n - 1] + [""];
      TallyAppend(parts[..n - 1], [""]);
      TallyAtMost(parts[..n - 1]);
      assert Tally([""]) == 0;
    }
  }

  function Newlines(text: string): nat {
    if text == "" then 0 else (if text[0] == '\n' then 1 else 0) + Newlines(text[1..])
  }

  lemma {:induction false} PiecesAreNewlines(text: string)
    ensures |Split(text, '\n')| == Newlines(text) + 1
  {
    if text != "" { PiecesAreNewlines(text[1..]); }
  }

  /** Lines are newlines, plus one for text after the last of them; so the empty text has none. */
  lemma LinesAreNewlines(text: string)
    ensures Lines(text) == Newlines(text) + (if text == "" || text[|text| - 1] == '\n' then 0 else 1)
  {
    PiecesAreNewlines(text);
    if text != "" {
      var n := |text| - 1;
      assert text == text[..n] + [text[n]];
      SplitAppend(text[..n], [text[n]], '\n');
      LastPiece(Split(text[..n], '\n'), text[n]);
    }
  }

  /** Whether the last piece is empty, once a character is added at the end. */
  lemma LastPiece(l: seq<string>, c: char)
    requires |l| >= 1
    ensures var parts := Glue(l, Split([c], '\n')); parts[|parts| - 1] == "" <==> c == '\n'
  {
    assert [c][1..] == "";
    if c != '\n' {
      SplitPlain([c], '\n');
      assert l[|l| - 1] + [c] != "";
    }
  }

  // ----- the scanner -----

  method CountLines(text: string) returns (n: nat)
    ensures n == Lines(text) % 0x1_0000_0000
  {
    n := 0;
    ghost var total: nat := 0;
    var i := 0;
    LinesAreNewlines(text);
    assert text[0..] == text;
    while i < |text|
      invariant 0 <= i <= |text|
      invariant n == total % TWO_TO_THE_32 && Newlines(text) == total + Newlines(text[i..])
    {
      assert text[i..][1..] == text[i + 1..];
      if text[i] == '\n' {
        Wrap(total, 1);
        n, total := (n + 1) % TWO_TO_THE_32, total + 1;
      }
      i := i + 1;
    }
    Wrap(total, 1);
    if text != "" && text[|text| - 1] != '\n' {
      n := (n + 1) % TWO_TO_THE_32;
    }
  }

  /** Skips blanks, then collects the first word of the comment. */
  method CollectWord(text: string, start: nat, ghost end: nat) returns (i: nat, word: string)
    requires start <= end <= |text| && '\n' !in text[start..end] && (end < |text| ==> text[end] == '\n')
    ensures start <= i <= end && word == FirstWord(text[start..end])
  {
    ghost var line := text[start..end];
    i, word := start, "";
    while i < |text| && (text[i] == ' ' || text[i] == '\t')
      invariant start <= i <= end
      invariant FirstWord(text[i..end]) == FirstWord(line)
    {
      assert text[i..end][1..] == text[i + 1..end];
      i := i + 1;
    }
    while i < |text| && text[i] != '\n'
      invariant start <= i <= end && |word| < WORD_LIMIT
      invariant FirstWord(line) == WordFrom(word, text[i..end])
    {
      assert text[i..end][1..] == text[i + 1..end];
      if IsWord(text[i]) {
        WordFromStep(word, text[i..end]);
        word := word + [text[i]];
        i := i + 1;
        if |word| > 10 {
          break;
        }
      } else if word != "" {
        break;
      } else {
        i := i + 1;
      }
    }
    assert WordFrom(word, text[i..end]) == word;
  }

  /** The first word, when part of it has been collected. */
  function WordFrom(word: string, rest: string): string {
    if word == "" then FirstWord(rest)
    else if |word| >= WORD_LIMIT then word
    else word + Word(rest, WORD_LIMIT - |word|)
  }

  lemma WordFromStep(word: string, rest: string)
    requires |word| < WORD_LIMIT && rest != "" && IsWord(rest[0])
    ensures WordFrom(word, rest) == WordFrom(word + [rest[0]], rest[1..])
  {
    var tail := Word(rest[1..], WORD_LIMIT - |word| - 1);
    assert word + ([rest[0]] + tail) == word + [rest[0]] + tail;
    assert |word| + 1 == WORD_LIMIT ==> word + [rest[0]] + tail == word + [rest[0]];
  }

  /** Where the line after the one at `start` begins. */
  function NextLine(text: string, start: nat): (next: nat)
    requires start <= |text|
    ensures start <= next <= |text|
  {
    var rest := text[start..];
    if LineEnd(rest) < |rest| then start + LineEnd(rest) + 1 else |text|
  }

  /** Whether the comment that starts at `start` counts: 1 or 0. */
  function CommentOne(text: string, start: nat): (n: nat)
    requires start <= |text|
    ensures n <= 1
  {
    if IsKeyword(FirstWord(text[start..][..LineEnd(text[start..])])) then 1 else 0
  }

  lemma CommentAt(text: string, start: nat, k: nat)
    requires start + k <= |text| && k > 0 && MarkerLength(text[start..]) == k
    ensures Todos(text[start..]) == CommentOne(text, start + k) + Todos(text[NextLine(text, start + k)..])
  {
    var rest := text[start + k..];
    assert text[start..][k..] == rest;
    AtMarker(text[start..]);
    var e := LineEnd(rest);
    if e < |rest| {
      assert text[start + k + e + 1..] == rest[e + 1..];
    } else {
      assert text[|text|..] == "";
      OneLine("");
    }
  }

  lemma MarkerAt(text: string, start: nat)
    requires start < |text|
    ensures MarkerLength(text[start..]) ==
              if text[start] == '#' then 1
              else if start + 1 < |text| && (text[start] == '/' || text[start] == '-') &&
                text[start + 1] == text[start] then 2
              else 0
  {
  }

  lemma SkipAt(text: string, start: nat)
    requires start < |text| && MarkerLength(text[start..]) == 0
    ensures Todos(text[start..]) == Todos(text[start + 1..])
  {
    assert text[start..][1..] == text[start + 1..];
    SkipChar(text[start..]);
  }

  /** What has been counted, and what the rest of the text will add to it. */
  predicate Accounted(text: string, total: nat, i: nat)
    requires i <= |text|
  {
    Todos(text) == total + Todos(text[i..])
  }

  lemma AccountComment(text: string, total: nat, i: nat, k: nat)
    requires i + k <= |text| && k > 0 && MarkerLength(text[i..]) == k && Accounted(text, total, i)
    ensures Accounted(text, total + CommentOne(text, i + k), NextLine(text, i + k))
  {
    CommentAt(text, i, k);
  }

  lemma AccountSkip(text: string, total: nat, i: nat)
    requires i < |text| && MarkerLength(text[i..]) == 0 && Accounted(text, total, i)
    ensures Accounted(text, total, i + 1)
  {
    SkipAt(text, i);
  }

  lemma AccountEnd(text: string, total: nat)
    requires Accounted(text, total, |text|)
    ensures Todos(text) == total
  {
    assert text[|text|..] == "";
    OneLine("");
  }

  lemma Wrap(total: nat, n: nat)
    requires n <= 1
    ensures (total % TWO_TO_THE_32 + n) % TWO_TO_THE_32 == (total + n) % TWO_TO_THE_32
  {
  }

  /** Scans one comment from just after its marker, to the start of the next line. */
  method ScanLineComment(text: string, start: nat, count: nat) returns (next: nat, newCount: nat)
    requires start <= |text| && count < TWO_TO_THE_32
    ensures next == NextLine(text, start)
    ensures newCount == (count + CommentOne(text, start)) % TWO_TO_THE_32
  {
    ghost var end := start + LineEnd(text[start..]);
    assert text[start..end] == text[start..][..end - start];
    assert end < |text| ==> text[end] == text[start..][end - start];
    var i, word := CollectWord(text, start, end);
    newCount := if IsKeyword(word) then (count + 1) % TWO_TO_THE_32 else count;
    forall k | start <= k < end ensures text[k] != '\n' { assert text[start..end][k - start] == text[k]; }
    while i < |text| && text[i] != '\n'
      invariant start <= i <= end
    {
      i := i + 1;
    }
    next := if i < |text| then i + 1 else i;
  }

  /** The scanner counts, modulo its 32-bit counter, exactly the lines that count. */
  method CountTodos(text: string) returns (count: nat)
    ensures count == Todos(text) % 0x1_0000_0000
  {
    count := 0;
    ghost var total: nat := 0;
    var i := 0;
    assert text[0..] == text;
    while i < |text|
      invariant 0 <= i <= |text|
      invariant count == total % TWO_TO_THE_32
      invariant Accounted(text, total, i)
      decreases |text| - i
    {
      var c := text[i];
      MarkerAt(text, i);
      if c == '#' || ((c == '/' || c == '-') && i + 1 < |text| && text[i + 1] == c) {
        var k := if c == '#' then 1 else 2;
        AccountComment(text, total, i, k);
        ghost var one := CommentOne(text, i + k);
        Wrap(total, one);
        assert (count + one) % TWO_TO_THE_32 == (total + one) % TWO_TO_THE_32;
        total := total + one;
        i, count := ScanLineComment(text, i + k, count);
      } else {
        AccountSkip(text, total, i);
        i := i + 1;
      }
    }
    AccountEnd(text, total);
  }
}
