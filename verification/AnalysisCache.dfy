/** The table of cached file analyses: rows with a two-column key, written by upsert. */
module AnalysisCache {
  import opened Text

  datatype ImportRef = ImportRef(path: string, symbols: seq<string>, line: nat)

  datatype Severity = Info | Warning | Error

  datatype LintHint = LintHint(line: nat, column: nat, severity: Severity, message: string, rule: Option<string>)

  datatype FileAnalysis = FileAnalysis(
    filePath: string,
    projectId: string,
    contentHash: string,
    exports: seq<string>,
    imports: seq<ImportRef>,
    todoCount: nat,
    lintHints: seq<LintHint>,
    lineCount: nat)

  datatype Key = Key(project: string, path: string)

  function KeyOf(a: FileAnalysis): Key {
    Key(a.projectId, a.filePath)
  }

  /** The table's primary key. */
  predicate Unique(rows: seq<FileAnalysis>) {
    forall i, j | 0 <= i < j < |rows| :: KeyOf(rows[i]) != KeyOf(rows[j])
  }

  function Select(rows: seq<FileAnalysis>, key: Key): (r: Option<FileAnalysis>)
    ensures r.Some? ==> r.value in rows && KeyOf(r.value) == key
    ensures r.None? <==> forall row | row in rows :: KeyOf(row) != key
  {
    if rows == [] then None else if KeyOf(rows[0]) == key then Some(rows[0]) else Select(rows[1..], key)
  }

  /** INSERT, or on a key conflict UPDATE of the row in its place. */
  function Upsert(rows: seq<FileAnalysis>, a: FileAnalysis): seq<FileAnalysis> {
    if rows == [] then [a]
    else if KeyOf(rows[0]) == KeyOf(a) then [a] + rows[1..]
    else [rows[0]] + Upsert(rows[1..], a)
  }

  function Delete(rows: seq<FileAnalysis>, key: Key): seq<FileAnalysis> {
    if rows == [] then [] else (if KeyOf(rows[0]) == key then [] else [rows[0]]) + Delete(rows[1..], key)
  }

  lemma UniqueTail(rows: seq<FileAnalysis>)
    requires rows != [] && Unique(rows)
    ensures Unique(rows[1..]) && forall row | row in rows[1..] :: KeyOf(row) != KeyOf(rows[0])
  {
  }

  lemma UniqueCons(row: FileAnalysis, rows: seq<FileAnalysis>)
    requires Unique(rows) && forall r | r in rows :: KeyOf(r) != KeyOf(row)
    ensures Unique([row] + rows)
  {
  }

  /** Storing an analysis changes the answer for its own key and no other, and every other row of
      the table stays. */
  lemma {:induction false} UpsertIsUpdate(rows: seq<FileAnalysis>, a: FileAnalysis)
    requires Unique(rows)
    ensures Unique(Upsert(rows, a))
    ensures forall key :: Select(Upsert(rows, a), key) == if key == KeyOf(a) then Some(a) else Select(rows, key)
    ensures forall row :: row in Upsert(rows, a) <==> row == a || (row in rows && KeyOf(row) != KeyOf(a))
  {
    if rows != [] {
      UniqueTail(rows);
      if KeyOf(rows[0]) == KeyOf(a) {
        UniqueCons(a, rows[1..]);
      } else {
        UpsertIsUpdate(rows[1..], a);
        UniqueCons(rows[0], Upsert(rows[1..], a));
      }
    }
  }

  /** Invalidating a key empties its answer and no other. */
  lemma {:induction false} DeleteIsRemoval(rows: seq<FileAnalysis>, key: Key)
    requires Unique(rows)
    ensures Unique(Delete(rows, key))
    ensures forall k :: Select(Delete(rows, key), k) == if k == key then None else Select(rows, k)
    ensures forall row :: row in Delete(rows, key) <==> row in rows && KeyOf(row) != key
  {
    if rows != [] {
      UniqueTail(rows);
      DeleteIsRemoval(rows[1..], key);
      if KeyOf(rows[0]) != key {
        UniqueCons(rows[0], Delete(rows[1..], key));
      } else {
        assert Delete(rows, key) == Delete(rows[1..], key);
      }
    }
  }

  /** The analysis is in the table, and otherwise exactly the rows of other files. */
  ghost predicate Stored(before: seq<FileAnalysis>, after: seq<FileAnalysis>, a: FileAnalysis) {
    forall row :: row in after <==>
      row == a || (row in before && !(row.projectId == a.projectId && row.filePath == a.filePath))
  }

  lemma {:induction false} UpsertAt(rows: seq<FileAnalysis>, i: nat, a: FileAnalysis)
    requires i <= |rows| && forall j | 0 <= j < i :: KeyOf(rows[j]) != KeyOf(a)
    requires i < |rows| ==> KeyOf(rows[i]) == KeyOf(a)
    ensures Upsert(rows, a) == if i < |rows| then rows[i := a] else rows + [a]
  {
    if i > 0 {
      assert rows == [rows[0]] + rows[1..];
      UpsertAt(rows[1..], i - 1, a);
    } else if rows != [] {
      assert rows[0 := a] == [a] + rows[1..];
    }
  }

  lemma PutMeaning(rows: seq<FileAnalysis>, a: FileAnalysis)
    ensures Unique(rows) ==> Unique(Upsert(rows, a)) && Stored(rows, Upsert(rows, a), a)
  {
    if Unique(rows) { UpsertIsUpdate(rows, a); }
  }

  function SelectFresh(rows: seq<FileAnalysis>, key: Key, hash: string): Option<FileAnalysis> {
    var r := Select(rows, key);
    if r.Some? && r.value.contentHash == hash then r else None
  }

  class FileAnalysisCache {
    var rows: seq<FileAnalysis>

    constructor ()
      ensures rows == []
    {
      rows := [];
    }

    method Get(project: string, path: string) returns (r: Option<FileAnalysis>)
      ensures r.Some? ==> r.value in rows && r.value.projectId == project && r.value.filePath == path
      ensures r.None? <==> forall row | row in rows :: row.projectId != project || row.filePath != path
    {
      r := Select(rows, Key(project, path));
    }

    /** Selects by key and hash together. */
    method GetIfFresh(project: string, path: string, hash: string) returns (r: Option<FileAnalysis>)
      requires Unique(rows)
      ensures r == SelectFresh(rows, Key(project, path), hash)
      ensures r.Some? ==>
                && r.value in rows
                && r.value.projectId == project && r.value.filePath == path && r.value.contentHash == hash
      ensures r.None? <==>
                forall row | row in rows :: row.projectId != project || row.filePath != path || row.contentHash != hash
    {
      var i := 0;
      while i < |rows|
        invariant 0 <= i <= |rows|
        invariant forall k | 0 <= k < i :: KeyOf(rows[k]) != Key(project, path) || rows[k].contentHash != hash
      {
        if rows[i].projectId == project && rows[i].filePath == path && rows[i].contentHash == hash {
          return Some(rows[i]);
        }
        i := i + 1;
      }
      r := None;
    }

    method IsFresh(project: string, path: string, hash: string) returns (found: bool)
      requires Unique(rows)
      ensures found <==> SelectFresh(rows, Key(project, path), hash).Some?
      ensures found <==>
                exists row | row in rows :: row.projectId == project && row.filePath == path && row.contentHash == hash
    {
      var r := GetIfFresh(project, path, hash);
      found := r.Some?;
    }

    method Put(analysis: FileAnalysis)
      modifies this
      ensures rows == Upsert(old(rows), analysis)
      ensures Unique(old(rows)) ==> Unique(rows) && Stored(old(rows), rows, analysis)
    {
      PutMeaning(rows, analysis);
      var i := 0;
      while i < |rows| && KeyOf(rows[i]) != KeyOf(analysis)
        invariant 0 <= i <= |rows| && rows == old(rows)
        invariant forall j | 0 <= j < i :: KeyOf(rows[j]) != KeyOf(analysis)
      {
        i := i + 1;
      }
      UpsertAt(rows, i, analysis);
      if i < |rows| {
        rows := rows[i := analysis];
      } else {
        rows := rows + [analysis];
      }
    }

    method Invalidate(project: string, path: string)
      modifies this
      ensures rows == Delete(old(rows), Key(project, path))
      ensures Unique(old(rows)) ==> Unique(rows)
      ensures Unique(old(rows)) ==>
                forall row :: row in rows <==> row in old(rows) && !(row.projectId == project && row.filePath == path)
    {
      if Unique(rows) { DeleteIsRemoval(rows, Key(project, path)); }
      rows := Delete(rows, Key(project, path));
    }
  }
}
