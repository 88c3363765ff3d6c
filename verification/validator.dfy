/**
  `validate_sql`: the three checks a query must pass before it is run, in
  the order the code makes them. At most one semicolon; `SELECT` (in any
  case) as the first word; and every table named after `FROM` or `JOIN` in
  the allow-list, which the caller supplies (the code reads it from the
  database).
 */
module Validator {
  import opened Text
  import opened Results
  import opened Scanner
  import opened Pattern

  /** Why a query is refused: the `ValueError`s of `validate_sql` and, for
      `NotAnswerable`, of `generate_sql`. `Unauthorized` carries the set
      the error message prints. */
  datatype SqlError =
    | MultipleStatements
    | NotSelect
    | Unauthorized(tables: set<string>)
    | NotAnswerable

  const SelectKeyword: string := "select"

  /** The keywords of the two `findall` patterns that collect table names. */
  const TableKeywords: seq<string> := ["from", "join"]

  /** `re.match(r"^\s*select\b", sql, re.I)`: after the leading whitespace
      comes `select` in any case, not followed by a word character. The
      regex can match only there: giving back whitespace never helps `\s*`,
      since `s` is not whitespace. So the check holds exactly when the regex
      matches with some choice of `\s*`. */
  predicate StartsWithSelect(sql: string): (b: bool)
    ensures b <==> exists k: nat :: SelectMatchesAt(sql, k)
  {
    var i := SkipSpace(sql, 0);
    assert sql[..i] == sql[0..i];
    SelectOnlyAfterSpaces(sql);
    var b := StartsWithKeyword(sql[i..], SelectKeyword) && (i + 6 == |sql| || !IsWordChar(sql[i + 6]));
    assert b ==> SelectMatchesAt(sql, i);
    b
  }

  /** The regex `^\s*select\b` matches with `\s*` taking the first `k`
      characters. */
  predicate SelectMatchesAt(sql: string, k: nat) {
    && k <= |sql|
    && AllSpace(sql[..k])
    && StartsWithKeyword(sql[k..], SelectKeyword)
    && (k + 6 == |sql| || !IsWordChar(sql[k + 6]))
  }

  /** `\s*` can only stop where the leading whitespace ends. */
  lemma SelectOnlyAfterSpaces(sql: string)
    ensures forall k: nat :: SelectMatchesAt(sql, k) ==> k == SkipSpace(sql, 0)
  {
    forall k: nat | SelectMatchesAt(sql, k)
      ensures k == SkipSpace(sql, 0)
    {
      forall m | 0 <= m < k
        ensures IsSpace(sql[m])
      {
        assert sql[..k][m] == sql[m];
      }
      assert Lower(sql[k..][0]) == SelectKeyword[0] == 's';
      SkipSpaceAt(sql, 0, k);
    }
  }

  /** `set(re.findall(r"\bfrom\s+([A-Za-z0-9_]+)", sql, re.I))` together with
      the same for `join`: the tables the query names. Names compare with
      their case kept. */
  function TablesIn(sql: string): (r: set<string>)
    ensures forall x :: x in r ==> x != [] && AllIn(x, Word)
  {
    FindAllWords(sql, false, TableKeywords[0]);
    FindAllWords(sql, false, TableKeywords[1]);
    var fromTables := FindAll(sql, false, TableKeywords[0]);
    var joinTables := FindAll(sql, false, TableKeywords[1]);
    (set x | x in fromTables) + (set x | x in joinTables)
  }

  /** `validate_sql(sql)` with the allow-list `allowed`: the query itself
      when it passes, the first failed check otherwise. */
  function Validate(sql: string, allowed: set<string>): (r: Result<string, SqlError>)
    ensures r.Ok? ==> r.value == sql
    ensures r.Err? ==> !r.error.NotAnswerable?
  {
    if ';' in sql && Count(sql, ';') > 1 then Err(MultipleStatements)
    else if !StartsWithSelect(sql) then Err(NotSelect)
    else if !(TablesIn(sql) <= allowed) then Err(Unauthorized(TablesIn(sql) - allowed))
    else Ok(sql)
  }

  /** Keyword `kw` starts a table reference at `j` (with `\b` before it),
      and `x` is the table name the pattern captures there: the longest word
      run after the whitespace (the span is relative to `sql[j..]`). */
  ghost predicate NamesTableAt(sql: string, j: nat, kw: string, x: string) {
    && j <= |sql|
    && BoundaryAt(sql, j, false)
    && StartsWithKeyword(sql[j..], kw)
    && exists sp :: RunAfterSpaces(sql[j..], |kw|, sp, Word) && x == sql[j..][sp.start..sp.end]
  }

  /** A table reference of `kw` at `i` runs past position `j`. */
  ghost predicate ReferenceCovers(sql: string, i: nat, j: nat, kw: string) {
    && i <= |sql|
    && BoundaryAt(sql, i, false)
    && StartsWithKeyword(sql[i..], kw)
    && exists sp :: RunAfterSpaces(sql[i..], |kw|, sp, Word) && j < i + sp.end
  }

  /** A match of the `findall` pattern is a table reference. */
  lemma MatchNamesTable(sql: string, j: nat, kw: string)
    requires j <= |sql| && MatchAt(sql, j, false, KeywordMatcher(kw))
    ensures NamesTableAt(sql, j, kw, CaptureAt(sql, j, false, KeywordMatcher(kw)))
  {
    var t := sql[j..];
    WordTailSound(t, kw);
    var sp := WordTail(t, kw).value;
    assert RunAfterSpaces(t, |kw|, sp, Word);
  }

  /** A table reference is a match of the `findall` pattern. */
  lemma TableIsMatch(sql: string, j: nat, kw: string, x: string)
    requires NamesTableAt(sql, j, kw, x)
    ensures j < |sql| && MatchAt(sql, j, false, KeywordMatcher(kw))
    ensures CaptureAt(sql, j, false, KeywordMatcher(kw)) == x
  {
    var t := sql[j..];
    var sp :| RunAfterSpaces(t, |kw|, sp, Word) && x == t[sp.start..sp.end];
    WordRunStartsAfterSpaces(t, |kw|, sp);
    WordTailBacktracks(t, kw);
    assert WordTail(t, kw) == Some(sp);
  }

  /** Every table the check sees is named after `FROM` or `JOIN` somewhere. */
  lemma TablesSound(sql: string, x: string)
    requires x in TablesIn(sql)
    ensures exists j: nat, n: nat :: n < |TableKeywords| && NamesTableAt(sql, j, TableKeywords[n], x)
  {
    var n: nat := if x in FindAll(sql, false, TableKeywords[0]) then 0 else 1;
    var m := KeywordMatcher(TableKeywords[n]);
    ScanSound(sql, false, m, x);
    var j :| 0 <= j < |sql| && MatchAt(sql, j, false, m) && x == CaptureAt(sql, j, false, m);
    MatchNamesTable(sql, j, TableKeywords[n]);
  }

  /** Every table named after `FROM` or `JOIN` is seen by the check, unless
      the reference starts inside an earlier reference with the same keyword
      (`findall` does not report overlapping matches). */
  lemma TablesComplete(sql: string, j: nat, n: nat, x: string)
    requires n < |TableKeywords| && NamesTableAt(sql, j, TableKeywords[n], x)
    ensures || x in TablesIn(sql)
            || exists i :: 0 <= i < j && ReferenceCovers(sql, i, j, TableKeywords[n])
  {
    var kw := TableKeywords[n];
    var m := KeywordMatcher(kw);
    TableIsMatch(sql, j, kw, x);
    ScanComplete(sql, false, m, j);
    if x in FindAll(sql, false, kw) {
      FoundIsTable(sql, n, x);
    } else {
      var i :| 0 <= i < j && Covers(sql, i, j, false, m);
      CoverIsReference(sql, i, j, kw);
    }
  }

  /** A capture of either `findall` is one of the query's tables. */
  lemma FoundIsTable(sql: string, n: nat, x: string)
    requires n < |TableKeywords| && x in FindAll(sql, false, TableKeywords[n])
    ensures x in TablesIn(sql)
  {
  }

  /** A match running past `j` is a table reference running past `j`. */
  lemma CoverIsReference(sql: string, i: nat, j: nat, kw: string)
    requires i <= |sql| && Covers(sql, i, j, false, KeywordMatcher(kw))
    ensures ReferenceCovers(sql, i, j, kw)
  {
    var m := KeywordMatcher(kw);
    MatchNamesTable(sql, i, kw);
    var sp := m(sql[i..]).value;
    WordTailSound(sql[i..], kw);
    assert RunAfterSpaces(sql[i..], |kw|, sp, Word) && j < i + sp.end;
  }

  /** The checks in terms of what the query says: `validate_sql` accepts
      exactly the queries with at most one semicolon, that the `SELECT`
      pattern matches, and whose tables are all allowed; otherwise it
      reports the first check that fails, and an unauthorized-table error
      lists exactly the tables outside the allow-list, of which there is at
      least one. */
  lemma ValidateSpec(sql: string, allowed: set<string>)
    ensures Validate(sql, allowed).Ok? <==>
              && Count(sql, ';') <= 1
              && (exists k: nat :: SelectMatchesAt(sql, k))
              && TablesIn(sql) <= allowed
    ensures Validate(sql, allowed) == Err(MultipleStatements) <==> Count(sql, ';') > 1
    ensures Validate(sql, allowed) == Err(NotSelect) <==>
              Count(sql, ';') <= 1 && !exists k: nat :: SelectMatchesAt(sql, k)
    ensures Validate(sql, allowed).Err? && Validate(sql, allowed).error.Unauthorized? ==>
              && Validate(sql, allowed).error.tables == TablesIn(sql) - allowed
              && Validate(sql, allowed).error.tables != {}
  {
    CountPositive(sql, ';');
    if !(TablesIn(sql) <= allowed) {
      var x :| x in TablesIn(sql) && x !in allowed;
      assert x in TablesIn(sql) - allowed;
    }
  }

  /** Allowing more tables never turns an accepted query into a refused one. */
  lemma ValidateMonotone(sql: string, allowed: set<string>, more: set<string>)
    requires allowed <= more
    requires Validate(sql, allowed).Ok?
    ensures Validate(sql, more) == Validate(sql, allowed)
  {
  }
}
