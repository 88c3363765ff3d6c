/**
  Four of the five regular expressions of the SQL agent end in the same shape,
  a keyword followed by `\s+` and a captured run `(C+)` of one character
  class. This module implements that shape the way Python's backtracking
  `re` engine does, without a general regex engine:
  - `\s+` is greedy: it first takes the whole whitespace run, then gives
    characters back one at a time;
  - the captured `C+` is greedy and ends the pattern, so it takes the longest
    run of `C` starting where `\s+` stopped;
  - `re.search` reports the leftmost start position where a match exists,
    trying the alternatives of `(k1|k2|...)` in order at each position;
  - `re.findall` reports the captures of successive non-overlapping matches,
    resuming the scan where the previous match ended.
 */
module Pattern {
  import opened Text
  import opened Results
  import opened Scanner

  /** The character classes that the captured groups use. */
  datatype CharClass =
    | Space          // `\s`
    | LetterOrSpace  // `[a-z\s]`
    | NotNewline     // `.` without DOTALL
    | Word           // `[A-Za-z0-9_]`

  predicate InClass(c: char, cls: CharClass) {
    match cls
    case Space => IsSpace(c)
    case LetterOrSpace => IsLowerLetter(c) || IsSpace(c)
    case NotNewline => c != '\n'
    case Word => IsWordChar(c)
  }

  predicate AllIn(s: string, cls: CharClass) {
    forall k :: 0 <= k < |s| ==> InClass(s[k], cls)
  }

  lemma AllInSpace(s: string)
    ensures AllIn(s, Space) <==> AllSpace(s)
  {
  }

  /** Every character of `s[a..b]` is in `cls`. */
  predicate InRange(s: string, a: nat, b: nat, cls: CharClass)
    requires a <= b <= |s|
  {
    forall k :: a <= k < b ==> InClass(s[k], cls)
  }

  lemma InRangeSlice(s: string, a: nat, b: nat, cls: CharClass)
    requires a <= b <= |s|
    ensures InRange(s, a, b, cls) <==> AllIn(s[a..b], cls)
  {
    if InRange(s, a, b, cls) {
      forall k | 0 <= k < b - a
        ensures InClass(s[a..b][k], cls)
      {
        assert s[a..b][k] == s[a + k];
      }
    }
    if AllIn(s[a..b], cls) {
      forall k | a <= k < b
        ensures InClass(s[k], cls)
      {
        assert s[a..b][k - a] == s[k];
      }
    }
  }

  /** End of the longest run of `cls` characters starting at `i`. */
  function RunEnd(s: string, i: nat, cls: CharClass): (e: nat)
    requires i <= |s|
    ensures i <= e <= |s|
    ensures e == |s| || !InClass(s[e], cls)
    decreases |s| - i
  {
    if i == |s| || !InClass(s[i], cls) then i else RunEnd(s, i + 1, cls)
  }

  /** Everything from `i` up to `RunEnd` is in the class. */
  lemma {:induction false} RunEndInRange(s: string, i: nat, cls: CharClass)
    requires i <= |s|
    ensures InRange(s, i, RunEnd(s, i, cls), cls)
    decreases |s| - i
  {
    if i < |s| && InClass(s[i], cls) {
      RunEndInRange(s, i + 1, cls);
    }
  }

  /** The end of a maximal run is determined by its start. */
  lemma {:induction false} RunEndUnique(s: string, i: nat, e: nat, cls: CharClass)
    requires i <= e <= |s|
    requires InRange(s, i, e, cls)
    requires e == |s| || !InClass(s[e], cls)
    ensures e == RunEnd(s, i, cls)
    decreases e - i
  {
    if i < e {
      RunEndUnique(s, i + 1, e, cls);
    }
  }

  /** The capture `s[sp.start..sp.end]` is a longest nonempty run of `cls`
      and is preceded, from `p` on, by at least one whitespace character. */
  predicate RunAfterSpaces(s: string, p: nat, sp: Span, cls: CharClass) {
    && p < sp.start < sp.end <= |s|
    && InRange(s, p, sp.start, Space)
    && InRange(s, sp.start, sp.end, cls)
    && (sp.end == |s| || !InClass(s[sp.end], cls))
  }

  /** The tail `\s+(C+)` matched at `p`, with `\s+` currently ending at `k`:
      the engine tries `k` first and then every shorter whitespace run. */
  function Backtrack(s: string, p: nat, k: nat, cls: CharClass): (r: Option<Span>)
    requires p <= k <= |s|
    ensures r.Some? ==> p < r.value.start <= k && r.value.start < r.value.end <= |s|
    decreases k
  {
    if k == p then None
    else if k < |s| && InClass(s[k], cls) then Some(Span(k, RunEnd(s, k, cls)))
    else Backtrack(s, p, k - 1, cls)
  }

  /** Whatever backtracking inside a whitespace run finds is a longest run
      of `C` after whitespace. */
  lemma {:induction false} BacktrackSound(s: string, p: nat, k: nat, cls: CharClass)
    requires p <= k <= |s|
    requires InRange(s, p, k, Space)
    ensures Backtrack(s, p, k, cls).Some? ==> RunAfterSpaces(s, p, Backtrack(s, p, k, cls).value, cls)
    decreases k
  {
    if k > p {
      if k < |s| && InClass(s[k], cls) {
        RunEndInRange(s, k, cls);
      } else {
        BacktrackSound(s, p, k - 1, cls);
      }
    }
  }

  /** The tail `\s+(C+)` matched at `p`. */
  function SpacesThenRun(s: string, p: nat, cls: CharClass): (r: Option<Span>)
    requires p <= |s|
    ensures r.Some? ==> RunAfterSpaces(s, p, r.value, cls)
  {
    RunEndInRange(s, p, Space);
    BacktrackSound(s, p, RunEnd(s, p, Space), cls);
    Backtrack(s, p, RunEnd(s, p, Space), cls)
  }

  /** The keyword `kw` occurs at `i` and the engine finds the tail
      `\s+(C+)` after it. */
  predicate AlternativeFits(s: string, i: nat, kw: string, cls: CharClass)
    requires i <= |s|
  {
    OccursAt(s, i, kw) && SpacesThenRun(s, i + |kw|, cls).Some?
  }

  /** `(k1|k2|...)\s+(C+)` matched at `i` (no case folding), trying the
      alternatives from the `n`-th on in order: the first one whose tail
      matches wins. */
  function AlternativesFrom(s: string, i: nat, kws: seq<string>, n: nat, cls: CharClass): (r: Option<Span>)
    requires i <= |s| && n <= |kws|
    ensures r.Some? ==> i < r.value.start < r.value.end <= |s|
    decreases |kws| - n
  {
    if n == |kws| then None
    else if AlternativeFits(s, i, kws[n], cls) then
      SpacesThenRun(s, i + |kws[n]|, cls)
    else AlternativesFrom(s, i, kws, n + 1, cls)
  }

  /** `(k1|k2|...)\s+(C+)` matched at `i`. */
  function Alternatives(s: string, i: nat, kws: seq<string>, cls: CharClass): (r: Option<Span>)
    requires i <= |s|
    ensures r.Some? ==> i < r.value.start < r.value.end <= |s|
  {
    AlternativesFrom(s, i, kws, 0, cls)
  }

  /** A match of the alternatives at `i` is a keyword there followed by the
      tail `\s+(C+)`. */
  lemma {:induction false} AlternativesSound(s: string, i: nat, kws: seq<string>, n: nat, cls: CharClass)
    requires i <= |s| && n <= |kws|
    requires AlternativesFrom(s, i, kws, n, cls).Some?
    ensures exists m :: n <= m < |kws| && OccursAt(s, i, kws[m])
                     && RunAfterSpaces(s, i + |kws[m]|, AlternativesFrom(s, i, kws, n, cls).value, cls)
    decreases |kws| - n
  {
    if !AlternativeFits(s, i, kws[n], cls) {
      AlternativesSound(s, i, kws, n + 1, cls);
    }
  }

  /** The start position `re.search` settles on for `(k1|k2|...)\s+(C+)`
      when scanning from `i`: the leftmost position where the pattern
      matches, or none when it matches nowhere. */
  function Leftmost(s: string, i: nat, kws: seq<string>, cls: CharClass): (r: Option<nat>)
    requires i <= |s|
    ensures r.Some? ==> && i <= r.value <= |s|
                        && Alternatives(s, r.value, kws, cls).Some?
                        && forall k :: i <= k < r.value ==> Alternatives(s, k, kws, cls).None?
    ensures r.None? ==> forall k :: i <= k <= |s| ==> Alternatives(s, k, kws, cls).None?
    decreases |s| - i
  {
    if Alternatives(s, i, kws, cls).Some? then Some(i)
    else if i == |s| then None
    else Leftmost(s, i + 1, kws, cls)
  }

  /** A match of the alternatives at `j` captures a run of the class, and
      one of the keywords occurs in the subject. */
  lemma MatchSound(s: string, j: nat, kws: seq<string>, cls: CharClass)
    requires j <= |s| && Alternatives(s, j, kws, cls).Some?
    ensures AllIn(s[Alternatives(s, j, kws, cls).value.start..Alternatives(s, j, kws, cls).value.end], cls)
    ensures exists n :: 0 <= n < |kws| && Contains(s, kws[n])
  {
    var sp := Alternatives(s, j, kws, cls).value;
    AlternativesSound(s, j, kws, 0, cls);
    var n :| 0 <= n < |kws| && OccursAt(s, j, kws[n]) && RunAfterSpaces(s, j + |kws[n]|, sp, cls);
    InRangeSlice(s, sp.start, sp.end, cls);
    assert Contains(s, kws[n]);
  }

  /** `re.search` of `(k1|k2|...)\s+(C+)`: the captured span of the leftmost
      match. What it captures is a nonempty run of the class, and it finds
      something only when one of the keywords occurs in the subject. */
  function Search(s: string, kws: seq<string>, cls: CharClass): (r: Option<Span>)
    ensures r.Some? ==> r.value.start < r.value.end <= |s|
    ensures r.Some? ==> AllIn(s[r.value.start..r.value.end], cls)
    ensures r.Some? ==> exists n :: 0 <= n < |kws| && Contains(s, kws[n])
  {
    match Leftmost(s, 0, kws, cls)
    case Some(j) =>
      MatchSound(s, j, kws, cls);
      Alternatives(s, j, kws, cls)
    case None => None
  }

  /** Every whitespace character of `s` belongs to `cls`: always so for
      `[a-z\s]`, and for `.` exactly when `s` has no line feed. */
  predicate SpacesInClass(s: string, cls: CharClass) {
    forall k :: 0 <= k < |s| && IsSpace(s[k]) ==> InClass(s[k], cls)
  }

  /** The declarative reading of `\s+(C+)` at `p` when whitespace belongs to
      `C`: the longest run of `C` from `p` starts with whitespace and has at
      least two characters. */
  predicate TailOK(s: string, p: nat, cls: CharClass)
    requires p <= |s|
  {
    p < |s| && IsSpace(s[p]) && RunEnd(s, p, cls) - p >= 2
  }

  /** A run of `cls` that starts inside an earlier run of `cls` ends where
      that one does. */
  lemma RunEndFrom(s: string, p: nat, w: nat, cls: CharClass)
    requires p <= w <= |s|
    requires InRange(s, p, w, cls)
    ensures RunEnd(s, p, cls) == RunEnd(s, w, cls)
  {
    var e := RunEnd(s, w, cls);
    RunEndInRange(s, w, cls);
    assert InRange(s, p, e, cls) by {
      forall k | p <= k < e
        ensures InClass(s[k], cls)
      {
        if k >= w {
          assert InRange(s, w, e, cls);
        }
      }
    }
    RunEndUnique(s, p, e, cls);
  }

  /** When whitespace belongs to `C`, the tail `\s+(C+)` matches at `p`
      exactly when `TailOK` holds, and the stripped capture is the stripped
      longest run of `C` from `p`. */
  lemma TailSpec(s: string, p: nat, cls: CharClass)
    requires p <= |s|
    requires SpacesInClass(s, cls)
    ensures SpacesThenRun(s, p, cls).Some? <==> TailOK(s, p, cls)
    ensures SpacesThenRun(s, p, cls).Some? ==>
              Strip(s[SpacesThenRun(s, p, cls).value.start..SpacesThenRun(s, p, cls).value.end])
              == Strip(s[p..RunEnd(s, p, cls)])
  {
    var w := RunEnd(s, p, Space);
    if w > p {
      RunEndInRange(s, p, Space);
      assert InRange(s, p, w, cls);
      RunEndFrom(s, p, w, cls);
      InRangeSlice(s, p, w, Space);
      AllInSpace(s[p..w]);
      if w < |s| && InClass(s[w], cls) {
        TailRunAfterSpaces(s, p, w, cls);
      } else {
        TailSpacesOnly(s, p, w, cls);
        assert RunEnd(s, p, cls) == w;
      }
    }
  }

  /** `TailSpec` when the whitespace run from `p` is followed by a
      character of `C`: the engine keeps all the whitespace. */
  lemma TailRunAfterSpaces(s: string, p: nat, w: nat, cls: CharClass)
    requires p < w < |s| && w == RunEnd(s, p, Space) && InClass(s[w], cls)
    requires RunEnd(s, p, cls) == RunEnd(s, w, cls) && AllSpace(s[p..w])
    ensures SpacesThenRun(s, p, cls).Some? && TailOK(s, p, cls)
    ensures Strip(s[SpacesThenRun(s, p, cls).value.start..SpacesThenRun(s, p, cls).value.end])
              == Strip(s[p..RunEnd(s, p, cls)])
  {
    var r := RunEnd(s, p, cls);
    assert s[p..r] == s[p..w] + s[w..r];
    StripAfterSpaces(s[p..w], s[w..r]);
  }

  /** `TailSpec` when the whitespace run from `p` is not followed by a
      character of `C`: the engine gives back one whitespace character and
      captures it, which needs at least two of them; stripped, that capture
      is as empty as the whole run. */
  lemma TailSpacesOnly(s: string, p: nat, w: nat, cls: CharClass)
    requires SpacesInClass(s, cls)
    requires p < w <= |s| && w == RunEnd(s, p, Space) && !(w < |s| && InClass(s[w], cls))
    requires InRange(s, p, w, Space)
    ensures SpacesThenRun(s, p, cls) == if p + 1 < w then Some(Span(w - 1, w)) else None
    ensures p + 1 < w ==> Strip(s[w - 1..w]) == [] == Strip(s[p..w])
  {
    if p + 1 < w {
      assert InClass(s[w - 1], cls);
      RunEndUnique(s, w - 1, w, cls);
      assert Backtrack(s, p, w, cls) == Backtrack(s, p, w - 1, cls) == Some(Span(w - 1, w));
      assert Strip(s[w - 1..w]) == [] by {
        InRangeSlice(s, w - 1, w, Space);
        AllInSpace(s[w - 1..w]);
      }
      assert Strip(s[p..w]) == [] by {
        InRangeSlice(s, p, w, Space);
        AllInSpace(s[p..w]);
      }
    } else {
      assert Backtrack(s, p, w, cls) == Backtrack(s, p, w - 1, cls) == None;
    }
  }

  /** The keyword `kw` occurs at `i` and the tail `\s+(C+)` matches after it,
      in the declarative reading of `TailOK`. */
  predicate KeywordTailAt(s: string, i: nat, kw: string, cls: CharClass)
    requires i <= |s|
  {
    OccursAt(s, i, kw) && TailOK(s, i + |kw|, cls)
  }

  /** The phrase a match of keyword `kw` at `i` yields once stripped: the
      stripped longest run of `C` after the keyword. */
  function RunPhrase(s: string, i: nat, kw: string, cls: CharClass): string
    requires i <= |s| && OccursAt(s, i, kw)
  {
    Strip(s[i + |kw|..RunEnd(s, i + |kw|, cls)])
  }

  /** Some keyword matches at `i`, in the declarative reading. */
  predicate AnyKeywordTailAt(s: string, i: nat, kws: seq<string>, cls: CharClass)
    requires i <= |s|
  {
    exists n :: 0 <= n < |kws| && KeywordTailAt(s, i, kws[n], cls)
  }

  /** When whitespace belongs to `C`, the alternatives from the `n`-th on
      match at `i` exactly when one of them matches there declaratively. */
  lemma {:induction false} AlternativesExist(s: string, i: nat, kws: seq<string>, n: nat, cls: CharClass)
    requires i <= |s| && n <= |kws| && SpacesInClass(s, cls)
    ensures AlternativesFrom(s, i, kws, n, cls).Some? <==>
              exists m :: n <= m < |kws| && KeywordTailAt(s, i, kws[m], cls)
    decreases |kws| - n
  {
    if n < |kws| {
      KeywordTailSpec(s, i, kws[n], cls);
      AlternativesExist(s, i, kws, n + 1, cls);
    }
  }

  /** A match of the alternatives from the `n`-th on is the tail after the
      first alternative that occurs at `i` and whose tail matches. */
  lemma {:induction false} AlternativesPick(s: string, i: nat, kws: seq<string>, n: nat, cls: CharClass) returns (m: nat)
    requires i <= |s| && n <= |kws|
    requires AlternativesFrom(s, i, kws, n, cls).Some?
    ensures n <= m < |kws| && OccursAt(s, i, kws[m])
    ensures AlternativesFrom(s, i, kws, n, cls) == SpacesThenRun(s, i + |kws[m]|, cls)
    ensures forall k :: n <= k < m ==> !AlternativeFits(s, i, kws[k], cls)
    decreases |kws| - n
  {
    if AlternativeFits(s, i, kws[n], cls) {
      m := n;
    } else {
      assert AlternativesFrom(s, i, kws, n, cls) == AlternativesFrom(s, i, kws, n + 1, cls);
      m := AlternativesPick(s, i, kws, n + 1, cls);
    }
  }

  /** When whitespace belongs to `C`, the tail after keyword `kw` at `i`
      matches exactly when it does declaratively. */
  lemma KeywordTailSpec(s: string, i: nat, kw: string, cls: CharClass)
    requires i <= |s| && SpacesInClass(s, cls)
    ensures AlternativeFits(s, i, kw, cls) <==> KeywordTailAt(s, i, kw, cls)
  {
    if OccursAt(s, i, kw) {
      TailSpec(s, i + |kw|, cls);
    }
  }

  /** When whitespace belongs to `C`, a match of the alternatives at `i`
      uses the first keyword that matches declaratively, and the stripped
      capture is that keyword's `RunPhrase`. */
  lemma AlternativesFirst(s: string, i: nat, kws: seq<string>, cls: CharClass) returns (m: nat)
    requires i <= |s| && SpacesInClass(s, cls)
    requires Alternatives(s, i, kws, cls).Some?
    ensures m < |kws| && KeywordTailAt(s, i, kws[m], cls)
    ensures forall k :: 0 <= k < m ==> !KeywordTailAt(s, i, kws[k], cls)
    ensures Strip(s[Alternatives(s, i, kws, cls).value.start..Alternatives(s, i, kws, cls).value.end])
            == RunPhrase(s, i, kws[m], cls)
  {
    m := AlternativesPick(s, i, kws, 0, cls);
    var p := i + |kws[m]|;
    var sp := SpacesThenRun(s, p, cls).value;
    assert Alternatives(s, i, kws, cls) == Some(sp);
    TailSpec(s, p, cls);
    assert Strip(s[sp.start..sp.end]) == Strip(s[p..RunEnd(s, p, cls)]);
    NoEarlierKeyword(s, i, kws, m, cls);
  }

  /** When whitespace belongs to `C`, alternatives whose tails the engine
      does not find do not match declaratively either. */
  lemma NoEarlierKeyword(s: string, i: nat, kws: seq<string>, m: nat, cls: CharClass)
    requires i <= |s| && m <= |kws| && SpacesInClass(s, cls)
    requires forall k :: 0 <= k < m ==> !AlternativeFits(s, i, kws[k], cls)
    ensures forall k :: 0 <= k < m ==> !KeywordTailAt(s, i, kws[k], cls)
  {
    forall k | 0 <= k < m
      ensures !KeywordTailAt(s, i, kws[k], cls)
    {
      KeywordTailSpec(s, i, kws[k], cls);
    }
  }

  /** When whitespace belongs to `C`, `re.search` finds a match exactly when
      some keyword is followed by a matching tail somewhere. */
  lemma SearchExists(s: string, kws: seq<string>, cls: CharClass)
    requires SpacesInClass(s, cls)
    ensures Search(s, kws, cls).Some? <==> exists j :: 0 <= j <= |s| && AnyKeywordTailAt(s, j, kws, cls)
  {
    forall j | 0 <= j <= |s|
      ensures Alternatives(s, j, kws, cls).Some? <==> AnyKeywordTailAt(s, j, kws, cls)
    {
      AlternativesExist(s, j, kws, 0, cls);
    }
  }

  /** In the declarative reading, keyword `kws[n]` matches at `j`, no
      keyword matches at an earlier position, and no earlier alternative
      matches at `j`. */
  predicate FirstKeywordTail(s: string, kws: seq<string>, cls: CharClass, j: nat, n: nat) {
    && j <= |s| && n < |kws| && KeywordTailAt(s, j, kws[n], cls)
    && (forall i :: 0 <= i < j ==> !AnyKeywordTailAt(s, i, kws, cls))
    && (forall m :: 0 <= m < n ==> !KeywordTailAt(s, j, kws[m], cls))
  }

  /** When whitespace belongs to `C`, `re.search` settles on the leftmost
      position where some keyword matches and, there, on the first such
      keyword; the stripped capture is that keyword's `RunPhrase`. */
  lemma SearchFirst(s: string, kws: seq<string>, cls: CharClass)
    requires SpacesInClass(s, cls)
    requires Search(s, kws, cls).Some?
    ensures exists j: nat, n: nat :: && FirstKeywordTail(s, kws, cls, j, n)
                           && Strip(s[Search(s, kws, cls).value.start..Search(s, kws, cls).value.end])
                              == RunPhrase(s, j, kws[n], cls)
  {
    var j := Leftmost(s, 0, kws, cls).value;
    forall i | 0 <= i < j
      ensures !AnyKeywordTailAt(s, i, kws, cls)
    {
      assert Alternatives(s, i, kws, cls).None?;
      AlternativesExist(s, i, kws, 0, cls);
    }
    var n := AlternativesFirst(s, j, kws, cls);
  }

  /** `re.search` is determined by the declarative reading: the leftmost
      position where some keyword matches and the first keyword matching
      there give the stripped capture. */
  lemma SearchAt(s: string, kws: seq<string>, cls: CharClass, j: nat, n: nat)
    requires SpacesInClass(s, cls)
    requires FirstKeywordTail(s, kws, cls, j, n)
    ensures Search(s, kws, cls).Some?
    ensures Strip(s[Search(s, kws, cls).value.start..Search(s, kws, cls).value.end])
            == RunPhrase(s, j, kws[n], cls)
  {
    forall i | 0 <= i < j
      ensures Alternatives(s, i, kws, cls).None?
    {
      assert !AnyKeywordTailAt(s, i, kws, cls);
      AlternativesExist(s, i, kws, 0, cls);
    }
    AlternativesExist(s, j, kws, 0, cls);
    assert Alternatives(s, j, kws, cls).Some?;
    LeftmostAt(s, kws, cls, j);
    var m := AlternativesFirst(s, j, kws, cls);
    assert m == n;
  }

  /** The leftmost position where the alternatives match is where
      `re.search` settles. */
  lemma LeftmostAt(s: string, kws: seq<string>, cls: CharClass, j: nat)
    requires j <= |s| && Alternatives(s, j, kws, cls).Some?
    requires forall i :: 0 <= i < j ==> Alternatives(s, i, kws, cls).None?
    ensures Leftmost(s, 0, kws, cls) == Some(j)
  {
  }

  /** A nonempty run of `C` can start only where the whitespace run from
      `p` has not yet ended. */
  lemma {:induction false} RunEndCovers(s: string, i: nat, e: nat, cls: CharClass)
    requires i <= e <= |s|
    requires InRange(s, i, e, cls)
    ensures e <= RunEnd(s, i, cls)
    decreases e - i
  {
    if i < e {
      RunEndCovers(s, i + 1, e, cls);
    }
  }

  /** Giving back whitespace from `k` down to `p` finds a start for the
      capture exactly when some position after `p` and up to `k` holds a
      character of `C`. */
  lemma {:induction false} BacktrackFinds(s: string, p: nat, k: nat, cls: CharClass)
    requires p <= k <= |s|
    requires InRange(s, p, k, Space)
    ensures Backtrack(s, p, k, cls).Some? <==> exists q :: p < q <= k && q < |s| && InClass(s[q], cls)
    decreases k
  {
    if k > p && !(k < |s| && InClass(s[k], cls)) {
      BacktrackFinds(s, p, k - 1, cls);
    }
  }

  /** The backtracking engine finds the tail `\s+(C+)` at `p` exactly when
      the tail can match there in some way. */
  lemma SpacesThenRunExactly(s: string, p: nat, cls: CharClass)
    requires p <= |s|
    ensures SpacesThenRun(s, p, cls).Some? <==> TailMatches(s, p, cls)
  {
    var w := RunEnd(s, p, Space);
    RunEndInRange(s, p, Space);
    BacktrackFinds(s, p, w, cls);
    if SpacesThenRun(s, p, cls).Some? {
      assert RunAfterSpaces(s, p, SpacesThenRun(s, p, cls).value, cls);
    }
    if TailMatches(s, p, cls) {
      var sp :| RunAfterSpaces(s, p, sp, cls);
      RunEndCovers(s, p, sp.start, Space);
      assert p < sp.start <= w && sp.start < |s| && InClass(s[sp.start], cls);
    }
  }

  /** The keyword `kw` occurs at `i` and the tail `\s+(C+)` can match after
      it, whatever the class. */
  ghost predicate KeywordMatchAt(s: string, i: nat, kw: string, cls: CharClass)
    requires i <= |s|
  {
    OccursAt(s, i, kw) && TailMatches(s, i + |kw|, cls)
  }

  /** The alternatives from the `n`-th on match at `i` exactly when one of
      them occurs there and its tail can match. */
  lemma {:induction false} AlternativesMatch(s: string, i: nat, kws: seq<string>, n: nat, cls: CharClass)
    requires i <= |s| && n <= |kws|
    ensures AlternativesFrom(s, i, kws, n, cls).Some? <==>
              exists m :: n <= m < |kws| && KeywordMatchAt(s, i, kws[m], cls)
    decreases |kws| - n
  {
    if n < |kws| {
      if OccursAt(s, i, kws[n]) {
        SpacesThenRunExactly(s, i + |kws[n]|, cls);
      }
      AlternativesMatch(s, i, kws, n + 1, cls);
    }
  }

  /** `re.search` finds a match exactly when some keyword occurs somewhere
      with a tail that can match after it. */
  lemma SearchMatches(s: string, kws: seq<string>, cls: CharClass)
    ensures Search(s, kws, cls).Some? <==>
              exists j, n :: 0 <= j <= |s| && 0 <= n < |kws| && KeywordMatchAt(s, j, kws[n], cls)
  {
    forall j | 0 <= j <= |s|
      ensures Alternatives(s, j, kws, cls).Some? <==> exists n :: 0 <= n < |kws| && KeywordMatchAt(s, j, kws[n], cls)
    {
      AlternativesMatch(s, j, kws, 0, cls);
    }
    if Search(s, kws, cls).Some? {
      var j := Leftmost(s, 0, kws, cls).value;
      assert Alternatives(s, j, kws, cls).Some?;
    }
    if exists j, n :: 0 <= j <= |s| && 0 <= n < |kws| && KeywordMatchAt(s, j, kws[n], cls) {
      var j, n :| 0 <= j <= |s| && 0 <= n < |kws| && KeywordMatchAt(s, j, kws[n], cls);
      assert Alternatives(s, j, kws, cls).Some?;
      assert Leftmost(s, 0, kws, cls).Some?;
    }
  }

  /** `t` starts with the keyword `kw` when ASCII case is ignored, as `re.I` does. */
  predicate StartsWithKeyword(t: string, kw: string) {
    |kw| <= |t| && forall m :: 0 <= m < |kw| ==> Lower(t[m]) == kw[m]
  }

  /** `KW\s+([A-Za-z0-9_]+)` under `re.I`, anchored at the start of `t`;
      the span is relative to `t`. Whitespace given back by `\s+` is never
      a word character, so the capture can only start where the whole
      whitespace run ends (`WordTailBacktracks` shows this agrees with the
      backtracking engine). */
  function WordTail(t: string, kw: string): (r: Option<Span>)
    ensures r.Some? ==> |kw| < r.value.start < r.value.end <= |t|
  {
    if !StartsWithKeyword(t, kw) then None
    else
      var w := RunEnd(t, |kw|, Space);
      if |kw| < w < |t| && IsWordChar(t[w]) then Some(Span(w, RunEnd(t, w, Word))) else None
  }

  /** Inside a whitespace run the engine finds no word character to give back to. */
  lemma {:induction false} BacktrackInSpaces(t: string, p: nat, k: nat)
    requires p <= k < |t|
    requires InRange(t, p, k + 1, Space)
    ensures Backtrack(t, p, k, Word).None?
    decreases k
  {
    if k > p {
      BacktrackInSpaces(t, p, k - 1);
    }
  }

  /** The anchored word match agrees with the backtracking engine. */
  lemma WordTailBacktracks(t: string, kw: string)
    ensures WordTail(t, kw) == (if StartsWithKeyword(t, kw) then SpacesThenRun(t, |kw|, Word) else None)
  {
    if StartsWithKeyword(t, kw) {
      var p := |kw|;
      var w := RunEnd(t, p, Space);
      RunEndInRange(t, p, Space);
      if p < w && !(w < |t| && IsWordChar(t[w])) {
        BacktrackInSpaces(t, p, w - 1);
      }
    }
  }

  /** The capture of an anchored match is a longest word run after whitespace. */
  lemma WordTailSound(t: string, kw: string)
    requires WordTail(t, kw).Some?
    ensures RunAfterSpaces(t, |kw|, WordTail(t, kw).value, Word)
  {
    var w := RunEnd(t, |kw|, Space);
    RunEndInRange(t, |kw|, Space);
    RunEndInRange(t, w, Word);
  }

  /** `\s+(C+)` can match at `p` in some way. */
  ghost predicate TailMatches(s: string, p: nat, cls: CharClass) {
    exists sp :: RunAfterSpaces(s, p, sp, cls)
  }

  /** An anchored match exists exactly when the keyword is there in any case
      and the tail `\s+([A-Za-z0-9_]+)` can match in some way after it:
      giving back whitespace never helps. */
  lemma WordTailExactly(t: string, kw: string)
    ensures WordTail(t, kw).Some? <==> StartsWithKeyword(t, kw) && TailMatches(t, |kw|, Word)
  {
    WordTailBacktracks(t, kw);
    if StartsWithKeyword(t, kw) && SpacesThenRun(t, |kw|, Word).None? {
      NoWordTail(t, |kw|);
    }
  }

  lemma NoWordTail(s: string, p: nat)
    requires p <= |s|
    requires SpacesThenRun(s, p, Word).None?
    ensures !TailMatches(s, p, Word)
  {
    forall sp | RunAfterSpaces(s, p, sp, Word)
      ensures false
    {
      WordRunStartsAfterSpaces(s, p, sp);
    }
  }

  /** A word run preceded by whitespace from `p` starts exactly where the
      whitespace run from `p` ends. */
  lemma WordRunStartsAfterSpaces(s: string, p: nat, sp: Span)
    requires RunAfterSpaces(s, p, sp, Word)
    ensures sp.start == RunEnd(s, p, Space)
    ensures SpacesThenRun(s, p, Word) == Some(sp)
  {
    RunEndUnique(s, p, sp.start, Space);
    RunEndUnique(s, sp.start, sp.end, Word);
  }

  /** The anchored matcher of `\bKW\s+([A-Za-z0-9_]+)` under `re.I`. */
  function KeywordMatcher(kw: string): (m: string -> Option<Span>)
    ensures Anchored(m)
  {
    t => WordTail(t, kw)
  }

  /** `re.findall(r"\bKW\s+([A-Za-z0-9_]+)", t, re.I)`, with `afterWord`
      telling whether the character before `t` is a word character (false
      at the start of the text). */
  function FindAll(t: string, afterWord: bool, kw: string): seq<string>
  {
    Scan(t, afterWord, KeywordMatcher(kw))
  }

  /** Each capture of `\bKW\s+([A-Za-z0-9_]+)` is a nonempty run of word
      characters. */
  lemma FindAllWords(t: string, afterWord: bool, kw: string)
    ensures forall x :: x in FindAll(t, afterWord, kw) ==> x != [] && AllIn(x, Word)
  {
    var m := KeywordMatcher(kw);
    forall x | x in Scan(t, afterWord, m)
      ensures x != [] && AllIn(x, Word)
    {
      ScanSound(t, afterWord, m, x);
      var j :| 0 <= j < |t| && MatchAt(t, j, afterWord, m) && x == CaptureAt(t, j, afterWord, m);
      var u := t[j..];
      var sp := WordTail(u, kw).value;
      WordTailSound(u, kw);
      InRangeSlice(u, sp.start, sp.end, Word);
    }
  }

  /** The keywords of the `findall` patterns, `from` and `join`, are four
      lower-case letters. */
  predicate IsKeyword(kw: string) {
    |kw| == 4 && forall m :: 0 <= m < 4 ==> IsLowerLetter(kw[m])
  }

  /** Whether the last character before the scan resumes is a word character. */
  function LastIsWord(x: string, afterWord: bool): bool {
    if x == [] then afterWord else IsWordChar(x[|x| - 1])
  }

  /** Position `k` of `x` cannot start a match of the four-letter keyword
      `kw`, whatever surrounds `x`: it follows a word character inside `x`,
      or it differs from the keyword within `x`. */
  predicate FreeAt(x: string, k: nat, kw: string)
    requires |kw| == 4 && k < |x|
  {
    || (0 < k && IsWordChar(x[k - 1]))
    || Lower(x[k]) != kw[0]
    || (k + 1 < |x| && Lower(x[k + 1]) != kw[1])
    || (k + 2 < |x| && Lower(x[k + 2]) != kw[2])
    || (k + 3 < |x| && Lower(x[k + 3]) != kw[3])
  }

  /** No position of `x` can start a match of `kw`. */
  predicate KeywordFree(x: string, kw: string)
    requires |kw| == 4
  {
    forall k :: 0 <= k < |x| ==> FreeAt(x, k, kw)
  }

  /** Keyword-free pieces make a keyword-free text: a position that cannot
      start a match within its piece cannot start one in the whole. */
  lemma KeywordFreeAppend(a: string, b: string, kw: string)
    requires |kw| == 4
    requires KeywordFree(a, kw) && KeywordFree(b, kw)
    ensures KeywordFree(a + b, kw)
  {
    var s := a + b;
    forall k | 0 <= k < |s|
      ensures FreeAt(s, k, kw)
    {
      if k < |a| {
        assert FreeAt(a, k, kw);
        assert s[k] == a[k];
        if 0 < k { assert s[k - 1] == a[k - 1]; }
        if k + 1 < |a| { assert s[k + 1] == a[k + 1]; }
        if k + 2 < |a| { assert s[k + 2] == a[k + 2]; }
        if k + 3 < |a| { assert s[k + 3] == a[k + 3]; }
      } else {
        var j := k - |a|;
        assert FreeAt(b, j, kw);
        assert s[k] == b[j];
        if 0 < j { assert s[k - 1] == b[j - 1]; }
        if j + 1 < |b| { assert s[k + 1] == b[j + 1]; }
        if j + 2 < |b| { assert s[k + 2] == b[j + 2]; }
        if j + 3 < |b| { assert s[k + 3] == b[j + 3]; }
      }
    }
  }

  /** A position that `FreeAt` rules out starts no match, whatever follows `x`. */
  lemma NoKeywordAt(x: string, y: string, k: nat, afterWord: bool, kw: string)
    requires |kw| == 4 && k < |x|
    requires FreeAt(x, k, kw)
    requires 0 < k ==> afterWord == IsWordChar(x[k - 1])
    ensures afterWord || !StartsWithKeyword(x[k..] + y, kw)
  {
    var t := x[k..] + y;
    assert t[0] == x[k];
    if k + 1 < |x| { assert t[1] == x[k + 1]; }
    if k + 2 < |x| { assert t[2] == x[k + 2]; }
    if k + 3 < |x| { assert t[3] == x[k + 3]; }
  }

  lemma {:induction false} SkipFrom(x: string, y: string, k: nat, afterWord: bool, kw: string)
    requires |kw| == 4
    requires KeywordFree(x, kw)
    requires k <= |x|
    requires 0 < k ==> afterWord == IsWordChar(x[k - 1])
    ensures FindAll(x[k..] + y, afterWord, kw) == FindAll(y, LastIsWord(x, afterWord), kw)
    decreases |x| - k
  {
    var t := x[k..] + y;
    if k == |x| {
      assert t == y;
    } else {
      NoKeywordAt(x, y, k, afterWord, kw);
      assert t[0] == x[k] && t[1..] == x[k + 1..] + y;
      assert FindAll(t, afterWord, kw) == FindAll(t[1..], IsWordChar(x[k]), kw);
      SkipFrom(x, y, k + 1, IsWordChar(x[k]), kw);
    }
  }

  /** `findall` passes over a keyword-free piece without reporting anything. */
  lemma SkipPiece(x: string, y: string, afterWord: bool, kw: string)
    requires |kw| == 4
    requires KeywordFree(x, kw)
    ensures FindAll(x + y, afterWord, kw) == FindAll(y, LastIsWord(x, afterWord), kw)
  {
    assert x[0..] == x;
    SkipFrom(x, y, 0, afterWord, kw);
  }

  /** A keyword-free string has no matches at all. */
  lemma NoMatchIn(x: string, afterWord: bool, kw: string)
    requires |kw| == 4
    requires KeywordFree(x, kw)
    ensures FindAll(x, afterWord, kw) == []
  {
    SkipPiece(x, [], afterWord, kw);
    assert x + [] == x;
  }

  /** `findall` reports the identifier of a match at the very start and goes on after it. */
  lemma MatchPiece(kwText: string, ws: string, id: string, y: string, kw: string)
    requires |kwText| == |kw| && StartsWithKeyword(kwText, kw)
    requires ws != [] && AllSpace(ws)
    requires id != [] && AllIn(id, Word)
    requires y == [] || !IsWordChar(y[0])
    ensures FindAll(kwText + ws + id + y, false, kw) == [id] + FindAll(y, true, kw)
  {
    var s := kwText + ws + id + y;
    var p := |kwText|;
    var st := p + |ws|;
    var en := st + |id|;
    assert s[p..st] == ws;
    assert s[st..en] == id;
    assert s[st] == id[0];
    assert StartsWithKeyword(s, kw) by {
      forall m | 0 <= m < |kw|
        ensures s[m] == kwText[m]
      {
      }
    }
    if en < |s| {
      assert s[en] == y[0];
    }
    RunEndUnique(s, p, st, Space);
    RunEndUnique(s, st, en, Word);
    assert WordTail(s, kw) == Some(Span(st, en));
    assert s[en..] == y;
  }

  /** A run that stops inside `x`, or at its end because `y` does not
      continue it, ends at the same place in `x + y`. */
  lemma {:induction false} RunEndPrefix(x: string, y: string, i: nat, cls: CharClass)
    requires i <= |x|
    requires RunEnd(x, i, cls) < |x| || y == [] || !InClass(y[0], cls)
    ensures RunEnd(x + y, i, cls) == RunEnd(x, i, cls)
    decreases |x| - i
  {
    if i < |x| {
      assert (x + y)[i] == x[i];
      if InClass(x[i], cls) {
        RunEndPrefix(x, y, i + 1, cls);
      }
    } else if y != [] {
      assert (x + y)[i] == y[0];
    }
  }

  /** No match of `kw` can run from `x` into `y`: `x` does not end in
      whitespace, and either its last character is not a word character, or
      it is not the keyword's last letter and `y` does not start with a word
      character. */
  predicate Separated(x: string, y: string, kw: string)
    requires IsKeyword(kw)
  {
    x == [] ||
      var c := x[|x| - 1];
      && !IsSpace(c)
      && (!IsWordChar(c) || ((y == [] || !IsWordChar(y[0])) && Lower(c) != kw[3]))
  }

  /** When `x` and `y` are separated, the anchored match at the start of
      `x + y` is the one at the start of `x`. */
  lemma WordTailPrefix(x: string, y: string, kw: string)
    requires IsKeyword(kw) && x != [] && Separated(x, y, kw)
    ensures WordTail(x + y, kw) == WordTail(x, kw)
    ensures WordTail(x, kw).Some? ==> WordTail(x, kw).value.end <= |x|
  {
    var t := x + y;
    if |x| < 4 {
      var c := x[|x| - 1];
      assert t[|x| - 1] == c;
      if y != [] && !IsWordChar(y[0]) {
        assert t[|x|] == y[0];
        assert Lower(y[0]) != kw[|x|];
      }
      assert !StartsWithKeyword(t, kw) by {
        if IsWordChar(c) {
          assert y == [] || Lower(t[|x|]) != kw[|x|];
        } else {
          assert Lower(t[|x| - 1]) != kw[|x| - 1];
        }
      }
    } else {
      forall m | 0 <= m < 4
        ensures t[m] == x[m]
      {
      }
      if StartsWithKeyword(x, kw) {
        var c := x[|x| - 1];
        assert Lower(x[3]) == kw[3];
        assert |x| > 4;
        var w := RunEnd(x, 4, Space);
        RunEndInRange(x, 4, Space);
        assert w == |x| ==> IsSpace(c);
        RunEndPrefix(x, y, 4, Space);
        assert t[w] == x[w];
        if IsWordChar(x[w]) {
          var e := RunEnd(x, w, Word);
          RunEndInRange(x, w, Word);
          assert e == |x| ==> IsWordChar(c);
          RunEndPrefix(x, y, w, Word);
        }
      }
    }
  }

  /** Where the scan of `findall` resumes after its first step on `t`. */
  function StepEnd(t: string, afterWord: bool, kw: string): (e: nat)
    requires t != []
    ensures 0 < e <= |t|
  {
    if !afterWord && WordTail(t, kw).Some? then WordTail(t, kw).value.end else 1
  }

  /** What the first step of `findall` on `t` reports. */
  function StepHead(t: string, afterWord: bool, kw: string): seq<string>
    requires t != []
  {
    if !afterWord && WordTail(t, kw).Some? then [t[WordTail(t, kw).value.start..WordTail(t, kw).value.end]] else []
  }

  /** `findall` is its first step followed by the scan from where that
      step ends. */
  lemma FindAllStep(t: string, afterWord: bool, kw: string)
    requires t != []
    ensures var e := StepEnd(t, afterWord, kw);
            FindAll(t, afterWord, kw) == StepHead(t, afterWord, kw) + FindAll(t[e..], IsWordChar(t[e - 1]), kw)
  {
  }

  /** One scan step at the start of `x + y` is the step at the start of `x`. */
  lemma SplitStep(x: string, y: string, afterWord: bool, kw: string)
    requires IsKeyword(kw) && x != [] && Separated(x, y, kw)
    ensures StepEnd(x + y, afterWord, kw) == StepEnd(x, afterWord, kw)
    ensures StepHead(x + y, afterWord, kw) == StepHead(x, afterWord, kw)
    ensures var e := StepEnd(x, afterWord, kw);
            && (x + y)[e..] == x[e..] + y
            && (x + y)[e - 1] == x[e - 1]
            && LastIsWord(x[e..], IsWordChar(x[e - 1])) == LastIsWord(x, afterWord)
            && Separated(x[e..], y, kw)
  {
    WordTailPrefix(x, y, kw);
    if !afterWord && WordTail(x, kw).Some? {
      var sp := WordTail(x, kw).value;
      SliceOfAppend(x, y, sp.start, sp.end);
    }
    SplitRest(x, y, StepEnd(x, afterWord, kw), afterWord, kw);
  }

  /** What is left of `x + y` after `e` characters of `x`. */
  lemma SplitRest(x: string, y: string, e: nat, afterWord: bool, kw: string)
    requires IsKeyword(kw) && 0 < e <= |x| && Separated(x, y, kw)
    ensures (x + y)[e..] == x[e..] + y
    ensures (x + y)[e - 1] == x[e - 1]
    ensures LastIsWord(x[e..], IsWordChar(x[e - 1])) == LastIsWord(x, afterWord)
    ensures Separated(x[e..], y, kw)
  {
    DropAppend(x, y, e);
    var rest := x[e..];
    if e == |x| {
      assert rest == [];
    } else {
      assert rest[|rest| - 1] == x[|x| - 1];
    }
  }

  /** `findall` over `x + y` reports the matches in `x`, then those in `y`,
      when no match runs from one into the other. */
  lemma {:induction false} FindAllSplit(x: string, y: string, afterWord: bool, kw: string)
    requires IsKeyword(kw) && Separated(x, y, kw)
    ensures FindAll(x + y, afterWord, kw) == FindAll(x, afterWord, kw) + FindAll(y, LastIsWord(x, afterWord), kw)
    decreases |x|
  {
    if x == [] {
      assert x + y == y;
    } else {
      var e := StepEnd(x, afterWord, kw);
      var aw := IsWordChar(x[e - 1]);
      var head := StepHead(x, afterWord, kw);
      SplitStep(x, y, afterWord, kw);
      FindAllStep(x, afterWord, kw);
      FindAllStep(x + y, afterWord, kw);
      FindAllSplit(x[e..], y, aw, kw);
      AppendAssoc(head, FindAll(x[e..], aw, kw), FindAll(y, LastIsWord(x, afterWord), kw));
    }
  }

  /** Whitespace is keyword-free. */
  lemma SpacesFree(ws: string, kw: string)
    requires IsKeyword(kw) && AllSpace(ws)
    ensures KeywordFree(ws, kw)
  {
    forall k | 0 <= k < |ws|
      ensures FreeAt(ws, k, kw)
    {
      assert Lower(ws[k]) == ws[k];
    }
  }

  /** `findall` over text that goes on after whitespace: the matches before
      the whitespace, then those after it. */
  lemma NextLine(x: string, ws: string, line: string, afterWord: bool, kw: string)
    requires IsKeyword(kw)
    requires ws != [] && AllSpace(ws)
    requires x != [] && !IsSpace(x[|x| - 1]) && Lower(x[|x| - 1]) != kw[3]
    ensures FindAll(x + ws + line, afterWord, kw) == FindAll(x, afterWord, kw) + FindAll(line, false, kw)
  {
    assert x + ws + line == x + (ws + line);
    assert (ws + line)[0] == ws[0];
    FindAllSplit(x, ws + line, afterWord, kw);
    SpacesFree(ws, kw);
    SkipPiece(ws, line, LastIsWord(x, afterWord), kw);
  }
}
