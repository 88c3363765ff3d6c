/**
  The scanning loop of `re.findall` for a pattern that starts with `\b`,
  independent of what the rest of the pattern matches: at each position the
  pattern is tried anchored there; a match reports its capture and the scan
  resumes where the match ended, otherwise the scan moves on by one character.
 */
module Scanner {
  import opened Text
  import opened Results

  /** Where a capture lies in the subject string: `s[start..end]`. */
  datatype Span = Span(start: nat, end: nat)

  /** A matcher tried anchored at the start of a string reports the span of
      its nonempty capture, and the match ends where the capture ends. */
  ghost predicate Anchored(m: string -> Option<Span>) {
    forall t :: m(t).Some? ==> m(t).value.start < m(t).value.end <= |t|
  }

  /** `\b` before position `j` of `s`, for a pattern whose first character
      is a word character: the previous character is not one. At `j == 0`
      the previous character is the one before `s`, a word character exactly
      when `afterWord` holds. */
  predicate BoundaryAt(s: string, j: nat, afterWord: bool)
    requires j <= |s|
  {
    if j == 0 then !afterWord else !IsWordChar(s[j - 1])
  }

  /** The captures of successive non-overlapping matches of `\b` followed by
      the matcher `m`, scanning `t` from its start. */
  function Scan(t: string, afterWord: bool, m: string -> Option<Span>): seq<string>
    requires Anchored(m)
    decreases |t|
  {
    if t == [] then []
    else
      match (if afterWord then None else m(t))
      case Some(sp) => [t[sp.start..sp.end]] + Scan(t[sp.end..], IsWordChar(t[sp.end - 1]), m)
      case None => Scan(t[1..], IsWordChar(t[0]), m)
  }

  /** A match at `j`, were the scan to try position `j`. */
  predicate MatchAt(s: string, j: nat, afterWord: bool, m: string -> Option<Span>)
    requires j <= |s|
  {
    BoundaryAt(s, j, afterWord) && m(s[j..]).Some?
  }

  /** The capture of a match at `j`. */
  function CaptureAt(s: string, j: nat, afterWord: bool, m: string -> Option<Span>): (r: string)
    requires Anchored(m)
    requires j <= |s| && MatchAt(s, j, afterWord, m)
    ensures |r| > 0
  {
    var sp := m(s[j..]).value;
    s[j..][sp.start..sp.end]
  }

  /** A match at `i` extends past position `j`. */
  predicate Covers(s: string, i: nat, j: nat, afterWord: bool, m: string -> Option<Span>)
    requires i <= |s|
  {
    MatchAt(s, i, afterWord, m) && j < i + m(s[i..]).value.end
  }

  /** One step of the scan: a match at the start of `s` is reported and the
      scan resumes at its end; otherwise the scan moves on by one character. */
  lemma ScanStep(s: string, afterWord: bool, m: string -> Option<Span>) returns (e: nat, aw: bool, head: seq<string>)
    requires Anchored(m)
    requires s != []
    ensures 0 < e <= |s| && aw == IsWordChar(s[e - 1])
    ensures Scan(s, afterWord, m) == head + Scan(s[e..], aw, m)
    ensures MatchAt(s, 0, afterWord, m) ==>
              head == [CaptureAt(s, 0, afterWord, m)] && e == m(s).value.end
    ensures !MatchAt(s, 0, afterWord, m) ==> head == [] && e == 1
  {
    assert s[0..] == s;
    if !afterWord && m(s).Some? {
      var sp := m(s).value;
      e, aw, head := sp.end, IsWordChar(s[sp.end - 1]), [s[sp.start..sp.end]];
    } else {
      e, aw, head := 1, IsWordChar(s[0]), [];
    }
  }

  /** A match inside a suffix of `s` is a match in `s`, and the other way
      round, as long as `\b` sees the same character before the suffix. */
  lemma MatchAtSuffix(s: string, e: nat, j: nat, aw: bool, afterWord: bool, m: string -> Option<Span>)
    requires Anchored(m)
    requires 0 < e <= |s| && j <= |s| - e
    requires aw == IsWordChar(s[e - 1])
    ensures s[e..][j..] == s[e + j..]
    ensures MatchAt(s[e..], j, aw, m) <==> MatchAt(s, e + j, afterWord, m)
    ensures MatchAt(s[e..], j, aw, m) ==>
              CaptureAt(s[e..], j, aw, m) == CaptureAt(s, e + j, afterWord, m)
  {
    assert s[e..][j..] == s[e + j..];
    if j > 0 {
      assert s[e..][j - 1] == s[e + j - 1];
    }
  }

  /** Every capture the scan reports comes from a match at some position. */
  lemma {:induction false} ScanSound(s: string, afterWord: bool, m: string -> Option<Span>, c: string)
    requires Anchored(m)
    requires c in Scan(s, afterWord, m)
    ensures exists j :: 0 <= j < |s| && MatchAt(s, j, afterWord, m) && c == CaptureAt(s, j, afterWord, m)
    decreases |s|
  {
    var e, aw, head := ScanStep(s, afterWord, m);
    if c in head {
      assert MatchAt(s, 0, afterWord, m);
    } else {
      ScanSound(s[e..], aw, m, c);
      var j :| 0 <= j < |s[e..]| && MatchAt(s[e..], j, aw, m) && c == CaptureAt(s[e..], j, aw, m);
      MatchAtSuffix(s, e, j, aw, afterWord, m);
    }
  }

  lemma CoversSuffix(s: string, e: nat, i: nat, k: nat, aw: bool, afterWord: bool, m: string -> Option<Span>)
    requires Anchored(m)
    requires 0 < e <= |s| && i <= |s| - e
    requires aw == IsWordChar(s[e - 1])
    ensures Covers(s[e..], i, k, aw, m) <==> Covers(s, e + i, e + k, afterWord, m)
  {
    MatchAtSuffix(s, e, i, aw, afterWord, m);
  }

  /** Every match is reported, unless it starts inside an earlier match. */
  lemma {:induction false} ScanComplete(s: string, afterWord: bool, m: string -> Option<Span>, j: nat)
    requires Anchored(m)
    requires j < |s| && MatchAt(s, j, afterWord, m)
    ensures || CaptureAt(s, j, afterWord, m) in Scan(s, afterWord, m)
            || exists i :: 0 <= i < j && Covers(s, i, j, afterWord, m)
    decreases |s|, 1
  {
    var e, aw, head := ScanStep(s, afterWord, m);
    if j == 0 {
      assert CaptureAt(s, j, afterWord, m) in head;
    } else if head != [] && j < e {
      assert s[0..] == s;
      assert Covers(s, 0, j, afterWord, m);
    } else {
      ScanCompleteAfter(s, afterWord, m, j, e, aw, head);
    }
  }

  lemma InRight<T>(x: T, a: seq<T>, b: seq<T>)
    requires x in b
    ensures x in a + b
  {
  }

  /** `ScanComplete` for a match at or after the point where the first step
      of the scan resumes. */
  lemma {:induction false} ScanCompleteAfter(s: string, afterWord: bool, m: string -> Option<Span>, j: nat,
                                             e: nat, aw: bool, head: seq<string>)
    requires Anchored(m)
    requires 0 < e <= j < |s| && aw == IsWordChar(s[e - 1])
    requires Scan(s, afterWord, m) == head + Scan(s[e..], aw, m)
    requires MatchAt(s, j, afterWord, m)
    ensures || CaptureAt(s, j, afterWord, m) in Scan(s, afterWord, m)
            || exists i :: 0 <= i < j && Covers(s, i, j, afterWord, m)
    decreases |s|, 0
  {
    var u: string, k: nat := s[e..], j - e;
    MatchAtSuffix(s, e, k, aw, afterWord, m);
    assert MatchAt(u, k, aw, m);
    ScanComplete(u, aw, m, k);
    if CaptureAt(u, k, aw, m) in Scan(u, aw, m) {
      InRight(CaptureAt(u, k, aw, m), head, Scan(u, aw, m));
    } else {
      var i :| 0 <= i < k && Covers(u, i, k, aw, m);
      CoversSuffix(s, e, i, k, aw, afterWord, m);
      assert 0 <= e + i < j && Covers(s, e + i, j, afterWord, m);
    }
  }
}
