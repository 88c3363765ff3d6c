/**
  Character and string primitives of Python's `str`, restricted to ASCII:
  `str.lower`, `str.isspace` (which is also what the regex class `\s` matches),
  the regex word class `\w`, `str.strip()` and `str.count`.
 */
module Text {

  /** Python's whitespace on ASCII: tab, line feed, vertical tab, form feed,
      carriage return, the four information separators 0x1C-0x1F, and space. */
  predicate IsSpace(c: char) {
    (9 <= c as int <= 13) || (28 <= c as int <= 32)
  }

  predicate IsUpper(c: char) {
    'A' <= c <= 'Z'
  }

  predicate IsLowerLetter(c: char) {
    'a' <= c <= 'z'
  }

  /** The regex word class `\w` on ASCII, which is also `[A-Za-z0-9_]`. */
  predicate IsWordChar(c: char) {
    IsUpper(c) || IsLowerLetter(c) || ('0' <= c <= '9') || c == '_'
  }

  /** `str.lower` on one character: only ASCII capitals change. */
  function Lower(c: char): (r: char)
    ensures !IsUpper(r)
    ensures IsUpper(c) ==> IsLowerLetter(r) && r as int == c as int + 32
    ensures !IsUpper(c) ==> r == c
  {
    if IsUpper(c) then (c as int + 32) as char else c
  }

  /** `str.lower` on a string: each ASCII capital becomes its lower-case
      letter and every other character is kept, so the result has no
      capitals, and a string without capitals is its own lower case. */
  function LowerStr(s: string): (r: string)
    ensures |r| == |s|
    ensures forall i :: 0 <= i < |s| ==> r[i] == Lower(s[i])
    ensures NoUpper(r)
    ensures NoUpper(s) ==> r == s
  {
    seq(|s|, i requires 0 <= i < |s| => Lower(s[i]))
  }

  predicate AllSpace(s: string) {
    forall i :: 0 <= i < |s| ==> IsSpace(s[i])
  }

  predicate NoUpper(s: string) {
    forall i :: 0 <= i < |s| ==> !IsUpper(s[i])
  }

  /** Lower-casing a string is idempotent, and a string without capitals is its own lower case. */
  lemma LowerStrIdempotent(s: string)
    ensures NoUpper(LowerStr(s))
    ensures LowerStr(LowerStr(s)) == LowerStr(s)
    ensures NoUpper(s) ==> LowerStr(s) == s
  {
  }

  /** A factor of a string without capitals has none either. */
  lemma NoUpperFactor(s: string, a: nat, b: nat)
    requires a <= b <= |s| && NoUpper(s)
    ensures NoUpper(s[a..b])
  {
    forall k | 0 <= k < b - a
      ensures !IsUpper(s[a..b][k])
    {
      assert s[a..b][k] == s[a + k];
    }
  }

  lemma LowerStrAppend(a: string, b: string)
    ensures LowerStr(a + b) == LowerStr(a) + LowerStr(b)
  {
  }

  /** Index of the first non-whitespace character at or after `i`. */
  function SkipSpace(s: string, i: nat): (e: nat)
    requires i <= |s|
    ensures i <= e <= |s|
    ensures AllSpace(s[i..e])
    ensures e == |s| || !IsSpace(s[e])
    decreases |s| - i
  {
    if i == |s| || !IsSpace(s[i]) then i else SkipSpace(s, i + 1)
  }

  /** One past the last non-whitespace character at or before `j`. */
  function TrimEnd(s: string, i: nat, j: nat): (e: nat)
    requires i <= j <= |s|
    ensures i <= e <= j
    ensures AllSpace(s[e..j])
    ensures e == i || !IsSpace(s[e - 1])
    decreases j
  {
    if j == i || !IsSpace(s[j - 1]) then j
    else
      var e := TrimEnd(s, i, j - 1);
      assert s[e..j] == s[e..j - 1] + [s[j - 1]];
      e
  }

  /** `str.strip()` with no argument: remove leading and trailing whitespace.
      What is kept neither starts nor ends with whitespace, and nothing is
      kept exactly when `s` is all whitespace (`StripFactor` and
      `StripUnique` pin down which factor is kept). */
  function Strip(s: string): (r: string)
    ensures r == [] || (!IsSpace(r[0]) && !IsSpace(r[|r| - 1]))
    ensures AllSpace(s) <==> r == []
  {
    var a := SkipSpace(s, 0);
    var b := TrimEnd(s, a, |s|);
    if a == |s| then
      assert s == s[0..a];
      s[a..b]
    else
      assert s[a..|s|][0] == s[a];
      assert !AllSpace(s) by { assert !IsSpace(s[a]); }
      s[a..b]
  }

  /** What `strip()` keeps is a factor of `s` with only whitespace before
      and after it. */
  lemma StripFactor(s: string)
    ensures exists a, b :: 0 <= a <= b <= |s| && Strip(s) == s[a..b] && AllSpace(s[..a]) && AllSpace(s[b..])
  {
    var a := SkipSpace(s, 0);
    var b := TrimEnd(s, a, |s|);
    assert s[..a] == s[0..a];
    assert s[b..] == s[b..|s|];
  }

  /** `str.strip()` is determined by where the kept factor starts and ends:
      whitespace before and after it, and a non-whitespace character at each
      of its ends. */
  lemma StripUnique(s: string, a: nat, b: nat)
    requires a <= b <= |s|
    requires AllSpace(s[..a]) && AllSpace(s[b..])
    requires a < b ==> !IsSpace(s[a]) && !IsSpace(s[b - 1])
    requires a == b ==> AllSpace(s)
    ensures Strip(s) == s[a..b]
  {
    if a < b {
      forall k | 0 <= k < a
        ensures IsSpace(s[k])
      {
        assert s[..a][k] == s[k];
      }
      forall k | b <= k < |s|
        ensures IsSpace(s[k])
      {
        assert s[b..][k - b] == s[k];
      }
      SkipSpaceAt(s, 0, a);
      TrimEndAt(s, a, |s|, b);
    }
  }

  /** `SkipSpace` stops at the first non-whitespace character. */
  lemma {:induction false} SkipSpaceAt(s: string, i: nat, a: nat)
    requires i <= a <= |s|
    requires forall k :: i <= k < a ==> IsSpace(s[k])
    requires a == |s| || !IsSpace(s[a])
    ensures SkipSpace(s, i) == a
    decreases a - i
  {
    if i < a {
      SkipSpaceAt(s, i + 1, a);
    }
  }

  /** `TrimEnd` stops after the last non-whitespace character. */
  lemma {:induction false} TrimEndAt(s: string, i: nat, j: nat, b: nat)
    requires i <= b <= j <= |s|
    requires forall k :: b <= k < j ==> IsSpace(s[k])
    requires b == i || !IsSpace(s[b - 1])
    ensures TrimEnd(s, i, j) == b
    decreases j - b
  {
    if b < j {
      TrimEndAt(s, i, j - 1, b);
    }
  }

  lemma AllSpaceAppend(u: string, v: string)
    ensures AllSpace(u + v) <==> AllSpace(u) && AllSpace(v)
  {
    if AllSpace(u + v) {
      forall k | 0 <= k < |u|
        ensures IsSpace(u[k])
      {
        assert (u + v)[k] == u[k];
      }
      forall k | 0 <= k < |v|
        ensures IsSpace(v[k])
      {
        assert (u + v)[|u| + k] == v[k];
      }
    }
    if AllSpace(u) && AllSpace(v) {
      forall k | 0 <= k < |u + v|
        ensures IsSpace((u + v)[k])
      {
        if k < |u| {
          assert (u + v)[k] == u[k];
        } else {
          assert (u + v)[k] == v[k - |u|];
        }
      }
    }
  }

  lemma StripPrefixed(a: string, b: string, x: nat, y: nat)
    requires AllSpace(a)
    requires x < y <= |b|
    requires AllSpace(b[..x]) && AllSpace(b[y..])
    requires !IsSpace(b[x]) && !IsSpace(b[y - 1])
    ensures Strip(a + b) == b[x..y]
  {
    var s := a + b;
    assert s[..|a| + x] == a + b[..x];
    AllSpaceAppend(a, b[..x]);
    assert s[|a| + y..] == b[y..];
    assert s[|a| + x..|a| + y] == b[x..y];
    assert s[|a| + x] == b[x] && s[|a| + y - 1] == b[y - 1];
    StripUnique(s, |a| + x, |a| + y);
  }

  /** Leading whitespace does not change what `strip()` keeps. */
  lemma StripAfterSpaces(a: string, b: string)
    requires AllSpace(a)
    ensures Strip(a + b) == Strip(b)
  {
    AllSpaceAppend(a, b);
    if !AllSpace(b) {
      var x := SkipSpace(b, 0);
      var y := TrimEnd(b, x, |b|);
      assert b[..x] == b[0..x];
      assert b[y..] == b[y..|b|];
      StripPrefixed(a, b, x, y);
    }
  }

  /** Trailing whitespace does not change what `strip()` keeps. */
  lemma StripBeforeSpaces(b: string, a: string)
    requires AllSpace(a)
    ensures Strip(b + a) == Strip(b)
  {
    var s := b + a;
    AllSpaceAppend(b, a);
    if !AllSpace(b) {
      var x := SkipSpace(b, 0);
      var y := TrimEnd(b, x, |b|);
      assert b[..x] == b[0..x] && s[..x] == b[..x];
      assert b[y..] == b[y..|b|] && s[y..] == b[y..] + a;
      AllSpaceAppend(b[y..], a);
      assert s[x..y] == b[x..y];
      assert s[x] == b[x] && s[y - 1] == b[y - 1];
      StripUnique(s, x, y);
    }
  }

  /** Number of occurrences of `c` in `s`: `s.count(c)` for a one-character `c`. */
  function Count(s: string, c: char): nat
  {
    if s == [] then 0 else (if s[0] == c then 1 else 0) + Count(s[1..], c)
  }

  lemma {:induction false} CountAppend(a: string, b: string, c: char)
    ensures Count(a + b, c) == Count(a, c) + Count(b, c)
  {
    if a == [] {
      assert a + b == b;
    } else {
      assert (a + b)[1..] == a[1..] + b;
      CountAppend(a[1..], b, c);
    }
  }

  /** `c in s` holds exactly when `s.count(c)` is positive. */
  lemma {:induction false} CountPositive(s: string, c: char)
    ensures Count(s, c) > 0 <==> c in s
  {
    if s != [] {
      CountPositive(s[1..], c);
      assert s == [s[0]] + s[1..];
    }
  }

  lemma AppendAssoc<T>(a: seq<T>, b: seq<T>, c: seq<T>)
    ensures (a + b) + c == a + (b + c)
  {
  }

  lemma DropAppend(x: string, y: string, e: nat)
    requires e <= |x|
    ensures (x + y)[e..] == x[e..] + y
  {
  }

  lemma SliceOfAppend(x: string, y: string, a: nat, b: nat)
    requires a <= b <= |x|
    ensures (x + y)[a..b] == x[a..b]
  {
  }

  /** `c` does not occur in `s`, stated position by position. */
  predicate Without(s: string, c: char) {
    forall k :: 0 <= k < |s| ==> s[k] != c
  }

  lemma WithoutNotIn(s: string, c: char)
    ensures Without(s, c) <==> c !in s
  {
    if !Without(s, c) {
      var k :| 0 <= k < |s| && s[k] == c;
      assert s[k] in s;
    }
  }

  lemma WithoutAppend(a: string, b: string, c: char)
    requires Without(a, c) && Without(b, c)
    ensures Without(a + b, c)
  {
    forall k | 0 <= k < |a + b|
      ensures (a + b)[k] != c
    {
      if k < |a| {
        assert (a + b)[k] == a[k];
      } else {
        assert (a + b)[k] == b[k - |a|];
      }
    }
  }

  /** `x` occurs in `s` starting at position `i`. */
  predicate OccursAt(s: string, i: nat, x: string) {
    i + |x| <= |s| && forall k :: 0 <= k < |x| ==> s[i + k] == x[k]
  }

  /** Python's `s.startswith(p)`. */
  predicate HasPrefix(s: string, p: string) {
    OccursAt(s, 0, p)
  }

  /** Python's `x in s` for strings: `x` occurs as a contiguous factor of `s`. */
  predicate Contains(s: string, x: string) {
    exists i :: 0 <= i <= |s| && OccursAt(s, i, x)
  }
}
