/** The wildcard matcher of the vendored test framework (src/Utils/doctest.h:4061-4106). */
module Wildcards {

  /** A C string: its characters, none of them NUL. */
  predicate CString(s: string) { '\0' !in s }

  /** Dereferencing a pointer into a C string. */
  function At(s: string, i: nat): char { if i < |s| then s[i] else '\0' }

  function ToLower(c: char): char {
    if 'A' <= c <= 'Z' then (c as int + 32) as char else c
  }

  predicate SameChar(a: char, b: char, caseSensitive: bool) {
    if caseSensitive then a == b else ToLower(a) == ToLower(b)
  }

  /** Case counts exactly in the one mode: otherwise a letter is as good as its other case. */
  lemma CaseCounts(a: char, b: char)
    ensures SameChar(a, b, true) <==> a == b
    ensures SameChar(a, b, false) <==>
      || a == b
      || ('A' <= a <= 'Z' && b as int == a as int + 32)
      || ('A' <= b <= 'Z' && a as int == b as int + 32)
  {
  }

  /** What matching means: `*` stands for any characters, `?` for one, anything else for itself. */
  predicate Matches(s: string, p: string, cs: bool)
    decreases |p|, |s|
  {
    if p == "" then s == ""
    else if p[0] == '*' then
      Matches(s, p[1..], cs) || (s != "" && Matches(s[1..], p, cs))
    else
      s != "" && (p[0] == '?' || SameChar(p[0], s[0], cs)) && Matches(s[1..], p[1..], cs)
  }

  /** A star matches exactly when the rest of the pattern matches some suffix. */
  lemma {:induction false} StarMeansSuffix(s: string, p: string, cs: bool)
    requires p != "" && p[0] == '*'
    ensures Matches(s, p, cs) <==> exists k :: 0 <= k <= |s| && Matches(s[k..], p[1..], cs)
    decreases |s|
  {
    assert s[0..] == s;
    if s != "" {
      StarMeansSuffix(s[1..], p, cs);
      if Matches(s[1..], p, cs) {
        var k :| 0 <= k <= |s[1..]| && Matches(s[1..][k..], p[1..], cs);
        assert s[1..][k..] == s[k + 1..];
      }
      forall k | 0 < k <= |s| && Matches(s[k..], p[1..], cs)
        ensures Matches(s, p, cs)
      {
        assert s[1..][k - 1..] == s[k..];
      }
    }
  }

  /** A star can take in more: what matches a suffix matches every longer one. */
  lemma StarAbsorbs(s: string, p: string, i: nat, j: nat, cs: bool)
    requires i <= j <= |s| && p != "" && p[0] == '*' && Matches(s[j..], p, cs)
    ensures Matches(s[i..], p, cs)
  {
    StarMeansSuffix(s[j..], p, cs);
    var k :| 0 <= k <= |s[j..]| && Matches(s[j..][k..], p[1..], cs);
    assert s[j..][k..] == s[i..][j - i + k..];
    StarMeansSuffix(s[i..], p, cs);
  }

  /** The characters that the current attempt has matched, one by one and without a star. */
  predicate Aligned(s: string, p: string, i: nat, m: nat, n: nat, cs: bool)
    requires i + n <= |s| && m + n <= |p|
  {
    forall k :: m <= k < m + n ==>
      p[k] != '*' && (p[k] == '?' || SameChar(p[k], s[i + k - m], cs))
  }

  lemma {:induction false} AlignedSkips(s: string, p: string, i: nat, m: nat, n: nat, cs: bool)
    requires i + n <= |s| && m + n <= |p| && Aligned(s, p, i, m, n, cs)
    ensures Matches(s[i..], p[m..], cs) <==> Matches(s[i + n..], p[m + n..], cs)
    decreases n
  {
    if n > 0 {
      assert s[i..][1..] == s[i + 1..] && p[m..][1..] == p[m + 1..];
      assert p[m] != '*' && (p[m] == '?' || SameChar(p[m], s[i + m - m], cs));
      AlignedSkips(s, p, i + 1, m + 1, n - 1, cs);
    }
  }

  /** A pattern whose first `n` characters are no stars uses up `n` characters of the string. */
  lemma {:induction false} PlainUsesOne(s: string, p: string, m: nat, n: nat, cs: bool)
    requires m + n <= |p| && (forall k :: m <= k < m + n ==> p[k] != '*')
    requires Matches(s, p[m..], cs)
    ensures n <= |s| && Matches(s[n..], p[m + n..], cs)
    decreases n
  {
    if n > 0 {
      assert p[m..][1..] == p[m + 1..];
      PlainUsesOne(s[1..], p, m + 1, n - 1, cs);
      assert s[1..][n - 1..] == s[n..];
    } else {
      assert s[0..] == s;
    }
  }

  /** At a new star only the current attempt needs to be pursued. */
  lemma NewStarSuffices(s: string, p: string, cp: nat, mp: nat, n: nat, cs: bool)
    requires cp + n <= |s| && 0 < mp && mp + n < |p| && p[mp - 1] == '*' && p[mp + n] == '*'
    requires Aligned(s, p, cp, mp, n, cs)
    ensures Matches(s[cp..], p[mp - 1..], cs) <==> Matches(s[cp + n..], p[mp + n..], cs)
  {
    assert p[mp - 1..][1..] == p[mp..];
    StarMeansSuffix(s[cp..], p[mp - 1..], cs);
    AlignedSkips(s, p, cp, mp, n, cs);
    assert s[cp..][0..] == s[cp..];
    if Matches(s[cp..], p[mp - 1..], cs) {
      var k :| 0 <= k <= |s[cp..]| && Matches(s[cp..][k..], p[mp..], cs);
      PlainUsesOne(s[cp..][k..], p, mp, n, cs);
      assert s[cp..][k..][n..] == s[cp + n + k..];
      StarAbsorbs(s, p[mp + n..], cp + n, cp + n + k, cs);
    }
  }

  /** After a mismatch the attempt starts one character further on. */
  lemma NextAttempt(s: string, p: string, cp: nat, mp: nat, n: nat, cs: bool)
    requires cp + n < |s| && 0 < mp && mp + n <= |p| && p[mp - 1] == '*'
    requires Aligned(s, p, cp, mp, n, cs) && !Matches(s[cp + n..], p[mp + n..], cs)
    ensures Matches(s[cp..], p[mp - 1..], cs) <==> Matches(s[cp + 1..], p[mp - 1..], cs)
  {
    AlignedSkips(s, p, cp, mp, n, cs);
    assert p[mp - 1..][1..] == p[mp..] && s[cp..][1..] == s[cp + 1..];
  }

  /** A trailing star matches everything. */
  lemma TrailingStar(s: string, p: string, m: nat, cs: bool)
    requires m + 1 == |p| && p[m] == '*'
    ensures Matches(s, p[m..], cs)
  {
    StarMeansSuffix(s, p[m..], cs);
    assert p[m..][1..] == "" && s[|s|..] == "";
  }

  /** With the string used up, only stars may be left. */
  lemma {:induction false} OnlyStarsLeft(p: string, m: nat, n: nat, cs: bool)
    requires m <= n <= |p| && (forall k :: m <= k < n ==> p[k] == '*')
    requires n < |p| ==> p[n] != '*'
    ensures Matches("", p[m..], cs) <==> n == |p|
    decreases n - m
  {
    if m < n {
      assert p[m..][1..] == p[m + 1..];
      OnlyStarsLeft(p, m + 1, n, cs);
    }
  }

  lemma StepMatches(s: string, p: string, i: nat, m: nat, cs: bool)
    requires i < |s| && m <= |p| && (m < |p| ==> p[m] != '*')
    ensures Matches(s[i..], p[m..], cs)
       <==> m < |p| && (p[m] == '?' || SameChar(p[m], s[i], cs))
            && Matches(s[i + 1..], p[m + 1..], cs)
  {
    assert s[i..][1..] == s[i + 1..];
    if m < |p| { assert p[m..][1..] == p[m + 1..]; }
  }

  /** The loop backtracks to the last star only, and still decides matching. */
  method WildCmp(str: string, wild: string, caseSensitive: bool) returns (r: bool)
    requires CString(str) && CString(wild)
    ensures r <==> Matches(str, wild, caseSensitive)
  {
    var s, w := 0, 0;  // the pointers str and wild
    assert str[0..] == str && wild[0..] == wild;
    while s < |str| && At(wild, w) != '*'
      invariant 0 <= s <= |str| && 0 <= w <= |wild|
      invariant Matches(str, wild, caseSensitive) <==> Matches(str[s..], wild[w..], caseSensitive)
      decreases |str| - s
    {
      StepMatches(str, wild, s, w, caseSensitive);
      if !SameChar(At(wild, w), str[s], caseSensitive) && At(wild, w) != '?' {
        return false;
      }
      w, s := w + 1, s + 1;
    }

    r := FromStar(str, wild, s, w, caseSensitive);
  }

  /** The attempt since the last star: it began at `start`, the pattern behind the star is at
      `mp`, and the two pointers have moved on together. */
  predicate Attempt(str: string, wild: string, start: nat, mp: nat, s: nat, w: nat, cs: bool) {
    && 0 < mp <= w <= |wild| && wild[mp - 1] == '*' && mp < |wild|
    && start <= s <= |str| && s - start == w - mp
    && Aligned(str, wild, start, mp, w - mp, cs)
  }

  lemma AttemptBegins(str: string, wild: string, s: nat, mp: nat, cs: bool)
    requires s <= |str| && 0 < mp < |wild| && wild[mp - 1] == '*'
    ensures Attempt(str, wild, s, mp, s, mp, cs)
  {
  }

  lemma AttemptAdvances(str: string, wild: string, start: nat, mp: nat, s: nat, w: nat, cs: bool)
    requires CString(str) && Attempt(str, wild, start, mp, s, w, cs) && s < |str|
    requires At(wild, w) != '*' && (SameChar(At(wild, w), str[s], cs) || At(wild, w) == '?')
    ensures Attempt(str, wild, start, mp, s + 1, w + 1, cs)
  {
    EndOfCString(str, s);
    assert start + w - mp == s;
  }

  /** The loops that start at the first star, or at the end of the string. */
  method FromStar(str: string, wild: string, s0: nat, w0: nat, caseSensitive: bool)
      returns (r: bool)
    requires CString(str) && CString(wild) && s0 <= |str| && w0 <= |wild|
    requires s0 < |str| ==> At(wild, w0) == '*'
    ensures r <==> Matches(str[s0..], wild[w0..], caseSensitive)
  {
    hide Matches, Aligned;
    var s, w := s0, w0;
    if s == |str| {
      assert str[s..] == "";
      r := OnlyStars(wild, w, caseSensitive);
      return;
    }
    if w + 1 == |wild| {
      TrailingStar(str[s..], wild, w, caseSensitive);
      return true;
    }
    w := w + 1;
    var mp, cp := w, s + 1;
    AttemptBegins(str, wild, s, w, caseSensitive);
    ghost var goal := Matches(str[s0..], wild[w0..], caseSensitive);
    while s < |str|
      invariant 0 <= s <= |str| && 0 < cp
      invariant Attempt(str, wild, cp - 1, mp, s, w, caseSensitive)
      invariant goal == Matches(str[cp - 1..], wild[mp - 1..], caseSensitive)
      decreases |wild| - mp, |str| + 1 - cp, |str| - s
    {
      if At(wild, w) == '*' {
        NewStarSuffices(str, wild, cp - 1, mp, w - mp, caseSensitive);
        w := w + 1;
        if At(wild, w) == '\0' {
          EndOfCString(wild, w);
          TrailingStar(str[s..], wild, w - 1, caseSensitive);
          return true;
        }
        mp, cp := w, s + 1;
        EndOfCString(wild, w);
        AttemptBegins(str, wild, s, w, caseSensitive);
      } else if SameChar(At(wild, w), str[s], caseSensitive) || At(wild, w) == '?' {
        AttemptAdvances(str, wild, cp - 1, mp, s, w, caseSensitive);
        w, s := w + 1, s + 1;
      } else {
        StepMatches(str, wild, s, w, caseSensitive);
        NextAttempt(str, wild, cp - 1, mp, w - mp, caseSensitive);
        w, s, cp := mp, cp, cp + 1;
        AttemptBegins(str, wild, s, w, caseSensitive);
      }
    }
    LastAttempt(str, wild, cp - 1, mp, w - mp, caseSensitive);
    r := OnlyStars(wild, w, caseSensitive);
  }

  lemma EndOfCString(s: string, i: nat)
    requires CString(s) && i <= |s|
    ensures At(s, i) == '\0' <==> i == |s|
  {
    if i < |s| { assert s[i] in s; }
  }

  /** The last loop: the string is used up. */
  method OnlyStars(wild: string, from: nat, caseSensitive: bool) returns (r: bool)
    requires CString(wild) && from <= |wild|
    ensures r <==> Matches("", wild[from..], caseSensitive)
  {
    var w := from;
    while At(wild, w) == '*'
      invariant from <= w <= |wild| && forall k :: from <= k < w ==> wild[k] == '*'
      decreases |wild| - w
    {
      w := w + 1;
    }
    r := At(wild, w) == '\0';
    EndOfCString(wild, w);
    OnlyStarsLeft(wild, from, w, caseSensitive);
  }

  /** An attempt that has used up the string is the last that can succeed. */
  lemma LastAttempt(s: string, p: string, cp: nat, mp: nat, n: nat, cs: bool)
    requires cp + n == |s| && 0 < mp && mp + n <= |p| && p[mp - 1] == '*'
    requires Aligned(s, p, cp, mp, n, cs)
    ensures Matches(s[cp..], p[mp - 1..], cs) <==> Matches("", p[mp + n..], cs)
  {
    assert p[mp - 1..][1..] == p[mp..] && s[cp + n..] == "";
    StarMeansSuffix(s[cp..], p[mp - 1..], cs);
    AlignedSkips(s, p, cp, mp, n, cs);
    assert s[cp..][0..] == s[cp..];
    if Matches(s[cp..], p[mp - 1..], cs) {
      var k :| 0 <= k <= |s[cp..]| && Matches(s[cp..][k..], p[mp..], cs);
      PlainUsesOne(s[cp..][k..], p, mp, n, cs);
      assert s[cp..][k..][n..] == "";
    }
  }

  /** Some filter matches, or there are none and that counts. */
  method MatchesAny(name: string, filters: seq<string>, matchEmpty: bool, caseSensitive: bool)
      returns (r: bool)
    requires CString(name) && forall f :: f in filters ==> CString(f)
    ensures r <==> (
      || (filters == [] && matchEmpty)
      || exists f :: f in filters && Matches(name, f, caseSensitive))
  {
    if filters == [] && matchEmpty { return true; }
    for i := 0 to |filters|
      invariant forall k :: 0 <= k < i ==> !Matches(name, filters[k], caseSensitive)
    {
      var hit := WildCmp(name, filters[i], caseSensitive);
      if hit { return true; }
    }
    return false;
  }
}
