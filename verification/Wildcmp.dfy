/** The wildcard matcher that selects test cases and subcases by name. */
module Wildcmp {

  const NUL := '\0'

  /** A C string without its terminator. */
  ghost predicate CString(s: seq<char>) {
    NUL !in s
  }

  /** A folding that keeps the terminator apart from every other character, as `tolower` does. */
  ghost predicate Folding(lower: char -> char) {
    forall c :: lower(c) == lower(NUL) ==> c == NUL
  }

  /** The character a pointer at index `i` reads: the terminator once the text is used up. */
  function At(s: seq<char>, i: nat): char
    requires i <= |s|
  {
    if i < |s| then s[i] else NUL
  }

  predicate SameChar(lower: char -> char, caseSensitive: bool, a: char, b: char) {
    if caseSensitive then a == b else lower(a) == lower(b)
  }

  /** The meaning of a glob: `?` is any one character, `*` any run of characters. */
  predicate Matches(lower: char -> char, cs: bool, s: seq<char>, i: nat, p: seq<char>, j: nat)
    requires i <= |s| && j <= |p|
    decreases |s| - i + |p| - j
  {
    if j == |p| then i == |s|
    else if p[j] == '*' then
      Matches(lower, cs, s, i, p, j + 1) || (i < |s| && Matches(lower, cs, s, i + 1, p, j))
    else
      i < |s| && (p[j] == '?' || SameChar(lower, cs, p[j], s[i])) && Matches(lower, cs, s, i + 1, p, j + 1)
  }

  /** A way to lay the pattern over the text: `cuts[j]` is where the part matched by `p[j]` starts. */
  ghost predicate Alignment(lower: char -> char, cs: bool, s: seq<char>, p: seq<char>, cuts: seq<nat>) {
    && |cuts| == |p| + 1 && cuts[0] == 0 && cuts[|p|] == |s|
    && forall j :: 0 <= j < |p| ==> Fits(lower, cs, s, p[j], cuts, j)
  }

  /**
   * Pattern character `c` accounts for the text between `cuts[j]` and `cuts[j + 1]`: for any of it if it is a star, else for
   * one character, which is any if it is a question mark, else `c` itself, or one with the same folding if case is ignored.
   */
  ghost predicate Fits(lower: char -> char, cs: bool, s: seq<char>, c: char, cuts: seq<nat>, j: nat)
    requires j + 1 < |cuts|
  {
    && cuts[j] <= cuts[j + 1] <= |s|
    && (c != '*' ==> cuts[j + 1] == cuts[j] + 1)
    && (c != '*' && c != '?' && cs ==> s[cuts[j]] == c)
    && (c != '*' && c != '?' && !cs ==> lower(s[cuts[j]]) == lower(c))
  }

  /** The recursive meaning says exactly that the text can be cut up along the pattern. */
  lemma MatchIsAlignment(lower: char -> char, cs: bool, s: seq<char>, p: seq<char>)
    ensures Matches(lower, cs, s, 0, p, 0) <==> exists cuts :: Alignment(lower, cs, s, p, cuts)
  {
    if Matches(lower, cs, s, 0, p, 0) {
      var cuts := CutsOfMatch(lower, cs, s, p, [0]);
      assert Alignment(lower, cs, s, p, cuts);
    }
    if cuts :| Alignment(lower, cs, s, p, cuts) {
      MatchOfCuts(lower, cs, s, p, cuts, 0);
    }
  }

  lemma {:induction false} CutsOfMatch(lower: char -> char, cs: bool, s: seq<char>, p: seq<char>, done: seq<nat>)
      returns (cuts: seq<nat>)
    requires 0 < |done| <= |p| + 1 && done[0] == 0 && done[|done| - 1] <= |s|
    requires forall j :: 0 <= j < |done| - 1 ==> Fits(lower, cs, s, p[j], done, j)
    requires Matches(lower, cs, s, done[|done| - 1], p, |done| - 1)
    ensures Alignment(lower, cs, s, p, cuts)
    decreases |p| + 1 - |done|
  {
    var i, j := done[|done| - 1], |done| - 1;
    if j == |p| {
      cuts := done;
    } else {
      var k := i + 1;
      if p[j] == '*' {
        k := StarSplits(lower, cs, s, i, p, j);
      }
      forall l | 0 <= l < j
        ensures Fits(lower, cs, s, p[l], done + [k], l)
      {
        assert Fits(lower, cs, s, p[l], done, l);
      }
      cuts := CutsOfMatch(lower, cs, s, p, done + [k]);
    }
  }

  lemma {:induction false} MatchOfCuts(
      lower: char -> char, cs: bool, s: seq<char>, p: seq<char>, cuts: seq<nat>, j: nat)
    requires Alignment(lower, cs, s, p, cuts) && j <= |p| && cuts[j] <= |s|
    ensures Matches(lower, cs, s, cuts[j], p, j)
    decreases |p| - j
  {
    if j < |p| {
      assert Fits(lower, cs, s, p[j], cuts, j);
      MatchOfCuts(lower, cs, s, p, cuts, j + 1);
      if p[j] == '*' {
        StarFillsGap(lower, cs, s, cuts[j], cuts[j + 1], p, j);
      }
    }
  }

  lemma {:induction false} StarFillsGap(lower: char -> char, cs: bool, s: seq<char>, i: nat, k: nat, p: seq<char>, j: nat)
    requires i <= k <= |s| && j < |p| && p[j] == '*' && Matches(lower, cs, s, k, p, j + 1)
    ensures Matches(lower, cs, s, i, p, j)
    decreases k - i
  {
    if i < k {
      StarFillsGap(lower, cs, s, i + 1, k, p, j);
    }
  }

  /** The n-th cut is n as long as there is no star. */
  lemma {:induction false} CutsAreEven(lower: char -> char, cs: bool, s: seq<char>, p: seq<char>, cuts: seq<nat>, n: nat)
    requires Alignment(lower, cs, s, p, cuts) && n <= |p| && '*' !in p
    ensures cuts[n] == n
  {
    if n > 0 {
      CutsAreEven(lower, cs, s, p, cuts, n - 1);
      assert Fits(lower, cs, s, p[n - 1], cuts, n - 1);
    }
  }

  /** A pattern without wildcards matches itself alone, or, if case is ignored, what has the same folding. */
  lemma PlainPattern(lower: char -> char, cs: bool, s: seq<char>, p: seq<char>)
    requires '*' !in p && '?' !in p
    ensures Matches(lower, cs, s, 0, p, 0) <==>
              if cs then p == s else |p| == |s| && forall i :: 0 <= i < |p| ==> lower(p[i]) == lower(s[i])
  {
    MatchIsAlignment(lower, cs, s, p);
    if cuts :| Alignment(lower, cs, s, p, cuts) {
      CutsAreEven(lower, cs, s, p, cuts, |p|);
      forall i | 0 <= i < |p|
        ensures if cs then p[i] == s[i] else lower(p[i]) == lower(s[i])
      {
        CutsAreEven(lower, cs, s, p, cuts, i);
        assert Fits(lower, cs, s, p[i], cuts, i);
      }
    }
    if |p| == |s| && forall i :: 0 <= i < |p| ==> if cs then p[i] == s[i] else lower(p[i]) == lower(s[i]) {
      var cuts := seq(|p| + 1, i requires 0 <= i => i as nat);
      forall j | 0 <= j < |p|
        ensures Fits(lower, cs, s, p[j], cuts, j)
      {
        assert p[j] in p;
      }
      assert Alignment(lower, cs, s, p, cuts);
    }
  }

  ghost predicate StarFree(p: seq<char>, lo: nat, hi: nat)
    requires lo <= hi <= |p|
  {
    forall k :: lo <= k < hi ==> p[k] != '*'
  }

  /** A star absorbs any text in front of a match. */
  lemma {:induction false} StarAbsorbs(lower: char -> char, cs: bool, s: seq<char>, i: nat, k: nat, p: seq<char>, j: nat)
    requires i <= k <= |s| && j < |p| && p[j] == '*'
    requires Matches(lower, cs, s, k, p, j)
    ensures Matches(lower, cs, s, i, p, j)
    decreases k - i
  {
    if i < k {
      StarAbsorbs(lower, cs, s, i + 1, k, p, j);
    }
  }

  /** A star-free stretch of pattern consumes exactly its own length of text. */
  lemma {:induction false} StarFreeAdvances(
      lower: char -> char, cs: bool, s: seq<char>, i: nat, p: seq<char>, lo: nat, hi: nat)
    requires i <= |s| && lo <= hi <= |p| && StarFree(p, lo, hi)
    requires Matches(lower, cs, s, i, p, lo)
    ensures i + (hi - lo) <= |s|
    ensures Matches(lower, cs, s, i + (hi - lo), p, hi)
    decreases hi - lo
  {
    if lo < hi {
      StarFreeAdvances(lower, cs, s, i + 1, p, lo + 1, hi);
    }
  }

  /** What a match through a star means: the rest of the pattern matches at some later point. */
  lemma {:induction false} StarSplits(lower: char -> char, cs: bool, s: seq<char>, i: nat, p: seq<char>, j: nat) returns (k: nat)
    requires i <= |s| && j < |p| && p[j] == '*'
    requires Matches(lower, cs, s, i, p, j)
    ensures i <= k <= |s| && Matches(lower, cs, s, k, p, j + 1)
    decreases |s| - i
  {
    if Matches(lower, cs, s, i, p, j + 1) {
      k := i;
    } else {
      k := StarSplits(lower, cs, s, i + 1, p, j);
    }
  }

  /** Why only the last star matters: once a second star is reached, no later restart of the first helps. */
  lemma LastStarSuffices(
      lower: char -> char, cs: bool, s: seq<char>, str: nat, cp: nat, p: seq<char>, mp: nat, wild: nat)
    requires 0 < mp <= wild < |p| && p[mp - 1] == '*' && p[wild] == '*' && StarFree(p, mp, wild)
    requires 0 < cp <= |s| && str <= |s| && str == cp - 1 + (wild - mp)
    requires Matches(lower, cs, s, cp, p, mp - 1)
    ensures Matches(lower, cs, s, str, p, wild)
  {
    var k := StarSplits(lower, cs, s, cp, p, mp - 1);
    StarFreeAdvances(lower, cs, s, k, p, mp, wild);
    StarAbsorbs(lower, cs, s, str, k + (wild - mp), p, wild);
  }

  /** A later restart cannot help once the current attempt has used up the text. */
  lemma RestartTooLate(
      lower: char -> char, cs: bool, s: seq<char>, cp: nat, p: seq<char>, mp: nat, wild: nat)
    requires 0 < mp <= wild <= |p| && p[mp - 1] == '*' && StarFree(p, mp, wild)
    requires 0 < cp <= |s| && |s| == cp - 1 + (wild - mp)
    ensures !Matches(lower, cs, s, cp, p, mp - 1)
  {
    if Matches(lower, cs, s, cp, p, mp - 1) {
      var k := StarSplits(lower, cs, s, cp, p, mp - 1);
      StarFreeAdvances(lower, cs, s, k, p, mp, wild);
    }
  }

  /** A trailing star matches whatever is left. */
  lemma {:induction false} TrailingStar(lower: char -> char, cs: bool, s: seq<char>, i: nat, p: seq<char>, j: nat)
    requires i <= |s| && j + 1 == |p| && p[j] == '*'
    ensures Matches(lower, cs, s, i, p, j)
    decreases |s| - i
  {
    if i < |s| {
      TrailingStar(lower, cs, s, i + 1, p, j);
    }
  }

  /** The iterative matcher. It remembers one restart point, the last star it passed, and is still exact. */
  method WildCmp(lower: char -> char, s: seq<char>, p: seq<char>, caseSensitive: bool) returns (matched: bool)
    requires CString(s) && CString(p) && Folding(lower)
    ensures matched <==> Matches(lower, caseSensitive, s, 0, p, 0)
    ensures matched <==> exists cuts :: Alignment(lower, caseSensitive, s, p, cuts)
  {
    MatchIsAlignment(lower, caseSensitive, s, p);
    var str, wild := 0, 0;
    while At(s, str) != NUL && At(p, wild) != '*'
      invariant str <= |s| && wild <= |p|
      invariant Matches(lower, caseSensitive, s, str, p, wild) == Matches(lower, caseSensitive, s, 0, p, 0)
      decreases |s| - str
    {
      if !SameChar(lower, caseSensitive, At(p, wild), At(s, str)) && At(p, wild) != '?' {
        return false;
      }
      wild := wild + 1;
      str := str + 1;
    }
    var cp, mp := 0, 0;
    while At(s, str) != NUL
      invariant str <= |s| && wild <= |p|
      invariant mp == 0 ==>
        (At(s, str) != NUL ==> At(p, wild) == '*') &&
        Matches(lower, caseSensitive, s, str, p, wild) == Matches(lower, caseSensitive, s, 0, p, 0)
      invariant mp > 0 ==>
        && mp <= wild && p[mp - 1] == '*' && StarFree(p, mp, wild)
        && 0 < cp <= str + 1 && str == cp - 1 + (wild - mp)
        && (Matches(lower, caseSensitive, s, 0, p, 0) <==>
             Matches(lower, caseSensitive, s, str, p, wild) ||
             (cp <= |s| && Matches(lower, caseSensitive, s, cp, p, mp - 1)))
      decreases |p| - mp, |s| - cp, |s| - str
    {
      if At(p, wild) == '*' {
        if mp > 0 && Matches(lower, caseSensitive, s, cp, p, mp - 1) {
          LastStarSuffices(lower, caseSensitive, s, str, cp, p, mp, wild);
        }
        wild := wild + 1;
        if At(p, wild) == NUL {
          TrailingStar(lower, caseSensitive, s, str, p, wild - 1);
          return true;
        }
        mp := wild;
        cp := str + 1;
      } else if SameChar(lower, caseSensitive, At(p, wild), At(s, str)) || At(p, wild) == '?' {
        wild := wild + 1;
        str := str + 1;
      } else {
        wild := mp;
        str := cp;
        cp := cp + 1;
      }
    }
    if mp > 0 && cp <= |s| {
      RestartTooLate(lower, caseSensitive, s, cp, p, mp, wild);
    }
    ghost var end := wild;
    while At(p, wild) == '*'
      invariant wild <= |p|
      invariant Matches(lower, caseSensitive, s, str, p, wild) == Matches(lower, caseSensitive, s, str, p, end)
      decreases |p| - wild
    {
      wild := wild + 1;
    }
    return At(p, wild) == NUL;
  }
}
