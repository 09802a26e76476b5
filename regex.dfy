/** Python's `re.sub` for the patterns this add-on uses. Each pattern is given
    as an anchored matcher: applied to a suffix of the subject it says whether
    the pattern matches at its first character, how long the match is and what
    replaces it. `re.sub` then scans left to right, replacing leftmost,
    non-overlapping matches and copying every other character. */
module Regex {
  import opened Strings

  /** A match at the start of a suffix: its length and its replacement text. */
  datatype Match = Match(length: nat, replacement: string)

  type Matcher = string -> Option<Match>

  /** The matcher yields a usable, non-empty match at the start of `s`. */
  predicate MatchesAtStart(s: string, m: Matcher) {
    m(s).Some? && 1 <= m(s).value.length <= |s|
  }

  predicate MatchesAt(s: string, m: Matcher, i: nat)
    requires i <= |s|
  {
    MatchesAtStart(s[i..], m)
  }

  /** `re.sub(pattern, repl, s)`. */
  function Substitute(s: string, m: Matcher): string
    decreases |s|
  {
    if s == [] then []
    else if MatchesAtStart(s, m) then m(s).value.replacement + Substitute(s[m(s).value.length..], m)
    else [s[0]] + Substitute(s[1..], m)
  }

  /** A prefix in which no match starts is copied unchanged. */
  lemma {:induction false} SubstitutePrefix(pre: string, rest: string, m: Matcher)
    requires forall i :: 0 <= i < |pre| ==> !MatchesAt(pre + rest, m, i)
    ensures Substitute(pre + rest, m) == pre + Substitute(rest, m)
  {
    if pre != [] {
      var s := pre + rest;
      assert !MatchesAt(s, m, 0);
      assert s[0..] == s;
      assert s[1..] == pre[1..] + rest;
      forall i | 0 <= i < |pre[1..]| ensures !MatchesAt(pre[1..] + rest, m, i) {
        assert (pre[1..] + rest)[i..] == s[i + 1..];
        assert !MatchesAt(s, m, i + 1);
      }
      SubstitutePrefix(pre[1..], rest, m);
      assert [pre[0]] + pre[1..] == pre;
    } else {
      assert pre + rest == rest;
    }
  }

  /** A string in which no match starts is left unchanged. */
  lemma NoMatchIdentity(s: string, m: Matcher)
    requires forall i :: 0 <= i < |s| ==> !MatchesAt(s, m, i)
    ensures Substitute(s, m) == s
  {
    assert s + [] == s;
    SubstitutePrefix(s, [], m);
  }

  /** When every match begins with `c`, a prefix without `c` is copied. */
  lemma SubstituteSkip(pre: string, rest: string, m: Matcher, c: char)
    requires forall t :: MatchesAtStart(t, m) ==> t[0] == c
    requires c !in pre
    ensures Substitute(pre + rest, m) == pre + Substitute(rest, m)
  {
    forall i | 0 <= i < |pre| ensures !MatchesAt(pre + rest, m, i) {
      assert (pre + rest)[i..][0] == pre[i];
    }
    SubstitutePrefix(pre, rest, m);
  }

  /** When every match begins with `p`, a text without `p` is left as it is. */
  lemma SubstituteAbsent(s: string, m: Matcher, p: string)
    requires forall t :: MatchesAtStart(t, m) ==> StartsWith(t, p)
    requires !Contains(s, p)
    ensures Substitute(s, m) == s
  {
    forall i | 0 <= i < |s| ensures !MatchesAt(s, m, i) {
      if MatchesAt(s, m, i) {
        assert s[i..][..|p|] == s[i..i + |p|];
        ContainsAt(s, p, i);
      }
    }
    NoMatchIdentity(s, m);
  }

  /** A match at the start is replaced and scanning resumes after it. */
  lemma SubstituteMatch(s: string, m: Matcher)
    requires MatchesAtStart(s, m)
    ensures Substitute(s, m) == m(s).value.replacement + Substitute(s[m(s).value.length..], m)
  {
  }

  /** `SubstituteMatch` with the match given by its length and text. */
  lemma SubstituteStep(s: string, m: Matcher, n: nat, r: string)
    requires m(s) == Some(Match(n, r)) && 1 <= n <= |s|
    ensures Substitute(s, m) == r + Substitute(s[n..], m)
  {
  }

  /** A match of the whole subject leaves only its replacement. */
  lemma SubstituteWhole(s: string, m: Matcher, r: string)
    requires s != [] && m(s) == Some(Match(|s|, r))
    ensures Substitute(s, m) == r
  {
    SubstituteStep(s, m, |s|, r);
    assert s[|s|..] == [];
  }

  /** When no replacement holds the character `c` and the subject does not
      either, the result does not. */
  lemma {:induction false} SubstituteKeepsCharOut(s: string, m: Matcher, c: char)
    requires c !in s
    requires forall t :: MatchesAtStart(t, m) ==> c !in m(t).value.replacement
    ensures c !in Substitute(s, m)
    decreases |s|
  {
    if s != [] {
      if MatchesAtStart(s, m) {
        SubstituteKeepsCharOut(s[m(s).value.length..], m, c);
      } else {
        SubstituteKeepsCharOut(s[1..], m, c);
      }
    }
  }

  /** A pattern that contains its first character only at index 0 cannot
      occur again before it has ended: an occurrence at `i` and one at `j`
      with `i < j < i + |p|` are impossible. */
  lemma NoSelfOverlap(s: string, p: string, i: nat, j: nat)
    requires p != [] && forall k :: 0 < k < |p| ==> p[k] != p[0]
    requires OccursAt(s, p, i) && i < j < i + |p|
    ensures !OccursAt(s, p, j)
  {
    assert s[i..i + |p|][j - i] == s[j] != p[0];
    assert j + |p| <= |s| ==> s[j..j + |p|][0] == s[j];
  }
}
