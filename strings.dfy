/** The few Python `str` and `os.path` operations the add-on relies on, on
    `string` (a sequence of Unicode scalar values). */
module Strings {

  datatype Option<+T> = None | Some(value: T)

  /** A Python `bytes` element: file contents are sequences of these. */
  newtype byte = x: int | 0 <= x < 0x100

  /** Python's `str.isspace` for one character; CPython's `re` uses the same
      set for the class `\s` of a str pattern. */
  predicate IsSpace(c: char) {
    c == ' ' || c == '\t' || c == '\n' || c == '\r' || c == '\U{0B}' || c == '\U{0C}'
    || c == '\U{1C}' || c == '\U{1D}' || c == '\U{1E}' || c == '\U{1F}'
    || c == '\U{85}' || c == '\U{A0}' || c == '\U{1680}'
    || ('\U{2000}' <= c <= '\U{200A}')
    || c == '\U{2028}' || c == '\U{2029}' || c == '\U{202F}' || c == '\U{205F}' || c == '\U{3000}'
  }

  /** A string that `strip()` leaves alone. */
  predicate IsStripped(s: string) {
    s == [] || (!IsSpace(s[0]) && !IsSpace(s[|s| - 1]))
  }

  predicate AllSpace(s: string) {
    forall i :: 0 <= i < |s| ==> IsSpace(s[i])
  }

  /** First index at or after `i` that does not hold whitespace. */
  function SkipSpace(s: string, i: nat): (j: nat)
    requires i <= |s|
    ensures i <= j <= |s|
    decreases |s| - i
  {
    if i < |s| && IsSpace(s[i]) then SkipSpace(s, i + 1) else i
  }

  /** `SkipSpace` passes over whitespace only and stops at the first
      non-whitespace character. */
  lemma {:induction false} SkipSpaceSpec(s: string, i: nat)
    requires i <= |s|
    ensures var j := SkipSpace(s, i);
      (j == |s| || !IsSpace(s[j])) && forall k :: i <= k < j ==> IsSpace(s[k])
    decreases |s| - i
  {
    if i < |s| && IsSpace(s[i]) {
      SkipSpaceSpec(s, i + 1);
    }
  }

  /** Last index at or before `j` that does not follow whitespace. */
  function TrimSpace(s: string, j: nat): (i: nat)
    requires j <= |s|
    ensures i <= j
  {
    if j > 0 && IsSpace(s[j - 1]) then TrimSpace(s, j - 1) else j
  }

  /** `TrimSpace` passes back over whitespace only and stops after the last
      non-whitespace character. */
  lemma {:induction false} TrimSpaceSpec(s: string, j: nat)
    requires j <= |s|
    ensures var i := TrimSpace(s, j);
      (i == 0 || !IsSpace(s[i - 1])) && forall k :: i <= k < j ==> IsSpace(s[k])
  {
    if j > 0 && IsSpace(s[j - 1]) {
      TrimSpaceSpec(s, j - 1);
    }
  }

  /** `s.lstrip()`: the suffix left after dropping leading whitespace. */
  function LStrip(s: string): string {
    s[SkipSpace(s, 0)..]
  }

  /** `s.rstrip()`: the prefix left after dropping trailing whitespace. */
  function RStrip(s: string): string {
    s[..TrimSpace(s, |s|)]
  }

  /** `s.strip()`. */
  function Strip(s: string): string {
    RStrip(LStrip(s))
  }

  /** `lstrip()` removes a run of whitespace from the front and nothing else. */
  lemma LStripSpec(s: string)
    ensures var r := LStrip(s);
      |r| <= |s| && r == s[|s| - |r|..] && (r == [] || !IsSpace(r[0])) && AllSpace(s[..|s| - |r|])
  {
    SkipSpaceSpec(s, 0);
  }

  /** `rstrip()` removes a run of whitespace from the back and nothing else. */
  lemma RStripSpec(s: string)
    ensures var r := RStrip(s);
      |r| <= |s| && r == s[..|r|] && (r == [] || !IsSpace(r[|r| - 1])) && AllSpace(s[|r|..])
  {
    TrimSpaceSpec(s, |s|);
  }

  /** `strip()` yields a stripped string, leaves a stripped string alone and
      is empty exactly on all-whitespace strings. */
  lemma StripSpec(s: string)
    ensures IsStripped(Strip(s)) && |Strip(s)| <= |s|
    ensures IsStripped(s) ==> Strip(s) == s
    ensures Strip(s) == [] <==> AllSpace(s)
  {
    var l := LStrip(s);
    var r := RStrip(l);
    LStripSpec(s);
    RStripSpec(l);
    assert r != [] ==> r[0] == l[0];
    assert AllSpace(s) ==> l == [];
    assert r == [] ==> AllSpace(l[|r|..]) && s == s[..|s| - |l|] + l;
    if IsStripped(s) && s != [] {
      assert SkipSpace(s, 0) == 0;
      assert l == s;
    }
  }

  /** A non-empty sequence is its head followed by its tail. */
  lemma HeadTail<T>(s: seq<T>)
    requires s != []
    ensures s == [s[0]] + s[1..]
  {
  }

  lemma AppendEmpty<T>(a: seq<T>)
    ensures a + [] == a
  {
  }

  lemma AppendAssoc<T>(a: seq<T>, b: seq<T>, c: seq<T>)
    ensures a + (b + c) == (a + b) + c
  {
  }

  lemma TailAppend<T>(a: seq<T>, b: seq<T>)
    requires a != []
    ensures (a + b)[0] == a[0] && (a + b)[1..] == a[1..] + b
  {
  }

  /** `strip()` only removes characters, so it adds none. */
  lemma StripKeepsCharOut(s: string, c: char)
    requires c !in s
    ensures c !in Strip(s)
  {
    var l := LStrip(s);
    LStripSpec(s);
    RStripSpec(l);
    assert l == s[|s| - |l|..];
    assert c !in l;
    assert Strip(s) == l[..|Strip(s)|];
  }

  lemma AllSpaceConcat(a: string, b: string)
    requires AllSpace(a) && AllSpace(b)
    ensures AllSpace(a + b)
  {
  }

  /** Whitespace around a stripped string is exactly what `strip()` takes away. */
  lemma StripPadded(l: string, c: string, r: string)
    requires AllSpace(l) && AllSpace(r) && IsStripped(c)
    ensures Strip(l + c + r) == c
  {
    if c == [] {
      assert l + c + r == l + r;
      AllSpaceConcat(l, r);
      StripSpec(l + r);
    } else {
      LStripPadded(l, c + r);
      assert LStrip(l + c + r) == c + r by { assert l + c + r == l + (c + r); }
      RStripPadded(c, r);
    }
  }

  lemma LStripPadded(l: string, t: string)
    requires AllSpace(l) && (t == [] || !IsSpace(t[0]))
    ensures LStrip(l + t) == t
  {
    var s := l + t;
    SkipSpaceAt(s, 0, |l|);
    assert s[|l|..] == t;
  }

  lemma RStripPadded(t: string, r: string)
    requires AllSpace(r) && t != [] && !IsSpace(t[|t| - 1])
    ensures RStrip(t + r) == t
  {
    var s := t + r;
    TrimSpaceAt(s, |s|, |t|);
    assert s[..|t|] == t;
  }

  /** `SkipSpace` stops at `m` when only whitespace lies before it. */
  lemma {:induction false} SkipSpaceAt(s: string, i: nat, m: nat)
    requires i <= m <= |s| && (m == |s| || !IsSpace(s[m]))
    requires forall k :: i <= k < m ==> IsSpace(s[k])
    ensures SkipSpace(s, i) == m
    decreases m - i
  {
    if i < m {
      SkipSpaceAt(s, i + 1, m);
    }
  }

  /** `TrimSpace` stops at `m` when only whitespace lies after it. */
  lemma {:induction false} TrimSpaceAt(s: string, j: nat, m: nat)
    requires m <= j <= |s| && (m == 0 || !IsSpace(s[m - 1]))
    requires forall k :: m <= k < j ==> IsSpace(s[k])
    ensures TrimSpace(s, j) == m
    decreases j - m
  {
    if m < j {
      TrimSpaceAt(s, j - 1, m);
    }
  }

  /** `s.split(sep)` for a one-character separator: one piece more than there
      are separators, and no piece holds the separator. */
  function Split(s: string, sep: char): (r: seq<string>)
    ensures |r| >= 1
    ensures forall k :: 0 <= k < |r| ==> sep !in r[k]
  {
    if s == [] then [[]]
    else
      assert s == [s[0]] + s[1..];
      if s[0] == sep then [[]] + Split(s[1..], sep)
      else
        var t := Split(s[1..], sep);
        [[s[0]] + t[0]] + t[1..]
  }

  /** `sep.join(parts)`. */
  function Join(sep: string, parts: seq<string>): string {
    if |parts| == 0 then []
    else if |parts| == 1 then parts[0]
    else parts[0] + sep + Join(sep, parts[1..])
  }

  /** Joining the pieces of a split with the separator gives back the string. */
  lemma {:induction false} JoinSplit(s: string, sep: char)
    ensures Join([sep], Split(s, sep)) == s
  {
    if s != [] {
      JoinSplit(s[1..], sep);
      var t := Split(s[1..], sep);
      HeadTail(s);
      if s[0] == sep {
        assert Split(s, sep) == [[]] + t;
        TailAppend([[]], t);
        assert Join([sep], [[]] + t) == [] + [sep] + Join([sep], t);
      } else {
        var r := [[s[0]] + t[0]] + t[1..];
        assert Split(s, sep) == r;
        if |t| == 1 {
          assert Join([sep], r) == [s[0]] + t[0];
        } else {
          TailAppend([[s[0]] + t[0]], t[1..]);
          var rest := Join([sep], t[1..]);
          assert Join([sep], r) == ([s[0]] + t[0]) + [sep] + rest;
          assert Join([sep], t) == t[0] + [sep] + rest;
          AppendAssoc([s[0]], t[0], [sep]);
          AppendAssoc([s[0]], t[0] + [sep], rest);
        }
      }
    }
  }

  /** Splitting a string that starts with a separator-free piece `w`. */
  lemma {:induction false} SplitPrefix(w: string, rest: string, sep: char)
    requires sep !in w
    ensures Split(w + rest, sep) == [w + Split(rest, sep)[0]] + Split(rest, sep)[1..]
  {
    if w != [] {
      assert (w + rest)[0] == w[0];
      assert (w + rest)[1..] == w[1..] + rest;
      SplitPrefix(w[1..], rest, sep);
      assert [w[0]] + (w[1..] + Split(rest, sep)[0]) == w + Split(rest, sep)[0];
    } else {
      assert w + rest == rest;
      var t := Split(rest, sep);
      assert w + t[0] == t[0];
      assert t == [t[0]] + t[1..];
    }
  }

  /** Splitting a join of separator-free pieces gives back the pieces. */
  lemma {:induction false} SplitJoin(parts: seq<string>, sep: char)
    requires |parts| >= 1
    requires forall k :: 0 <= k < |parts| ==> sep !in parts[k]
    ensures Split(Join([sep], parts), sep) == parts
  {
    if |parts| == 1 {
      SplitPrefix(parts[0], [], sep);
      assert parts[0] + [] == parts[0];
    } else {
      var rest := Join([sep], parts[1..]);
      SplitJoin(parts[1..], sep);
      assert Join([sep], parts) == parts[0] + ([sep] + rest);
      SplitPrefix(parts[0], [sep] + rest, sep);
      assert ([sep] + rest)[1..] == rest;
      assert Split([sep] + rest, sep) == [[]] + parts[1..];
      assert parts[0] + [] == parts[0];
    }
  }

  /** A join of pieces and a separator free of `c` is free of `c`. */
  lemma {:induction false} JoinKeepsCharOut(sep: string, parts: seq<string>, c: char)
    requires c !in sep && forall k :: 0 <= k < |parts| ==> c !in parts[k]
    ensures c !in Join(sep, parts)
    decreases |parts|
  {
    if |parts| > 1 {
      JoinKeepsCharOut(sep, parts[1..], c);
    }
  }

  /** Joining one more part appends the separator and the part. */
  lemma {:induction false} JoinAppend(sep: string, parts: seq<string>, x: string)
    requires parts != []
    ensures Join(sep, parts + [x]) == Join(sep, parts) + sep + x
    decreases |parts|
  {
    TailAppend(parts, [x]);
    if |parts| > 1 {
      JoinAppend(sep, parts[1..], x);
      var rest := Join(sep, parts[1..]);
      AppendAssoc(parts[0] + sep, rest, sep + x);
      AppendAssoc(parts[0] + sep + rest, sep, x);
      AppendAssoc(rest, sep, x);
    } else {
      assert parts + [x] == [parts[0], x];
    }
  }

  /** A trailing separator opens one more, empty, piece. */
  lemma SplitAppendSep(s: string, sep: char)
    ensures Split(s + [sep], sep) == Split(s, sep) + [[]]
  {
    var ps := Split(s, sep);
    JoinSplit(s, sep);
    JoinAppend([sep], ps, []);
    assert Join([sep], ps) + [sep] + [] == s + [sep];
    SplitJoin(ps + [[]], sep);
  }

  /** `k` empty strings. */
  function Blanks(k: nat): (r: seq<string>)
    ensures |r| == k
  {
    if k == 0 then [] else [[]] + Blanks(k - 1)
  }

  /** `k` trailing separators open `k` empty pieces. */
  lemma {:induction false} SplitTrailingSeps(s: string, sep: char, k: nat)
    ensures Split(s + Repeat(sep, k), sep) == Split(s, sep) + Blanks(k)
    decreases k
  {
    if k == 0 {
      AppendEmpty(s);
      AppendEmpty(Split(s, sep));
    } else {
      var s' := s + [sep];
      var rep := Repeat(sep, k - 1);
      var bl := Blanks(k - 1);
      assert Repeat(sep, k) == [sep] + rep;
      assert Blanks(k) == [[]] + bl;
      SplitTrailingSeps(s', sep, k - 1);
      SplitAppendSep(s, sep);
      AppendAssoc(s, [sep], rep);
      AppendAssoc(Split(s, sep), [[]], bl);
    }
  }

  /** A string is its stripped core between two runs of whitespace. */
  lemma StripParts(x: string) returns (pre: string, post: string)
    ensures x == pre + Strip(x) + post && AllSpace(pre) && AllSpace(post)
  {
    var a := SkipSpace(x, 0);
    var l := x[a..];
    var b := TrimSpace(l, |l|);
    SkipSpaceSpec(x, 0);
    TrimSpaceSpec(l, |l|);
    pre := x[..a];
    post := x[a + b..];
    assert Strip(x) == x[a..a + b] by {
      assert LStrip(x) == l;
      assert l[..b] == x[a..a + b];
    }
    assert AllSpace(post) by {
      forall i | 0 <= i < |post| ensures IsSpace(post[i]) {
        assert post[i] == l[b + i];
      }
    }
    Slices3(x, a, a + b);
  }

  lemma Slices3<T>(s: seq<T>, a: nat, b: nat)
    requires a <= b <= |s|
    ensures s == s[..a] + s[a..b] + s[b..]
  {
  }

  /** Whitespace appended to a string is taken away again by `strip()`. */
  lemma StripAppendSpace(x: string, r: string)
    requires AllSpace(r)
    ensures Strip(x + r) == Strip(x)
  {
    var pre, post := StripParts(x);
    var c := Strip(x);
    StripSpec(x);
    AllSpaceConcat(post, r);
    assert x + r == pre + c + (post + r);
    StripPadded(pre, c, post + r);
  }

  /** `p` occurs in `s` starting at index `i`. */
  predicate OccursAt(s: string, p: string, i: nat) {
    i + |p| <= |s| && s[i..i + |p|] == p
  }

  predicate StartsWith(s: string, p: string) {
    |p| <= |s| && s[..|p|] == p
  }

  predicate EndsWith(s: string, p: string) {
    |p| <= |s| && s[|s| - |p|..] == p
  }

  /** Python's `p in s` for strings. */
  predicate Contains(s: string, p: string)
    decreases |s|
  {
    StartsWith(s, p) || (s != [] && Contains(s[1..], p))
  }

  lemma {:induction false} ContainsAt(s: string, p: string, i: nat)
    requires OccursAt(s, p, i)
    ensures Contains(s, p)
  {
    if i > 0 {
      assert s[1..][i - 1..i - 1 + |p|] == s[i..i + |p|];
      ContainsAt(s[1..], p, i - 1);
    } else {
      assert s[..|p|] == s[0..0 + |p|];
    }
  }

  /** An occurrence survives appending text. */
  lemma {:induction false} ContainsExtend(s: string, t: string, p: string)
    requires Contains(s, p)
    ensures Contains(s + t, p)
    decreases |s|
  {
    if StartsWith(s, p) {
      assert (s + t)[..|p|] == s[..|p|];
    } else {
      assert (s + t)[1..] == s[1..] + t;
      ContainsExtend(s[1..], t, p);
    }
  }

  /** A pattern longer than the text does not occur in it. */
  lemma {:induction false} LongerNotContained(s: string, p: string)
    requires |p| > |s|
    ensures !Contains(s, p)
    decreases |s|
  {
    if s != [] {
      LongerNotContained(s[1..], p);
    }
  }

  /** A pattern holding a character the text lacks does not occur in it. */
  lemma {:induction false} CharNotContained(s: string, p: string, c: char)
    requires c in p && c !in s
    ensures !Contains(s, p)
    decreases |s|
  {
    if s != [] {
      CharNotContained(s[1..], p, c);
    }
  }

  predicate IsQuote(c: char) {
    c == '"' || c == '\''
  }

  /** The first index at or after `i` holding `c`, or `|s|` (`str.find`
      from `i`, with `|s|` for not found). */
  function IndexFrom(s: string, c: char, i: nat): (r: nat)
    requires i <= |s|
    ensures i <= r <= |s| && (r < |s| ==> s[r] == c)
    ensures forall j :: i <= j < r ==> s[j] != c
    decreases |s| - i
  {
    if i == |s| || s[i] == c then i else IndexFrom(s, c, i + 1)
  }

  /** `s.replace(target, repl)`: every leftmost, non-overlapping occurrence of
      `target` is replaced; an empty `target` inserts `repl` around every character. */
  function Replace(s: string, target: string, repl: string): string
    decreases |s|
  {
    if target == [] then ReplaceEmpty(s, repl)
    else if s == [] then []
    else if StartsWith(s, target) then repl + Replace(s[|target|..], target, repl)
    else [s[0]] + Replace(s[1..], target, repl)
  }

  function ReplaceEmpty(s: string, repl: string): string {
    if s == [] then repl else repl + [s[0]] + ReplaceEmpty(s[1..], repl)
  }

  /** Replacing a string that does not occur changes nothing. */
  lemma {:induction false} ReplaceAbsent(s: string, target: string, repl: string)
    requires target != [] && !Contains(s, target)
    ensures Replace(s, target, repl) == s
  {
    if s != [] {
      ReplaceAbsent(s[1..], target, repl);
    }
  }

  /** Replacing a string repl itself changes nothing. */
  lemma {:induction false} ReplaceSelf(s: string, target: string)
    requires target != []
    ensures Replace(s, target, target) == s
  {
    if s != [] {
      if StartsWith(s, target) {
        ReplaceSelf(s[|target|..], target);
        assert s == s[..|target|] + s[|target|..];
      } else {
        ReplaceSelf(s[1..], target);
      }
    }
  }

  /** A replacement that brings in no newline leaves a newline-free string free of newlines. */
  lemma {:induction false} ReplaceKeepsCharOut(s: string, target: string, repl: string, c: char)
    requires c !in s && c !in repl
    ensures c !in Replace(s, target, repl)
    decreases |s|
  {
    if target == [] {
      ReplaceEmptyKeepsCharOut(s, repl, c);
    } else if s != [] {
      if StartsWith(s, target) {
        ReplaceKeepsCharOut(s[|target|..], target, repl, c);
      } else {
        ReplaceKeepsCharOut(s[1..], target, repl, c);
      }
    }
  }

  lemma {:induction false} ReplaceEmptyKeepsCharOut(s: string, repl: string, c: char)
    requires c !in s && c !in repl
    ensures c !in ReplaceEmpty(s, repl)
  {
    if s != [] {
      ReplaceEmptyKeepsCharOut(s[1..], repl, c);
    }
  }

  /** ASCII case mapping of `str.lower()`. */
  function LowerChar(c: char): char {
    if 'A' <= c <= 'Z' then (c as int + 32) as char else c
  }

  function Lower(s: string): string {
    seq(|s|, i requires 0 <= i < |s| => LowerChar(s[i]))
  }

  predicate IsDigit(c: char) {
    '0' <= c <= '9'
  }

  predicate AllDigits(s: string) {
    forall i :: 0 <= i < |s| ==> IsDigit(s[i])
  }

  function DigitChar(d: nat): char
    requires d < 10
  {
    ('0' as int + d) as char
  }

  function DigitValue(c: char): nat
    requires IsDigit(c)
  {
    c as int - '0' as int
  }

  /** `str(n)` for a non-negative integer: decimal digits, no leading zero. */
  function DecimalString(n: nat): (r: string)
    ensures r != [] && AllDigits(r)
    ensures r[0] == '0' ==> n == 0
  {
    if n < 10 then [DigitChar(n)] else DecimalString(n / 10) + [DigitChar(n % 10)]
  }

  /** `int(s)` for a run of ASCII digits (leading zeros allowed, as in Python). */
  function DecimalValue(s: string): nat
    requires AllDigits(s)
  {
    if s == [] then 0 else DecimalValue(s[..|s| - 1]) * 10 + DigitValue(s[|s| - 1])
  }

  /** `int(str(n)) == n`. */
  lemma {:induction false} DecimalRoundTrip(n: nat)
    ensures DecimalValue(DecimalString(n)) == n
  {
    if n >= 10 {
      var s := DecimalString(n);
      DecimalRoundTrip(n / 10);
      assert s[..|s| - 1] == DecimalString(n / 10);
    }
  }

  /** Distinct numbers have distinct decimal strings. */
  lemma DecimalStringInjective(m: nat, n: nat)
    requires DecimalString(m) == DecimalString(n)
    ensures m == n
  {
    DecimalRoundTrip(m);
    DecimalRoundTrip(n);
  }

  /** Characters at which Python's `str.splitlines()` breaks a line. */
  predicate IsLineBoundary(c: char) {
    c == '\n' || c == '\r' || c == '\U{0B}' || c == '\U{0C}' || c == '\U{1C}'
    || c == '\U{1D}' || c == '\U{1E}' || c == '\U{85}' || c == '\U{2028}' || c == '\U{2029}'
  }

  /** `s.splitlines()`: `\r\n` is one boundary and a final boundary opens no
      extra empty line. */
  function SplitLines(s: string): seq<string>
    decreases |s|
  {
    if s == [] then []
    else if IsLineBoundary(s[0]) then
      [[]] + SplitLines(if s[0] == '\r' && |s| > 1 && s[1] == '\n' then s[2..] else s[1..])
    else
      var t := SplitLines(s[1..]);
      if t == [] then [[s[0]]] else [[s[0]] + t[0]] + t[1..]
  }

  /** Only `\n` breaks lines in `s`. */
  predicate OnlyNewlineBreaks(s: string) {
    forall i :: 0 <= i < |s| && IsLineBoundary(s[i]) ==> s[i] == '\n'
  }

  /** On text whose only line break is `\n`, `splitlines()` is `split('\n')`
      without the empty piece after a final newline. */
  lemma {:induction false} SplitLinesIsSplit(s: string)
    requires OnlyNewlineBreaks(s)
    ensures Split(s, '\n') == if s == [] || s[|s| - 1] == '\n' then SplitLines(s) + [[]] else SplitLines(s)
  {
    if s != [] {
      var s' := s[1..];
      assert OnlyNewlineBreaks(s') by {
        forall i | 0 <= i < |s'| && IsLineBoundary(s'[i]) ensures s'[i] == '\n' {
          assert s'[i] == s[i + 1];
        }
      }
      SplitLinesIsSplit(s');
      var t := Split(s', '\n');
      var u := SplitLines(s');
      var closed := s == [] || s[|s| - 1] == '\n';
      var closed' := s' == [] || s'[|s'| - 1] == '\n';
      assert t == if closed' then u + [[]] else u;
      if s[0] == '\n' {
        assert Split(s, '\n') == [[]] + t;
        assert SplitLines(s) == [[]] + u;
        assert closed == closed' by {
          if s' != [] { assert s'[|s'| - 1] == s[|s| - 1]; }
        }
        if closed {
          AppendAssoc([[]], u, [[]]);
        }
      } else {
        assert !IsLineBoundary(s[0]);
        assert Split(s, '\n') == [[s[0]] + t[0]] + t[1..];
        if s' == [] {
          assert u == [] && t == [[]];
          assert |s| == 1 && s[|s| - 1] == s[0];
          assert SplitLines(s) == [[s[0]]];
          assert [s[0]] + [] == [s[0]];
          assert Split(s, '\n') == [[s[0]]];
          assert !closed;
        } else {
          SplitLinesNonEmpty(s');
          assert SplitLines(s) == [[s[0]] + u[0]] + u[1..];
          assert closed == closed' by { assert s'[|s'| - 1] == s[|s| - 1]; }
          if closed {
            TailAppend(u, [[]]);
            AppendAssoc([[s[0]] + u[0]], u[1..], [[]]);
          }
        }
      }
    }
  }

  lemma SplitLinesNonEmpty(s: string)
    requires s != []
    ensures SplitLines(s) != []
  {
  }

  /** `n` copies of `c` (`c * n` in Python: empty when `n <= 0`). */
  function Repeat(c: char, n: int): (r: string)
    ensures |r| == if n <= 0 then 0 else n
    ensures forall i :: 0 <= i < |r| ==> r[i] == c
  {
    if n <= 0 then [] else [c] + Repeat(c, n - 1)
  }

  /** Index of the last `c` in `s`, or -1 (`str.rfind`). */
  function LastIndexOf(s: string, c: char): (r: int)
    ensures -1 <= r < |s|
    ensures r >= 0 ==> s[r] == c
    ensures forall i :: r < i < |s| ==> s[i] != c
  {
    if s == [] then -1
    else if s[|s| - 1] == c then |s| - 1
    else LastIndexOf(s[..|s| - 1], c)
  }

  /** `os.path.splitext` (POSIX rules): the extension starts at the last dot
      after the last slash, unless only dots precede it in the file name. */
  function SplitExt(p: string): (r: (string, string))
    ensures r.0 + r.1 == p
    ensures r.1 == [] || r.1[0] == '.'
    ensures '/' !in r.1
  {
    var slash := LastIndexOf(p, '/');
    var dot := LastIndexOf(p, '.');
    if dot > slash && exists i :: slash + 1 <= i < dot && p[i] != '.' then
      assert p[..dot] + p[dot..] == p;
      (p[..dot], p[dot..])
    else
      (p, [])
  }
}
