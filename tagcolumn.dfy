/** The tags column beside the card editor: one line of comma-separated
    tags per card line. Three handlers keep it in shape: padding or
    truncating it to the number of card lines, numbering the tags of each
    line with its line number (or removing the numbers), and repeating the
    first line's tags on every line. */
module TagColumn {
  import opened Strings
  import opened NoteMapping

  /** `s.rstrip('0123456789')`. */
  function RStripDigits(s: string): (r: string)
    ensures |r| <= |s| && r == s[..|r|]
    ensures r == [] || !IsDigit(r[|r| - 1])
  {
    if s != [] && IsDigit(s[|s| - 1]) then RStripDigits(s[..|s| - 1]) else s
  }

  /** Digits appended to a string that does not end in a digit are exactly
      what `rstrip` of the digits takes away again. */
  lemma {:induction false} RStripDigitsAppend(t: string, d: string)
    requires (t == [] || !IsDigit(t[|t| - 1])) && AllDigits(d)
    ensures RStripDigits(t + d) == t
    decreases |d|
  {
    if d == [] {
      assert t + d == t;
    } else {
      assert (t + d)[..|t + d| - 1] == t + d[..|d| - 1];
      RStripDigitsAppend(t, d[..|d| - 1]);
    }
  }

  /** The non-blank comma-separated pieces of a tag line, their trailing
      digits removed. As written, the pieces keep the space that followed
      the comma; `trim` strips them first. */
  function TagStems(pieces: seq<string>, trim: bool): (r: seq<string>)
    ensures |r| <= |pieces|
  {
    if pieces == [] then []
    else
      var p := pieces[0];
      (if Strip(p) != [] then [RStripDigits(if trim then Strip(p) else p)] else []) + TagStems(pieces[1..], trim)
  }

  /** One line of `update_tag_numbers`: a blank line becomes empty; otherwise
      its tags, without trailing digits and followed by `suffix` (the line
      number, or nothing when numbering is off), joined with `", "`. */
  function RenumberLine(line: string, suffix: string, trim: bool): string {
    if Strip(line) == [] then [] else Join(", ", Suffixed(TagStems(Split(line, ','), trim), suffix))
  }

  /** The line as the add-on writes it. */
  function RenumberLineAsWritten(line: string, suffix: string): string {
    RenumberLine(line, suffix, false)
  }

  /** The line with the pieces stripped, as the add-on's own tag reading in
      `add_cards` and `update_repeated_tags` does. */
  function RenumberLineFixed(line: string, suffix: string): string {
    RenumberLine(line, suffix, true)
  }

  /** As written, renumbering a numbered line adds a space after the comma
      on every pass (`"a1, b1"` becomes `"a1,  b1"`, then `"a1,   b1"`), so
      numbering is not idempotent. */
  lemma RenumberAsWrittenGrows(a: string, gap: string, b: string, d: string)
    requires a != [] && !IsSpace(a[0]) && ',' !in a && !IsDigit(a[|a| - 1])
    requires b != [] && ',' !in b && !IsDigit(b[|b| - 1])
    requires d != [] && AllDigits(d) && AllSpace(gap)
    ensures var once := RenumberLineAsWritten((a + d) + [','] + (gap + b + d), d);
      once == (a + d) + ", " + (gap + b + d) &&
      |RenumberLineAsWritten(once, d)| == |once| + 1
  {
    AsWrittenTwoTags(a, gap, b, d);
    var wider := " " + gap;
    assert AllSpace(wider);
    AsWrittenTwoTags(a, wider, b, d);
    var once := (a + d) + ", " + (gap + b + d);
    CommaSpaceShift(a + d, gap, b, d);
    var twice := (a + d) + ", " + (wider + b + d);
    assert RenumberLineAsWritten(once, d) == twice;
    assert |twice| == |once| + 1;
  }

  lemma CommaSpaceShift(x: string, g: string, b: string, d: string)
    ensures x + ", " + (g + b + d) == x + [','] + (" " + g + b + d)
  {
    assert ", " == [','] + " ";
  }

  /** Two numbered tags `<a><d>` and `<gap><b><d>`: the gap survives the
      pass and `", "` adds its own space in front of it. */
  lemma AsWrittenTwoTags(a: string, gap: string, b: string, d: string)
    requires a != [] && !IsSpace(a[0]) && ',' !in a && !IsDigit(a[|a| - 1])
    requires b != [] && ',' !in b && !IsDigit(b[|b| - 1])
    requires d != [] && AllDigits(d) && AllSpace(gap)
    ensures RenumberLineAsWritten((a + d) + [','] + (gap + b + d), d) == (a + d) + ", " + (gap + b + d)
  {
    var line := (a + d) + [','] + (gap + b + d);
    AsWrittenStems(a, gap + b, d);
    assert Strip(line) != [] by { StripOfNonBlank(line, 0); }
    var xs := Suffixed([a, gap + b], d);
    assert xs == [a + d, gap + b + d];
    assert xs[1..] == [gap + b + d];
    assert Join(", ", xs) == (a + d) + ", " + (gap + b + d);
    assert RenumberLineAsWritten(line, d) == Join(", ", xs);
  }

  /** The stems of two numbered tags, read as written. */
  lemma AsWrittenStems(a: string, c: string, d: string)
    requires a != [] && ',' !in a && !IsDigit(a[|a| - 1])
    requires c != [] && ',' !in c && !IsDigit(c[|c| - 1])
    requires d != [] && AllDigits(d)
    ensures TagStems(Split((a + d) + [','] + (c + d), ','), false) == [a, c]
  {
    var p, q := a + d, c + d;
    assert ',' !in d;
    assert ',' !in q && ',' !in p;
    SplitPair(p, q, ',');
    RStripDigitsAppend(a, d);
    RStripDigitsAppend(c, d);
    DigitsNotBlank(a, d);
    DigitsNotBlank(c, d);
    assert TagStems([q], false) == [c];
    assert [p, q][1..] == [q];
  }

  /** Splitting two separator-free pieces joined by the separator. */
  lemma SplitPair(a: string, b: string, c: char)
    requires c !in a && c !in b
    ensures Split(a + [c] + b, c) == [a, b]
  {
    SplitJoin([a, b], c);
    assert Join([c], [a, b]) == a + [c] + b;
  }

  /** A string ending in digits is not blank. */
  lemma DigitsNotBlank(t: string, d: string)
    requires d != [] && AllDigits(d)
    ensures Strip(t + d) != []
  {
    var x := t + d;
    assert x[|x| - 1] == d[|d| - 1];
    StripOfNonBlank(x, |x| - 1);
  }

  /** A string with a non-space character is not blank. */
  lemma StripOfNonBlank(s: string, i: nat)
    requires i < |s| && !IsSpace(s[i])
    ensures Strip(s) != []
  {
    StripSpec(s);
  }

  /** `", ".join(xs)` is the comma join of the pieces after the first, each
      with a leading space. */
  function Spaced(xs: seq<string>): (r: seq<string>)
    requires xs != []
    ensures |r| == |xs| && r[0] == xs[0]
    ensures forall k :: 1 <= k < |r| ==> r[k] == " " + xs[k]
  {
    [xs[0]] + seq(|xs| - 1, k requires 0 <= k < |xs| - 1 => " " + xs[k + 1])
  }

  lemma {:induction false} JoinCommaSpace(xs: seq<string>)
    requires xs != []
    ensures Join(", ", xs) == Join([','], Spaced(xs))
    decreases |xs|
  {
    if |xs| > 1 {
      JoinCommaSpace(xs[1..]);
      var sp := Spaced(xs[1..]);
      var r := Spaced(xs);
      assert r[1..] == [" " + sp[0]] + sp[1..];
      JoinFirstPrefixed(" ", sp, [',']);
      assert Join([','], r) == xs[0] + [','] + Join([','], r[1..]);
      assert Join(", ", xs) == xs[0] + ", " + Join(", ", xs[1..]);
      Regroup(xs[0], Join([','], sp));
    }
  }

  lemma Regroup(x: string, rest: string)
    ensures x + [','] + (" " + rest) == x + ", " + rest
  {
    assert [','] + " " == ", ";
  }

  /** A prefix on the first piece is a prefix on the join. */
  lemma JoinFirstPrefixed(pre: string, parts: seq<string>, sep: string)
    requires parts != []
    ensures Join(sep, [pre + parts[0]] + parts[1..]) == pre + Join(sep, parts)
  {
    var q := [pre + parts[0]] + parts[1..];
    if |parts| > 1 {
      assert q[1..] == parts[1..];
      assert Join(sep, q) == (pre + parts[0]) + sep + Join(sep, parts[1..]);
    }
  }

  /** What a stripped stem looks like: no comma, no leading whitespace and
      no trailing digit. */
  predicate CleanStem(t: string) {
    ',' !in t && (t == [] || (!IsSpace(t[0]) && !IsDigit(t[|t| - 1])))
  }

  predicate AllClean(stems: seq<string>) {
    stems == [] || (CleanStem(stems[0]) && AllClean(stems[1..]))
  }

  /** Every stem read with the pieces stripped is clean. */
  lemma {:induction false} TagStemsClean(pieces: seq<string>)
    requires forall k :: 0 <= k < |pieces| ==> ',' !in pieces[k]
    ensures AllClean(TagStems(pieces, true))
  {
    if pieces != [] {
      TagStemsClean(pieces[1..]);
      var p := pieces[0];
      var rest := TagStems(pieces[1..], true);
      if Strip(p) != [] {
        StemClean(p);
        var r := [RStripDigits(Strip(p))] + rest;
        assert TagStems(pieces, true) == r;
        assert r[1..] == rest;
      } else {
        assert TagStems(pieces, true) == rest;
      }
    }
  }

  lemma StemClean(p: string)
    requires ',' !in p && Strip(p) != []
    ensures CleanStem(RStripDigits(Strip(p)))
  {
    var s := Strip(p);
    StripSpec(p);
    StripKeepsCharOut(p, ',');
    var t := RStripDigits(s);
    assert t == s[..|t|];
    assert ',' !in t;
    if t != [] {
      assert t[0] == s[0];
    }
  }

  /** A clean stem followed by the line number, with or without the space
      `", "` puts in front of it, strips to itself and gives the stem back. */
  lemma NumberedStem(t: string, suffix: string)
    requires CleanStem(t) && suffix != [] && AllDigits(suffix)
    ensures Strip(t + suffix) == t + suffix && Strip(" " + (t + suffix)) == t + suffix
    ensures RStripDigits(t + suffix) == t
    ensures t + suffix != [] && ',' !in t + suffix
  {
    var x := t + suffix;
    assert ',' !in suffix by { assert !IsDigit(','); }
    assert ',' !in x;
    assert x[|x| - 1] == suffix[|suffix| - 1];
    assert IsDigit(x[|x| - 1]) && !IsSpace(x[|x| - 1]);
    if t != [] {
      assert x[0] == t[0];
    } else {
      assert x[0] == suffix[0];
      assert IsDigit(x[0]);
    }
    assert !IsSpace(x[0]);
    assert IsStripped(x);
    StripSpec(x);
    StripPadded(" ", x, "");
    assert " " + x + "" == " " + x;
    RStripDigitsAppend(t, suffix);
  }

  function SpaceAll(xs: seq<string>): (r: seq<string>)
    ensures |r| == |xs| && forall k :: 0 <= k < |r| ==> r[k] == " " + xs[k]
  {
    if xs == [] then [] else [" " + xs[0]] + SpaceAll(xs[1..])
  }

  /** Reading numbered clean stems back, each after the space `", "` puts
      before it, gives the stems. */
  lemma {:induction false} TagStemsOfSpaceAll(stems: seq<string>, suffix: string)
    requires AllClean(stems)
    requires suffix != [] && AllDigits(suffix)
    ensures TagStems(SpaceAll(Suffixed(stems, suffix)), true) == stems
    decreases |stems|
  {
    if stems != [] {
      var ys := SpaceAll(Suffixed(stems, suffix));
      var t := stems[0];
      NumberedStem(t, suffix);
      assert ys[0] == " " + (t + suffix);
      assert ys[1..] == SpaceAll(Suffixed(stems[1..], suffix));
      TagStemsOfSpaceAll(stems[1..], suffix);
      assert TagStems(ys[1..], true) == stems[1..];
      TagStemsCons(ys);
      HeadTail(stems);
    }
  }

  /** Reading a `", "` join of numbered clean stems back gives the stems. */
  lemma TagStemsOfSpaced(stems: seq<string>, suffix: string)
    requires stems != [] && AllClean(stems)
    requires suffix != [] && AllDigits(suffix)
    ensures TagStems(Spaced(Suffixed(stems, suffix)), true) == stems
  {
    var ys := Spaced(Suffixed(stems, suffix));
    var t := stems[0];
    NumberedStem(t, suffix);
    assert ys[0] == t + suffix;
    assert ys[1..] == SpaceAll(Suffixed(stems[1..], suffix));
    TagStemsOfSpaceAll(stems[1..], suffix);
    TagStemsCons(ys);
    assert RStripDigits(Strip(ys[0])) == t;
    HeadTail(stems);
  }

  lemma TagStemsCons(ys: seq<string>)
    requires ys != [] && Strip(ys[0]) != []
    ensures TagStems(ys, true) == [RStripDigits(Strip(ys[0]))] + TagStems(ys[1..], true)
  {
  }

  /** No piece of a spaced list of comma-free strings holds a comma. */
  lemma SpacedNoComma(xs: seq<string>)
    requires xs != [] && forall k :: 0 <= k < |xs| ==> ',' !in xs[k]
    ensures forall k :: 0 <= k < |Spaced(xs)| ==> ',' !in Spaced(xs)[k]
  {
  }

  /** With the pieces stripped, numbering a line that is already numbered
      changes nothing. */
  lemma RenumberFixedIdempotent(line: string, suffix: string)
    requires suffix != [] && AllDigits(suffix)
    ensures RenumberLineFixed(RenumberLineFixed(line, suffix), suffix) == RenumberLineFixed(line, suffix)
  {
    RenumberFixedRenumbers(line, suffix, suffix);
  }

  lemma {:induction false} NumberedIsCommaFree(stems: seq<string>, suffix: string)
    requires AllClean(stems)
    requires suffix != [] && AllDigits(suffix)
    ensures forall k :: 0 <= k < |Suffixed(stems, suffix)| ==> ',' !in Suffixed(stems, suffix)[k]
  {
    if stems != [] {
      NumberedStem(stems[0], suffix);
      NumberedIsCommaFree(stems[1..], suffix);
    }
  }

  /** A `", "` join of numbered tags ends in a digit, so it is not blank. */
  lemma NumberedNotBlank(stems: seq<string>, suffix: string)
    requires stems != [] && suffix != [] && AllDigits(suffix)
    ensures Strip(Join(", ", Suffixed(stems, suffix))) != []
  {
    var xs := Suffixed(stems, suffix);
    var last := xs[|xs| - 1];
    assert last == stems[|stems| - 1] + suffix;
    assert last[|last| - 1] == suffix[|suffix| - 1];
    JoinLast(", ", xs);
    var j := Join(", ", xs);
    StripOfNonBlank(j, |j| - 1);
  }

  /** The last character of a join is the last character of its last part. */
  lemma {:induction false} JoinLast(sep: string, xs: seq<string>)
    requires xs != [] && xs[|xs| - 1] != []
    ensures Join(sep, xs) != [] && Join(sep, xs)[|Join(sep, xs)| - 1] == xs[|xs| - 1][|xs[|xs| - 1]| - 1]
    decreases |xs|
  {
    if |xs| > 1 {
      JoinLast(sep, xs[1..]);
    }
  }

  /** The tag lines every handler reads: the stripped column split at `\n`. */
  function TagLines(tagsText: string): seq<string> {
    Split(Strip(tagsText), '\n')
  }

  /** `len(text.strip().splitlines())`: the card lines as the tag handlers
      count them. */
  function CardLineCount(cards: string): nat {
    |SplitLines(Strip(cards))|
  }

  /** `not any(lines)`: every line is the empty string. */
  predicate NoneNonEmpty(lines: seq<string>) {
    forall k :: 0 <= k < |lines| ==> lines[k] == []
  }

  /** The column holds no tag line exactly when it is blank. */
  lemma NoneNonEmptyIffBlank(tagsText: string)
    ensures NoneNonEmpty(TagLines(tagsText)) <==> Strip(tagsText) == []
  {
    var s := Strip(tagsText);
    StripSpec(tagsText);
    if s != [] {
      assert !IsSpace(s[0]);
      SplitPrefix([s[0]], s[1..], '\n');
      HeadTail(s);
      assert TagLines(tagsText)[0] != [];
    }
  }

  // ---- update_tags_lines ----

  /** `update_tags_lines` as written: the stripped column is compared with
      the card lines; a short column gets the missing newlines appended to
      its unstripped text, a long one is cut to the card lines. */
  function PadTagsAsWritten(tagsText: string, cards: string): string {
    var c := |Split(Strip(cards), '\n')|;
    var t := TagLines(tagsText);
    if |t| < c then tagsText + Repeat('\n', c - |t|)
    else if |t| > c then Join("\n", t[..c])
    else tagsText
  }

  /** The padding applied to the stripped column, so that it reaches the
      number of card lines and stays there. */
  function PadTags(tagsText: string, cards: string): string {
    var c := |Split(Strip(cards), '\n')|;
    var t := TagLines(tagsText);
    if |t| < c then Strip(tagsText) + Repeat('\n', c - |t|)
    else if |t| > c then Join("\n", t[..c])
    else tagsText
  }

  lemma NewlinesAreSpace(k: int)
    ensures AllSpace(Repeat('\n', k))
  {
  }

  /** As written, the appended newlines are stripped again before the next
      comparison, so every further change of the card text appends the same
      number of newlines once more. */
  lemma PadTagsAsWrittenGrows(tagsText: string, cards: string)
    requires |TagLines(tagsText)| < |Split(Strip(cards), '\n')|
    ensures var k := |Split(Strip(cards), '\n')| - |TagLines(tagsText)|;
      var once := PadTagsAsWritten(tagsText, cards);
      once == tagsText + Repeat('\n', k) && PadTagsAsWritten(once, cards) == once + Repeat('\n', k)
  {
    var k := |Split(Strip(cards), '\n')| - |TagLines(tagsText)|;
    NewlinesAreSpace(k);
    StripAppendSpace(tagsText, Repeat('\n', k));
  }

  /** A short column is padded with empty lines up to the card lines' count;
      it then reads back as the old tag lines, and padding it again changes
      nothing. */
  lemma PadTagsPads(tagsText: string, cards: string)
    requires |TagLines(tagsText)| < |Split(Strip(cards), '\n')|
    ensures var c := |Split(Strip(cards), '\n')|;
      var t := TagLines(tagsText);
      var r := PadTags(tagsText, cards);
      Split(r, '\n') == t + Blanks(c - |t|) && TagLines(r) == t && PadTags(r, cards) == r
  {
    var c := |Split(Strip(cards), '\n')|;
    var t := TagLines(tagsText);
    var s := Strip(tagsText);
    var k := c - |t|;
    var r := s + Repeat('\n', k);
    PadTagsShort(tagsText, cards);
    StripSpec(tagsText);
    PaddedLines(s, k);
    PadTagsShort(r, cards);
  }

  lemma PadTagsShort(tagsText: string, cards: string)
    requires |TagLines(tagsText)| < |Split(Strip(cards), '\n')|
    ensures PadTags(tagsText, cards)
      == Strip(tagsText) + Repeat('\n', |Split(Strip(cards), '\n')| - |TagLines(tagsText)|)
  {
  }

  /** Newlines after a stripped text are empty lines that `strip()` removes
      again. */
  lemma PaddedLines(s: string, k: nat)
    requires IsStripped(s)
    ensures Split(s + Repeat('\n', k), '\n') == Split(s, '\n') + Blanks(k)
    ensures Strip(s + Repeat('\n', k)) == s
  {
    SplitTrailingSeps(s, '\n', k);
    NewlinesAreSpace(k);
    StripAppendSpace(s, Repeat('\n', k));
    StripSpec(s);
  }

  /** A long column is cut to the card lines' count of lines, the same way
      as written and corrected. */
  lemma PadTagsCuts(tagsText: string, cards: string)
    requires |TagLines(tagsText)| > |Split(Strip(cards), '\n')|
    ensures var c := |Split(Strip(cards), '\n')|;
      Split(PadTags(tagsText, cards), '\n') == TagLines(tagsText)[..c]
      && PadTagsAsWritten(tagsText, cards) == PadTags(tagsText, cards)
  {
    var c := |Split(Strip(cards), '\n')|;
    SplitJoin(TagLines(tagsText)[..c], '\n');
  }

  // ---- update_tag_numbers ----

  /** `"1"` to `"n"`. */
  function Counting(n: nat): (r: seq<string>)
    ensures |r| == n
  {
    if n == 0 then [] else Counting(n - 1) + [DecimalString(n)]
  }

  /** Line `k` of the renumbered column: the tags of tag line `k` with
      their digits replaced by `k + 1`, or removed; empty past the tag
      lines. `trim` says whether the pieces are stripped first (false as
      written). */
  function RenumberedLine(t: seq<string>, k: nat, numbered: bool, trim: bool): string {
    if k < |t| then RenumberLine(t[k], if numbered then DecimalString(k + 1) else [], trim) else []
  }

  /** `[f(0), ..., f(n - 1)]`, built front to back. */
  function Tabulate<T>(f: nat -> T, n: nat): (r: seq<T>)
    ensures |r| == n
  {
    if n == 0 then [] else Tabulate(f, n - 1) + [f(n - 1)]
  }

  lemma {:induction false} TabulateAt<T>(f: nat -> T, n: nat, k: nat)
    requires k < n
    ensures Tabulate(f, n)[k] == f(k)
    decreases n
  {
    if k < n - 1 {
      TabulateAt(f, n - 1, k);
    }
  }

  function RenumberedLines(t: seq<string>, n: nat, numbered: bool, trim: bool): (r: seq<string>)
    ensures |r| == n
  {
    Tabulate(k => RenumberedLine(t, k, numbered, trim), n)
  }

  /** `update_tag_numbers` on the column text and its "numbering applied"
      flag: a column without tags becomes the line numbers; checking the
      box numbers every line once; unchecking it removes the numbers.
      `trim` is false as written and true for the corrected renumbering. */
  function NumberTags(tagsText: string, numberingSet: bool, cards: string, checked: bool, trim: bool): (string, bool) {
    var t := TagLines(tagsText);
    var n := CardLineCount(cards);
    if NoneNonEmpty(t) && n > 0 then (Join("\n", Counting(n)), true)
    else if checked && !numberingSet then (Join("\n", RenumberedLines(t, n, true, trim)), true)
    else if !checked then (Join("\n", RenumberedLines(t, n, false, trim)), false)
    else (tagsText, numberingSet)
  }

  /** A line without tags splits into no tag, and one without the
      character `c` gives renumbered tags without it. */
  lemma {:induction false} TagStemsKeepCharOut(pieces: seq<string>, trim: bool, c: char)
    requires forall k :: 0 <= k < |pieces| ==> c !in pieces[k]
    ensures forall k :: 0 <= k < |TagStems(pieces, trim)| ==> c !in TagStems(pieces, trim)[k]
  {
    if pieces != [] {
      TagStemsKeepCharOut(pieces[1..], trim, c);
      var p := pieces[0];
      if Strip(p) != [] {
        StripKeepsCharOut(p, c);
        var q := if trim then Strip(p) else p;
        assert RStripDigits(q) == q[..|RStripDigits(q)|];
        assert c !in RStripDigits(q);
      }
    }
  }

  /** A renumbered line has no line break when the old line and the number
      have none. */
  lemma RenumberKeepsNewlineOut(line: string, suffix: string, trim: bool)
    requires '\n' !in line && AllDigits(suffix)
    ensures '\n' !in RenumberLine(line, suffix, trim)
  {
    if Strip(line) != [] {
      var pieces := Split(line, ',');
      JoinSplit(line, ',');
      assert forall k :: 0 <= k < |pieces| ==> '\n' !in pieces[k] by {
        forall k | 0 <= k < |pieces| ensures '\n' !in pieces[k] {
          PieceOfJoin([','], pieces, k, '\n');
        }
      }
      TagStemsKeepCharOut(pieces, trim, '\n');
      var stems := TagStems(pieces, trim);
      assert '\n' !in suffix by { assert !IsDigit('\n'); }
      var xs := Suffixed(stems, suffix);
      JoinKeepsCharOut(", ", xs, '\n');
    }
  }

  /** A character missing from a join is missing from every part. */
  lemma {:induction false} PieceOfJoin(sep: string, parts: seq<string>, k: nat, c: char)
    requires k < |parts| && c !in Join(sep, parts)
    ensures c !in parts[k]
    decreases |parts|
  {
    if |parts| > 1 && k > 0 {
      PieceOfJoin(sep, parts[1..], k - 1, c);
    }
  }

  /** After a pass with any line number, a later pass reads the same stems
      back: numbering again with the same number changes nothing, with
      another number it renumbers, and with no number it gives the line
      the stems alone, as if the first pass had not happened. */
  lemma RenumberFixedRenumbers(line: string, suffix: string, next: string)
    requires suffix != [] && AllDigits(suffix)
    ensures RenumberLineFixed(RenumberLineFixed(line, suffix), next) == RenumberLineFixed(line, next)
  {
    if Strip(line) != [] {
      var stems := TagStems(Split(line, ','), true);
      TagStemsClean(Split(line, ','));
      var xs := Suffixed(stems, suffix);
      var once := Join(", ", xs);
      assert RenumberLineFixed(line, suffix) == once;
      if stems == [] {
        assert once == [];
        StripSpec([]);
      } else {
        NumberedIsCommaFree(stems, suffix);
        JoinCommaSpace(xs);
        SpacedNoComma(xs);
        SplitJoin(Spaced(xs), ',');
        NumberedNotBlank(stems, suffix);
        TagStemsOfSpaced(stems, suffix);
      }
    } else {
      StripSpec([]);
    }
  }

  /** Stripped, non-empty tags joined with `", "` read back, piece by piece
      stripped, as themselves. */
  lemma {:induction false} CleanTagsOfSpaceAll(xs: seq<string>)
    requires forall k :: 0 <= k < |xs| ==> xs[k] != [] && IsStripped(xs[k])
    ensures CleanTags(SpaceAll(xs)) == xs
    decreases |xs|
  {
    if xs != [] {
      var ys := SpaceAll(xs);
      StripPadded(" ", xs[0], "");
      assert " " + xs[0] + "" == ys[0];
      assert ys[1..] == SpaceAll(xs[1..]);
      CleanTagsOfSpaceAll(xs[1..]);
      HeadTail(xs);
    }
  }

  lemma CleanTagsOfSpaced(xs: seq<string>)
    requires xs != [] && forall k :: 0 <= k < |xs| ==> xs[k] != [] && IsStripped(xs[k])
    ensures CleanTags(Spaced(xs)) == xs
  {
    var ys := Spaced(xs);
    StripSpec(xs[0]);
    assert ys[1..] == SpaceAll(xs[1..]);
    CleanTagsOfSpaceAll(xs[1..]);
    HeadTail(xs);
  }

  /** A line of clean, comma-free tags written with `", "` reads back, as
      `add_cards` reads a tag line, as those tags. */
  lemma ReadCommaSpaceLine(xs: seq<string>)
    requires forall k :: 0 <= k < |xs| ==> xs[k] != [] && IsStripped(xs[k]) && ',' !in xs[k]
    ensures CleanTags(Split(Join(", ", xs), ',')) == xs
  {
    if xs == [] {
      StripSpec([]);
    } else {
      JoinCommaSpace(xs);
      SpacedNoComma(xs);
      SplitJoin(Spaced(xs), ',');
      CleanTagsOfSpaced(xs);
    }
  }

  /** A numbered line reads back, as `add_cards` reads it, as the stems of
      the old line each followed by the line number. */
  lemma NumberedLineReadBack(line: string, suffix: string)
    requires suffix != [] && AllDigits(suffix)
    ensures CleanTags(Split(RenumberLineFixed(line, suffix), ',')) == Suffixed(TagStems(Split(line, ','), true), suffix)
  {
    var stems := TagStems(Split(line, ','), true);
    TagStemsClean(Split(line, ','));
    var xs := Suffixed(stems, suffix);
    NumberedIsCommaFree(stems, suffix);
    NumberedAreStripped(stems, suffix);
    ReadCommaSpaceLine(xs);
    if Strip(line) == [] {
      TagStemsOfBlank(Split(line, ','), line);
      StripSpec([]);
    }
  }

  lemma {:induction false} NumberedAreStripped(stems: seq<string>, suffix: string)
    requires AllClean(stems) && suffix != [] && AllDigits(suffix)
    ensures forall k :: 0 <= k < |Suffixed(stems, suffix)| ==> Suffixed(stems, suffix)[k] != [] && IsStripped(Suffixed(stems, suffix)[k])
    decreases |stems|
  {
    if stems != [] {
      var xs := Suffixed(stems, suffix);
      var tail := Suffixed(stems[1..], suffix);
      NumberedAreStripped(stems[1..], suffix);
      NumberedTagStripped(stems[0], suffix);
      forall k | 0 <= k < |xs| ensures xs[k] != [] && IsStripped(xs[k]) {
        if k > 0 {
          assert xs[k] == tail[k - 1];
        }
      }
    }
  }

  lemma NumberedTagStripped(t: string, suffix: string)
    requires CleanStem(t) && suffix != [] && AllDigits(suffix)
    ensures t + suffix != [] && IsStripped(t + suffix)
  {
    NumberedStem(t, suffix);
    StripSpec(t + suffix);
  }

  /** A blank line has no non-blank piece. */
  lemma TagStemsOfBlank(pieces: seq<string>, line: string)
    requires pieces == Split(line, ',') && Strip(line) == []
    ensures TagStems(pieces, true) == []
  {
    StripSpec(line);
    JoinSplit(line, ',');
    BlankPieces(pieces, [',']);
  }

  lemma {:induction false} BlankPieces(pieces: seq<string>, sep: string)
    requires AllSpace(Join(sep, pieces))
    ensures TagStems(pieces, true) == []
    decreases |pieces|
  {
    if pieces != [] {
      var p := pieces[0];
      if |pieces| > 1 {
        var rest := Join(sep, pieces[1..]);
        assert Join(sep, pieces) == p + sep + rest;
        assert AllSpace(rest) by {
          forall i | 0 <= i < |rest| ensures IsSpace(rest[i]) {
            assert rest[i] == Join(sep, pieces)[|p| + |sep| + i];
          }
        }
        BlankPieces(pieces[1..], sep);
      }
      assert AllSpace(p) by {
        forall i | 0 <= i < |p| ensures IsSpace(p[i]) {
          assert p[i] == Join(sep, pieces)[i];
        }
      }
      StripSpec(p);
    }
  }

  /** Line `k` of `Counting(n)` is `k + 1`, with no line break. */
  lemma {:induction false} CountingSpec(n: nat)
    ensures forall k :: 0 <= k < n ==> Counting(n)[k] == DecimalString(k + 1)
    ensures forall k :: 0 <= k < n ==> '\n' !in Counting(n)[k]
  {
    if n > 0 {
      CountingSpec(n - 1);
    }
  }

  lemma RenumberedLinesStep(t: seq<string>, n: nat, numbered: bool, trim: bool)
    ensures RenumberedLines(t, n + 1, numbered, trim) == RenumberedLines(t, n, numbered, trim) + [RenumberedLine(t, n, numbered, trim)]
  {
  }

  lemma RenumberedLinesSpec(t: seq<string>, n: nat, numbered: bool, trim: bool)
    ensures forall k :: 0 <= k < n ==> RenumberedLines(t, n, numbered, trim)[k] == RenumberedLine(t, k, numbered, trim)
  {
    forall k | 0 <= k < n ensures RenumberedLines(t, n, numbered, trim)[k] == RenumberedLine(t, k, numbered, trim) {
      TabulateAt(k => RenumberedLine(t, k, numbered, trim), n, k);
    }
  }

  /** `update_tag_numbers` leaves one line per card line (when there is
      one): the line numbers for a column without tags, otherwise the old
      tag line `k` renumbered with `k + 1`, or without a number; when the
      box is checked but numbering was already applied, nothing changes. */
  lemma NumberTagsLines(tagsText: string, numberingSet: bool, cards: string, checked: bool, trim: bool)
    requires CardLineCount(cards) > 0
    ensures var n := CardLineCount(cards);
      var t := TagLines(tagsText);
      var (r, flag) := NumberTags(tagsText, numberingSet, cards, checked, trim);
      (NoneNonEmpty(t) ==> flag && Split(r, '\n') == Counting(n))
      && (!NoneNonEmpty(t) && checked && numberingSet ==> r == tagsText && flag)
      && (!NoneNonEmpty(t) && !(checked && numberingSet) ==>
            flag == checked && |Split(r, '\n')| == n
            && forall k :: 0 <= k < n ==> Split(r, '\n')[k] == RenumberedLine(t, k, checked, trim))
  {
    var n := CardLineCount(cards);
    var t := TagLines(tagsText);
    if NoneNonEmpty(t) {
      CountingSpec(n);
      SplitJoin(Counting(n), '\n');
    } else if !(checked && numberingSet) {
      var lines := RenumberedLines(t, n, checked, trim);
      RenumberedLinesSpec(t, n, checked, trim);
      forall k | 0 <= k < n ensures '\n' !in lines[k] {
        if k < |t| {
          var suffix := if checked then DecimalString(k + 1) else [];
          RenumberKeepsNewlineOut(t[k], suffix, trim);
        }
      }
      SplitJoin(lines, '\n');
    }
  }

  /** After numbering, `add_cards` gives the card of line `k` the stems of
      the old tag line `k`, each followed by `k + 1`. */
  lemma NumberedColumnReadBack(t: seq<string>, n: nat, k: nat)
    requires k < n && k < |t|
    ensures CleanTags(Split(RenumberedLines(t, n, true, true)[k], ',')) == Suffixed(TagStems(Split(t[k], ','), true), DecimalString(k + 1))
  {
    RenumberedLinesSpec(t, n, true, true);
    NumberedLineReadBack(t[k], DecimalString(k + 1));
  }

  /** Unchecking the numbering after a numbering pass gives the same column
      as a pass without numbers over the original lines. */
  lemma UnnumberAfterNumber(t: seq<string>, n: nat)
    ensures forall k :: 0 <= k < n ==>
      RenumberLineFixed(RenumberedLines(t, n, true, true)[k], []) == RenumberedLines(t, n, false, true)[k]
  {
    RenumberedLinesSpec(t, n, true, true);
    RenumberedLinesSpec(t, n, false, true);
    forall k | 0 <= k < n
      ensures RenumberLineFixed(RenumberedLines(t, n, true, true)[k], []) == RenumberedLines(t, n, false, true)[k]
    {
      if k < |t| {
        RenumberFixedRenumbers(t[k], DecimalString(k + 1), []);
      } else {
        StripSpec([]);
      }
    }
  }

  // ---- update_repeated_tags ----

  predicate Distinct<T(==)>(xs: seq<T>) {
    forall i, j :: 0 <= i < j < |xs| ==> xs[i] != xs[j]
  }

  /** `list(dict.fromkeys(xs))`: the first occurrence of each element, in
      order. */
  function Dedup<T(==)>(xs: seq<T>): seq<T>
    decreases |xs|
  {
    if xs == [] then []
    else
      var r := Dedup(xs[..|xs| - 1]);
      if xs[|xs| - 1] in r then r else r + [xs[|xs| - 1]]
  }

  /** The deduplicated list has no repeats and the same elements, and a list
      without repeats is kept as it is. */
  lemma {:induction false} DedupSpec<T>(xs: seq<T>)
    ensures Distinct(Dedup(xs))
    ensures forall x :: x in Dedup(xs) <==> x in xs
    ensures Distinct(xs) ==> Dedup(xs) == xs
    decreases |xs|
  {
    if xs != [] {
      var init := xs[..|xs| - 1];
      DedupSpec(init);
      assert xs == init + [xs[|xs| - 1]];
      if Distinct(xs) {
        assert Distinct(init);
        assert xs[|xs| - 1] !in init;
      }
    }
  }

  /** The first line with a non-blank character (`next(...)`). */
  function FirstNonBlank(lines: seq<string>): (r: Option<string>)
    ensures r.Some? ==> r.value in lines && Strip(r.value) != []
    ensures r.None? ==> forall k :: 0 <= k < |lines| ==> Strip(lines[k]) == []
  {
    if lines == [] then None
    else if Strip(lines[0]) != [] then Some(lines[0])
    else FirstNonBlank(lines[1..])
  }

  /** In a column with a tag, the first tag line is not blank: the second
      fallback of `update_repeated_tags` cannot be reached. */
  lemma FirstNonBlankOfColumn(tagsText: string)
    requires !NoneNonEmpty(TagLines(tagsText))
    ensures FirstNonBlank(TagLines(tagsText)) == Some(TagLines(tagsText)[0])
  {
    NoneNonEmptyIffBlank(tagsText);
    var s := Strip(tagsText);
    StripSpec(tagsText);
    assert !IsSpace(s[0]);
    SplitPrefix([s[0]], s[1..], '\n');
    HeadTail(s);
    var first := TagLines(tagsText)[0];
    assert first[0] == s[0];
    StripOfNonBlank(first, 0);
  }

  /** The tags of the first non-blank line, stripped and without repeats. */
  function FirstLineTags(tagsText: string): seq<string> {
    match FirstNonBlank(TagLines(tagsText))
    case None => []
    case Some(first) => Dedup(CleanTags(Split(first, ',')))
  }

  /** `n` copies of a line (`[line] * n`). */
  function Copies(line: string, n: nat): (r: seq<string>)
    ensures |r| == n && forall k :: 0 <= k < n ==> r[k] == line
  {
    if n == 0 then [] else [line] + Copies(line, n - 1)
  }

  /** The column `update_repeated_tags` writes: the first non-blank line's
      tags on every card line, or `n - 1` newlines when there are none. */
  function RepeatTags(tagsText: string, cards: string): string {
    var t := TagLines(tagsText);
    var n := CardLineCount(cards);
    if NoneNonEmpty(t) then Repeat('\n', n - 1)
    else
      match FirstNonBlank(t)
      case None => Repeat('\n', n - 1)
      case Some(first) =>
        var tags := Dedup(CleanTags(Split(first, ',')));
        if tags == [] then Repeat('\n', n - 1) else Join("\n", Copies(Join(", ", tags), n))
  }

  /** `update_repeated_tags` on the column text and the two flags: checking
      the box repeats the tags once; unchecking it clears the flag and runs
      the numbering handler (with `trim` as in `NumberTags`). */
  function RepeatStep(tagsText: string, numberingSet: bool, repeatSet: bool, cards: string,
                      repeatChecked: bool, numberChecked: bool, trim: bool): (string, bool, bool)
  {
    if repeatChecked && !repeatSet then (RepeatTags(tagsText, cards), numberingSet, true)
    else if !repeatChecked then
      var (r, flag) := NumberTags(tagsText, numberingSet, cards, numberChecked, trim);
      (r, flag, false)
    else (tagsText, numberingSet, repeatSet)
  }

  lemma {:induction false} CleanTagsKeepCharOut(pieces: seq<string>, c: char)
    requires forall k :: 0 <= k < |pieces| ==> c !in pieces[k]
    ensures forall k :: 0 <= k < |CleanTags(pieces)| ==> c !in CleanTags(pieces)[k]
  {
    if pieces != [] {
      CleanTagsKeepCharOut(pieces[1..], c);
      StripKeepsCharOut(pieces[0], c);
    }
  }

  /** Cleaned, deduplicated tags are non-empty, stripped, and hold neither a
      comma nor a line break when the line they come from has none. */
  lemma RepeatableTags(first: string)
    requires '\n' !in first
    ensures var tags := Dedup(CleanTags(Split(first, ',')));
      Distinct(tags)
      && forall k :: 0 <= k < |tags| ==> tags[k] != [] && IsStripped(tags[k]) && ',' !in tags[k] && '\n' !in tags[k]
  {
    var pieces := Split(first, ',');
    var clean := CleanTags(pieces);
    JoinSplit(first, ',');
    forall k | 0 <= k < |pieces| ensures '\n' !in pieces[k] {
      PieceOfJoin([','], pieces, k, '\n');
    }
    CleanTagsSpec(pieces);
    CleanTagsNoComma(pieces);
    CleanTagsKeepCharOut(pieces, '\n');
    DedupSpec(clean);
    var tags := Dedup(clean);
    forall k | 0 <= k < |tags|
      ensures tags[k] != [] && IsStripped(tags[k]) && ',' !in tags[k] && '\n' !in tags[k]
    {
      assert tags[k] in clean;
    }
  }

  /** `n - 1` newlines are `n` empty lines. */
  lemma NewlinesAreBlankLines(n: nat)
    requires n > 0
    ensures Split(Repeat('\n', n - 1), '\n') == Blanks(n)
  {
    SplitTrailingSeps([], '\n', n - 1);
    assert [] + Repeat('\n', n - 1) == Repeat('\n', n - 1);
  }

  /** A blank column gives `n` empty lines, which carry no tags, and no
      first-line tags. */
  lemma RepeatBlankColumn(tagsText: string, n: nat)
    requires n > 0 && Strip(tagsText) == []
    ensures var lines := Split(Repeat('\n', n - 1), '\n');
      |lines| == n && (forall k :: 0 <= k < n ==> CleanTags(Split(lines[k], ',')) == [])
      && FirstLineTags(tagsText) == []
  {
    NewlinesAreBlankLines(n);
    BlanksCarryNoTags(n);
    assert TagLines(tagsText) == [[]];
    StripSpec([]);
  }

  lemma BlanksCarryNoTags(n: nat)
    ensures forall k :: 0 <= k < n ==> Blanks(n)[k] == [] && CleanTags(Split(Blanks(n)[k], ',')) == []
  {
    if n > 0 {
      BlanksCarryNoTags(n - 1);
    }
    StripSpec([]);
  }

  /** `n` copies of a line of clean tags, one per line, each read back as
      those tags. */
  lemma RepeatedLines(tags: seq<string>, n: nat)
    requires tags != [] && forall k :: 0 <= k < |tags| ==> tags[k] != [] && IsStripped(tags[k]) && ',' !in tags[k] && '\n' !in tags[k]
    requires n > 0
    ensures var lines := Split(Join("\n", Copies(Join(", ", tags), n)), '\n');
      |lines| == n && forall k :: 0 <= k < n ==> CleanTags(Split(lines[k], ',')) == tags
  {
    var line := Join(", ", tags);
    ReadCommaSpaceLine(tags);
    JoinKeepsCharOut(", ", tags, '\n');
    SplitJoin(Copies(line, n), '\n');
  }

  /** The repeated column has one line per card line (when there is one),
      and every line reads back, as `add_cards` reads it, as the first
      non-blank line's tags without repeats; in a column with tags that is
      the first line. */
  lemma RepeatTagsLines(tagsText: string, cards: string)
    requires CardLineCount(cards) > 0
    ensures var lines := Split(RepeatTags(tagsText, cards), '\n');
      |lines| == CardLineCount(cards)
      && (forall k :: 0 <= k < |lines| ==> CleanTags(Split(lines[k], ',')) == FirstLineTags(tagsText))
      && Distinct(FirstLineTags(tagsText))
      && (Strip(tagsText) != [] ==> FirstLineTags(tagsText) == Dedup(CleanTags(Split(TagLines(tagsText)[0], ','))))
  {
    var t := TagLines(tagsText);
    var n := CardLineCount(cards);
    NoneNonEmptyIffBlank(tagsText);
    if NoneNonEmpty(t) {
      RepeatBlankColumn(tagsText, n);
      DedupSpec<string>([]);
    } else {
      FirstNonBlankOfColumn(tagsText);
      var first := t[0];
      RepeatableTags(first);
      var tags := Dedup(CleanTags(Split(first, ',')));
      assert FirstLineTags(tagsText) == tags;
      if tags == [] {
        NewlinesAreBlankLines(n);
        BlanksCarryNoTags(n);
      } else {
        RepeatedLines(tags, n);
      }
    }
  }

  /** The tags column as an object: its text and the two flags that keep the
      numbering and the repetition from being applied twice. */
  class TagsColumn {
    var text: string
    var numberingSet: bool
    var repeatSet: bool

    constructor ()
      ensures text == [] && !numberingSet && !repeatSet
    {
      text := [];
      numberingSet := false;
      repeatSet := false;
    }

    /** Keeps the column as long as the card text, as written: a short
        column gets the newlines appended to its unstripped text. */
    method UpdateTagsLines(cards: string)
      modifies this
      ensures text == PadTagsAsWritten(old(text), cards)
      ensures numberingSet == old(numberingSet) && repeatSet == old(repeatSet)
    {
      var c := |Split(Strip(cards), '\n')|;
      var t := Split(Strip(text), '\n');
      if |t| < c {
        text := text + Repeat('\n', c - |t|);
      } else if |t| > c {
        text := Join("\n", t[..c]);
      }
    }

    method UpdateTagNumbers(cards: string, numberChecked: bool)
      modifies this
      ensures (text, numberingSet) == NumberTags(old(text), old(numberingSet), cards, numberChecked, false)
      ensures repeatSet == old(repeatSet)
    {
      var t := Split(Strip(text), '\n');
      var n := |SplitLines(Strip(cards))|;
      if NoneNonEmpty(t) && n > 0 {
        text := Join("\n", Counting(n));
        numberingSet := true;
        return;
      }
      if numberChecked && !numberingSet {
        var updated := RenumberAll(t, n, true);
        text := Join("\n", updated);
        numberingSet := true;
      } else if !numberChecked {
        var updated := RenumberAll(t, n, false);
        text := Join("\n", updated);
        numberingSet := false;
      }
    }

    method UpdateRepeatedTags(cards: string, repeatChecked: bool, numberChecked: bool)
      modifies this
      ensures (text, numberingSet, repeatSet)
           == RepeatStep(old(text), old(numberingSet), old(repeatSet), cards, repeatChecked, numberChecked, false)
    {
      if repeatChecked && !repeatSet {
        var t := Split(Strip(text), '\n');
        var n := |SplitLines(Strip(cards))|;
        repeatSet := true;
        if NoneNonEmpty(t) {
          text := Repeat('\n', n - 1);
          return;
        }
        var first := FirstNonBlank(t);
        if first.None? {
          text := Repeat('\n', n - 1);
          return;
        }
        var tags := Dedup(CleanTags(Split(first.value, ',')));
        if tags == [] {
          text := Repeat('\n', n - 1);
          return;
        }
        text := Join("\n", Copies(Join(", ", tags), n));
      } else if !repeatChecked {
        repeatSet := false;
        UpdateTagNumbers(cards, numberChecked);
        assert (text, numberingSet) == NumberTags(old(text), old(numberingSet), cards, numberChecked, false);
      }
    }
  }

  /** The loop of `update_tag_numbers`, as written: line `i` of the new
      column is the renumbered tag line `i`, or empty for a blank or missing
      one. */
  method RenumberAll(t: seq<string>, n: nat, numbered: bool) returns (updated: seq<string>)
    ensures updated == RenumberedLines(t, n, numbered, false)
  {
    updated := [];
    var i := 0;
    while i < n
      invariant 0 <= i <= n && updated == RenumberedLines(t, i, numbered, false)
    {
      var line: string;
      if i < |t| && Strip(t[i]) != [] {
        var suffix := if numbered then DecimalString(i + 1) else [];
        line := Join(", ", Suffixed(TagStems(Split(t[i], ','), false), suffix));
        assert line == RenumberLineAsWritten(t[i], suffix);
      } else {
        line := [];
      }
      assert line == RenumberedLine(t, i, numbered, false);
      RenumberedLinesStep(t, i, numbered, false);
      updated := updated + [line];
      i := i + 1;
    }
  }
}
