/** Line-level rules of the bulk-entry editor: which lines are cards (the
    card counter and the line-number gutter) and the cloze normaliser that
    forces a `;` at the end of every line holding a cloze deletion. */
module CardLines {
  import opened Strings

  /** The delimiters a line is tested against: the checked ones, or `;`
      alone when none is checked. */
  function EffectiveDelimiters(active: seq<char>): (r: seq<char>)
    ensures r != []
    ensures active != [] ==> r == active
  {
    if active == [] then [';'] else active
  }

  /** A line is a card when, once stripped, it is non-empty and holds one of
      the delimiters (a Tab delimiter at either end is stripped away first). */
  predicate IsCardLine(line: string, delims: seq<char>) {
    var t := Strip(line);
    t != [] && HasAnyDelimiter(t, delims)
  }

  /** `any(d in t for d in delims)`. */
  predicate HasAnyDelimiter(t: string, delims: seq<char>) {
    delims != [] && (delims[0] in t || HasAnyDelimiter(t, delims[1..]))
  }

  /** Number of card lines in `lines`. */
  function CountCards(lines: seq<string>, delims: seq<char>): (n: nat)
    ensures n <= |lines|
  {
    if lines == [] then 0
    else CountCards(lines[..|lines| - 1], delims) + (if IsCardLine(lines[|lines| - 1], delims) then 1 else 0)
  }

  /** Counting one more line adds one exactly when it is a card line. */
  lemma CountCardsStep(lines: seq<string>, i: nat, delims: seq<char>)
    requires i < |lines|
    ensures CountCards(lines[..i + 1], delims) == CountCards(lines[..i], delims) + if IsCardLine(lines[i], delims) then 1 else 0
  {
    assert lines[..i + 1][..i] == lines[..i];
  }

  /** `update_card_count`: the number of card lines of `text.splitlines()`. */
  method UpdateCardCount(text: string, active: seq<char>) returns (count: nat)
    ensures count == CountCards(SplitLines(text), EffectiveDelimiters(active))
  {
    var lines := SplitLines(text);
    var delims := EffectiveDelimiters(active);
    count := 0;
    var i := 0;
    while i < |lines|
      invariant 0 <= i <= |lines|
      invariant count == CountCards(lines[..i], delims)
    {
      CountCardsStep(lines, i, delims);
      if IsCardLine(lines[i], delims) {
        count := count + 1;
      }
      i := i + 1;
    }
    assert lines[..i] == lines;
  }

  /** The gutter labels of `blocks`: the running card number on card lines
      and `""` elsewhere. */
  function Labels(blocks: seq<string>, delims: seq<char>): seq<string> {
    if blocks == [] then []
    else
      var last := if IsCardLine(blocks[|blocks| - 1], delims) then DecimalString(CountCards(blocks, delims)) else "";
      Labels(blocks[..|blocks| - 1], delims) + [last]
  }

  /** `update_line_numbers`: one label per text block (the `\n`-separated
      pieces of the text). While a snapshot of shown notes is active the
      labels are left as they were. */
  method UpdateLineNumbers(text: string, active: seq<char>, snapshotActive: bool, current: seq<string>)
    returns (labels: seq<string>)
    ensures snapshotActive ==> labels == current
    ensures !snapshotActive ==> labels == Labels(Split(text, '\n'), EffectiveDelimiters(active))
  {
    if snapshotActive {
      return current;
    }
    var blocks := Split(text, '\n');
    var delims := EffectiveDelimiters(active);
    labels := [];
    var valid := 0;
    var i := 0;
    while i < |blocks|
      invariant 0 <= i <= |blocks|
      invariant valid == CountCards(blocks[..i], delims)
      invariant labels == Labels(blocks[..i], delims)
    {
      assert blocks[..i + 1][..i] == blocks[..i];
      if IsCardLine(blocks[i], delims) {
        valid := valid + 1;
        labels := labels + [DecimalString(valid)];
      } else {
        labels := labels + [""];
      }
      i := i + 1;
    }
    assert blocks[..i] == blocks;
  }

  /** One label per block; a card line is labelled with one more than the
      number of card lines before it, any other line with `""`. */
  lemma {:induction false} LabelsAt(blocks: seq<string>, delims: seq<char>, k: nat)
    requires k < |blocks|
    ensures |Labels(blocks, delims)| == |blocks|
    ensures Labels(blocks, delims)[k] ==
      if IsCardLine(blocks[k], delims) then DecimalString(CountCards(blocks[..k], delims) + 1) else ""
  {
    LabelsLength(blocks, delims);
    if k < |blocks| - 1 {
      var prefix := blocks[..|blocks| - 1];
      LabelsAt(prefix, delims, k);
      LabelsKeepPrefix(blocks, delims, k);
      assert prefix[k] == blocks[k] && prefix[..k] == blocks[..k];
    } else {
      LabelsLast(blocks, delims);
    }
  }

  /** The label of the last block. */
  lemma LabelsLast(blocks: seq<string>, delims: seq<char>)
    requires blocks != []
    ensures |Labels(blocks, delims)| == |blocks|
    ensures var k := |blocks| - 1;
      Labels(blocks, delims)[k] == if IsCardLine(blocks[k], delims) then DecimalString(CountCards(blocks[..k], delims) + 1) else ""
  {
    LabelsLength(blocks, delims);
    LabelsSnoc(blocks, delims);
  }

  /** Adding a block leaves the earlier labels as they were. */
  lemma LabelsKeepPrefix(blocks: seq<string>, delims: seq<char>, k: nat)
    requires k < |blocks| - 1
    ensures k < |Labels(blocks[..|blocks| - 1], delims)|
    ensures k < |Labels(blocks, delims)|
    ensures Labels(blocks, delims)[k] == Labels(blocks[..|blocks| - 1], delims)[k]
  {
    LabelsLength(blocks[..|blocks| - 1], delims);
    LabelsSnoc(blocks, delims);
  }

  /** The last label, in terms of the blocks before it. */
  lemma LabelsSnoc(blocks: seq<string>, delims: seq<char>)
    requires blocks != []
    ensures var prefix := blocks[..|blocks| - 1];
      Labels(blocks, delims) == Labels(prefix, delims)
        + [if IsCardLine(blocks[|blocks| - 1], delims) then DecimalString(CountCards(prefix, delims) + 1) else ""]
  {
  }

  lemma {:induction false} LabelsLength(blocks: seq<string>, delims: seq<char>)
    ensures |Labels(blocks, delims)| == |blocks|
  {
    if blocks != [] {
      LabelsLength(blocks[..|blocks| - 1], delims);
    }
  }

  /** Appending an empty block adds no card. */
  lemma CountCardsEmptyLast(lines: seq<string>, delims: seq<char>)
    ensures CountCards(lines + [[]], delims) == CountCards(lines, delims)
  {
    assert (lines + [[]])[..|lines|] == lines;
    assert Strip([]) == [];
  }

  /** When `\n` is the only line break in the text, the gutter numbers the
      same lines the counter counts: the last label number is the count. */
  lemma CountersAgree(text: string, delims: seq<char>)
    requires OnlyNewlineBreaks(text)
    ensures CountCards(Split(text, '\n'), delims) == CountCards(SplitLines(text), delims)
  {
    SplitLinesIsSplit(text);
    if text == [] || text[|text| - 1] == '\n' {
      CountCardsEmptyLast(SplitLines(text), delims);
    }
  }

  /** End of the run of ASCII digits starting at `i`. */
  function DigitRunEnd(s: string, i: nat): (j: nat)
    requires i <= |s|
    ensures i <= j <= |s| && AllDigits(s[i..j])
    ensures j == |s| || !IsDigit(s[j])
    decreases |s| - i
  {
    if i < |s| && IsDigit(s[i]) then
      var j := DigitRunEnd(s, i + 1);
      assert s[i..j] == [s[i]] + s[i + 1..j];
      j
    else i
  }

  /** The pattern `{{c\d+::.*?}}` matches at `i` (within one line). */
  predicate ClozeAt(s: string, i: nat) {
    OccursAt(s, "{{c", i)
    && var j := DigitRunEnd(s, i + 3);
    j > i + 3 && OccursAt(s, "::", j) && Contains(s[j + 2..], "}}")
  }

  /** Some match of the cloze pattern starts at or after `i`. */
  predicate ClozeFrom(s: string, i: nat)
    decreases |s| - i
  {
    i < |s| && (ClozeAt(s, i) || ClozeFrom(s, i + 1))
  }

  /** `re.search(r'{{c\d+::.*?}}', line)` succeeds. */
  predicate HasCloze(line: string) {
    ClozeFrom(line, 0)
  }

  /** A digit run that ends inside `s` ends at the same place once text is
      appended. */
  lemma {:induction false} DigitRunEndExtend(s: string, t: string, i: nat)
    requires i <= |s| && DigitRunEnd(s, i) < |s|
    ensures DigitRunEnd(s + t, i) == DigitRunEnd(s, i)
    decreases |s| - i
  {
    assert (s + t)[i] == s[i];
    if IsDigit(s[i]) {
      DigitRunEndExtend(s, t, i + 1);
    }
  }

  /** A cloze match survives appending text to the line. */
  lemma ClozeAtExtend(s: string, t: string, i: nat)
    requires ClozeAt(s, i)
    ensures ClozeAt(s + t, i)
  {
    var j := DigitRunEnd(s, i + 3);
    assert (s + t)[i..i + 3] == s[i..i + 3];
    DigitRunEndExtend(s, t, i + 3);
    assert (s + t)[j..j + 2] == s[j..j + 2];
    assert (s + t)[j + 2..] == s[j + 2..] + t;
    ContainsExtend(s[j + 2..], t, "}}");
  }

  lemma {:induction false} ClozeFromExtend(s: string, t: string, i: nat)
    requires ClozeFrom(s, i)
    ensures ClozeFrom(s + t, i)
    decreases |s| - i
  {
    if ClozeAt(s, i) {
      ClozeAtExtend(s, t, i);
    } else {
      ClozeFromExtend(s, t, i + 1);
    }
  }

  /** What the normaliser makes of one line: `;` is appended to a cloze line
      that does not already end, before trailing whitespace, with `;`. */
  function NormaliseLine(line: string): (r: string)
    ensures r == line || (r == line + ";" && HasCloze(line) && !EndsWith(RStrip(line), ";"))
    ensures !HasCloze(line) ==> r == line
    ensures HasCloze(line) ==> EndsWith(RStrip(r), ";")
  {
    if HasCloze(line) && !EndsWith(RStrip(line), ";") then
      RStripPadded(line + ";", []);
      assert line + ";" + [] == line + ";";
      line + ";"
    else line
  }

  /** Every line normalised, in order. */
  function NormaliseLines(lines: seq<string>): (r: seq<string>)
    ensures |r| == |lines|
  {
    if lines == [] then [] else NormaliseLines(lines[..|lines| - 1]) + [NormaliseLine(lines[|lines| - 1])]
  }

  lemma {:induction false} NormaliseLinesAt(lines: seq<string>, k: nat)
    requires k < |lines|
    ensures NormaliseLines(lines)[k] == NormaliseLine(lines[k])
  {
    if k < |lines| - 1 {
      NormaliseLinesAt(lines[..|lines| - 1], k);
    }
  }

  /** The text after the normaliser has run. */
  function NormaliseText(text: string): string {
    Join("\n", NormaliseLines(Split(text, '\n')))
  }

  /** A normalised line is left alone by a second pass. */
  lemma NormaliseLineIdempotent(line: string)
    ensures NormaliseLine(NormaliseLine(line)) == NormaliseLine(line)
  {
    if HasCloze(line) && !EndsWith(RStrip(line), ";") {
      ClozeFromExtend(line, ";", 0);
    }
  }

  /** The normaliser keeps the number of lines. */
  lemma NormaliseKeepsLineCount(text: string)
    ensures |Split(NormaliseText(text), '\n')| == |Split(text, '\n')|
  {
    NormalisedLinesNoNewline(text);
    SplitJoin(NormaliseLines(Split(text, '\n')), '\n');
  }

  /** Line `k` of the normalised text is line `k` of the text, normalised:
      a line without a cloze is unchanged, and a cloze line ends with `;`. */
  lemma NormaliseTextLine(text: string, k: nat)
    requires k < |Split(text, '\n')|
    ensures k < |Split(NormaliseText(text), '\n')|
    ensures Split(NormaliseText(text), '\n')[k] == NormaliseLine(Split(text, '\n')[k])
  {
    NormaliseKeepsLineCount(text);
    NormalisedLinesNoNewline(text);
    SplitJoin(NormaliseLines(Split(text, '\n')), '\n');
    NormaliseLinesAt(Split(text, '\n'), k);
  }

  /** Running the normaliser on its own output changes nothing. */
  lemma NormaliseIdempotent(text: string)
    ensures NormaliseText(NormaliseText(text)) == NormaliseText(text)
  {
    var lines := Split(text, '\n');
    var once := NormaliseLines(lines);
    NormalisedLinesNoNewline(text);
    SplitJoin(once, '\n');
    assert Split(NormaliseText(text), '\n') == once;
    assert NormaliseLines(once) == once by {
      forall k | 0 <= k < |once| ensures NormaliseLines(once)[k] == once[k] {
        NormaliseLinesAt(once, k);
        NormaliseLinesAt(lines, k);
        NormaliseLineIdempotent(lines[k]);
      }
    }
  }

  /** The normaliser brings in no line break. */
  lemma NormalisedLinesNoNewline(text: string)
    ensures forall k :: 0 <= k < |Split(text, '\n')| ==> '\n' !in NormaliseLines(Split(text, '\n'))[k]
  {
    var lines := Split(text, '\n');
    forall k | 0 <= k < |lines| ensures '\n' !in NormaliseLines(lines)[k] {
      NormaliseLinesAt(lines, k);
      assert '\n' !in lines[k];
    }
  }

  /** Two sequences extended by one element each differ exactly when their
      prefixes or their last elements do. */
  lemma AppendDiffers<T>(a: seq<T>, b: seq<T>, x: T, y: T)
    requires |a| == |b|
    ensures (a + [x] != b + [y]) <==> (a != b || x != y)
  {
    if a + [x] == b + [y] {
      assert (a + [x])[..|a|] == a && (b + [y])[..|b|] == b;
      assert (a + [x])[|a|] == x;
    }
  }

  /** `_force_semicolon_on_cloze_lines`: the new text, and whether it was
      changed (only then is it written back). */
  method ForceSemicolon(text: string) returns (newText: string, modified: bool)
    ensures newText == NormaliseText(text)
    ensures modified <==> newText != text
  {
    var lines := Split(text, '\n');
    var newLines: seq<string> := [];
    modified := false;
    var i := 0;
    while i < |lines|
      invariant 0 <= i <= |lines|
      invariant newLines == NormaliseLines(lines[..i])
      invariant modified <==> newLines != lines[..i]
    {
      var line := lines[i];
      ghost var before := newLines;
      assert lines[..i + 1] == lines[..i] + [line];
      assert lines[..i + 1][..i] == lines[..i];
      if HasCloze(line) {
        if !EndsWith(RStrip(line), ";") {
          newLines := newLines + [line + ";"];
          modified := true;
        } else {
          newLines := newLines + [line];
        }
      } else {
        newLines := newLines + [line];
      }
      AppendDiffers(before, lines[..i], newLines[i], line);
      assert newLines == before + [newLines[i]];
      i := i + 1;
    }
    assert lines[..i] == lines;
    NormalisedLinesNoNewline(text);
    JoinSplit(text, '\n');
    if modified {
      newText := Join("\n", newLines);
      SplitJoin(newLines, '\n');
      assert Split(newText, '\n') != Split(text, '\n');
    } else {
      newText := text;
    }
  }
}
