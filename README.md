# Bulk card entry add-on: a Dafny model of its text logic

This project models the deterministic core of a flashcard add-on whose
bulk-entry dialog turns lines of delimited text into notes. The notes go
into the host application's collection. Three groups of logic are modelled:

- **The bulk-entry editor** (`dialog.py`):
  - the tag-aware field splitter, where a delimiter inside `<...>` does not split;
  - the card-line counter and the line-number gutter;
  - the cloze normaliser, which forces a `;` onto every cloze line;
  - the field mapping and tag reading of "add cards";
  - the tags-column handlers (padding, numbering, repeating);
  - the orderings of the shown-notes snapshot `[nid, line, tags, lapses, reps]`
    and its projection onto the editor, the gutter and `shown_note_ids`;
  - the natural sort key, the grid and text views, the spreadsheet paste,
    line concatenation, the join-lines toggle, list filtering, the
    translation lookup, the collision-free media names and the pipe-table
    converter.
- **The media manager** (`media_manager.py`): the media list, the media
  folder (a map from file name to bytes), the entry text, and the undo stack
  of delete and rename records.
- **The HTML export transforms** (`exporthtml.py`):
  - the answer side after `<hr id=answer>`;
  - script removal and script scoping;
  - `data:` URLs (RFC 2397) with a base 64 payload (section 4 of RFC 4648)
    and a percent-decoded file name (section 2.1 of RFC 3986);
  - the rewriting of media references into data URLs.

State that the source updates in place becomes a class:
- `Snapshot.ShownCards` for the snapshot and the editor it is projected onto;
- `TagColumn.TagsColumn` for the tags column and its two flags;
- `Views.EntryEditor` for the join-lines toggle;
- `Media.MediaManager` for the media dialog.

Each class method is proved against a specification function. The
properties are proved about those functions as lemmas. Loops in the source
are methods with loop invariants: the splitter, the counters, the
normaliser, the field filling, the grid conversion, the Markdown scan, the
shuffle and the unique-name loop. Python's `re.sub` is modelled once
(`Regex.Substitute`: leftmost, non-overlapping matches of an anchored
matcher). Each regular expression the add-on uses is an anchored matcher
written out by hand.

Where the source is wrong (see Findings), the methods follow the code as
written. The corrected function sits beside the as-written one, and the
intended property is proved about the corrected function.

Modules: `Strings` (Python string helpers), `Regex`, `Splitter`,
`CardLines`, `NoteMapping`, `TagColumn`, `NaturalSort`, `Sorting`,
`Snapshot`, `Views`, `Markdown`, `Media`, `Base64`, `Url`, `Export`.

## Model

| member | source | states |
|---|---|---|
| `Strings.StripSpec` | dialog.py:1391 | `strip()` yields a string with no whitespace at either end, leaves such a string alone and is empty exactly on all-whitespace strings |
| `Strings.LStripSpec` | dialog.py:1391 | `lstrip` removes a run of leading whitespace and nothing else |
| `Strings.RStripSpec` | dialog.py:766 | `rstrip()` removes a run of trailing whitespace and nothing else |
| `Strings.JoinSplit` | dialog.py:758-777 | `sep.join(s.split(sep)) == s` |
| `Strings.SplitJoin` | dialog.py:2679 | splitting a join of separator-free pieces gives the pieces back |
| `Strings.SplitLinesIsSplit` | dialog.py:1046 | when `\n` is the only line break, `splitlines()` is `split('\n')` without the final empty piece |
| `Strings.DecimalRoundTrip` | dialog.py:1671 | `str(n)` reads back as `n` |
| `Strings.DecimalStringInjective` | dialog.py:1671 | distinct numbers have distinct decimal strings |
| `Regex.NoMatchIdentity` | exporthtml.py:87 | `re.sub` leaves a text in which no match starts unchanged |
| `Regex.SubstitutePrefix` | exporthtml.py:87 | a prefix where no match starts is copied unchanged |
| `Regex.SubstituteKeepsCharOut` | exporthtml.py:87 | a character in neither the text nor any replacement is absent from the result |
| `Splitter.ActiveDelimiter` | dialog.py:1376-1377 | the first checked delimiter, or `;` when none is checked |
| `Splitter.GetSplitParts` | dialog.py:1375-1401 | the character loop with its `<`/`>` depth counter computes `SplitParts`; a line without the delimiter comes back as `[line]`, unstripped |
| `Splitter.SplitParts` | dialog.py:1375-1401 | what `_get_split_parts` returns: the whole line without the delimiter, else the stripped depth-0 pieces |
| `Splitter.SplitPartsAreSegments` | dialog.py:1382-1401 | the parts are the stripped pieces between consecutive depth-0 delimiter positions, so there is one more part than there are such positions |
| `Splitter.SplitPoints` | dialog.py:1384-1397 | split points are exactly the delimiter positions where no tag is open (depth never below 0), in increasing order |
| `Splitter.SplitPointsComplete` | dialog.py:1386-1396 | every depth-0 delimiter position is a split point |
| `Splitter.ScanSegments` | dialog.py:1386-1399 | the loop's state (depth, current part) reads the line exactly as the split points cut it |
| `Splitter.SplitJoinedRow` | dialog.py:2638-2683 | a delimiter-joined row of stripped plain cells splits back into the same cells |
| `CardLines.EffectiveDelimiters` | dialog.py:1048-1050 | the checked delimiters, or `[';']` when none is checked |
| `CardLines.IsCardLine` | dialog.py:1054-1056 | a card line: non-blank after `strip()` and holding a checked delimiter |
| `CardLines.CountCards` | dialog.py:1052-1056 | the number of card lines |
| `CardLines.UpdateCardCount` | dialog.py:1044-1058 | the count is the number of `splitlines()` lines that are non-blank after strip and hold an active delimiter |
| `CardLines.CountCardsStep` | dialog.py:1053-1056 | one more line adds one to the count exactly when it is a card line |
| `CardLines.UpdateLineNumbers` | dialog.py:1065-1089 | with a snapshot the labels are left as they were; otherwise one label per text block, as `Labels` gives |
| `CardLines.Labels` | dialog.py:1078-1085 | the gutter labels: the running card number on card lines, `""` on other blocks |
| `CardLines.LabelsAt` | dialog.py:1078-1085 | one label per block: a card line gets one more than the number of card lines before it, any other block `""` |
| `CardLines.LabelsLast` | dialog.py:1078-1085 | the last block's label, in terms of the card lines before it |
| `CardLines.LabelsKeepPrefix` | dialog.py:1078-1085 | appending a block leaves the earlier labels unchanged |
| `CardLines.LabelsLength` | dialog.py:1078-1085 | there are as many labels as blocks |
| `CardLines.CountersAgree` | dialog.py:1044-1089 | when `\n` is the only line break, the gutter's blocks and the counter's lines hold the same number of cards |
| `CardLines.DigitRunEnd` | dialog.py:764 | the end of a maximal ASCII digit run (the `\d+` of the cloze pattern) |
| `CardLines.ClozeFromExtend` | dialog.py:764 | a cloze match survives text appended to the line |
| `CardLines.HasCloze` | dialog.py:764 | `re.search(r'{{c\d+::.*?}}', line)` succeeds |
| `CardLines.NormaliseLine` | dialog.py:764-772 | only a cloze line whose rstrip does not end in `;` gets `;` appended; every other line is unchanged; a cloze line then ends, before trailing whitespace, with `;` |
| `CardLines.NormaliseText` | dialog.py:757-777 | the text after the normaliser: every line normalised, joined with `\n` |
| `CardLines.NormaliseLineIdempotent` | dialog.py:762-773 | a normalised line is left alone by a second pass |
| `CardLines.NormaliseKeepsLineCount` | dialog.py:757-777 | the normaliser keeps the number of lines |
| `CardLines.NormaliseTextLine` | dialog.py:757-777 | line `k` of the new text is line `k` of the old text, normalised |
| `CardLines.NormaliseIdempotent` | dialog.py:757-777 | running the normaliser on its own output changes nothing |
| `CardLines.NormalisedLinesNoNewline` | dialog.py:757-777 | the normaliser brings in no line break |
| `CardLines.ForceSemicolon` | dialog.py:748-787 | the loop computes the normalised text, and reports a change exactly when the text differs |
| `NoteMapping.IndexOf` | dialog.py:1673 | `list.index`: the first position holding the name |
| `NoteMapping.Target` | dialog.py:1669-1673 | part `p` goes to a field exactly when `str(p)` is mapped to a non-empty name of an existing field, and then to the first field with that name |
| `NoteMapping.LastPartFor` | dialog.py:1670-1674 | the last part before `n` that is written to field `j`; no later part is |
| `NoteMapping.FillFields` | dialog.py:1660-1674 | the fields are `BasicFields` of the parts: without a mapping, part `k` (stripped) fills field `k` and surplus parts are dropped; with one, each field holds the last part mapped to it; other fields stay empty |
| `NoteMapping.FillByPosition` | dialog.py:1664-1667 | the positional loop: field `k` is part `k` stripped, or empty past the parts |
| `NoteMapping.FillByMapping` | dialog.py:1668-1674 | the mapping loop computes `MappedFill` of all parts, which is as `MappedUpTo` describes |
| `NoteMapping.PositionalFill` | dialog.py:1664-1667 | the fields the positional loop leaves: part `k` stripped in field `k`, empty past the parts |
| `NoteMapping.MappedFill` | dialog.py:1668-1674 | the fields after the mapping loop has handled the first `idx` parts |
| `NoteMapping.BasicFields` | dialog.py:1660-1674 | the fields of a basic note: positional without a mapping, mapped with one |
| `NoteMapping.MappedFillSpec` | dialog.py:1670-1674 | the mapping fill after `idx` parts satisfies `MappedUpTo` |
| `NoteMapping.PositionalStep` | dialog.py:1665-1667 | one more part written by position extends the positional fill |
| `NoteMapping.MappedStep` | dialog.py:1671-1674 | writing part `idx` to its target field, if any, extends the mapped fill |
| `NoteMapping.Suffixed` | dialog.py:1679-1680 | every tag followed by the line number |
| `NoteMapping.TagsForLine` | dialog.py:1676-1682 | a line with no tag line gets no tags |
| `NoteMapping.CleanTags` | dialog.py:1677 | no more tags than comma-separated pieces |
| `NoteMapping.CleanTagsSpec` | dialog.py:1677 | every tag is stripped and non-empty, and pieces that already are such tags are all kept |
| `NoteMapping.TagsForLineSpec` | dialog.py:1676-1682 | tags of line `i` are the stripped non-empty comma pieces of tag line `i`, comma-free, each followed by `i + 1` when numbering is on |
| `NoteMapping.CleanTagsNoComma` | dialog.py:1677 | no tag holds a comma |
| `NoteMapping.TagLineRoundTrip` | dialog.py:1676-1682 | a tag line written as clean tags joined by commas reads back as those tags |
| `NoteMapping.ClozeFields` | dialog.py:1654-1659 | a cloze note: text from part 0, a non-empty part 1 into the extra field, other fields empty; `None` (the `IndexError`) exactly when the note type has no field, or one field and a non-empty part 1 |
| `NoteMapping.PlanAddCards` | dialog.py:1608-1692 | no deck or note type: nothing; blank text: nothing; otherwise the notes of `AddLines` over the stripped text's lines and tag lines |
| `NoteMapping.AddLines` | dialog.py:1640-1688 | either one note per card line, in line order, each the `NoteContent` of its line with its tag line's tags, and no line raises; or the notes of the card lines before the first line that raises, and a stop there |
| `NoteMapping.AppendNote` | dialog.py:1640-1686 | the loop invariant: all notes so far come from earlier lines, in order |
| `NoteMapping.MakeNote` | dialog.py:1648-1682 | the note for one card line is `NoteContent` of the line with the line's tags, or none exactly where that raises: cloze exactly when a Cloze type exists and the line holds a cloze; its fields by the cloze, positional or mapped rule |
| `NoteMapping.SplitPartsNonEmpty` | dialog.py:1375-1401 | the splitter never returns an empty list, so `parts[0]` exists |
| `TagColumn.RStripDigits` | dialog.py:2380 | `rstrip('0123456789')`: a prefix that does not end in a digit |
| `TagColumn.RenumberLineAsWritten` | dialog.py:2379-2382 | one line of `update_tag_numbers` as written: blank to empty, else the unstripped pieces' stems with the suffix, joined with `", "` |
| `TagColumn.RenumberLineFixed` | dialog.py:2379-2382 | the corrected line (Findings): the same with every piece stripped first |
| `TagColumn.RStripDigitsAppend` | dialog.py:2380-2381 | digits appended to a digit-free ending are exactly what `rstrip` removes |
| `TagColumn.TagStems` | dialog.py:2380 | no more stems than pieces |
| `TagColumn.RenumberAsWrittenGrows` | dialog.py:2378-2382 | as written, renumbering `"a1, b1"` adds one more space after the comma on every pass |
| `TagColumn.AsWrittenTwoTags` | dialog.py:2380-2382 | the first as-written pass keeps the gap and puts `", "` in front of it |
| `TagColumn.AsWrittenStems` | dialog.py:2380 | the stems of two numbered tags, read as written |
| `TagColumn.Spaced` | dialog.py:2382 | `", ".join` is a comma join of the pieces after the first, each with a leading space |
| `TagColumn.JoinCommaSpace` | dialog.py:2382 | `", ".join(xs)` equals the comma join of `Spaced(xs)` |
| `TagColumn.TagStemsClean` | dialog.py:2380 | with stripped pieces, every stem is comma-free, unpadded and ends in no digit |
| `TagColumn.NumberedStem` | dialog.py:2380-2381 | a clean stem plus the number strips to itself and gives the stem back |
| `TagColumn.TagStemsOfSpaced` | dialog.py:2380-2382 | a `", "` join of numbered clean stems reads back as the stems |
| `TagColumn.RenumberFixedIdempotent` | dialog.py:2378-2382 | the corrected renumbering (Findings), pieces stripped: numbering an already numbered line changes nothing |
| `TagColumn.NumberedNotBlank` | dialog.py:2379 | a line of numbered tags is not blank |
| `TagColumn.JoinLast` | dialog.py:2382 | a join ends with the last character of its last part |
| `TagColumn.NoneNonEmptyIffBlank` | dialog.py:2371 | `not any(lines)` holds exactly when the column is blank |
| `TagColumn.PadTagsAsWritten` | dialog.py:1185-1191 | `update_tags_lines` as written: a short column gets the missing newlines appended to its unstripped text, a long one is cut |
| `TagColumn.PadTags` | dialog.py:1185-1191 | the corrected padding (Findings): the missing newlines appended to the stripped text |
| `TagColumn.PadTagsAsWrittenGrows` | dialog.py:1185-1189 | as written, the appended newlines are stripped again, so every later call appends them once more |
| `TagColumn.PadTagsPads` | dialog.py:1185-1189 | the corrected padding (Findings): a short column is padded with empty lines up to the card lines, reads back as the old tag lines, and a second padding changes nothing |
| `TagColumn.PaddedLines` | dialog.py:1188-1189 | newlines after a stripped text are empty lines that `strip()` removes again |
| `TagColumn.PadTagsCuts` | dialog.py:1190-1191 | a long column is cut to the card lines' count, as written and corrected alike |
| `TagColumn.Counting` | dialog.py:2372 | as many labels as card lines |
| `TagColumn.Tabulate` | dialog.py:2377-2385 | a list of the requested length |
| `TagColumn.TabulateAt` | dialog.py:2377-2385 | entry `k` is `f(k)` |
| `TagColumn.RenumberedLines` | dialog.py:2377-2396 | one line per card line, as written (`trim` false) or corrected |
| `TagColumn.NumberTags` | dialog.py:2368-2397 | `update_tag_numbers` on the text and the flag: line numbers for a column without tags, numbering once when checked, removal when unchecked |
| `TagColumn.RenumberKeepsNewlineOut` | dialog.py:2380-2382 | a renumbered line, as written or corrected, brings in no line break |
| `TagColumn.RenumberFixedRenumbers` | dialog.py:2376-2396 | for the corrected renumbering (Findings): a later pass reads the stems back; the same number changes nothing, another renumbers, none removes the numbers |
| `TagColumn.ReadCommaSpaceLine` | dialog.py:1676-1677 | a `", "` line of clean tags reads back, as `add_cards` reads it, as those tags |
| `TagColumn.NumberedLineReadBack` | dialog.py:1676-1680 | a line numbered by the corrected renumbering (Findings) reads back, as `add_cards` reads it, as the old stems each followed by the line number |
| `TagColumn.TagStemsOfBlank` | dialog.py:2379 | a blank line yields no stems |
| `TagColumn.CountingSpec` | dialog.py:2372 | label `k` is `k + 1`, with no line break |
| `TagColumn.RenumberedLinesSpec` | dialog.py:2377-2396 | line `k` of the new column is the renumbered tag line `k`, as written or corrected |
| `TagColumn.NumberTagsLines` | dialog.py:2368-2397 | as written and corrected: a column without tags becomes `1..n`; checked and already numbered: unchanged; otherwise one renumbered (or unnumbered) line per card line and the flag follows the box |
| `TagColumn.NumberedColumnReadBack` | dialog.py:2377-2385 | after the corrected numbering (Findings), `add_cards` gives card `k` the old stems of tag line `k`, each followed by `k + 1` |
| `TagColumn.UnnumberAfterNumber` | dialog.py:2376-2396 | with the corrected renumbering (Findings), unchecking after numbering gives the same column as an unnumbered pass over the original lines |
| `TagColumn.DedupSpec` | dialog.py:2414 | `dict.fromkeys`: no repeats, the same elements, and a list without repeats kept as is |
| `TagColumn.FirstNonBlank` | dialog.py:2408 | `next(...)`: a non-blank line of the column, or none when every line is blank |
| `TagColumn.FirstNonBlankOfColumn` | dialog.py:2403-2413 | in a column with a tag the first line is non-blank, so the second fallback is unreachable |
| `TagColumn.Copies` | dialog.py:2420 | `[line] * n` |
| `TagColumn.RepeatTags` | dialog.py:2399-2421 | the first non-blank line's deduplicated tags on every card line, or `n - 1` newlines when there are none |
| `TagColumn.RepeatStep` | dialog.py:2399-2425 | `update_repeated_tags` on the text and flags: repeat once when checked; when unchecked clear the flag and run the numbering handler |
| `TagColumn.RepeatableTags` | dialog.py:2414 | deduplicated tags are distinct, stripped, non-empty, comma- and newline-free |
| `TagColumn.NewlinesAreBlankLines` | dialog.py:2404 | `n - 1` newlines are `n` empty lines |
| `TagColumn.RepeatBlankColumn` | dialog.py:2403-2406 | a blank column gives `n` empty lines, which carry no tags |
| `TagColumn.RepeatedLines` | dialog.py:2420 | `n` copies of a clean tag line, each read back as those tags |
| `TagColumn.RepeatTagsLines` | dialog.py:2399-2421 | one line per card line, each reading back as the first non-blank line's tags without repeats |
| `TagColumn.TagsColumn.UpdateTagsLines` | dialog.py:1185-1192 | the column becomes `PadTagsAsWritten` of the old one: the missing newlines appended to the unstripped text, or the column cut; the flags are unchanged |
| `TagColumn.TagsColumn.UpdateTagNumbers` | dialog.py:2368-2397 | the column and numbering flag become `NumberTags` of the old ones, with the pieces kept unstripped as written |
| `TagColumn.TagsColumn.UpdateRepeatedTags` | dialog.py:2399-2425 | the column and both flags become `RepeatStep` of the old ones, numbering as written |
| `TagColumn.RenumberAll` | dialog.py:2377-2385 | the renumbering loop as written computes `RenumberedLines` with unstripped pieces |
| `NaturalSort.RunEnd` | dialog.py:2725 | the end of a maximal run of digits or of non-digits |
| `NaturalSort.RunEndSpec` | dialog.py:2725 | every character of the run is of the run's kind |
| `NaturalSort.Chunks` | dialog.py:2725 | `re.split('([0-9]+)')` always yields an odd number of runs |
| `NaturalSort.DigitOf` | dialog.py:2722 | the digit value `int()` reads: ASCII digits give their value, and the other digit blocks give a value below 10 |
| `NaturalSort.PyInt` | dialog.py:2722 | `int(text)`: whitespace, an optional sign, decimal digits with single underscores between them; `None` for `ValueError` |
| `NaturalSort.ConvertAsWritten` | dialog.py:2720-2724 | `convert` as written: `int(run)`, or the lowered run where `int` raises |
| `NaturalSort.NaturalKeyAsWritten` | dialog.py:2719-2725 | the key as written: one element per run |
| `NaturalSort.Convert` | dialog.py:2720-2724 | the corrected `convert` (Findings): a number only for a digit run |
| `NaturalSort.NaturalKey` | dialog.py:2719-2725 | the corrected key (Findings): one element per run, numbers only for the digit runs |
| `NaturalSort.ChunksConcat` | dialog.py:2725 | the runs put back together give the line |
| `NaturalSort.ChunksAlternate` | dialog.py:2725 | runs alternate: digit-free text at even positions, non-empty digit runs at odd ones |
| `NaturalSort.NaturalKeyShape` | dialog.py:2719-2725 | every corrected key has text at even and numbers at odd positions |
| `NaturalSort.KeysComparable` | dialog.py:2719-2725 | two corrected keys never hold an `int` and a `str` at the same position, so comparing them never fails |
| `NaturalSort.BodyValueAscii` | dialog.py:2722 | on ASCII digits the value `int()` reads is the decimal value |
| `NaturalSort.PyIntOfDigits` | dialog.py:2722-2725 | `int()` reads a digit run of the split as its decimal value |
| `NaturalSort.PyIntNeedsDigit` | dialog.py:2722-2723 | `int()` raises on a run holding no decimal digit of any script |
| `NaturalSort.RunAgrees` | dialog.py:2720-2724 | `convert` as written and corrected agree on digit runs and on runs without any decimal digit |
| `NaturalSort.KeysAgree` | dialog.py:2719-2725 | on a line whose only decimal digits are ASCII, the key as written is the corrected key |
| `NaturalSort.UnicodeDigitClash` | dialog.py:2719-2725 | as written, the keys of `"\u0663"` and `"a"` are `[3]` and `["a"]`, so `sorted` compares an `int` with a `str` |
| `NaturalSort.StrLessOrder` | dialog.py:2730 | Python's `<` on strings is a strict total order |
| `NaturalSort.KeyLess` | dialog.py:2730 | Python's `<` on key lists: the first differing element decides, a proper prefix first |
| `NaturalSort.ChunkLessOrder` | dialog.py:2730 | `<` on key elements is a strict total order |
| `NaturalSort.KeyLessOrder` | dialog.py:2730 | `<` on keys is a strict total order |
| `NaturalSort.NaturalLe` | dialog.py:2730-2734 | the order `sorted(..., key=natural_sort_key)` leaves, on the corrected key |
| `NaturalSort.NaturalLeTotal` | dialog.py:2730-2734 | the order the natural sort places lines in is total and transitive |
| `Sorting.Insert` | dialog.py:2730-2734 | insertion adds exactly one element |
| `Sorting.SortBy` | dialog.py:2730-2734 | the stable sort keeps the length |
| `Sorting.InsertMultiset` | dialog.py:2730-2734 | insertion adds the element and loses none |
| `Sorting.SortByMultiset` | dialog.py:2730-2734 | sorting is a permutation |
| `Sorting.InsertSorted` | dialog.py:2730-2734 | insertion into an ordered list keeps it ordered |
| `Sorting.SortBySorted` | dialog.py:2730-2734 | the sorted list is in order |
| `Sorting.SortBySortedIdentity` | dialog.py:2730-2732 | a list already in order is left as it is |
| `Sorting.SortedIffUnchanged` | dialog.py:2730-2732 | `xs == sorted(xs)` exactly when `xs` is in order |
| `Sorting.Reverse` | dialog.py:2792 | `list.reverse()`: element `i` is element `n - 1 - i` |
| `Sorting.ReverseReverse` | dialog.py:2791-2792 | reversing twice gives the list back |
| `Sorting.ReverseMultiset` | dialog.py:2792 | reversing is a permutation |
| `Sorting.ReverseSorted` | dialog.py:2792-2794 | a list in order, reversed, is in the opposite order |
| `Sorting.Shuffle` | dialog.py:2764 | `random.shuffle` with its choices given: the swaps of `Shuffled`, a permutation |
| `Sorting.Shuffled` | dialog.py:2764 | the Fisher-Yates swaps for the given choices, applied from the last index down |
| `Sorting.SwapMultiset` | dialog.py:2764 | one swap keeps the elements |
| `Snapshot.PermutedValid` | dialog.py:2727-2840 | a rearrangement keeps the snapshot's shape (all or no records with counts) |
| `Snapshot.Ids` | dialog.py:2847 | the ids, in order |
| `Snapshot.LinesOf` | dialog.py:2848 | the card lines, in order |
| `Snapshot.TagsOf` | dialog.py:2849 | the tag strings, in order |
| `Snapshot.NonBlankInfos` | dialog.py:1722-1759 | one record without counts per entry whose card line is not blank, in order; each from an entry |
| `Snapshot.NonBlankInfosKeepsAll` | dialog.py:1722-1759 | every entry is kept exactly when no card line is blank |
| `Snapshot.OrdersTotal` | dialog.py:2729-2734 | the line orders used by the alphabetical ordering are total |
| `Snapshot.LinesSortedIff` | dialog.py:2729-2732 | the lines are in ascending natural order exactly when the records are |
| `Snapshot.AlphaOrder` | dialog.py:2727-2737 | the records sorted by the natural key of their line: descending when already ascending, ascending otherwise |
| `Snapshot.AlphaOrderSpec` | dialog.py:2727-2737 | a permutation of the records; descending by natural key exactly when they were ascending, ascending otherwise |
| `Snapshot.DateOrderSpec` | dialog.py:2787-2797 | a permutation; ascending ids outside the date view; reversed in it, so a second use in date view gives the records back |
| `Snapshot.DateOrder` | dialog.py:2787-2797 | ascending note ids, or reversed while already in the date view |
| `Snapshot.LapsesOf` | dialog.py:2824 | the lapse counts, in order |
| `Snapshot.WithStats` | dialog.py:2803-2822 | the records with their counts, fetched for every record when the first has none |
| `Snapshot.WithStatsSpec` | dialog.py:2803-2822 | every record carries counts afterwards, and records change only by gaining them |
| `Snapshot.LapseOrderSpec` | dialog.py:2824-2838 | a permutation; ascending by lapses when they were descending, descending otherwise |
| `Snapshot.LapseOrder` | dialog.py:2824-2838 | the records sorted by lapses: ascending when they were descending, descending otherwise |
| `Snapshot.SnapshotLabels` | dialog.py:2860-2869 | label `i` is the label of record `i` in the current view |
| `Snapshot.LabelNumbers` | dialog.py:2860-2869 | every label starts with its 1-based position; in the simple view it is only that |
| `Snapshot.ProjectionReadsBack` | dialog.py:2855-2856 | the editor and the tags column read back as the records' lines and tags |
| `Snapshot.PadTo` | dialog.py:2748-2749 | tag lines padded with `''` up to the card count, the old lines kept |
| `Snapshot.Zip` | dialog.py:2751 | `zip` pairs card line `i` with tag line `i`, dropping surplus tag lines |
| `Snapshot.Firsts` | dialog.py:2757 | the card lines of the pairs |
| `Snapshot.Seconds` | dialog.py:2757 | the tag lines of the pairs |
| `Snapshot.AlphaPairs` | dialog.py:2739-2760 | the (card, tag) pairs sorted by the natural key of the card line, descending when already ascending |
| `Snapshot.AlphaPairsSpec` | dialog.py:2739-2760 | without a snapshot: a permutation of the (card, tag) pairs; descending exactly when the card lines were ascending; the new texts read back as the sorted pairs |
| `Snapshot.PairsReadBack` | dialog.py:2757-2760 | any rearrangement of the pairs reads back from the two texts |
| `Snapshot.EditorPairsNonEmpty` | dialog.py:2751-2757 | there is always at least one pair, so `zip(*combined)` never fails |
| `Snapshot.CollectShown` | dialog.py:1726-1754 | the loop keeps exactly `NonBlankInfos` of the entries: one record per non-blank card line, in order |
| `Snapshot.ShownCards.Show` | dialog.py:1722-1759 | the records become `NonBlankInfos` of the entries, `shown_note_ids` their ids; then the projection in the simple view, or empty editors with the view mode kept when none is left; the lapse direction is kept |
| `Snapshot.ShownCards.ClearOnEdit` | dialog.py:1060-1063 | editing drops a non-empty snapshot and returns to the simple view; editors, labels, ids and the lapse direction are kept |
| `Snapshot.ShownCards.Repopulate` | dialog.py:2842-2874 | the editor, tags column, labels and `shown_note_ids` become the projection of the snapshot |
| `Snapshot.ShownCards.SortAlphabetically` | dialog.py:2727-2760 | with a snapshot: the records in `AlphaOrder`, simple view, projected into editor, tags, labels and ids; without: a blank editor changes nothing, otherwise the editor and tags in `AlphaPairs` order with the snapshot, view and ids kept; the lapse direction is always kept |
| `Snapshot.ShownCards.SortRandomly` | dialog.py:2762-2785 | with a snapshot: the records `Shuffled` by the choices, simple view, projected into editor, tags, labels and ids; without: a blank editor changes nothing, otherwise the (card, tag) pairs become `Shuffled` by the choices, with the snapshot, view and ids kept; the lapse direction is always kept |
| `Snapshot.ShownCards.SortByCreationDate` | dialog.py:2787-2797 | the records in `DateOrder`, date view, projected into editor, tags, labels and ids; the lapse direction kept; no snapshot, no change |
| `Snapshot.ShownCards.SortByLapses` | dialog.py:2799-2840 | the records with counts in `LapseOrder`, statistics view, the button's direction, projected into editor, tags, labels and ids; no snapshot, no change |
| `Snapshot.SortEditorAlphabetically` | dialog.py:2742-2760 | the new texts are the sorted pairs' card lines and tag lines |
| `Snapshot.ShuffleEditor` | dialog.py:2772-2785 | the same number of card lines, and the (card, tag) pairs become exactly `Shuffled` by the choices |
| `Snapshot.PadLines` | dialog.py:2748-2749 | the padding loop computes `PadTo` |
| `Snapshot.ShuffledPairsReadBack` | dialog.py:2783-2785 | shuffled pairs read back exactly from the new texts, as a rearrangement of the old pairs |
| `Views.MaxWidth` | dialog.py:2649-2655 | `max_cols`: no row is wider, and some row is that wide |
| `Views.PadRow` | dialog.py:2676-2678 | a row filled with empty cells up to the grid's width |
| `Views.RowsOf` | dialog.py:2651-2653 | the parts of every line |
| `Views.PadRows` | dialog.py:2674-2678 | every row filled up to the width |
| `Views.GridShape` | dialog.py:2638-2668 | one row per line, all as wide as the widest line's parts, each starting with its line's stripped parts |
| `Views.GridOf` | dialog.py:2638-2668 | one row per line of the text, each as wide as the widest, or no grid for blank text |
| `Views.RowTexts` | dialog.py:2673-2679 | one text line per grid row |
| `Views.TextOf` | dialog.py:2670-2683 | the rows joined, one text line per row |
| `Views.GridTextRoundTrip` | dialog.py:2638-2683 | switching a grid to text and back gives the same grid, for plain cells and a non-space delimiter |
| `Views.AllRowsReadBack` | dialog.py:2670-2683 | every row's line splits back into the row |
| `Views.WidthOfRectangular` | dialog.py:2649-2655 | a rectangular grid's width is its rows' width |
| `Views.PadRowsFull` | dialog.py:2674-2678 | padding a full grid changes nothing |
| `Views.RowsOfRowTexts` | dialog.py:2649-2653 | the parts of the text lines are the grid rows |
| `Views.RowReadsBack` | dialog.py:2673-2679 | a joined row has no line break and splits back into itself |
| `Views.NonBlankText` | dialog.py:2645 | a text holding a non-space delimiter is not blank |
| `Views.SwitchToGridView` | dialog.py:2638-2668 | the loops compute `GridOf` |
| `Views.FillRows` | dialog.py:2662-2665 | every cell is its part stripped, the rest empty |
| `Views.CollectParts` | dialog.py:2649-2655 | every line's parts, and `max_cols` the widest |
| `Views.PartsAppend` | dialog.py:2651-2653 | the parts loop's invariant grows by one line |
| `Views.MaxWidthAppend` | dialog.py:2654-2655 | one more row widens the grid to it when wider |
| `Views.WidthOfCells` | dialog.py:2662-2665 | stripping keeps every row's width |
| `Views.SwitchToTextView` | dialog.py:2670-2683 | the loops compute `TextOf` |
| `Views.FormatPaste` | dialog.py:2127-2134 | the loop computes `PasteExcel` |
| `Views.PasteExcel` | dialog.py:2127-2134 | every line of the stripped clipboard text formatted as a row |
| `Views.SpacePadded` | dialog.py:2132 | one padded cell per cell |
| `Views.JoinSpacePadded` | dialog.py:2132 | `" ; ".join` is the `;` join of the space-padded cells |
| `Views.StripSpacePadded` | dialog.py:2132 | stripping the padded cells gives the cells |
| `Views.PastedRowSplits` | dialog.py:2129-2133 | a pasted row splits, under `;`, into its stripped spreadsheet cells |
| `Views.StripAllCells` | dialog.py:2131 | stripped cells stay plain |
| `Views.StripAllAt` | dialog.py:2131 | cell `k` stripped |
| `Views.PaddedPlain` | dialog.py:2132 | padding keeps cells plain |
| `Views.PasteExcelLines` | dialog.py:2127-2134 | one output line per line of the stripped clipboard text, each formatted as a row |
| `Views.PieceNoChar` | dialog.py:2130 | a piece of a split holds no character the string lacks |
| `Views.JoinHolds` | dialog.py:2134 | a join holds every character of its parts |
| `Views.ConcatLines` | dialog.py:2528 | as many lines as the longer text |
| `Views.ConcatenateLines` | dialog.py:2523-2529 | as many lines as the longer text; line `i` is the editor's line followed by the clipboard's when both are stripped |
| `Views.ConcatenateText` | dialog.py:2523-2529 | the editor's and the clipboard's stripped lines concatenated line by line |
| `Views.StrippedConcat` | dialog.py:2528 | two stripped strings, the first non-empty, concatenate to a stripped string |
| `Views.ReplaceNewlines` | dialog.py:2567 | `replace('\n', ' ')` keeps length and other characters and leaves no line break |
| `Views.JoinLinesRoundTrip` | dialog.py:2559-2570 | joining and toggling again restores the text exactly and forgets the saved text |
| `Views.EntryEditor.JoinLines` | dialog.py:2559-2570 | the text and the saved text become `JoinStep` of the old ones |
| `Views.Filter` | dialog.py:2501 | never more items than the list |
| `Views.FilterSpec` | dialog.py:2499-2505 | an item is kept exactly when it is listed and contains the lowered, stripped search; a blank search keeps everything |
| `Views.FilterList` | dialog.py:2499-2505 | the filtered items, and whether the first is selected |
| `Views.TranslateSpec` | dialog.py:176-192 | an unknown language uses the Portuguese table; the key itself when the table lacks it, nothing else |
| `Views.Translate` | dialog.py:176-192 | the key's text in the current language's table, the Portuguese table for an unknown language, the key itself when missing |
| `Views.CandidateInjective` | dialog.py:1897-1903 | different counters give different names |
| `Views.Candidate` | dialog.py:1897-1903 | the name tried at counter `k`: `{base}_{k}{ext}` |
| `Views.CandidatesBound` | dialog.py:1294-1300 | `n` taken names need `n` files, so the loop ends |
| `Views.UniqueName` | dialog.py:1894-1903 | a free name: the name itself if free, else `{base}_{k}{ext}` for the first free `k` from 1 |
| `Views.AddMedia` | dialog.py:1894-1905 | the stored name was free and the folder gains exactly that entry; a free name is kept as it is |
| `Markdown.RowCells` | dialog.py:2031 | a table row has at least one cell |
| `Markdown.IsTableLine` | dialog.py:2030 | a stripped line starting and ending with `\|` with another `\|` between |
| `Markdown.IsSeparator` | dialog.py:2032 | the separator pattern matches the unstripped next line |
| `Markdown.SepRunChars` | dialog.py:2032 | a character other than `\|`, whitespace, `-`, `:` makes the separator test fail |
| `Markdown.SeparatorChars` | dialog.py:2032 | a separator line holds only bars, whitespace, `-` and `:` |
| `Markdown.RejectStays` | dialog.py:2032 | a failed separator match stays failed |
| `Markdown.FitRow` | dialog.py:2046-2049 | a row padded with `""` and cut to the header's width |
| `Markdown.TableHtml` | dialog.py:2041-2052 | one table's HTML: header cells, then every row fitted to the header |
| `Markdown.TableHtmlEnd` | dialog.py:2084-2086 | a table's HTML ends in `>`, so `rstrip` leaves it alone |
| `Markdown.ConvertMarkdownToHtml` | dialog.py:2019-2089 | the scan, flush and rebuild loops as written compute `MarkdownToHtmlAsWritten` |
| `Markdown.ScanTables` | dialog.py:2026-2068 | the scan loop as written and the final flush give every table's HTML and the last table's start |
| `Markdown.ScanLine` | dialog.py:2027-2055 | one step of the scan loop as written: the separator line takes the same tests as any line |
| `Markdown.MarkdownToHtmlAsWritten` | dialog.py:2019-2089 | `convert_markdown_to_html` as written |
| `Markdown.MarkdownToHtml` | dialog.py:2019-2089 | the corrected conversion (Findings): the separator line skipped |
| `Markdown.AppendTable` | dialog.py:2041-2052 | one table's HTML appended: header cells, then each row fitted to the header |
| `Markdown.HeaderLoop` | dialog.py:2042-2043 | the header cells' HTML |
| `Markdown.FitRowLoop` | dialog.py:2046-2049 | the padding loop and the cut |
| `Markdown.DataLoop` | dialog.py:2048-2051 | the data cells' HTML |
| `Markdown.RebuildLines` | dialog.py:2070-2081 | the rebuild loop |
| `Markdown.KeepLines` | dialog.py:2088 | the non-blank lines, right-stripped, when there is no table |
| `Markdown.NoTableKeepsLines` | dialog.py:2019-2089 | without a pipe line followed by a separator, only blank lines and trailing whitespace go |
| `Markdown.RunNoTable` | dialog.py:2026-2055 | without a table start the scan opens no table and emits no HTML |
| `Markdown.RunBody` | dialog.py:2030-2038 | each pipe line after the header adds one row |
| `Markdown.RowsOf` | dialog.py:2039 | the cells of each body line |
| `Markdown.ScanOneTable` | dialog.py:2026-2038 | a one-table text collects the header and, as written, the separator row before the body rows |
| `Markdown.RebuildTableLines` | dialog.py:2072-2081 | no line of a one-table text survives the rebuild |
| `Markdown.AsWrittenRendersSeparator` | dialog.py:2030-2038 | as written, a one-table text renders the separator's dashes as the first body row |
| `Markdown.OneTableRendersBody` | dialog.py:2019-2089 | the corrected conversion (Findings): with the separator skipped, a one-table text becomes exactly the table of its header and body rows |
| `Markdown.OneTableConverts` | dialog.py:2019-2089 | the conversion of a one-table text, with or without the separator row |
| `Markdown.OneTableLines` | dialog.py:2020 | the text splits back into its lines, all stripped pipe or separator lines |
| `Markdown.OneTableHtml` | dialog.py:2056-2068 | the flushed HTML of a one-table text |
| `Markdown.SeparatorIsTableLine` | dialog.py:2030-2032 | `\|-\|-\|` passes both the separator test and the pipe-line test |
| `Media.Listing` | media_manager.py:63-67 | one list entry per file |
| `Media.ListingReadsBack` | media_manager.py:63-67 | entry `i` is `{i+1}-{name}`: the number and the name read back |
| `Media.RemoveAt` | media_manager.py:85 | `list.pop(i)`: the element at `i` removed, the others in order |
| `Media.InsertAt` | media_manager.py:150 | `list.insert(i, x)`: `x` at `i`, or appended past the end |
| `Media.InsertRemove` | media_manager.py:85-150 | inserting the popped element where it was gives the list back |
| `Media.RemoveSrcTagsAbsent` | media_manager.py:89 | a text that does not mention the file is unchanged |
| `Media.RemoveSrcTags` | media_manager.py:89 | the `re.sub` that deletes every tag whose `src` is the quoted file name |
| `Media.SrcTagMentions` | media_manager.py:89 | a removed tag holds the file name |
| `Media.SrcTagRemoved` | media_manager.py:89 | a tag `<...src="name"...>` is removed whole and removal goes on after it |
| `Media.RemoveSrcTagsShrinks` | media_manager.py:89 | removal never grows the text |
| `Media.AfterDelete` | media_manager.py:69-96 | no row or a missing file: no change; otherwise the record `('delete', name, row, content)` is pushed |
| `Media.AfterRename` | media_manager.py:98-133 | no row, cancelled, empty, same or taken name, or missing file: no change; otherwise `('rename', old, new, row)` is pushed |
| `Media.AfterUndo` | media_manager.py:135-175 | an empty stack changes nothing; otherwise exactly the last record is popped |
| `Media.DeleteSpec` | media_manager.py:78-90 | a deletion removes exactly the selected entry, keeps the rest in order, deletes the file, removes its tags, pushes the record and keeps list and folder consistent |
| `Media.RenameSpec` | media_manager.py:117-127 | a rename changes only the selected entry, moves the contents, replaces the old name in the text, pushes the record and keeps list and folder consistent |
| `Media.DeleteThenUndo` | media_manager.py:78-151 | undoing a delete restores list, folder and stack; the text keeps its tags removed |
| `Media.RenameThenUndo` | media_manager.py:117-171 | undoing a rename restores list, folder and stack; the text has the new name replaced back |
| `Media.RenameUndoLosesOverwritten` | media_manager.py:117-171 | a rename onto an unlisted file overwrites it, and undo does not bring it back |
| `Media.RenameUndoTextDiffers` | media_manager.py:126-170 | the text is not always restored: `ab` with `b` renamed to `aa` and back becomes `ba` |
| `Media.FailedDeleteThenUndo` | media_manager.py:81-151 | a failed removal still pushes the record, and undoing it lists the name twice |
| `Media.MediaManager.UpdateMediaList` | media_manager.py:63-67 | the list widget shows the current list; nothing else changes |
| `Media.MediaManager.DeleteFile` | media_manager.py:69-96 | the state becomes `AfterDelete` of the old state |
| `Media.MediaManager.RenameFile` | media_manager.py:98-133 | the state becomes `AfterRename` of the old state |
| `Media.MediaManager.UndoLastAction` | media_manager.py:135-175 | the state becomes `AfterUndo` of the old state |
| `Base64.CharOf` | exporthtml.py:56 | every 6-bit value has a character of the alphabet |
| `Base64.ValueOf` | exporthtml.py:56 | every character of the alphabet has its value |
| `Base64.ValueOfChar` | exporthtml.py:56 | each character stands for exactly one value |
| `Base64.Encode` | exporthtml.py:56 | the output has `4 * ceil(n / 3)` characters |
| `Base64.GroupRoundTrip` | exporthtml.py:56 | a group of three bytes decodes back |
| `Base64.OneRoundTrip` | exporthtml.py:56 | a final byte with `==` decodes back |
| `Base64.TwoRoundTrip` | exporthtml.py:56 | a final pair with `=` decodes back |
| `Base64.DecodeEncode` | exporthtml.py:56 | decoding the encoding gives the bytes back |
| `Base64.EncodeChars` | exporthtml.py:56 | the output holds only alphabet characters and `=` |
| `Url.HexDigit` | exporthtml.py:47 | an upper case hexadecimal digit with that value |
| `Url.Unquote` | exporthtml.py:47 | a name without `%` is unchanged |
| `Url.UnquoteBytesQuote` | exporthtml.py:47 | percent-decoding gives back the bytes that were encoded |
| `Url.UnquoteQuote` | exporthtml.py:47 | `unquote` hands the UTF-8 decoder exactly the encoded bytes |
| `Url.NonAsciiKept` | exporthtml.py:47 | characters outside ASCII are kept and decoding goes on after them |
| `Export.MarkerLength` | exporthtml.py:41 | a marker match starts with `<` and is at least 14 characters long |
| `Export.FirstMarker` | exporthtml.py:41 | the first position where the marker matches; none before it |
| `Export.BackAfterMarker` | exporthtml.py:38-42 | the text after the first marker, whether `answer` is unquoted, single- or double-quoted |
| `Export.MarkerAtStart` | exporthtml.py:41 | each form of the marker is recognised with its length |
| `Export.BackWithoutMarker` | exporthtml.py:42 | an answer without the marker is returned whole |
| `Export.PureBackContent` | exporthtml.py:38-42 | the text after the first answer marker, or the whole answer |
| `Export.Find` | exporthtml.py:87 | the first occurrence at or after `i` |
| `Export.ScriptSpan` | exporthtml.py:87 | a script match starts with `<script>` |
| `Export.RemoveJsNoScript` | exporthtml.py:84-87 | input without `<script>` comes back unchanged |
| `Export.CloseFound` | exporthtml.py:87 | the closing tag after a body without one is the first one |
| `Export.BlockAtStart` | exporthtml.py:87 | a block is the shortest span up to the first `</script>` |
| `Export.ScriptBlockRemoved` | exporthtml.py:84-87 | a script block is deleted whole, across newlines, and removal goes on after it |
| `Export.RemoveJs` | exporthtml.py:84-87 | `""` for empty input; otherwise every script block removed |
| `Export.TypeMarkerLength` | exporthtml.py:75 | a marker match starts with `[[type:` |
| `Export.TypeMarkerRemoved` | exporthtml.py:75 | every `[[type:...]]` marker is removed and the text around it kept |
| `Export.QuoteFrom` | exporthtml.py:79 | the first quote at or after `i` |
| `Export.GetByIdRewritten` | exporthtml.py:79 | `document.getElementById('x')` becomes `cardElement.querySelector('#x')` |
| `Export.HandlerNameFound` | exporthtml.py:80 | each of the three handler names is recognised |
| `Export.HandlerRemoved` | exporthtml.py:80 | a handler assignment is removed with its closing `};` |
| `Export.IsolateJsPlain` | exporthtml.py:72-82 | input with no marker and no script comes back unchanged |
| `Export.ScriptScoped` | exporthtml.py:76-82 | each script block becomes its scoped body in the fixed wrapper; text around it is kept |
| `Export.IsolateJs` | exporthtml.py:72-82 | `""` for empty input; otherwise type markers removed, then every script scoped |
| `Export.MediaToDataUrl` | exporthtml.py:44-59 | a URL exactly when the name is non-empty, the media folder is known and the decoded name is in it |
| `Export.MimeOf` | exporthtml.py:53 | the MIME table by lower-cased extension, `application/octet-stream` otherwise |
| `Export.DataUrl` | exporthtml.py:53-57 | `data:<mime>;base64,<payload>` |
| `Export.DataUrlPayload` | exporthtml.py:53-57 | `data:<mime>;base64,<payload>`, and the payload decodes to the file contents |
| `Export.EncodedNameLookedUp` | exporthtml.py:47-51 | a percent-encoded name is looked up under its decoded name |
| `Export.DataUrlPlain` | exporthtml.py:53-57 | a data URL holds no quote and no parenthesis |
| `Export.MimePlain` | exporthtml.py:53 | no MIME type holds a quote or parenthesis |
| `Export.PayloadPlain` | exporthtml.py:56 | no payload holds a quote or parenthesis |
| `Export.SrcRef` | exporthtml.py:64 | a `src` match ends after where it starts |
| `Export.Refs` | exporthtml.py:64 | the names `re.findall` captures, left to right, without overlap |
| `Export.UrlNameEnd` | exporthtml.py:64 | the first quote or `)`: the name holds neither |
| `Export.RemoteNotProcessed` | exporthtml.py:65 | names starting with `http` or `data:` are never processed |
| `Export.SrcReferenceFound` | exporthtml.py:64 | `src="name"` (in any case) is found |
| `Export.UrlReferenceFound` | exporthtml.py:64 | `url(name)` is found |
| `Export.UrlBlankReference` | exporthtml.py:64 | in `url( )` the blank is given back to the name |
| `Export.QuotedReferenceEmbedded` | exporthtml.py:69 | a double-quoted reference becomes the quoted data URL |
| `Export.BareNameKept` | exporthtml.py:69 | a name neither quoted nor parenthesised is left alone |
| `Export.EmbedOne` | exporthtml.py:69 | the four replacements of one name by its data URL |
| `Export.EmbedAll` | exporthtml.py:66-69 | the loop over the names, each with a data URL rewritten |
| `Export.EmbedAllUnavailable` | exporthtml.py:66-68 | names without a data URL leave the content as it is |
| `Export.FindAndEmbedMedia` | exporthtml.py:61-70 | empty content gives `""`; otherwise every candidate name is rewritten in turn |

## Left out

- The Qt widgets: layout, painting, themes, splitters, shortcuts, focus
  handlers, zoom, the beginner mode and the debounce timers. The widgets'
  contents are plain values here: strings, lines and cell grids.
- The host application's API: creating, adding, fetching and removing
  notes, decks, the revision-log queries, card rendering, hooks and
  progress dialogs. A note is its field values and tags. "Add cards" returns
  the planned notes, in `NoteMapping.PlanAddCards`. A note the host refuses
  to add is not modelled.
- The lapse and review counts from the revision log are the parameter
  `fetch` of `Snapshot.ShownCards.SortByLapses`.
- The creation-date text of a note id is the parameter `dateOf`, because it
  is `datetime` formatting in the local time zone.
- The field rendering of the "show" action (`html.unescape`, the sound-tag
  rewrite, whitespace collapsing) is not modelled. Its card lines and tags
  are inputs of `Snapshot.ShownCards.Show`.
- Sorting.Shuffle: the random choices of `random.shuffle` are the
  parameter `picks`. The swaps they drive are stated (`Sorting.Shuffled`),
  but not their distribution.
- Export.FindAndEmbedMedia: Python's set iteration order is the parameter
  `order`, because it is not specified.
- Export.MediaToDataUrl: the media folder is a map from names to bytes. The
  UTF-8 decoder of `unquote` is the parameter `utf8`. A failing file read,
  which the source turns into `None`, is not modelled.
- Media.MediaManager.DeleteFile: a failing `os.remove`, `os.rename` or
  file write is the flag `fsError`. The input dialog of a rename is its
  answer (`newName`, `ok`). Message boxes, list selection and the media
  preview player are left out.
- The JSON settings file, the pre-show state file, `shutil` copies, the
  clipboard and `webbrowser` are left out. Clipboard text is a parameter
  of `Views.PasteExcel`, `Views.ConcatenateText` and `Views.FilterList`.
- `paste_word` and `paste_raw_html` are left out. Their regex cascades
  clean clipboard HTML and depend on the regex engine.
- `generate_export_html` orchestration is left out. It adds and removes
  temporary notes through the host. The answer text that
  `render_output` produces is the input of `Export.PureBackContent`.
- `visualizar.py` is a host-rendering dialog and `arabic.py` a
  translation table. Neither is part of this model.
- CardLines.HasCloze: `\d` is modelled as the ASCII digits. Python's `\d`
  also matches other Unicode decimal digits.
- NaturalSort.NaturalKey: `str.lower()` is modelled as ASCII lower-casing,
  because Unicode case mapping is not modelled. The same holds for
  `Views.Filter` and `Export.MimeOf`.
- Export.Refs: `re.IGNORECASE` is modelled as ASCII case folding plus the
  long s `ſ`. No other non-ASCII character folds to the pattern letters.
- NaturalSort.DigitOf: of the Unicode decimal digits that `int()` reads,
  only the ASCII, Arabic-Indic, Extended Arabic-Indic, Devanagari and
  fullwidth blocks are modelled. On digits of other scripts
  `NaturalSort.PyInt` gives `None` where Python reads a number.
- NaturalSort.NaturalKeyShape: states the shape of the corrected key
  (Findings). As written, a text run holding a non-ASCII decimal digit
  becomes a number at an even position.
- NaturalSort.KeysComparable: states that corrected keys always compare. As
  written, `sorted` raises `TypeError` on such lines
  (`NaturalSort.UnicodeDigitClash`). `NaturalSort.KeysAgree` proves the two
  keys equal on every line whose only decimal digits are ASCII.
- NaturalSort.NaturalLe: orders by the corrected key. It is the source's
  order on lines whose only decimal digits are ASCII; where the source
  raises `TypeError`, the model still sorts.
- Snapshot.AlphaOrder: sorts with `NaturalSort.NaturalLe`, so it has the
  same limit. The same holds for `Snapshot.AlphaPairs`,
  `Snapshot.ShownCards.SortAlphabetically` and
  `Snapshot.SortEditorAlphabetically`.
- TagColumn.RenumberFixedRenumbers: about the corrected renumbering
  (Findings). The handler as written (`TagColumn.TagsColumn.UpdateTagNumbers`)
  adds a space after every comma on each pass
  (`TagColumn.RenumberAsWrittenGrows`), so this round trip is not promised
  for it.
- TagColumn.RenumberFixedIdempotent: about the corrected renumbering only,
  for the same reason.
- TagColumn.NumberedLineReadBack: about the corrected renumbering only. The
  read-back of an as-written line differs when a piece ends in whitespace.
- TagColumn.NumberedColumnReadBack: about the corrected renumbering only,
  as `TagColumn.NumberedLineReadBack`.
- TagColumn.UnnumberAfterNumber: about the corrected renumbering only, for
  the same reason.
- TagColumn.PadTagsPads: about the corrected padding (Findings). The
  handler as written keeps growing the column
  (`TagColumn.PadTagsAsWrittenGrows`).
- Markdown.OneTableRendersBody: about the corrected conversion (Findings).
  The methods follow the code as written (`Markdown.AsWrittenRendersSeparator`).
- Media.SrcTagMatch: the tag match ends at the first `>`. It equals the
  regular expression only for file names without `>`. A name holding `>`
  can match across it in Python, and never matches in the model.
- NoteMapping.PlanAddCards: where a cloze note has no field for its parts,
  the `IndexError` stops the action (`Aborted`). The notes already added
  stay, and the progress dialog, the summary message and `mw.reset()` are
  skipped. Only the added notes and the line are modelled.
- Snapshot.ShownCards.SortAlphabetically: without a snapshot, the
  `setPlainText` calls run with signals live, so the editor's `textChanged`
  handlers (`update_line_numbers`, `update_tags_lines`,
  `_force_semicolon_on_cloze_lines`, `clear_creation_info_on_edit` and the
  rest) run after the reordering. The model keeps each handler a separate
  operation (`CardLines.UpdateLineNumbers`, `TagColumn.TagsColumn.UpdateTagsLines`,
  `CardLines.ForceSemicolon`, `Snapshot.ShownCards.ClearOnEdit`) and does
  not compose them into the sort, so the method says nothing about the
  gutter labels on that path. The same holds for
  `Snapshot.ShownCards.SortRandomly`.
- The `paste_excel` result is inserted at the cursor in the source. The
  model returns the formatted text, because cursor position is widget state.

## Findings

| source | as written | input that shows it | evidently intended | confidence | as-written member | corrected member |
|---|---|---|---|---|---|---|
| dialog.py:2378-2382 | `update_tag_numbers` keeps the space that follows each comma in a tag piece, then rejoins the pieces with `", "` | tag line `a1, b1` with numbering rechecked: `a1,  b1`, then `a1,   b1` | renumbering an already numbered line leaves it unchanged | medium, not executed | `TagColumn.RenumberAsWrittenGrows` | `TagColumn.RenumberFixedIdempotent` |
| dialog.py:1185-1189 | `update_tags_lines` counts the stripped tag lines but appends the missing newlines to the unstripped text | tags `a`, two card lines: every later change of the card text appends one more `\n` | the column holds one line per card line and stays that way | medium, not executed | `TagColumn.PadTagsAsWrittenGrows` | `TagColumn.PadTagsPads` |
| dialog.py:2719-2725 | `convert` passes every run of `re.split('([0-9]+)')` to `int()`, which also reads decimal digits of other scripts | lines `\u0663` (Arabic-Indic three) and `a`: keys `[3]` and `['a']`, so `sorted` compares an `int` with a `str` and raises `TypeError` | only the runs the split isolates become numbers, so any two keys compare | medium, not executed | `NaturalSort.UnicodeDigitClash` | `NaturalSort.KeysComparable` |
| dialog.py:2030-2038 | `convert_markdown_to_html` collects the `\|---\|---\|` separator line as the table's first body row | `\|a\|b\|` / `\|-\|-\|` / `\|1\|2\|` renders a `<td>-</td><td>-</td>` row | the separator line is not rendered | high, not executed | `Markdown.AsWrittenRendersSeparator` | `Markdown.OneTableRendersBody` |
