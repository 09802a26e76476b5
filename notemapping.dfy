/** How `add_cards` turns the editor text into notes: which lines become
    notes, how the parts of a line fill the fields of the note type (by
    position, or through the part-index to field-name mapping), and which
    tags each note gets from the tags column. Creating and storing the
    notes is the host's business and is not modelled; a note is its field
    values and its tags. */
module NoteMapping {
  import opened Strings
  import Splitter
  import CardLines

  /** Index of the first occurrence of `x` (`list.index`). */
  function IndexOf<T(==)>(xs: seq<T>, x: T): (r: nat)
    requires x in xs
    ensures r < |xs| && xs[r] == x
    ensures forall k :: 0 <= k < r ==> xs[k] != x
  {
    if xs[0] == x then 0 else 1 + IndexOf(xs[1..], x)
  }

  /** The field that part `p` is written to under a mapping from part
      indices (as decimal strings) to field names: the first field with the
      mapped name, when the name is non-empty and names a field. */
  function Target(mapping: map<string, string>, fieldNames: seq<string>, p: nat): (r: Option<nat>)
    ensures r.Some? ==> r.value < |fieldNames|
    ensures r.Some? <==> DecimalString(p) in mapping && mapping[DecimalString(p)] != [] && mapping[DecimalString(p)] in fieldNames
  {
    var key := DecimalString(p);
    if key in mapping && mapping[key] != [] && mapping[key] in fieldNames then Some(IndexOf(fieldNames, mapping[key]))
    else None
  }

  /** The last part before `n` written to field `j`, or -1. */
  function LastPartFor(mapping: map<string, string>, fieldNames: seq<string>, j: nat, n: nat): (p: int)
    ensures -1 <= p < n
    ensures p >= 0 ==> Target(mapping, fieldNames, p) == Some(j)
    ensures forall q :: p < q < n ==> Target(mapping, fieldNames, q) != Some(j)
  {
    if n == 0 then -1
    else if Target(mapping, fieldNames, n - 1) == Some(j) then n - 1
    else LastPartFor(mapping, fieldNames, j, n - 1)
  }

  /** The field values of a basic note made from `parts`. Without a mapping,
      part `k` fills field `k` and surplus parts are dropped; with one, each
      field holds the last part mapped to it. Fields nothing is written to
      stay empty. */
  method FillFields(parts: seq<string>, fieldNames: seq<string>, mapping: map<string, string>)
    returns (fields: seq<string>)
    ensures fields == BasicFields(parts, fieldNames, mapping)
    ensures |fields| == |fieldNames|
    ensures |mapping| == 0 ==> forall k :: 0 <= k < |fields| ==>
      fields[k] == if k < |parts| then Strip(parts[k]) else ""
    ensures |mapping| != 0 ==> forall j :: 0 <= j < |fields| ==>
      var p := LastPartFor(mapping, fieldNames, j, |parts|);
      fields[j] == if p >= 0 then Strip(parts[p]) else ""
  {
    if |mapping| == 0 {
      fields := FillByPosition(parts, |fieldNames|);
    } else {
      fields := FillByMapping(parts, fieldNames, mapping);
      MappedFillSpec(parts, fieldNames, mapping, |parts|);
    }
  }

  /** The fields the positional loop leaves: part `k` in field `k`. */
  function PositionalFill(parts: seq<string>, n: nat): (r: seq<string>)
    ensures |r| == n
  {
    seq(n, k requires 0 <= k < n => if k < |parts| then Strip(parts[k]) else "")
  }

  /** The fields of a basic note made from `parts`, by position or through
      the mapping. */
  function BasicFields(parts: seq<string>, fieldNames: seq<string>, mapping: map<string, string>): (r: seq<string>)
    ensures |r| == |fieldNames|
  {
    if |mapping| == 0 then PositionalFill(parts, |fieldNames|) else MappedFill(parts, fieldNames, mapping, |parts|)
  }

  /** The positional loop: part `k` goes to field `k`. */
  method FillByPosition(parts: seq<string>, n: nat) returns (fields: seq<string>)
    ensures |fields| == n
    ensures forall k :: 0 <= k < n ==> fields[k] == if k < |parts| then Strip(parts[k]) else ""
  {
    fields := seq(n, _ => "");
    var idx := 0;
    while idx < |parts|
      invariant 0 <= idx <= |parts| && |fields| == n
      invariant PositionalUpTo(fields, parts, idx)
    {
      PositionalStep(fields, parts, idx);
      if idx < |fields| {
        fields := fields[idx := Strip(parts[idx])];
      }
      idx := idx + 1;
    }
  }

  /** The mapping loop: each part goes to the field its index maps to. */
  method FillByMapping(parts: seq<string>, fieldNames: seq<string>, mapping: map<string, string>)
    returns (fields: seq<string>)
    ensures fields == MappedFill(parts, fieldNames, mapping, |parts|)
    ensures MappedUpTo(fields, parts, mapping, fieldNames, |parts|)
  {
    fields := seq(|fieldNames|, _ => "");
    var idx := 0;
    while idx < |parts|
      invariant 0 <= idx <= |parts| && fields == MappedFill(parts, fieldNames, mapping, idx)
    {
      var target := Target(mapping, fieldNames, idx);
      if target.Some? {
        fields := fields[target.value := Strip(parts[idx])];
      }
      idx := idx + 1;
    }
    MappedFillSpec(parts, fieldNames, mapping, |parts|);
  }

  /** The fields after the mapping loop has handled the first `idx` parts. */
  function MappedFill(parts: seq<string>, fieldNames: seq<string>, mapping: map<string, string>, idx: nat): (r: seq<string>)
    requires idx <= |parts|
    ensures |r| == |fieldNames|
  {
    if idx == 0 then seq(|fieldNames|, _ => "")
    else
      var prev := MappedFill(parts, fieldNames, mapping, idx - 1);
      var t := Target(mapping, fieldNames, idx - 1);
      if t.Some? then prev[t.value := Strip(parts[idx - 1])] else prev
  }

  lemma {:induction false} MappedFillSpec(parts: seq<string>, fieldNames: seq<string>, mapping: map<string, string>, idx: nat)
    requires idx <= |parts|
    ensures MappedUpTo(MappedFill(parts, fieldNames, mapping, idx), parts, mapping, fieldNames, idx)
  {
    if idx > 0 {
      MappedFillSpec(parts, fieldNames, mapping, idx - 1);
      MappedStep(MappedFill(parts, fieldNames, mapping, idx - 1), parts, mapping, fieldNames, idx - 1);
    }
  }

  /** Fields filled by position from the first `idx` parts. */
  predicate PositionalUpTo(fields: seq<string>, parts: seq<string>, idx: nat)
    requires idx <= |parts|
  {
    forall k :: 0 <= k < |fields| ==> fields[k] == if k < idx then Strip(parts[k]) else ""
  }

  lemma PositionalStep(fields: seq<string>, parts: seq<string>, idx: nat)
    requires idx < |parts| && PositionalUpTo(fields, parts, idx)
    ensures PositionalUpTo(if idx < |fields| then fields[idx := Strip(parts[idx])] else fields, parts, idx + 1)
  {
  }

  /** Fields filled through the mapping from the first `idx` parts. */
  predicate MappedUpTo(fields: seq<string>, parts: seq<string>, mapping: map<string, string>, fieldNames: seq<string>, idx: nat)
    requires idx <= |parts|
  {
    forall j :: 0 <= j < |fields| ==>
      var p := LastPartFor(mapping, fieldNames, j, idx);
      fields[j] == if p >= 0 then Strip(parts[p]) else ""
  }

  /** Writing part `idx` to its target field, if any, extends the mapped
      fill by one part. */
  lemma MappedStep(fields: seq<string>, parts: seq<string>, mapping: map<string, string>, fieldNames: seq<string>, idx: nat)
    requires idx < |parts| && |fields| == |fieldNames|
    requires MappedUpTo(fields, parts, mapping, fieldNames, idx)
    ensures var t := Target(mapping, fieldNames, idx);
      MappedUpTo(if t.Some? then fields[t.value := Strip(parts[idx])] else fields, parts, mapping, fieldNames, idx + 1)
  {
    var t := Target(mapping, fieldNames, idx);
    var f := if t.Some? then fields[t.value := Strip(parts[idx])] else fields;
    forall j | 0 <= j < |f|
      ensures var p := LastPartFor(mapping, fieldNames, j, idx + 1); f[j] == if p >= 0 then Strip(parts[p]) else ""
    {
      if t == Some(j) {
        assert LastPartFor(mapping, fieldNames, j, idx + 1) == idx;
      } else {
        assert LastPartFor(mapping, fieldNames, j, idx + 1) == LastPartFor(mapping, fieldNames, j, idx);
        assert f[j] == fields[j];
      }
    }
  }

  /** Tags of line `i`: the stripped, non-empty comma-separated pieces of tag
      line `i` (none when there is no such line), each followed by the line
      number `i + 1` when numbering is on. */
  function TagsForLine(tagLines: seq<string>, i: nat, numbered: bool): (tags: seq<string>)
    ensures i >= |tagLines| ==> tags == []
  {
    if i < |tagLines| then
      var pieces := CleanTags(Split(tagLines[i], ','));
      if numbered then Suffixed(pieces, DecimalString(i + 1)) else pieces
    else []
  }

  /** The stripped, non-empty pieces, in order. */
  function CleanTags(pieces: seq<string>): (r: seq<string>)
    ensures |r| <= |pieces|
  {
    if pieces == [] then []
    else
      var t := Strip(pieces[0]);
      (if t != [] then [t] else []) + CleanTags(pieces[1..])
  }

  function Suffixed(tags: seq<string>, suffix: string): (r: seq<string>)
    ensures |r| == |tags|
    ensures forall k :: 0 <= k < |r| ==> r[k] == tags[k] + suffix
  {
    if tags == [] then [] else [tags[0] + suffix] + Suffixed(tags[1..], suffix)
  }

  /** A cleaned tag list holds stripped, non-empty tags, and a piece that is
      already such a tag is kept. */
  lemma {:induction false} CleanTagsSpec(pieces: seq<string>)
    ensures forall k :: 0 <= k < |CleanTags(pieces)| ==> CleanTags(pieces)[k] != [] && IsStripped(CleanTags(pieces)[k])
    ensures (forall k :: 0 <= k < |pieces| ==> pieces[k] != [] && IsStripped(pieces[k])) ==> CleanTags(pieces) == pieces
  {
    if pieces != [] {
      CleanTagsSpec(pieces[1..]);
      StripSpec(pieces[0]);
    }
  }

  /** The comma-separated tags of a line: no tag is blank, none holds a comma
      or surrounding whitespace, and a numbered tag ends with the 1-based
      line number. */
  lemma TagsForLineSpec(tagLines: seq<string>, i: nat, numbered: bool)
    requires i < |tagLines|
    ensures var tags := TagsForLine(tagLines, i, numbered);
      var plain := CleanTags(Split(tagLines[i], ','));
      |tags| == |plain|
      && (forall k :: 0 <= k < |plain| ==> plain[k] != [] && IsStripped(plain[k]) && ',' !in plain[k])
      && (forall k :: 0 <= k < |tags| ==> tags[k] == if numbered then plain[k] + DecimalString(i + 1) else plain[k])
  {
    var pieces := Split(tagLines[i], ',');
    CleanTagsSpec(pieces);
    CleanTagsNoComma(pieces);
  }

  lemma {:induction false} CleanTagsNoComma(pieces: seq<string>)
    requires forall k :: 0 <= k < |pieces| ==> ',' !in pieces[k]
    ensures forall k :: 0 <= k < |CleanTags(pieces)| ==> ',' !in CleanTags(pieces)[k]
  {
    if pieces != [] {
      CleanTagsNoComma(pieces[1..]);
      LStripSpec(pieces[0]);
      RStripSpec(LStrip(pieces[0]));
      var t := Strip(pieces[0]);
      assert forall c :: c in t ==> c in pieces[0];
    }
  }

  /** Writing `"a, b"` style tag lines and reading them back: a tag line made
      of clean tags joined with commas yields those tags. */
  lemma TagLineRoundTrip(tags: seq<string>, tagLines: seq<string>, i: nat)
    requires |tags| >= 1 && i < |tagLines| && tagLines[i] == Join(",", tags)
    requires forall k :: 0 <= k < |tags| ==> tags[k] != [] && IsStripped(tags[k]) && ',' !in tags[k]
    ensures TagsForLine(tagLines, i, false) == tags
  {
    SplitJoin(tags, ',');
    CleanTagsSpec(tags);
  }

  datatype NoteKind = Basic | Cloze

  /** A note to be added: its kind, its field values, its tags and the index
      of the editor line it comes from. */
  datatype PlannedNote = PlannedNote(kind: NoteKind, fields: seq<string>, tags: seq<string>, line: nat)

  /** What the "add cards" action does: nothing without a deck and a note
      type, nothing for blank text, otherwise add these notes; or add these
      notes and stop with an `IndexError` at line `line`, where a cloze
      note has no field for its parts. */
  datatype AddOutcome = NoSelection | NoContent | Added(notes: seq<PlannedNote>) | Aborted(notes: seq<PlannedNote>, line: nat)

  /** The settings `add_cards` reads: the checked delimiters, the field names
      of the chosen note type, the part-to-field mapping, whether a note type
      named "Cloze" exists and how many fields it has, and whether tags are
      numbered. */
  datatype Settings = Settings(
    active: seq<char>,
    fieldNames: seq<string>,
    mapping: map<string, string>,
    hasClozeType: bool,
    clozeFieldCount: nat,
    numberTags: bool)

  /** The fields of a cloze note of `count` fields: the first part is the
      text, a non-empty second part goes to the extra field. `None` where
      the note has no field to write to and Python raises `IndexError`: it
      has no field at all, or one field and a non-empty second part. */
  function ClozeFields(parts: seq<string>, count: nat): (r: Option<seq<string>>)
    requires parts != []
    ensures r.None? <==> count == 0 || (count == 1 && |parts| > 1 && parts[1] != [])
    ensures r.Some? ==> (|r.value| == count && r.value[0] == parts[0]
      && (count > 1 ==> r.value[1] == if |parts| > 1 then parts[1] else "")
      && forall k :: 2 <= k < count ==> r.value[k] == "")
  {
    var extra := |parts| > 1 && parts[1] != [];
    if count == 0 || (count == 1 && extra) then None
    else Some([parts[0]] + seq(count - 1, k requires 0 <= k < count - 1 => if k == 0 && extra then parts[1] else ""))
  }

  /** The kind and fields of the note `add_cards` makes from the stripped
      card line `line`: a cloze note exactly when a Cloze note type exists
      and the line holds a cloze; `None` where filling its fields raises. */
  function NoteContent(line: string, cfg: Settings): Option<(NoteKind, seq<string>)> {
    var parts := Splitter.SplitParts(line, cfg.active);
    SplitPartsNonEmpty(line, cfg.active);
    if cfg.hasClozeType && CardLines.HasCloze(line) then
      match ClozeFields(parts, cfg.clozeFieldCount)
      case None => None
      case Some(fields) => Some((Cloze, fields))
    else Some((Basic, BasicFields(parts, cfg.fieldNames, cfg.mapping)))
  }

  /** Line `i` is a card line whose note cannot be filled. */
  predicate Raises(lines: seq<string>, i: nat, cfg: Settings)
    requires i < |lines|
  {
    CardLines.IsCardLine(lines[i], CardLines.EffectiveDelimiters(cfg.active)) && NoteContent(Strip(lines[i]), cfg).None?
  }

  /** `n` is the note `add_cards` makes from line `n.line`: that line is a
      card line, the note has the kind and fields `NoteContent` gives the
      stripped line and the tags of its tag line. */
  predicate PlannedFor(n: PlannedNote, lines: seq<string>, tagLines: seq<string>, cfg: Settings) {
    var delims := CardLines.EffectiveDelimiters(cfg.active);
    n.line < |lines| && CardLines.IsCardLine(lines[n.line], delims)
    && n.tags == TagsForLine(tagLines, n.line, cfg.numberTags)
    && NoteContent(Strip(lines[n.line]), cfg) == Some((n.kind, n.fields))
  }

  /** Notes in the order of their lines. */
  predicate InLineOrder(notes: seq<PlannedNote>) {
    forall a, b :: 0 <= a < b < |notes| ==> notes[a].line < notes[b].line
  }

  /** `add_cards` as a plan: the notes it adds, in order, for the editor
      text and the tags column. One note per card line, so the card counter
      and the number of notes added agree; at the first card line whose
      cloze note cannot be filled it stops, keeping the notes already
      added. */
  method PlanAddCards(text: string, tagsText: string, hasDeck: bool, hasNoteType: bool, cfg: Settings)
    returns (outcome: AddOutcome)
    ensures !hasDeck || !hasNoteType ==> outcome == NoSelection
    ensures hasDeck && hasNoteType && Strip(text) == [] ==> outcome == NoContent
    ensures hasDeck && hasNoteType && Strip(text) != [] ==> outcome.Added? || outcome.Aborted?
    ensures outcome.Added? || outcome.Aborted? ==>
      PlannedLines(outcome, Split(Strip(text), '\n'), Split(Strip(tagsText), '\n'), cfg)
  {
    if !hasDeck || !hasNoteType {
      return NoSelection;
    }
    var content := Strip(text);
    if content == [] {
      return NoContent;
    }
    outcome := AddLines(Split(content, '\n'), Split(Strip(tagsText), '\n'), cfg);
  }

  /** The notes added for `lines`: with `Added`, one per card line and no
      card line raises; with `Aborted`, line `line` is the first card line
      that raises and the notes are those of the card lines before it. In
      both, the notes are in line order and each is the note of its line. */
  predicate PlannedLines(outcome: AddOutcome, lines: seq<string>, tagLines: seq<string>, cfg: Settings)
    requires outcome.Added? || outcome.Aborted?
  {
    var delims := CardLines.EffectiveDelimiters(cfg.active);
    (outcome.Added? ==>
      |outcome.notes| == CardLines.CountCards(lines, delims)
      && forall j :: 0 <= j < |lines| ==> !Raises(lines, j, cfg))
    && (outcome.Aborted? ==>
      outcome.line < |lines| && Raises(lines, outcome.line, cfg)
      && |outcome.notes| == CardLines.CountCards(lines[..outcome.line], delims)
      && (forall j :: 0 <= j < outcome.line ==> !Raises(lines, j, cfg))
      && forall k :: 0 <= k < |outcome.notes| ==> outcome.notes[k].line < outcome.line)
    && InLineOrder(outcome.notes)
    && forall k :: 0 <= k < |outcome.notes| ==> PlannedFor(outcome.notes[k], lines, tagLines, cfg)
  }

  /** The loop of `add_cards` over the lines of the stripped text. */
  method AddLines(lines: seq<string>, tagLines: seq<string>, cfg: Settings) returns (outcome: AddOutcome)
    ensures outcome.Added? || outcome.Aborted?
    ensures PlannedLines(outcome, lines, tagLines, cfg)
  {
    var delims := CardLines.EffectiveDelimiters(cfg.active);
    var notes: seq<PlannedNote> := [];
    var i := 0;
    while i < |lines|
      invariant 0 <= i <= |lines|
      invariant |notes| == CardLines.CountCards(lines[..i], delims)
      invariant AllPlannedBefore(notes, lines, tagLines, cfg, i)
      invariant InLineOrder(notes)
      invariant forall j :: 0 <= j < i ==> !Raises(lines, j, cfg)
    {
      CardLines.CountCardsStep(lines, i, delims);
      var line := Strip(lines[i]);
      if CardLines.IsCardLine(lines[i], delims) {
        var note := MakeNote(line, i, tagLines, cfg);
        if note.None? {
          assert Raises(lines, i, cfg);
          return Aborted(notes, i);
        }
        assert !Raises(lines, i, cfg);
        assert PlannedFor(note.value, lines, tagLines, cfg);
        AppendNote(notes, note.value, lines, tagLines, cfg, i);
        notes := notes + [note.value];
      } else {
        assert !Raises(lines, i, cfg);
      }
      i := i + 1;
    }
    assert lines[..i] == lines;
    return Added(notes);
  }

  /** Every note so far is planned for a line before `i`. */
  predicate AllPlannedBefore(notes: seq<PlannedNote>, lines: seq<string>, tagLines: seq<string>, cfg: Settings, i: nat) {
    forall k :: 0 <= k < |notes| ==> notes[k].line < i && PlannedFor(notes[k], lines, tagLines, cfg)
  }

  lemma AppendNote(notes: seq<PlannedNote>, note: PlannedNote, lines: seq<string>, tagLines: seq<string>, cfg: Settings, i: nat)
    requires AllPlannedBefore(notes, lines, tagLines, cfg, i)
    requires InLineOrder(notes) && note.line == i && PlannedFor(note, lines, tagLines, cfg)
    ensures AllPlannedBefore(notes + [note], lines, tagLines, cfg, i + 1)
    ensures InLineOrder(notes + [note])
  {
  }

  /** The note for the stripped card line `line`, which is line `i`, or
      `None` where a cloze note has no field for its parts. */
  method MakeNote(line: string, i: nat, tagLines: seq<string>, cfg: Settings) returns (note: Option<PlannedNote>)
    ensures note.None? <==> NoteContent(line, cfg).None?
    ensures note.Some? ==>
      note.value.line == i && note.value.tags == TagsForLine(tagLines, i, cfg.numberTags)
      && NoteContent(line, cfg) == Some((note.value.kind, note.value.fields))
    ensures note.Some? ==> (note.value.kind == Cloze <==> cfg.hasClozeType && CardLines.HasCloze(line))
    ensures note.Some? ==> |note.value.fields| == if note.value.kind == Cloze then cfg.clozeFieldCount else |cfg.fieldNames|
    ensures note.Some? && note.value.kind == Basic && |cfg.mapping| == 0 ==>
      var parts := Splitter.SplitParts(line, cfg.active);
      forall k :: 0 <= k < |note.value.fields| ==> note.value.fields[k] == if k < |parts| then Strip(parts[k]) else ""
    ensures note.Some? && note.value.kind == Basic && |cfg.mapping| != 0 ==>
      var parts := Splitter.SplitParts(line, cfg.active);
      forall j :: 0 <= j < |note.value.fields| ==>
        var p := LastPartFor(cfg.mapping, cfg.fieldNames, j, |parts|);
        note.value.fields[j] == if p >= 0 then Strip(parts[p]) else ""
  {
    var parts := Splitter.GetSplitParts(line, cfg.active);
    SplitPartsNonEmpty(line, cfg.active);
    if cfg.hasClozeType && CardLines.HasCloze(line) {
      var fields := ClozeFields(parts, cfg.clozeFieldCount);
      if fields.None? {
        return None;
      }
      note := Some(PlannedNote(Cloze, fields.value, TagsForLine(tagLines, i, cfg.numberTags), i));
    } else {
      var fields := FillFields(parts, cfg.fieldNames, cfg.mapping);
      note := Some(PlannedNote(Basic, fields, TagsForLine(tagLines, i, cfg.numberTags), i));
    }
  }

  /** `_get_split_parts` never returns an empty list. */
  lemma SplitPartsNonEmpty(line: string, active: seq<char>)
    ensures Splitter.SplitParts(line, active) != []
  {
  }
}
