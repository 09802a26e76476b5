/** The editor's smaller text helpers: the grid and text views of the
    card lines, the spreadsheet paste, line concatenation with the
    clipboard, the join-lines toggle, list filtering, the translation
    lookup and the collision-free media file names. */
module Views {
  import opened Strings
  import opened Splitter

  // ---- switch_to_grid_view / switch_to_text_view ----

  /** The cells of one line in the grid: its split parts, stripped. */
  function Cells(line: string, active: seq<char>): seq<string> {
    StripAll(SplitParts(line, active))
  }

  /** The widest row (`max_cols`), taken over the rows in order. */
  function MaxWidth(rows: seq<seq<string>>): (w: nat)
    ensures forall r :: 0 <= r < |rows| ==> |rows[r]| <= w
    ensures rows == [] ==> w == 0
    ensures rows != [] ==> exists r :: 0 <= r < |rows| && |rows[r]| == w
  {
    if rows == [] then 0
    else
      var w := MaxWidth(rows[..|rows| - 1]);
      var last := |rows[|rows| - 1]|;
      assert forall r :: 0 <= r < |rows| - 1 ==> rows[r] == rows[..|rows| - 1][r];
      if last > w then last else w
  }

  /** A row filled up to `w` cells with empty ones (cells the grid never set
      read as `""`). */
  function PadRow(row: seq<string>, w: nat): (r: seq<string>)
    requires |row| <= w
    ensures |r| == w && r[..|row|] == row && forall k :: |row| <= k < w ==> r[k] == []
  {
    row + seq(w - |row|, _ => [])
  }

  /** The cells of every line. */
  function RowsOf(lines: seq<string>, active: seq<char>): (rows: seq<seq<string>>)
    ensures |rows| == |lines| && forall i :: 0 <= i < |lines| ==> rows[i] == Cells(lines[i], active)
  {
    seq(|lines|, i requires 0 <= i < |lines| => Cells(lines[i], active))
  }

  /** Every row filled up to `w` cells. */
  function PadRows(rows: seq<seq<string>>, w: nat): (r: seq<seq<string>>)
    requires forall i :: 0 <= i < |rows| ==> |rows[i]| <= w
    ensures |r| == |rows| && forall i :: 0 <= i < |rows| ==> r[i] == PadRow(rows[i], w)
  {
    seq(|rows|, i requires 0 <= i < |rows| => PadRow(rows[i], w))
  }

  /** The grid the text view switches to: one row per line of the text,
      each as wide as the widest, or no grid at all for blank text. */
  function GridOf(text: string, active: seq<char>): (grid: seq<seq<string>>) {
    if Strip(text) == [] then []
    else
      var rows := RowsOf(Split(text, '\n'), active);
      PadRows(rows, MaxWidth(rows))
  }

  /** Every row of the grid has `w` cells. */
  predicate Rectangular(grid: seq<seq<string>>, w: nat) {
    forall r :: 0 <= r < |grid| ==> |grid[r]| == w
  }

  /** Every row of a non-blank text is as wide as the widest line's parts,
      and each row starts with that line's stripped parts. */
  lemma GridShape(text: string, active: seq<char>)
    requires Strip(text) != []
    ensures var grid := GridOf(text, active);
      var lines := Split(text, '\n');
      |grid| == |lines|
      && Rectangular(grid, MaxWidth(RowsOf(lines, active)))
      && forall r :: 0 <= r < |grid| ==> grid[r][..|Cells(lines[r], active)|] == Cells(lines[r], active)
  {
    var rows := RowsOf(Split(text, '\n'), active);
    var w := MaxWidth(rows);
    var grid := PadRows(rows, w);
    assert GridOf(text, active) == grid;
    forall r | 0 <= r < |grid| ensures |grid[r]| == w && grid[r][..|rows[r]|] == rows[r] {
      assert grid[r] == PadRow(rows[r], w);
    }
  }

  /** One line of the text view: the row's cells joined with the active
      delimiter, without spaces. */
  function RowText(row: seq<string>, active: seq<char>): string {
    Join([ActiveDelimiter(active)], row)
  }

  function RowTexts(grid: seq<seq<string>>, active: seq<char>): (r: seq<string>)
    ensures |r| == |grid| && forall k :: 0 <= k < |grid| ==> r[k] == RowText(grid[k], active)
  {
    seq(|grid|, k requires 0 <= k < |grid| => RowText(grid[k], active))
  }

  /** The text the grid view switches back to. */
  function TextOf(grid: seq<seq<string>>, active: seq<char>): string {
    Join("\n", RowTexts(grid, active))
  }

  /** Cells that survive the trip through the text view: stripped, and free
      of the delimiter, angle brackets and line breaks. */
  predicate GridCell(cell: string, d: char) {
    PlainCell(cell, d) && IsStripped(cell) && '\n' !in cell
  }

  /** Switching a grid of at least two columns to text and back gives the
      same grid, when the delimiter is not whitespace. */
  lemma GridTextRoundTrip(grid: seq<seq<string>>, w: nat, active: seq<char>)
    requires |grid| >= 1 && w >= 2 && Rectangular(grid, w)
    requires var d := ActiveDelimiter(active); d != '<' && d != '>' && !IsSpace(d)
    requires forall r, k :: 0 <= r < |grid| && 0 <= k < w ==> GridCell(grid[r][k], ActiveDelimiter(active))
    ensures GridOf(TextOf(grid, active), active) == grid
  {
    var d := ActiveDelimiter(active);
    var lines := RowTexts(grid, active);
    AllRowsReadBack(grid, w, active);
    SplitJoin(lines, '\n');
    JoinedHasSeparator(grid[0], d);
    NonBlankText(lines, d);
    RowsOfRowTexts(grid, lines, active);
    WidthOfRectangular(grid, w);
    PadRowsFull(grid, w);
  }

  lemma AllRowsReadBack(grid: seq<seq<string>>, w: nat, active: seq<char>)
    requires w >= 2 && Rectangular(grid, w)
    requires var d := ActiveDelimiter(active); d != '<' && d != '>' && !IsSpace(d)
    requires forall r, k :: 0 <= r < |grid| && 0 <= k < w ==> GridCell(grid[r][k], ActiveDelimiter(active))
    ensures forall r :: 0 <= r < |grid| ==>
      '\n' !in RowTexts(grid, active)[r] && Cells(RowTexts(grid, active)[r], active) == grid[r]
  {
    forall r | 0 <= r < |grid|
      ensures '\n' !in RowTexts(grid, active)[r] && Cells(RowTexts(grid, active)[r], active) == grid[r]
    {
      RowReadsBack(grid[r], active);
    }
  }

  lemma WidthOfRectangular(grid: seq<seq<string>>, w: nat)
    requires |grid| >= 1 && Rectangular(grid, w)
    ensures MaxWidth(grid) == w
  {
  }

  lemma PadRowsFull(grid: seq<seq<string>>, w: nat)
    requires Rectangular(grid, w)
    ensures PadRows(grid, w) == grid
  {
    forall i | 0 <= i < |grid| ensures PadRow(grid[i], w) == grid[i] {
      assert PadRow(grid[i], w) == grid[i] + [];
    }
  }

  lemma RowsOfRowTexts(grid: seq<seq<string>>, lines: seq<string>, active: seq<char>)
    requires lines == RowTexts(grid, active)
    requires forall r :: 0 <= r < |grid| ==> Cells(lines[r], active) == grid[r]
    ensures RowsOf(lines, active) == grid
  {
  }

  /** A row of grid cells joined with the delimiter is a line that splits
      back into the row. */
  lemma RowReadsBack(row: seq<string>, active: seq<char>)
    requires |row| >= 2
    requires var d := ActiveDelimiter(active); d != '<' && d != '>' && !IsSpace(d)
    requires forall k :: 0 <= k < |row| ==> GridCell(row[k], ActiveDelimiter(active))
    ensures '\n' !in RowText(row, active) && Cells(RowText(row, active), active) == row
  {
    var d := ActiveDelimiter(active);
    assert d != '\n';
    JoinKeepsCharOut([d], row, '\n');
    SplitJoinedRow(row, active);
    StripAllStripped(row);
  }

  /** A text holding a delimiter that is not whitespace is not blank. */
  lemma NonBlankText(lines: seq<string>, d: char)
    requires |lines| >= 1 && d in lines[0] && !IsSpace(d)
    ensures Strip(Join("\n", lines)) != []
  {
    var text := Join("\n", lines);
    assert text == lines[0] || text == lines[0] + "\n" + Join("\n", lines[1..]);
    assert d in text;
    StripSpec(text);
  }

  /** `switch_to_grid_view`: the parts of every line, then the rows filled
      up to the widest. */
  method SwitchToGridView(text: string, active: seq<char>) returns (grid: seq<seq<string>>)
    ensures grid == GridOf(text, active)
  {
    if Strip(text) == [] {
      return [];
    }
    var lines := Split(text, '\n');
    var allParts, maxCols := CollectParts(lines, active);
    ghost var rows := RowsOf(lines, active);
    WidthOfCells(allParts, rows);
    grid := FillRows(allParts, maxCols);
    assert grid == PadRows(rows, maxCols);
  }

  /** The second loop of `switch_to_grid_view`: every cell set to its part,
      stripped, in a grid `w` columns wide. */
  method FillRows(parts: seq<seq<string>>, w: nat) returns (grid: seq<seq<string>>)
    requires forall k :: 0 <= k < |parts| ==> |parts[k]| <= w
    ensures |grid| == |parts| && forall k :: 0 <= k < |parts| ==> grid[k] == PadRow(StripAll(parts[k]), w)
  {
    grid := [];
    var row := 0;
    while row < |parts|
      invariant 0 <= row <= |parts| && |grid| == row
      invariant forall k :: 0 <= k < row ==> grid[k] == PadRow(StripAll(parts[k]), w)
    {
      var cells := StripAll(parts[row]);
      grid := grid + [PadRow(cells, w)];
      row := row + 1;
    }
  }

  /** The first loop of `switch_to_grid_view`: every line's parts and the
      largest number of parts. */
  method CollectParts(lines: seq<string>, active: seq<char>) returns (allParts: seq<seq<string>>, maxCols: nat)
    ensures |allParts| == |lines| && forall k :: 0 <= k < |lines| ==> allParts[k] == SplitParts(lines[k], active)
    ensures maxCols == MaxWidth(allParts)
  {
    maxCols := 0;
    allParts := [];
    var i := 0;
    while i < |lines|
      invariant 0 <= i <= |lines| && |allParts| == i
      invariant forall k :: 0 <= k < i ==> allParts[k] == SplitParts(lines[k], active)
      invariant maxCols == MaxWidth(allParts)
    {
      var parts := GetSplitParts(lines[i], active);
      MaxWidthAppend(allParts, parts);
      PartsAppend(allParts, parts, lines, active);
      allParts := allParts + [parts];
      if |parts| > maxCols {
        maxCols := |parts|;
      }
      i := i + 1;
    }
  }

  lemma PartsAppend(allParts: seq<seq<string>>, parts: seq<string>, lines: seq<string>, active: seq<char>)
    requires |allParts| < |lines| && parts == SplitParts(lines[|allParts|], active)
    requires forall k :: 0 <= k < |allParts| ==> allParts[k] == SplitParts(lines[k], active)
    ensures forall k :: 0 <= k < |allParts| + 1 ==> (allParts + [parts])[k] == SplitParts(lines[k], active)
  {
  }

  /** One more row widens the grid to that row's width, if it is wider. */
  lemma MaxWidthAppend(rows: seq<seq<string>>, row: seq<string>)
    ensures MaxWidth(rows + [row]) == if |row| > MaxWidth(rows) then |row| else MaxWidth(rows)
  {
    assert (rows + [row])[..|rows|] == rows;
  }

  /** Stripping the parts keeps every row's width. */
  lemma {:induction false} WidthOfCells(parts: seq<seq<string>>, rows: seq<seq<string>>)
    requires |parts| == |rows| && forall k :: 0 <= k < |rows| ==> rows[k] == StripAll(parts[k])
    ensures MaxWidth(rows) == MaxWidth(parts)
    decreases |rows|
  {
    if rows != [] {
      var n := |rows| - 1;
      WidthOfCells(parts[..n], rows[..n]);
    }
  }

  /** `switch_to_text_view`: every row joined with the active delimiter, the
      rows joined with line breaks. */
  method SwitchToTextView(grid: seq<seq<string>>, active: seq<char>) returns (text: string)
    ensures text == TextOf(grid, active)
  {
    var d := ActiveDelimiter(active);
    var lines: seq<string> := [];
    var row := 0;
    while row < |grid|
      invariant 0 <= row <= |grid| && lines == RowTexts(grid[..row], active)
    {
      assert grid[..row + 1] == grid[..row] + [grid[row]];
      lines := lines + [Join([d], grid[row])];
      row := row + 1;
    }
    assert grid[..|grid|] == grid;
    text := Join("\n", lines);
  }

  // ---- paste_excel ----

  /** One spreadsheet row: its tab-separated cells stripped and joined with
      `" ; "`. */
  function PasteRow(line: string): string {
    Join(" ; ", StripAll(Split(line, '\t')))
  }

  /** `paste_excel`'s formatted text: every line of the stripped clipboard
      text formatted as a row. */
  function PasteExcel(clip: string): string {
    var lines := Split(Strip(clip), '\n');
    Join("\n", seq(|lines|, i requires 0 <= i < |lines| => PasteRow(lines[i])))
  }

  /** The formatting loop of `paste_excel`. */
  method FormatPaste(clip: string) returns (formatted: string)
    ensures formatted == PasteExcel(clip)
  {
    var lines := Split(Strip(clip), '\n');
    var formattedLines: seq<string> := [];
    var i := 0;
    while i < |lines|
      invariant 0 <= i <= |lines| && |formattedLines| == i
      invariant forall k :: 0 <= k < i ==> formattedLines[k] == PasteRow(lines[k])
    {
      var columns := Split(lines[i], '\t');
      columns := StripAll(columns);
      formattedLines := formattedLines + [Join(" ; ", columns)];
      i := i + 1;
    }
    assert formattedLines == seq(|lines|, i requires 0 <= i < |lines| => PasteRow(lines[i]));
    formatted := Join("\n", formattedLines);
  }

  /** The cells of a row joined with `" ; "` are the cells padded with one
      space on each inner side, joined with `;`. */
  function SpacePadded(cells: seq<string>, first: bool): (r: seq<string>)
    ensures |r| == |cells|
  {
    if cells == [] then []
    else
      var lead := if first then [] else " ";
      if |cells| == 1 then [lead + cells[0]]
      else [lead + cells[0] + " "] + SpacePadded(cells[1..], false)
  }

  lemma {:induction false} JoinSpacePadded(cells: seq<string>, first: bool)
    requires cells != []
    ensures Join([';'], SpacePadded(cells, first)) == (if first then [] else " ") + Join(" ; ", cells)
    decreases |cells|
  {
    var lead: string := if first then [] else " ";
    if |cells| == 1 {
      assert lead + cells[0] == (if first then [] else " ") + cells[0];
    } else {
      JoinSpacePadded(cells[1..], false);
      var rest := Join(" ; ", cells[1..]);
      var p := SpacePadded(cells, first);
      assert p[1..] == SpacePadded(cells[1..], false);
      assert Join([';'], p) == (lead + cells[0] + " ") + [';'] + (" " + rest);
      Regroup(lead, cells[0], rest);
    }
  }

  lemma Regroup(lead: string, c: string, rest: string)
    ensures (lead + c + " ") + [';'] + (" " + rest) == lead + (c + " ; " + rest)
  {
    assert " " + [';'] + " " == " ; ";
  }

  lemma {:induction false} StripSpacePadded(cells: seq<string>, first: bool)
    requires forall k :: 0 <= k < |cells| ==> IsStripped(cells[k])
    ensures StripAll(SpacePadded(cells, first)) == cells
    decreases |cells|
  {
    if cells != [] {
      var lead: string := if first then [] else " ";
      var tail: string := if |cells| == 1 then [] else " ";
      StripPadded(lead, cells[0], tail);
      assert lead + cells[0] + tail == SpacePadded(cells, first)[0];
      if |cells| > 1 {
        StripSpacePadded(cells[1..], false);
        assert SpacePadded(cells, first)[1..] == SpacePadded(cells[1..], false);
      }
    }
  }

  /** A pasted row of two or more cells is a card line whose fields are the
      spreadsheet cells, when `;` is the active delimiter and the cells hold
      no `;` and no angle bracket. */
  lemma PastedRowSplits(line: string, active: seq<char>)
    requires ActiveDelimiter(active) == ';'
    requires |Split(line, '\t')| >= 2
    requires forall k :: 0 <= k < |Split(line, '\t')| ==> PlainCell(Split(line, '\t')[k], ';')
    ensures SplitParts(PasteRow(line), active) == StripAll(Split(line, '\t'))
  {
    var cells := StripAll(Split(line, '\t'));
    StripAllCells(Split(line, '\t'), ';');
    JoinSpacePadded(cells, true);
    var padded := SpacePadded(cells, true);
    PaddedPlain(cells, true);
    ScanJoin(padded, ';', []);
    assert PasteRow(line) == Join([';'], padded) by {
      assert [] + Join(" ; ", cells) == Join(" ; ", cells);
    }
    assert Scan(PasteRow(line), ';', 0, []) == padded by {
      assert [] + padded[0] == padded[0];
      assert [padded[0]] + padded[1..] == padded;
    }
    JoinedHasSeparator(padded, ';');
    StripSpacePadded(cells, true);
  }

  /** Stripping keeps cells plain and makes them stripped. */
  lemma {:induction false} StripAllCells(parts: seq<string>, d: char)
    requires forall k :: 0 <= k < |parts| ==> PlainCell(parts[k], d)
    ensures forall k :: 0 <= k < |parts| ==> PlainCell(StripAll(parts)[k], d) && IsStripped(StripAll(parts)[k])
  {
    forall k | 0 <= k < |parts| ensures PlainCell(StripAll(parts)[k], d) && IsStripped(StripAll(parts)[k]) {
      StripAllAt(parts, k);
      StripKeepsCharOut(parts[k], d);
      StripKeepsCharOut(parts[k], '<');
      StripKeepsCharOut(parts[k], '>');
      StripSpec(parts[k]);
    }
  }

  lemma {:induction false} StripAllAt(parts: seq<string>, k: nat)
    requires k < |parts|
    ensures StripAll(parts)[k] == Strip(parts[k])
  {
    if k > 0 {
      StripAllAt(parts[1..], k - 1);
    }
  }

  lemma {:induction false} PaddedPlain(cells: seq<string>, first: bool)
    requires forall k :: 0 <= k < |cells| ==> PlainCell(cells[k], ';')
    ensures forall k :: 0 <= k < |cells| ==> PlainCell(SpacePadded(cells, first)[k], ';')
    decreases |cells|
  {
    if |cells| > 1 {
      PaddedPlain(cells[1..], false);
      assert forall k :: 1 <= k < |cells| ==> SpacePadded(cells, first)[k] == SpacePadded(cells[1..], false)[k - 1];
    }
  }

  /** The pasted text has one line per line of the stripped clipboard text,
      and each is that line's row. */
  lemma PasteExcelLines(clip: string)
    ensures var lines := Split(Strip(clip), '\n');
      var out := Split(PasteExcel(clip), '\n');
      |out| == |lines| && forall i :: 0 <= i < |lines| ==> out[i] == PasteRow(lines[i])
  {
    var lines := Split(Strip(clip), '\n');
    var rows := seq(|lines|, i requires 0 <= i < |lines| => PasteRow(lines[i]));
    forall i | 0 <= i < |lines| ensures '\n' !in rows[i] {
      var cells := StripAll(Split(lines[i], '\t'));
      forall k | 0 <= k < |cells| ensures '\n' !in cells[k] {
        StripAllAt(Split(lines[i], '\t'), k);
        PieceNoChar(lines[i], '\t', k, '\n');
        StripKeepsCharOut(Split(lines[i], '\t')[k], '\n');
      }
      JoinKeepsCharOut(" ; ", cells, '\n');
    }
    SplitJoin(rows, '\n');
  }

  /** A piece of a split string holds no character the string lacks. */
  lemma PieceNoChar(s: string, sep: char, k: nat, c: char)
    requires k < |Split(s, sep)| && c !in s
    ensures c !in Split(s, sep)[k]
  {
    var ps := Split(s, sep);
    JoinSplit(s, sep);
    if c in ps[k] {
      JoinHolds(ps, [sep], k, c);
    }
  }

  /** Every character of a part of a join is a character of the join. */
  lemma {:induction false} JoinHolds(parts: seq<string>, sep: string, j: nat, c: char)
    requires j < |parts| && c in parts[j]
    ensures c in Join(sep, parts)
    decreases |parts|
  {
    if |parts| > 1 {
      if j > 0 {
        JoinHolds(parts[1..], sep, j - 1, c);
      }
      assert Join(sep, parts) == parts[0] + sep + Join(sep, parts[1..]);
    }
  }

  // ---- concatenate_text ----

  /** Line `i` of the result: line `i` of the editor followed by line `i` of
      the clipboard (missing lines read as empty), stripped. */
  function ConcatLines(cur: seq<string>, cop: seq<string>): (r: seq<string>)
    ensures |r| == if |cur| < |cop| then |cop| else |cur|
  {
    var n := if |cur| < |cop| then |cop| else |cur|;
    seq(n, i requires 0 <= i < n =>
      Strip((if i < |cur| then cur[i] else []) + (if i < |cop| then cop[i] else [])))
  }

  /** `concatenate_text`: the editor's stripped lines and the clipboard's
      stripped lines concatenated line by line. */
  function ConcatenateText(current: string, copied: string): string {
    Join("\n", ConcatLines(Split(Strip(current), '\n'), Split(Strip(copied), '\n')))
  }

  /** The result has as many lines as the longer of the two texts; line `i`
      is the editor's line `i` followed by the clipboard's, exactly so when
      both are already stripped and the editor's is not empty. */
  lemma ConcatenateLines(current: string, copied: string)
    ensures var cur := Split(Strip(current), '\n');
      var cop := Split(Strip(copied), '\n');
      var out := Split(ConcatenateText(current, copied), '\n');
      out == ConcatLines(cur, cop)
      && |out| == (if |cur| < |cop| then |cop| else |cur|)
      && forall i :: 0 <= i < |cur| && 0 <= i < |cop| && cur[i] != [] && IsStripped(cur[i]) && IsStripped(cop[i]) ==>
        out[i] == cur[i] + cop[i]
  {
    var cur := Split(Strip(current), '\n');
    var cop := Split(Strip(copied), '\n');
    var lines := ConcatLines(cur, cop);
    forall i | 0 <= i < |lines| ensures '\n' !in lines[i] {
      var a: string := if i < |cur| then cur[i] else [];
      var b: string := if i < |cop| then cop[i] else [];
      assert '\n' !in a + b;
      StripKeepsCharOut(a + b, '\n');
    }
    SplitJoin(lines, '\n');
    forall i | 0 <= i < |cur| && 0 <= i < |cop| && cur[i] != [] && IsStripped(cur[i]) && IsStripped(cop[i])
      ensures lines[i] == cur[i] + cop[i]
    {
      StrippedConcat(cur[i], cop[i]);
    }
  }

  /** Two stripped strings, the first non-empty, concatenate to a stripped
      string. */
  lemma StrippedConcat(a: string, b: string)
    requires a != [] && IsStripped(a) && IsStripped(b)
    ensures Strip(a + b) == a + b
  {
    assert IsStripped(a + b);
    StripSpec(a + b);
  }

  // ---- join_lines ----

  /** `join_lines`: a text with line breaks is saved and shown with every
      break turned into a space; a text without is replaced by the saved one
      when there is one, which is then forgotten. */
  function JoinStep(text: string, saved: Option<string>): (string, Option<string>) {
    if '\n' !in text then
      (if saved.Some? then saved.value else text, None)
    else
      (Replace(text, "\n", " "), Some(text))
  }

  /** Replacing a character by a space keeps the length and every other
      character and leaves none of the replaced one. */
  lemma {:induction false} ReplaceNewlines(s: string)
    ensures var r := Replace(s, "\n", " ");
      |r| == |s| && '\n' !in r
      && forall i :: 0 <= i < |s| ==> r[i] == if s[i] == '\n' then ' ' else s[i]
  {
    if s != [] {
      ReplaceNewlines(s[1..]);
    }
  }

  /** Joining then toggling again restores the text exactly. */
  lemma JoinLinesRoundTrip(text: string, saved: Option<string>)
    requires '\n' in text
    ensures JoinStep(JoinStep(text, saved).0, JoinStep(text, saved).1) == (text, None)
  {
    ReplaceNewlines(text);
  }

  /** The editor text with the text `join_lines` saved. */
  class EntryEditor {
    var text: string
    var originalText: Option<string>

    constructor (text: string)
      ensures this.text == text && originalText == None
    {
      this.text := text;
      originalText := None;
    }

    method JoinLines()
      modifies this
      ensures (text, originalText) == JoinStep(old(text), old(originalText))
    {
      if '\n' !in text {
        if originalText.Some? {
          text := originalText.value;
          originalText := None;
        }
      } else {
        originalText := Some(text);
        text := Replace(text, "\n", " ");
      }
    }
  }

  // ---- filter_list ----

  /** The items whose lower-cased text contains the lower-cased, stripped
      search text, in their order. */
  function Filter(search: string, items: seq<string>): (r: seq<string>)
    ensures |r| <= |items|
  {
    if items == [] then []
    else
      var rest := Filter(search, items[1..]);
      if Contains(Lower(items[0]), Lower(Strip(search))) then [items[0]] + rest else rest
  }

  /** `filter_list`: the filtered items, and whether the first is selected
      (some item matched a non-blank search). */
  function FilterList(search: string, items: seq<string>): (seq<string>, bool) {
    var filtered := Filter(search, items);
    (filtered, filtered != [] && Lower(Strip(search)) != [])
  }

  /** An item is kept exactly when it is listed and matches; a blank search
      keeps the whole list. */
  lemma {:induction false} FilterSpec(search: string, items: seq<string>)
    ensures forall x :: x in Filter(search, items) <==> x in items && Contains(Lower(x), Lower(Strip(search)))
    ensures Strip(search) == [] ==> Filter(search, items) == items
  {
    if items != [] {
      FilterSpec(search, items[1..]);
      assert items == [items[0]] + items[1..];
      if Strip(search) == [] {
        ContainsAt(Lower(items[0]), [], 0);
      }
    }
  }

  // ---- _t ----

  /** `_t`: the key's text in the current language's table; the Portuguese
      table for an unknown language; the key itself when the table lacks it. */
  function Translate(tables: map<string, map<string, string>>, portuguese: map<string, string>,
                     language: string, key: string): (r: string)
  {
    var table := if language in tables then tables[language] else portuguese;
    if key in table then table[key] else key
  }

  /** What `_t` falls back on, and that it falls back on nothing else. */
  lemma TranslateSpec(tables: map<string, map<string, string>>, portuguese: map<string, string>,
                      language: string, key: string)
    ensures var r := Translate(tables, portuguese, language, key);
      (language !in tables ==> r == Translate(map["pt" := portuguese], portuguese, "pt", key))
      && (r != key ==> (language in tables && key in tables[language] && r == tables[language][key])
                       || (language !in tables && key in portuguese && r == portuguese[key]))
  {
  }

  // ---- the collision-free media file names ----

  /** The name tried at counter `k`: `{base}_{k}{ext}`. */
  function Candidate(base: string, ext: string, k: nat): string {
    base + "_" + DecimalString(k) + ext
  }

  /** Different counters give different names. */
  lemma CandidateInjective(base: string, ext: string, j: nat, k: nat)
    requires Candidate(base, ext, j) == Candidate(base, ext, k)
    ensures j == k
  {
    var a, b := Candidate(base, ext, j), Candidate(base, ext, k);
    var n := |base| + 1;
    var dj, dk := DecimalString(j), DecimalString(k);
    assert |dj| == |dk|;
    assert a[n..n + |dj|] == dj;
    assert b[n..n + |dk|] == dk;
    DecimalStringInjective(j, k);
  }

  /** `n` different names taken by files need `n` files. */
  lemma {:induction false} CandidatesBound(base: string, ext: string, n: nat, folder: set<string>)
    requires forall j :: 1 <= j <= n ==> Candidate(base, ext, j) in folder
    ensures n <= |folder|
  {
    if n > 0 {
      var last := Candidate(base, ext, n);
      var rest := folder - {last};
      forall j | 1 <= j <= n - 1 ensures Candidate(base, ext, j) in rest {
        if Candidate(base, ext, j) == last {
          CandidateInjective(base, ext, j, n);
        }
      }
      CandidatesBound(base, ext, n - 1, rest);
    }
  }

  /** The unique-name loop of media insertion: the name itself when no file
      has it, else `{base}_{k}{ext}` for the first counter `k` from 1 whose
      name is free. */
  method UniqueName(name: string, folder: set<string>) returns (r: string, k: nat)
    ensures r !in folder
    ensures name !in folder ==> r == name && k == 0
    ensures name in folder ==>
      k >= 1 && r == Candidate(SplitExt(name).0, SplitExt(name).1, k)
      && forall j :: 1 <= j < k ==> Candidate(SplitExt(name).0, SplitExt(name).1, j) in folder
  {
    r, k := name, 0;
    if name in folder {
      var (base, ext) := SplitExt(name);
      var counter := 1;
      while r in folder
        invariant counter >= 1 && counter <= |folder| + 2
        invariant forall j :: 1 <= j <= counter - 2 ==> Candidate(base, ext, j) in folder
        invariant counter > 1 ==> r == Candidate(base, ext, counter - 1) && k == counter - 1
        invariant counter == 1 ==> r == name && k == 0
        decreases |folder| + 2 - counter
      {
        if counter > 1 {
          CandidatesBound(base, ext, counter - 1, folder);
        }
        r := Candidate(base, ext, counter);
        k := counter;
        counter := counter + 1;
      }
    }
  }

  /** Copying a picked media file into the folder under a free name: no
      existing file is overwritten and nothing else changes. */
  method AddMedia<T>(folder: map<string, T>, name: string, content: T) returns (newFolder: map<string, T>, stored: string)
    ensures stored !in folder && newFolder == folder[stored := content]
    ensures name !in folder ==> stored == name
  {
    var k;
    stored, k := UniqueName(name, folder.Keys);
    newFolder := folder[stored := content];
  }
}
