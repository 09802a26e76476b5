/** `convert_markdown_to_html`: pipe tables in pasted text become HTML
    tables. A table starts at a pipe line followed by a separator line; its
    header cells become `<th>` cells and the pipe lines after it `<td>`
    rows, until a non-table line closes it. The text is then rebuilt
    without the table's lines and the HTML appended. */
module Markdown {
  import opened Strings
  import opened Splitter

  // ---- lines ----

  /** A stripped line that is a table row: it starts and ends with `|` and
      holds another `|` between them. */
  predicate IsTableLine(line: string) {
    |line| >= 2 && line[0] == '|' && line[|line| - 1] == '|' && '|' in line[1..|line| - 1]
  }

  /** The row's cells: the text between the outer bars split at `|`, each
      cell stripped. */
  function RowCells(line: string): (cells: seq<string>)
    ensures cells != []
  {
    var inner := if |line| >= 2 then line[1..|line| - 1] else [];
    StripAll(Split(inner, '|'))
  }

  /** The states of an automaton for the separator pattern
      `^\|(?:\s*[-:]+(?:\s*\|)?)+$` after its first `|`: a group is
      whitespace, a run of `-`/`:`, then optionally whitespace and a `|`. */
  datatype SepState =
    | GroupStart  // at the start of a group: whitespace, then `-`/`:` needed
    | Dashes      // inside the run of `-`/`:` of a group
    | Gap         // whitespace after the run: a `|` or another group follows
    | AfterBar    // just after the `|` ending a group
    | Reject

  predicate IsDash(c: char) {
    c == '-' || c == ':'
  }

  function SepNext(q: SepState, c: char): SepState {
    match q
    case GroupStart => if IsSpace(c) then GroupStart else if IsDash(c) then Dashes else Reject
    case Dashes => if IsDash(c) then Dashes else if IsSpace(c) then Gap else if c == '|' then AfterBar else Reject
    case Gap => if IsSpace(c) then Gap else if c == '|' then AfterBar else if IsDash(c) then Dashes else Reject
    case AfterBar => if IsSpace(c) then GroupStart else if IsDash(c) then Dashes else Reject
    case Reject => Reject
  }

  function SepRun(q: SepState, s: string): SepState
    decreases |s|
  {
    if s == [] then q else SepRun(SepNext(q, s[0]), s[1..])
  }

  /** `re.match(r'^\|(?:\s*[-:]+(?:\s*\|)?)+$', line)` succeeds: a `|`, then
      one or more groups, ending after a run of `-`/`:` or after a `|`. */
  predicate IsSeparator(line: string) {
    |line| >= 1 && line[0] == '|' && SepRun(GroupStart, line[1..]) in {Dashes, AfterBar}
  }

  /** Nothing but bars, whitespace, `-` and `:` passes the separator test. */
  lemma {:induction false} SepRunChars(q: SepState, s: string, i: nat)
    requires i < |s| && !IsSpace(s[i]) && !IsDash(s[i]) && s[i] != '|'
    ensures SepRun(q, s) == Reject
    decreases |s|
  {
    if i == 0 {
      RejectStays(s[1..]);
    } else {
      SepRunChars(SepNext(q, s[0]), s[1..], i - 1);
    }
  }

  /** A separator line holds only bars, whitespace, `-` and `:`. */
  lemma SeparatorChars(line: string)
    requires IsSeparator(line)
    ensures forall i :: 1 <= i < |line| ==> IsSpace(line[i]) || IsDash(line[i]) || line[i] == '|'
  {
    forall i | 1 <= i < |line| ensures IsSpace(line[i]) || IsDash(line[i]) || line[i] == '|' {
      if !(IsSpace(line[i]) || IsDash(line[i]) || line[i] == '|') {
        SepRunChars(GroupStart, line[1..], i - 1);
      }
    }
  }

  lemma {:induction false} RejectStays(s: string)
    ensures SepRun(Reject, s) == Reject
    decreases |s|
  {
    if s != [] {
      RejectStays(s[1..]);
    }
  }

  // ---- the HTML ----

  function HeaderCells(headers: seq<string>): string {
    if headers == [] then []
    else HeaderCells(headers[..|headers| - 1]) + "<th>" + headers[|headers| - 1] + "</th>"
  }

  function DataCells(cells: seq<string>): string {
    if cells == [] then []
    else DataCells(cells[..|cells| - 1]) + "<td>" + cells[|cells| - 1] + "</td>"
  }

  /** A row brought to the header's width: filled with empty cells, then cut
      (`while len(row) < len(headers): row.append("")`, `row[:len(headers)]`). */
  function FitRow(row: seq<string>, n: nat): (r: seq<string>)
    ensures |r| == n
    ensures forall k :: 0 <= k < n ==> r[k] == if k < |row| then row[k] else []
  {
    if |row| < n then row + seq(n - |row|, _ => []) else row[..n]
  }

  function BodyRows(rows: seq<seq<string>>, n: nat): string {
    if rows == [] then []
    else BodyRows(rows[..|rows| - 1], n) + "<tr>" + DataCells(FitRow(rows[|rows| - 1], n)) + "</tr>\n"
  }

  /** The HTML of one table. */
  function TableHtml(headers: seq<string>, rows: seq<seq<string>>): string {
    "<table>\n<thead>\n<tr>" + HeaderCells(headers) + "</tr>\n</thead>\n<tbody>\n"
    + BodyRows(rows, |headers|) + "</tbody>\n</table>"
  }

  /** A table's HTML ends in `>`, so `rstrip` leaves it alone. */
  lemma TableHtmlEnd(headers: seq<string>, rows: seq<seq<string>>)
    ensures var h := TableHtml(headers, rows); h != [] && h[|h| - 1] == '>' && RStrip(h) == h
  {
    var h := TableHtml(headers, rows);
    var tail := "</tbody>\n</table>";
    assert h == ("<table>\n<thead>\n<tr>" + HeaderCells(headers) + "</tr>\n</thead>\n<tbody>\n" + BodyRows(rows, |headers|)) + tail;
    assert h[|h| - 1] == tail[|tail| - 1] == '>';
    RStripPadded(h, []);
    assert h + [] == h;
  }

  // ---- the scan over the lines ----

  /** The scan's variables: `in_table`, `headers`, `rows`, the HTML so far
      and `table_start_idx`. */
  datatype Scan = Scan(inTable: bool, headers: seq<string>, rows: seq<seq<string>>, html: string, start: int)

  const Initial := Scan(false, [], [], [], -1)

  /** The HTML of the table being collected, when it has a header and at
      least one row. */
  function Flush(st: Scan): string {
    if st.headers != [] && st.rows != [] then TableHtml(st.headers, st.rows) else []
  }

  /** One line of the scan. As written, the separator line that opened a
      table is itself a pipe line and is collected as the table's first
      row; with `skipSeparator` the line after a table's header is passed
      over. */
  function Step(lines: seq<string>, i: nat, st: Scan, skipSeparator: bool): Scan
    requires i < |lines|
  {
    var line := Strip(lines[i]);
    if skipSeparator && st.inTable && i == st.start + 1 then st
    else if line == [] then st
    else if IsTableLine(line) then
      if !st.inTable && i + 1 < |lines| && IsSeparator(lines[i + 1]) then
        st.(inTable := true, start := i, headers := RowCells(line))
      else if st.inTable then st.(rows := st.rows + [RowCells(line)])
      else st
    else if st.inTable then
      Scan(false, [], [], st.html + Flush(st), st.start)
    else st
  }

  function Run(lines: seq<string>, i: nat, st: Scan, skipSeparator: bool): Scan
    requires i <= |lines|
    decreases |lines| - i
  {
    if i == |lines| then st else Run(lines, i + 1, Step(lines, i, st, skipSeparator), skipSeparator)
  }

  /** All tables' HTML: a table still open at the end is flushed too. */
  function TablesHtml(lines: seq<string>, skipSeparator: bool): string {
    var st := Run(lines, 0, Initial, skipSeparator);
    if st.inTable then st.html + Flush(st) else st.html
  }

  // ---- rebuilding the text ----

  /** The reconstruction loop: the line at `start` and the table lines and
      separators right after it are dropped; other non-blank lines are kept
      without trailing whitespace. */
  function Rebuild(lines: seq<string>, start: int, i: nat, inTable: bool): seq<string>
    requires i <= |lines|
    decreases |lines| - i
  {
    if i == |lines| then []
    else if i == start then Rebuild(lines, start, i + 1, true)
    else if inTable && (IsTableLine(Strip(lines[i])) || IsSeparator(lines[i])) then Rebuild(lines, start, i + 1, true)
    else if Strip(lines[i]) != [] then [RStrip(lines[i])] + Rebuild(lines, start, i + 1, false)
    else Rebuild(lines, start, i + 1, false)
  }

  /** The non-blank lines without trailing whitespace. */
  function KeptLines(lines: seq<string>): seq<string> {
    if lines == [] then []
    else if Strip(lines[0]) != [] then [RStrip(lines[0])] + KeptLines(lines[1..])
    else KeptLines(lines[1..])
  }

  function Convert(text: string, skipSeparator: bool): string {
    var lines := Split(text, '\n');
    var html := TablesHtml(lines, skipSeparator);
    if html != [] then
      var remaining := RStrip(Join("\n", Rebuild(lines, Run(lines, 0, Initial, skipSeparator).start, 0, false)));
      if remaining != [] then remaining + "\n" + RStrip(html) else RStrip(html)
    else
      RStrip(Join("\n", KeptLines(lines)))
  }

  /** `convert_markdown_to_html` as written. */
  function MarkdownToHtmlAsWritten(text: string): string {
    Convert(text, false)
  }

  /** `convert_markdown_to_html` with the separator line skipped. */
  function MarkdownToHtml(text: string): string {
    Convert(text, true)
  }

  // ---- the loops of the converter ----

  /** `convert_markdown_to_html` as written: the scan loop, the table
      flushes and the rebuild loop. */
  method ConvertMarkdownToHtml(text: string) returns (result: string)
    ensures result == MarkdownToHtmlAsWritten(text)
  {
    var lines := Split(text, '\n');
    var tableHtml, start := ScanTables(lines);
    if tableHtml != [] {
      var newLines := RebuildLines(lines, start);
      var remaining := RStrip(Join("\n", newLines));
      if remaining != [] {
        result := remaining + "\n" + RStrip(tableHtml);
      } else {
        result := RStrip(tableHtml);
      }
    } else {
      var kept := KeepLines(lines);
      result := RStrip(Join("\n", kept));
    }
  }

  /** The scan loop and the final flush: every table's HTML, and where the
      last table started. */
  method ScanTables(lines: seq<string>) returns (tableHtml: string, start: int)
    ensures tableHtml == TablesHtml(lines, false) && start == Run(lines, 0, Initial, false).start
  {
    tableHtml := [];
    var inTable := false;
    var headers: seq<string> := [];
    var rows: seq<seq<string>> := [];
    start := -1;
    var i := 0;
    while i < |lines|
      invariant 0 <= i <= |lines|
      invariant Run(lines, i, Scan(inTable, headers, rows, tableHtml, start), false) == Run(lines, 0, Initial, false)
    {
      inTable, headers, rows, tableHtml, start := ScanLine(lines, i, inTable, headers, rows, tableHtml, start);
      i := i + 1;
    }
    if inTable && headers != [] && rows != [] {
      tableHtml := AppendTable(tableHtml, headers, rows);
    }
  }

  /** The body of the scan loop for line `i`, as written: the separator
      line goes through the same tests as every other line. */
  method ScanLine(lines: seq<string>, i: nat, inTable: bool, headers: seq<string>, rows: seq<seq<string>>,
                  html: string, start: int)
    returns (inTable': bool, headers': seq<string>, rows': seq<seq<string>>, html': string, start': int)
    requires i < |lines|
    ensures Scan(inTable', headers', rows', html', start') == Step(lines, i, Scan(inTable, headers, rows, html, start), false)
  {
    inTable', headers', rows', html', start' := inTable, headers, rows, html, start;
    var line := Strip(lines[i]);
    if line == [] {
    } else if IsTableLine(line) {
      var cells := RowCells(line);
      if !inTable && i + 1 < |lines| && IsSeparator(lines[i + 1]) {
        inTable' := true;
        start' := i;
        headers' := cells;
      } else if inTable {
        rows' := rows + [cells];
      }
    } else if inTable {
      if headers != [] && rows != [] {
        html' := AppendTable(html, headers, rows);
      }
      inTable' := false;
      headers' := [];
      rows' := [];
    }
  }

  /** One table's HTML appended: the header cells, then every row filled
      up to the header's width and cut to it. */
  method AppendTable(html: string, headers: seq<string>, rows: seq<seq<string>>) returns (out: string)
    ensures out == html + TableHtml(headers, rows)
  {
    var head := HeaderLoop(headers);
    var body: string := [];
    var r := 0;
    while r < |rows|
      invariant 0 <= r <= |rows| && body == BodyRows(rows[..r], |headers|)
    {
      var cells := FitRowLoop(rows[r], |headers|);
      var tds := DataLoop(cells);
      assert rows[..r + 1][..r] == rows[..r];
      body := body + "<tr>" + tds + "</tr>\n";
      r := r + 1;
    }
    assert rows[..|rows|] == rows;
    out := html + ("<table>\n<thead>\n<tr>" + head + "</tr>\n</thead>\n<tbody>\n" + body + "</tbody>\n</table>");
  }

  method HeaderLoop(headers: seq<string>) returns (head: string)
    ensures head == HeaderCells(headers)
  {
    head := [];
    var k := 0;
    while k < |headers|
      invariant 0 <= k <= |headers| && head == HeaderCells(headers[..k])
    {
      assert headers[..k + 1][..k] == headers[..k];
      head := head + "<th>" + headers[k] + "</th>";
      k := k + 1;
    }
    assert headers[..|headers|] == headers;
  }

  /** The padding loop and the cut of one row. */
  method FitRowLoop(row0: seq<string>, n: nat) returns (cells: seq<string>)
    ensures cells == FitRow(row0, n)
  {
    var row := row0;
    while |row| < n
      invariant |row0| <= |row| && (|row0| < n ==> |row| <= n) && (|row0| >= n ==> row == row0)
      invariant row == row0 + seq(|row| - |row0|, _ => [])
      decreases n - |row|
    {
      row := row + [[]];
    }
    cells := row[..n];
  }

  method DataLoop(cells: seq<string>) returns (tds: string)
    ensures tds == DataCells(cells)
  {
    tds := [];
    var c := 0;
    while c < |cells|
      invariant 0 <= c <= |cells| && tds == DataCells(cells[..c])
    {
      assert cells[..c + 1][..c] == cells[..c];
      tds := tds + "<td>" + cells[c] + "</td>";
      c := c + 1;
    }
    assert cells[..|cells|] == cells;
  }

  /** The rebuild loop. */
  method RebuildLines(lines: seq<string>, start: int) returns (newLines: seq<string>)
    ensures newLines == Rebuild(lines, start, 0, false)
  {
    newLines := [];
    var inTable := false;
    var i := 0;
    while i < |lines|
      invariant 0 <= i <= |lines|
      invariant newLines + Rebuild(lines, start, i, inTable) == Rebuild(lines, start, 0, false)
    {
      if i == start {
        inTable := true;
      } else if inTable && (IsTableLine(Strip(lines[i])) || IsSeparator(lines[i])) {
      } else {
        inTable := false;
        if Strip(lines[i]) != [] {
          AppendAssoc(newLines, [RStrip(lines[i])], Rebuild(lines, start, i + 1, false));
          newLines := newLines + [RStrip(lines[i])];
        }
      }
      i := i + 1;
    }
    assert newLines + [] == newLines;
  }

  /** The non-blank lines, right-stripped, when there is no table. */
  method KeepLines(lines: seq<string>) returns (kept: seq<string>)
    ensures kept == KeptLines(lines)
  {
    kept := [];
    var i := 0;
    while i < |lines|
      invariant 0 <= i <= |lines| && kept + KeptLines(lines[i..]) == KeptLines(lines)
    {
      assert lines[i..][1..] == lines[i + 1..];
      if Strip(lines[i]) != [] {
        AppendAssoc(kept, [RStrip(lines[i])], KeptLines(lines[i + 1..]));
        kept := kept + [RStrip(lines[i])];
      }
      i := i + 1;
    }
    assert kept + [] == kept;
  }

  // ---- properties ----

  /** No pipe line is followed by a separator line. */
  predicate NoTableStart(lines: seq<string>) {
    forall j :: 0 <= j < |lines| - 1 ==> !(IsTableLine(Strip(lines[j])) && IsSeparator(lines[j + 1]))
  }

  /** Without a pipe line followed by a separator no table is produced, so
      the text only loses its blank lines and trailing whitespace. */
  lemma NoTableKeepsLines(text: string, skipSeparator: bool)
    requires NoTableStart(Split(text, '\n'))
    ensures Convert(text, skipSeparator) == RStrip(Join("\n", KeptLines(Split(text, '\n'))))
  {
    RunNoTable(Split(text, '\n'), 0, Initial, skipSeparator);
  }

  lemma {:induction false} RunNoTable(lines: seq<string>, i: nat, st: Scan, skipSeparator: bool)
    requires i <= |lines| && !st.inTable && st.html == []
    requires NoTableStart(lines)
    ensures var r := Run(lines, i, st, skipSeparator); !r.inTable && r.html == []
    decreases |lines| - i
  {
    if i < |lines| {
      RunNoTable(lines, i + 1, Step(lines, i, st, skipSeparator), skipSeparator);
    }
  }

  /** The pipe lines after a table's separator each add one row. */
  lemma {:induction false} RunBody(lines: seq<string>, i: nat, st: Scan, skipSeparator: bool)
    requires i <= |lines| && st.inTable && st.start + 1 < i
    requires forall j :: i <= j < |lines| ==> IsStripped(lines[j]) && IsTableLine(lines[j])
    ensures Run(lines, i, st, skipSeparator) == st.(rows := st.rows + RowsOf(lines[i..]))
    decreases |lines| - i
  {
    if i == |lines| {
      assert lines[i..] == [];
      assert st.rows + [] == st.rows;
    } else {
      StripSpec(lines[i]);
      var next := st.(rows := st.rows + [RowCells(lines[i])]);
      assert Step(lines, i, st, skipSeparator) == next;
      RunBody(lines, i + 1, next, skipSeparator);
      assert lines[i..] == [lines[i]] + lines[i + 1..];
      assert RowsOf(lines[i..]) == [RowCells(lines[i])] + RowsOf(lines[i + 1..]);
      AppendAssoc(st.rows, [RowCells(lines[i])], RowsOf(lines[i + 1..]));
    }
  }

  function RowsOf(lines: seq<string>): (rows: seq<seq<string>>)
    ensures |rows| == |lines| && forall j :: 0 <= j < |lines| ==> rows[j] == RowCells(lines[j])
  {
    if lines == [] then [] else [RowCells(lines[0])] + RowsOf(lines[1..])
  }

  /** A text that is one table: a header line, a separator line, then body
      rows, all of them stripped pipe lines. */
  predicate OneTable(header: string, sep: string, body: seq<string>) {
    IsStripped(header) && IsTableLine(header) && '\n' !in header
    && IsStripped(sep) && IsSeparator(sep) && '\n' !in sep
    && forall j :: 0 <= j < |body| ==> IsStripped(body[j]) && IsTableLine(body[j]) && '\n' !in body[j]
  }

  /** The scan of a one-table text: the header and then, as written, the
      separator row before the body rows; with the separator skipped, the
      body rows alone. */
  lemma ScanOneTable(header: string, sep: string, body: seq<string>, skipSeparator: bool)
    requires OneTable(header, sep, body) && (skipSeparator || IsTableLine(sep))
    ensures var st := Run([header, sep] + body, 0, Initial, skipSeparator);
      st.inTable && st.start == 0 && st.html == [] && st.headers == RowCells(header)
      && st.rows == (if skipSeparator then [] else [RowCells(sep)]) + RowsOf(body)
  {
    var lines := [header, sep] + body;
    StripSpec(header);
    StripSpec(sep);
    assert lines[0] == header && lines[1] == sep;
    var st0 := Step(lines, 0, Initial, skipSeparator);
    assert st0 == Scan(true, RowCells(header), [], [], 0);
    var st1 := Step(lines, 1, st0, skipSeparator);
    assert st1 == st0.(rows := if skipSeparator then [] else [RowCells(sep)]);
    assert lines[2..] == body;
    RunBody(lines, 2, st1, skipSeparator);
  }

  /** Only the table's lines are in a one-table text, so nothing of it
      survives the rebuild. */
  lemma {:induction false} RebuildTableLines(lines: seq<string>, i: nat)
    requires 1 <= i <= |lines|
    requires forall j :: 1 <= j < |lines| ==> IsStripped(lines[j]) && (IsTableLine(lines[j]) || IsSeparator(lines[j]))
    ensures Rebuild(lines, 0, i, true) == []
    decreases |lines| - i
  {
    if i < |lines| {
      StripSpec(lines[i]);
      RebuildTableLines(lines, i + 1);
    }
  }

  /** As written, a one-table text whose separator is a pipe line (any
      separator of two or more columns) becomes a table whose first body
      row is the separator's dashes. */
  lemma AsWrittenRendersSeparator(header: string, sep: string, body: seq<string>)
    requires OneTable(header, sep, body) && IsTableLine(sep)
    ensures MarkdownToHtmlAsWritten(Join("\n", [header, sep] + body))
      == TableHtml(RowCells(header), [RowCells(sep)] + RowsOf(body))
  {
    OneTableConverts(header, sep, body, false);
  }

  /** With the separator skipped, a one-table text with at least one body
      row becomes exactly the table of its header and body rows, whatever
      the separator's width. */
  lemma OneTableRendersBody(header: string, sep: string, body: seq<string>)
    requires OneTable(header, sep, body) && body != []
    ensures MarkdownToHtml(Join("\n", [header, sep] + body)) == TableHtml(RowCells(header), RowsOf(body))
  {
    OneTableConverts(header, sep, body, true);
    assert [] + RowsOf(body) == RowsOf(body);
  }

  /** The common proof: the text splits back into its lines, the scan
      collects the table, and the rebuild drops every line. */
  lemma OneTableConverts(header: string, sep: string, body: seq<string>, skipSeparator: bool)
    requires OneTable(header, sep, body) && (skipSeparator || IsTableLine(sep))
    requires skipSeparator ==> body != []
    ensures Convert(Join("\n", [header, sep] + body), skipSeparator)
      == TableHtml(RowCells(header), (if skipSeparator then [] else [RowCells(sep)]) + RowsOf(body))
  {
    var lines := [header, sep] + body;
    var rows := (if skipSeparator then [] else [RowCells(sep)]) + RowsOf(body);
    var html := TableHtml(RowCells(header), rows);
    OneTableLines(header, sep, body);
    OneTableHtml(header, sep, body, skipSeparator);
    TableHtmlEnd(RowCells(header), rows);
    RebuildTableLines(lines, 1);
    assert Rebuild(lines, 0, 0, false) == [];
  }

  lemma OneTableLines(header: string, sep: string, body: seq<string>)
    requires OneTable(header, sep, body)
    ensures var lines := [header, sep] + body;
      Split(Join("\n", lines), '\n') == lines
      && forall j :: 1 <= j < |lines| ==> IsStripped(lines[j]) && (IsTableLine(lines[j]) || IsSeparator(lines[j]))
  {
    var lines := [header, sep] + body;
    forall j | 0 <= j < |lines| ensures '\n' !in lines[j] {
      if j >= 2 {
        assert lines[j] == body[j - 2];
      }
    }
    SplitJoin(lines, '\n');
    forall j | 1 <= j < |lines| ensures IsStripped(lines[j]) && (IsTableLine(lines[j]) || IsSeparator(lines[j])) {
      if j >= 2 {
        assert lines[j] == body[j - 2];
      }
    }
  }

  lemma OneTableHtml(header: string, sep: string, body: seq<string>, skipSeparator: bool)
    requires OneTable(header, sep, body) && (skipSeparator || IsTableLine(sep))
    requires skipSeparator ==> body != []
    ensures var st := Run([header, sep] + body, 0, Initial, skipSeparator);
      st.start == 0
      && TablesHtml([header, sep] + body, skipSeparator)
        == TableHtml(RowCells(header), (if skipSeparator then [] else [RowCells(sep)]) + RowsOf(body))
  {
    ScanOneTable(header, sep, body, skipSeparator);
    var rows := (if skipSeparator then [] else [RowCells(sep)]) + RowsOf(body);
    var html := TableHtml(RowCells(header), rows);
    assert rows != [];
    assert [] + html == html;
  }

  // ---- witness ----

  /** `|-|-|` is both a separator and a pipe line: every separator of two
      or more columns is collected as a row. */
  lemma SeparatorIsTableLine()
    ensures IsSeparator("|-|-|") && IsTableLine("|-|-|") && IsStripped("|-|-|")
  {
    var s := "|-|-|";
    assert s[1..] == "-|-|";
    assert SepRun(GroupStart, "-|-|") == AfterBar by {
      assert "-|-|"[1..] == "|-|";
      assert "|-|"[1..] == "-|";
      assert "-|"[1..] == "|";
      assert "|"[1..] == [];
    }
    assert s[1..|s| - 1] == "-|-";
    assert "-|-"[1] == '|';
  }
}
