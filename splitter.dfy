/** The tag-aware field splitter of the bulk-entry editor
    (`_get_split_parts`): a line is cut at the active delimiter, but only
    where no HTML tag is open, and every part is stripped. */
module Splitter {
  import opened Strings

  /** The delimiters the editor offers: Tab, comma, semicolon, colon,
      question mark, slash, exclamation mark and pipe. */
  const DelimiterSymbols: seq<char> := ['\t', ',', ';', ':', '?', '/', '!', '|']

  /** The delimiter a line is split on: the first checked one, or `;` when
      none is checked. */
  function ActiveDelimiter(active: seq<char>): (d: char)
    ensures active != [] ==> d == active[0]
    ensures active == [] ==> d == ';'
  {
    if active == [] then ';' else active[0]
  }

  /** Tag depth after one more character: `<` opens a level and `>` closes
      one, never going below zero. */
  function NextDepth(depth: nat, c: char): nat {
    if c == '<' then depth + 1
    else if c == '>' then (if depth == 0 then 0 else depth - 1)
    else depth
  }

  /** Tag depth after reading the whole of `s` from depth zero. */
  function Depth(s: string): nat {
    if s == [] then 0 else NextDepth(Depth(s[..|s| - 1]), s[|s| - 1])
  }

  /** Position `i` of `line` is a split point: it holds the delimiter and no
      tag is open there (a `<` itself opens a tag before the delimiter test). */
  predicate IsSplitPoint(line: string, d: char, i: nat)
    requires i < |line|
  {
    line[i] == d && d != '<' && Depth(line[..i]) == 0
  }

  /** Strictly increasing positions. */
  predicate Increasing(pts: seq<nat>) {
    forall a, b :: 0 <= a < b < |pts| ==> pts[a] < pts[b]
  }

  /** All positions lie in `[lo, hi)`. */
  predicate Within(pts: seq<nat>, lo: nat, hi: nat) {
    forall k :: 0 <= k < |pts| ==> lo <= pts[k] < hi
  }

  /** The split points at or after `i`, in increasing order. */
  function SplitPoints(line: string, d: char, i: nat): (r: seq<nat>)
    requires i <= |line|
    ensures Within(r, i, |line|) && Increasing(r)
    ensures forall k :: 0 <= k < |r| ==> IsSplitPoint(line, d, r[k])
    decreases |line| - i
  {
    if i == |line| then []
    else
      var rest := SplitPoints(line, d, i + 1);
      if IsSplitPoint(line, d, i) then
        PrependPoint(line, d, i, rest);
        [i] + rest
      else rest
  }

  lemma PrependPoint(line: string, d: char, i: nat, rest: seq<nat>)
    requires i < |line| && IsSplitPoint(line, d, i)
    requires Within(rest, i + 1, |line|) && Increasing(rest)
    requires forall k :: 0 <= k < |rest| ==> IsSplitPoint(line, d, rest[k])
    ensures Within([i] + rest, i, |line|) && Increasing([i] + rest)
    ensures forall k :: 0 <= k < |[i] + rest| ==> IsSplitPoint(line, d, ([i] + rest)[k])
  {
    var r := [i] + rest;
    assert forall k :: 0 <= k < |rest| ==> r[k + 1] == rest[k];
  }

  /** Every split point at or after `i` is listed. */
  lemma {:induction false} SplitPointsComplete(line: string, d: char, i: nat, j: nat)
    requires i <= j < |line| && IsSplitPoint(line, d, j)
    ensures j in SplitPoints(line, d, i)
    decreases |line| - i
  {
    if i < j {
      SplitPointsComplete(line, d, i + 1, j);
    }
  }

  /** The pieces of `line` between `start` and the points `pts`. */
  function Segments(line: string, pts: seq<nat>, start: nat): (r: seq<string>)
    requires start <= |line| && Within(pts, start, |line|) && Increasing(pts)
    ensures |r| == |pts| + 1
    decreases |pts|
  {
    if pts == [] then [line[start..]]
    else
      assert Within(pts[1..], pts[0] + 1, |line|) by {
        forall k | 0 <= k < |pts[1..]| ensures pts[0] + 1 <= pts[1..][k] < |line| {
          assert pts[1..][k] == pts[k + 1];
        }
      }
      [line[start..pts[0]]] + Segments(line, pts[1..], pts[0] + 1)
  }

  /** Prefix the first part of a non-empty part list. */
  function PrependFirst(cur: string, parts: seq<string>): seq<string>
    requires parts != []
  {
    [cur + parts[0]] + parts[1..]
  }

  /** The loop of `_get_split_parts` on the rest `s` of a line, from tag depth
      `depth` with `cur` collected so far: the parts before stripping. */
  function Scan(s: string, d: char, depth: nat, cur: string): (r: seq<string>)
    ensures r != []
    decreases |s|
  {
    if s == [] then [cur]
    else
      var c := s[0];
      var raised := if c == '<' then depth + 1 else depth;
      if c == d && raised == 0 then [cur] + Scan(s[1..], d, NextDepth(depth, c), [])
      else Scan(s[1..], d, NextDepth(depth, c), cur + [c])
  }

  /** Every part stripped, in order. */
  function StripAll(parts: seq<string>): (r: seq<string>)
    ensures |r| == |parts|
  {
    if parts == [] then [] else [Strip(parts[0])] + StripAll(parts[1..])
  }

  lemma {:induction false} StripAllConcat(a: seq<string>, b: seq<string>)
    ensures StripAll(a + b) == StripAll(a) + StripAll(b)
  {
    if a != [] {
      assert (a + b)[1..] == a[1..] + b;
      StripAllConcat(a[1..], b);
    } else {
      assert a + b == b;
    }
  }

  lemma {:induction false} StripAllStripped(parts: seq<string>)
    requires forall k :: 0 <= k < |parts| ==> IsStripped(parts[k])
    ensures StripAll(parts) == parts
  {
    if parts != [] {
      StripSpec(parts[0]);
      StripAllStripped(parts[1..]);
    }
  }

  /** What `_get_split_parts` returns for `line` under the checked delimiters
      `active`. */
  function SplitParts(line: string, active: seq<char>): seq<string> {
    var d := ActiveDelimiter(active);
    if d !in line then [line] else StripAll(Scan(line, d, 0, []))
  }

  /** The character loop reads the line as the split points cut it. */
  lemma {:induction false} ScanSegments(line: string, d: char, i: nat, cur: string)
    requires i <= |line|
    ensures Scan(line[i..], d, Depth(line[..i]), cur) == PrependFirst(cur, Segments(line, SplitPoints(line, d, i), i))
    decreases |line| - i
  {
    var pts := SplitPoints(line, d, i);
    if i == |line| {
      assert line[i..] == [];
      assert cur + line[i..] == cur;
    } else {
      var c := line[i];
      assert line[i..][0] == c && line[i..][1..] == line[i + 1..];
      assert line[..i + 1][..i] == line[..i];
      assert Depth(line[..i + 1]) == NextDepth(Depth(line[..i]), c);
      ScanSegments(line, d, i + 1, if IsSplitPoint(line, d, i) then [] else cur + [c]);
      var rest := SplitPoints(line, d, i + 1);
      var segs := Segments(line, rest, i + 1);
      if IsSplitPoint(line, d, i) {
        assert pts == [i] + rest;
        assert Segments(line, pts, i) == [line[i..i]] + segs;
        assert [] + segs[0] == segs[0];
        assert line[i..i] == [];
        assert cur + [] == cur;
        assert [segs[0]] + segs[1..] == segs;
      } else {
        assert pts == rest;
        SegmentsStep(line, rest, i);
        assert (cur + [c]) + segs[0] == cur + ([c] + segs[0]);
      }
    }
  }

  /** Moving the start of the first piece one character to the right. */
  lemma SegmentsStep(line: string, pts: seq<nat>, i: nat)
    requires i < |line|
    requires Within(pts, i + 1, |line|) && Increasing(pts)
    ensures Segments(line, pts, i) == PrependFirst([line[i]], Segments(line, pts, i + 1))
  {
    if pts == [] {
      assert line[i..] == [line[i]] + line[i + 1..];
    } else {
      assert line[i..pts[0]] == [line[i]] + line[i + 1..pts[0]];
    }
  }

  /** Every part is a stripped piece of the line between consecutive split
      points; so there is one part more than there are split points. */
  lemma SplitPartsAreSegments(line: string, active: seq<char>)
    requires ActiveDelimiter(active) in line
    ensures var d := ActiveDelimiter(active);
      SplitParts(line, active) == StripAll(Segments(line, SplitPoints(line, d, 0), 0))
      && |SplitParts(line, active)| == 1 + |SplitPoints(line, d, 0)|
  {
    var d := ActiveDelimiter(active);
    ScanSegments(line, d, 0, []);
    assert line[0..] == line && line[..0] == [];
    var segs := Segments(line, SplitPoints(line, d, 0), 0);
    assert [] + segs[0] == segs[0];
    assert [segs[0]] + segs[1..] == segs;
  }

  /** Splitting a delimiter-joined row of plain cells (no delimiter and no
      angle bracket inside a cell) gives back the row, stripped. */
  lemma {:induction false} ScanJoin(cells: seq<string>, d: char, cur: string)
    requires |cells| >= 1 && d != '<' && d != '>'
    requires forall k :: 0 <= k < |cells| ==> PlainCell(cells[k], d)
    ensures Scan(Join([d], cells), d, 0, cur) == PrependFirst(cur, cells)
    decreases |cells|
  {
    if |cells| == 1 {
      ScanPlain(cells[0], [], d, cur);
      assert cells[0] + [] == cells[0];
    } else {
      var rest := Join([d], cells[1..]);
      ScanJoin(cells[1..], d, []);
      assert Join([d], cells) == cells[0] + ([d] + rest);
      ScanPlain(cells[0], [d] + rest, d, cur);
      assert ([d] + rest)[0] == d && ([d] + rest)[1..] == rest;
      assert Scan([d] + rest, d, 0, cur + cells[0]) == [cur + cells[0]] + Scan(rest, d, 0, []);
      assert [] + cells[1..][0] == cells[1];
      assert [cells[1]] + cells[2..] == cells[1..];
    }
  }

  /** Plain text outside any tag is collected into the current part. */
  lemma {:induction false} ScanPlain(w: string, rest: string, d: char, cur: string)
    requires d !in w && '<' !in w && '>' !in w
    ensures Scan(w + rest, d, 0, cur) == Scan(rest, d, 0, cur + w)
    decreases |w|
  {
    if w == [] {
      assert w + rest == rest && cur + w == cur;
    } else {
      assert (w + rest)[0] == w[0] && (w + rest)[1..] == w[1..] + rest;
      ScanPlain(w[1..], rest, d, cur + [w[0]]);
      assert cur + [w[0]] + w[1..] == cur + w;
    }
  }

  /** A cell with no delimiter and no angle bracket. */
  predicate PlainCell(cell: string, d: char) {
    d !in cell && '<' !in cell && '>' !in cell
  }

  lemma JoinedHasSeparator(cells: seq<string>, d: char)
    requires |cells| >= 2
    ensures d in Join([d], cells)
  {
    var line := Join([d], cells);
    assert line == cells[0] + ([d] + Join([d], cells[1..]));
    assert line[|cells[0]|] == d;
  }

  /** A row of stripped plain cells joined with the delimiter splits back
      into the same cells: the grid and text views agree. */
  lemma SplitJoinedRow(cells: seq<string>, active: seq<char>)
    requires |cells| >= 2
    requires ActiveDelimiter(active) != '<' && ActiveDelimiter(active) != '>'
    requires forall k :: 0 <= k < |cells| ==> PlainCell(cells[k], ActiveDelimiter(active)) && IsStripped(cells[k])
    ensures SplitParts(Join([ActiveDelimiter(active)], cells), active) == cells
  {
    var d := ActiveDelimiter(active);
    var line := Join([d], cells);
    JoinedHasSeparator(cells, d);
    ScanJoin(cells, d, []);
    assert Scan(line, d, 0, []) == cells by {
      assert [] + cells[0] == cells[0];
      assert [cells[0]] + cells[1..] == cells;
    }
    StripAllStripped(cells);
  }

  /** `_get_split_parts`, as the loop over the characters of the line. */
  method GetSplitParts(line: string, active: seq<char>) returns (parts: seq<string>)
    ensures parts == SplitParts(line, active)
    ensures ActiveDelimiter(active) !in line ==> parts == [line]
  {
    var d := ActiveDelimiter(active);
    if d !in line {
      return [line];
    }
    parts := [];
    var current: string := [];
    var level: nat := 0;
    var i := 0;
    ghost var whole := StripAll(Scan(line, d, 0, []));
    assert line[0..] == line;
    while i < |line|
      invariant 0 <= i <= |line|
      invariant parts + StripAll(Scan(line[i..], d, level, current)) == whole
    {
      var c := line[i];
      assert line[i..][0] == c && line[i..][1..] == line[i + 1..];
      ghost var before, parts0 := level, parts;
      if c == '<' {
        level := level + 1;
      }
      if c == d && level == 0 {
        ghost var later := Scan(line[i + 1..], d, NextDepth(before, c), []);
        assert Scan(line[i..], d, before, current) == [current] + later;
        StripAllConcat([current], later);
        assert StripAll([current]) == [Strip(current)];
        parts := parts + [Strip(current)];
        current := [];
      } else {
        assert Scan(line[i..], d, before, current) == Scan(line[i + 1..], d, NextDepth(before, c), current + [c]);
        current := current + [c];
      }
      if c == '>' {
        level := if level == 0 then 0 else level - 1;
      }
      assert level == NextDepth(before, c);
      i := i + 1;
    }
    assert line[i..] == [];
    assert StripAll(Scan(line[i..], d, level, current)) == [Strip(current)];
    parts := parts + [Strip(current)];
  }
}
