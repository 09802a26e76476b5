/** The snapshot of shown notes (`card_creation_info`): after "show", one
    record `[nid, line, tags]` per shown note, extended with
    `[lapses, reps]` by the lapse ordering. The orderings rearrange the
    records and then project them onto the editor, the tags column, the
    gutter labels and `shown_note_ids`. Without a snapshot the alphabetical
    and random orderings work on the editor lines and their tag lines
    directly. */
module Snapshot {
  import opened Strings
  import opened Sorting
  import opened NaturalSort
  import CardLines

  datatype Stats = Stats(lapses: nat, reps: nat)

  /** One record of the snapshot. */
  datatype Info = Info(nid: int, line: string, tags: string, stats: Option<Stats>)

  /** What the gutter shows: plain numbers, numbers with the creation date,
      or numbers with the lapse and review counts. */
  datatype ViewMode = Simple | Date | StatsView

  predicate AllStats(info: seq<Info>) {
    forall x :: x in info ==> x.stats.Some?
  }

  predicate NoStats(info: seq<Info>) {
    forall x :: x in info ==> x.stats.None?
  }

  /** Records are extended all together, so either all or none carry
      counts; in the statistics view they all do. */
  predicate ValidSnapshot(info: seq<Info>, mode: ViewMode) {
    (AllStats(info) || NoStats(info)) && (mode == StatsView ==> AllStats(info))
  }

  /** A rearrangement keeps a valid snapshot valid. */
  lemma PermutedValid(a: seq<Info>, b: seq<Info>, mode: ViewMode)
    requires multiset(a) == multiset(b) && ValidSnapshot(a, mode)
    ensures ValidSnapshot(b, mode)
  {
    forall x | x in b ensures x in a {
      assert x in multiset(b);
    }
  }

  function Ids(info: seq<Info>): (r: seq<int>)
    ensures |r| == |info| && forall i :: 0 <= i < |info| ==> r[i] == info[i].nid
  {
    seq(|info|, i requires 0 <= i < |info| => info[i].nid)
  }

  function LinesOf(info: seq<Info>): (r: seq<string>)
    ensures |r| == |info| && forall i :: 0 <= i < |info| ==> r[i] == info[i].line
  {
    seq(|info|, i requires 0 <= i < |info| => info[i].line)
  }

  function TagsOf(info: seq<Info>): (r: seq<string>)
    ensures |r| == |info| && forall i :: 0 <= i < |info| ==> r[i] == info[i].tags
  {
    seq(|info|, i requires 0 <= i < |info| => info[i].tags)
  }

  /** The records "show" keeps of its entries (id, card line, tags): one
      per entry whose card line is not blank, in order, without counts. */
  function NonBlankInfos(entries: seq<(int, string, string)>): (r: seq<Info>)
    ensures |r| <= |entries| && NoStats(r)
    ensures forall x :: x in r ==> Strip(x.line) != [] && (x.nid, x.line, x.tags) in entries
  {
    if entries == [] then []
    else
      var prev := NonBlankInfos(entries[..|entries| - 1]);
      var (nid, line, t) := entries[|entries| - 1];
      if Strip(line) != [] then prev + [Info(nid, line, t, None)] else prev
  }

  /** Exactly the entries with a non-blank card line are all kept. */
  lemma {:induction false} NonBlankInfosKeepsAll(entries: seq<(int, string, string)>)
    ensures |NonBlankInfos(entries)| == |entries| <==> forall k :: 0 <= k < |entries| ==> Strip(entries[k].1) != []
  {
    if entries != [] {
      var init := entries[..|entries| - 1];
      NonBlankInfosKeepsAll(init);
      assert forall k :: 0 <= k < |init| ==> init[k] == entries[k];
    }
  }

  // ---- sort_cards_alphabetically ----

  predicate ByLine(a: Info, b: Info) {
    NaturalLe(a.line, b.line)
  }

  predicate ByLineDesc(a: Info, b: Info) {
    NaturalLe(b.line, a.line)
  }

  /** The records sorted by the natural key of their line: descending when
      the lines were already in ascending order, ascending otherwise. */
  function AlphaOrder(info: seq<Info>): seq<Info> {
    var lines := LinesOf(info);
    if SortBy(lines, NaturalLe) == lines then SortBy(info, ByLineDesc) else SortBy(info, ByLine)
  }

  lemma OrdersTotal()
    ensures Total(NaturalLe) && Total(ByLine) && Total(ByLineDesc)
  {
    forall s: string, t: string ensures NaturalLe(s, t) || NaturalLe(t, s) {
      NaturalLeTotal(s, t, t);
    }
  }

  /** The lines are in ascending natural order exactly when the records
      are. */
  lemma LinesSortedIff(info: seq<Info>)
    ensures Sorted(LinesOf(info), NaturalLe) <==> Sorted(info, ByLine)
  {
  }

  /** The alphabetical ordering keeps the records and puts them in
      descending natural order of their lines when they were ascending,
      and in ascending order otherwise. */
  lemma AlphaOrderSpec(info: seq<Info>)
    ensures multiset(AlphaOrder(info)) == multiset(info)
    ensures Sorted(info, ByLine) ==> Sorted(AlphaOrder(info), ByLineDesc)
    ensures !Sorted(info, ByLine) ==> Sorted(AlphaOrder(info), ByLine)
  {
    OrdersTotal();
    SortedIffUnchanged(LinesOf(info), NaturalLe);
    LinesSortedIff(info);
    SortByMultiset(info, ByLine);
    SortByMultiset(info, ByLineDesc);
    SortBySorted(info, ByLine);
    SortBySorted(info, ByLineDesc);
  }

  // ---- sort_cards_by_creation_date ----

  predicate ById(a: Info, b: Info) {
    a.nid <= b.nid
  }

  predicate ByIdDesc(a: Info, b: Info) {
    a.nid >= b.nid
  }

  /** Ascending note ids on first use; reversed while already in date view. */
  function DateOrder(info: seq<Info>, mode: ViewMode): seq<Info> {
    if mode == Date then Reverse(info) else SortBy(info, ById)
  }

  /** Outside the date view the records end up in ascending id order; in
      the date view the order is reversed, so a second use on ascending
      records gives descending ids. Records are never lost or added. */
  lemma DateOrderSpec(info: seq<Info>, mode: ViewMode)
    ensures multiset(DateOrder(info, mode)) == multiset(info)
    ensures mode != Date ==> Sorted(DateOrder(info, mode), ById)
    ensures mode == Date && Sorted(info, ById) ==> Sorted(DateOrder(info, mode), ByIdDesc)
    ensures mode == Date ==> DateOrder(DateOrder(info, mode), mode) == info
  {
    assert Total(ById);
    SortByMultiset(info, ById);
    SortBySorted(info, ById);
    ReverseMultiset(info);
    ReverseReverse(info);
    if mode == Date && Sorted(info, ById) {
      ReverseSorted(info, ById);
      var r := Reverse(info);
      assert forall i :: 0 <= i < |r| - 1 ==> ById(r[i + 1], r[i]);
    }
  }

  // ---- sort_cards_by_lapses ----

  function Lapses(x: Info): nat {
    if x.stats.Some? then x.stats.value.lapses else 0
  }

  function LapsesOf(info: seq<Info>): (r: seq<nat>)
    ensures |r| == |info| && forall i :: 0 <= i < |info| ==> r[i] == Lapses(info[i])
  {
    seq(|info|, i requires 0 <= i < |info| => Lapses(info[i]))
  }

  predicate GeNat(a: nat, b: nat) {
    a >= b
  }

  predicate ByLapses(a: Info, b: Info) {
    Lapses(a) <= Lapses(b)
  }

  predicate ByLapsesDesc(a: Info, b: Info) {
    Lapses(a) >= Lapses(b)
  }

  /** `reverse_sort`: sort by descending lapses unless the lapses are
      already in descending order. */
  function LapsesDescendingNext(info: seq<Info>): bool {
    SortBy(LapsesOf(info), GeNat) != LapsesOf(info)
  }

  function LapseOrder(info: seq<Info>): seq<Info> {
    if LapsesDescendingNext(info) then SortBy(info, ByLapsesDesc) else SortBy(info, ByLapses)
  }

  /** The records with their lapse and review counts: fetched for every
      record when the first has none yet. */
  function WithStats(info: seq<Info>, fetch: int -> Stats): (r: seq<Info>)
    requires info != []
  {
    if info[0].stats.None? then seq(|info|, i requires 0 <= i < |info| => info[i].(stats := Some(fetch(info[i].nid))))
    else info
  }

  /** After the lapse ordering every record carries counts, and records
      only change by gaining them. */
  lemma WithStatsSpec(info: seq<Info>, fetch: int -> Stats)
    requires info != [] && (AllStats(info) || NoStats(info))
    ensures AllStats(WithStats(info, fetch)) && |WithStats(info, fetch)| == |info|
    ensures forall i :: 0 <= i < |info| ==>
      WithStats(info, fetch)[i].(stats := None) == info[i].(stats := None)
      && (info[i].stats.Some? ==> WithStats(info, fetch)[i] == info[i])
  {
    var r := WithStats(info, fetch);
    if info[0].stats.None? {
      forall x | x in r ensures x.stats.Some? {
        var i :| 0 <= i < |r| && r[i] == x;
      }
    } else {
      assert info[0] in info;
    }
  }

  /** Lapses already in descending order are sorted ascending; otherwise
      they are sorted descending. Records are never lost or added. */
  lemma LapseOrderSpec(info: seq<Info>)
    ensures multiset(LapseOrder(info)) == multiset(info)
    ensures LapsesDescendingNext(info) <==> !Sorted(info, ByLapsesDesc)
    ensures Sorted(info, ByLapsesDesc) ==> Sorted(LapseOrder(info), ByLapses)
    ensures !Sorted(info, ByLapsesDesc) ==> Sorted(LapseOrder(info), ByLapsesDesc)
  {
    assert Total(GeNat) && Total(ByLapses) && Total(ByLapsesDesc);
    SortedIffUnchanged(LapsesOf(info), GeNat);
    assert Sorted(LapsesOf(info), GeNat) <==> Sorted(info, ByLapsesDesc);
    SortByMultiset(info, ByLapses);
    SortByMultiset(info, ByLapsesDesc);
    SortBySorted(info, ByLapses);
    SortBySorted(info, ByLapsesDesc);
  }

  // ---- _repopulate_ui_from_creation_info ----

  /** The gutter label of position `i`: its 1-based number, followed by the
      note's creation date in the date view or its lapse and review counts
      in the statistics view. */
  function Label(x: Info, i: nat, mode: ViewMode, dateOf: int -> string): string {
    var n := DecimalString(i + 1);
    match mode
    case Simple => n
    case Date => n + " (" + dateOf(x.nid) + ")"
    case StatsView =>
      var s := if x.stats.Some? then x.stats.value else Stats(0, 0);
      n + " (E:" + DecimalString(s.lapses) + " R:" + DecimalString(s.reps) + ")"
  }

  function SnapshotLabels(info: seq<Info>, mode: ViewMode, dateOf: int -> string): (r: seq<string>)
    ensures |r| == |info| && forall i :: 0 <= i < |info| ==> r[i] == Label(info[i], i, mode, dateOf)
  {
    seq(|info|, i requires 0 <= i < |info| => Label(info[i], i, mode, dateOf))
  }

  /** Every label starts with its position's number, so the gutter counts
      1 to n in the new order whatever the view. */
  lemma LabelNumbers(info: seq<Info>, mode: ViewMode, dateOf: int -> string, i: nat)
    requires i < |info|
    ensures var l := SnapshotLabels(info, mode, dateOf)[i];
      var n := DecimalString(i + 1);
      |n| <= |l| && l[..|n|] == n && (mode == Simple ==> l == n)
  {
  }

  /** The editor and the tags column show the records' lines and tags one
      per line, in the records' order. */
  lemma ProjectionReadsBack(info: seq<Info>)
    requires info != []
    requires forall x :: x in info ==> '\n' !in x.line && '\n' !in x.tags
    ensures Split(Join("\n", LinesOf(info)), '\n') == LinesOf(info)
    ensures Split(Join("\n", TagsOf(info)), '\n') == TagsOf(info)
  {
    forall k | 0 <= k < |info| ensures '\n' !in LinesOf(info)[k] && '\n' !in TagsOf(info)[k] {
      assert info[k] in info;
    }
    SplitJoin(LinesOf(info), '\n');
    SplitJoin(TagsOf(info), '\n');
  }

  // ---- the orderings without a snapshot ----

  /** The tag lines padded with empty lines up to `n` (`while len(tag_lines)
      < n: tag_lines.append('')`). */
  function PadTo(lines: seq<string>, n: nat): (r: seq<string>)
    ensures |r| == if |lines| < n then n else |lines|
    ensures r[..|lines|] == lines && forall i :: |lines| <= i < |r| ==> r[i] == []
  {
    if |lines| < n then lines + seq(n - |lines|, _ => []) else lines
  }

  /** `zip(cards, tags)`: one pair per card line (extra tag lines dropped). */
  function Zip(cards: seq<string>, tags: seq<string>): (r: seq<(string, string)>)
    requires |cards| <= |tags|
    ensures |r| == |cards| && forall i :: 0 <= i < |cards| ==> r[i] == (cards[i], tags[i])
  {
    seq(|cards|, i requires 0 <= i < |cards| => (cards[i], tags[i]))
  }

  function Firsts(pairs: seq<(string, string)>): (r: seq<string>)
    ensures |r| == |pairs| && forall i :: 0 <= i < |pairs| ==> r[i] == pairs[i].0
  {
    seq(|pairs|, i requires 0 <= i < |pairs| => pairs[i].0)
  }

  function Seconds(pairs: seq<(string, string)>): (r: seq<string>)
    ensures |r| == |pairs| && forall i :: 0 <= i < |pairs| ==> r[i] == pairs[i].1
  {
    seq(|pairs|, i requires 0 <= i < |pairs| => pairs[i].1)
  }

  predicate PairAsc(p: (string, string), q: (string, string)) {
    NaturalLe(p.0, q.0)
  }

  predicate PairDesc(p: (string, string), q: (string, string)) {
    NaturalLe(q.0, p.0)
  }

  /** The card lines paired with their (padded) tag lines. */
  function EditorPairs(cards: string, tags: string): seq<(string, string)> {
    var cl := Split(cards, '\n');
    Zip(cl, PadTo(Split(tags, '\n'), |cl|))
  }

  /** The pairs sorted by the natural key of the card line: descending when
      the card lines were already ascending, ascending otherwise. */
  function AlphaPairs(cards: string, tags: string): seq<(string, string)> {
    var cl := Split(cards, '\n');
    var pairs := EditorPairs(cards, tags);
    if SortBy(cl, NaturalLe) == cl then SortBy(pairs, PairDesc) else SortBy(pairs, PairAsc)
  }

  /** The alphabetical ordering keeps every card line with its tag line,
      loses no pair, and orders the card lines as the snapshot ordering
      orders records; the new texts read back as the sorted pairs. */
  lemma AlphaPairsSpec(cards: string, tags: string)
    ensures var pairs := AlphaPairs(cards, tags);
      var before := EditorPairs(cards, tags);
      multiset(pairs) == multiset(before)
      && (Sorted(before, PairAsc) ==> Sorted(pairs, PairDesc))
      && (!Sorted(before, PairAsc) ==> Sorted(pairs, PairAsc))
      && Split(Join("\n", Firsts(pairs)), '\n') == Firsts(pairs)
      && Split(Join("\n", Seconds(pairs)), '\n') == Seconds(pairs)
  {
    var cl := Split(cards, '\n');
    var before := EditorPairs(cards, tags);
    OrdersTotal();
    assert Total(PairAsc) && Total(PairDesc) by {
      forall p: (string, string), q: (string, string) ensures PairAsc(p, q) || PairAsc(q, p) {
        NaturalLeTotal(p.0, q.0, q.0);
      }
    }
    SortedIffUnchanged(cl, NaturalLe);
    assert Sorted(cl, NaturalLe) <==> Sorted(before, PairAsc);
    SortByMultiset(before, PairAsc);
    SortByMultiset(before, PairDesc);
    SortBySorted(before, PairAsc);
    SortBySorted(before, PairDesc);
    PairsReadBack(before, AlphaPairs(cards, tags), cards, tags);
  }

  /** A rearrangement of the editor pairs splits back into its lines. */
  lemma PairsReadBack(before: seq<(string, string)>, pairs: seq<(string, string)>, cards: string, tags: string)
    requires before == EditorPairs(cards, tags) && multiset(pairs) == multiset(before) && pairs != []
    ensures Split(Join("\n", Firsts(pairs)), '\n') == Firsts(pairs)
    ensures Split(Join("\n", Seconds(pairs)), '\n') == Seconds(pairs)
  {
    var cl := Split(cards, '\n');
    var tl := PadTo(Split(tags, '\n'), |cl|);
    forall k | 0 <= k < |pairs| ensures '\n' !in pairs[k].0 && '\n' !in pairs[k].1 {
      assert pairs[k] in multiset(before);
      var i :| 0 <= i < |before| && before[i] == pairs[k];
      if i >= |Split(tags, '\n')| {
        assert tl[i] == [];
      } else {
        assert tl[i] == Split(tags, '\n')[i];
      }
    }
    SplitJoin(Firsts(pairs), '\n');
    SplitJoin(Seconds(pairs), '\n');
  }

  lemma EditorPairsNonEmpty(cards: string, tags: string)
    ensures EditorPairs(cards, tags) != []
  {
  }

  /** The shown notes and the editor state they are projected onto. */
  /** The records of "show": the notes whose card line is not blank. */
  method CollectShown(entries: seq<(int, string, string)>) returns (kept: seq<Info>)
    ensures kept == NonBlankInfos(entries)
  {
    kept := [];
    var i := 0;
    while i < |entries|
      invariant 0 <= i <= |entries| && kept == NonBlankInfos(entries[..i])
    {
      assert entries[..i + 1][..i] == entries[..i];
      var (nid, line, t) := entries[i];
      if Strip(line) != [] {
        kept := kept + [Info(nid, line, t, None)];
      }
      i := i + 1;
    }
    assert entries[..i] == entries;
  }

  class ShownCards {
    /** The local date of a note id (`datetime.fromtimestamp(nid / 1000)`). */
    const dateOf: int -> string
    var info: seq<Info>
    var mode: ViewMode
    var cards: string
    var tags: string
    var labels: seq<string>
    var shownIds: seq<int>
    var lapsesDescending: bool

    predicate Valid()
      reads this
    {
      ValidSnapshot(info, mode)
    }

    constructor (dateOf: int -> string)
      ensures Valid() && this.dateOf == dateOf
      ensures info == [] && mode == Simple && cards == [] && tags == [] && shownIds == []
    {
      this.dateOf := dateOf;
      info := [];
      mode := Simple;
      cards := [];
      tags := [];
      labels := [""];
      shownIds := [];
      lapsesDescending := false;
    }

    /** The end of "show": a record for every shown note whose card line
        is not blank, then the projection (or empty editors when none is
        left). `entries` are the notes' ids, card lines and tags. */
    method Show(entries: seq<(int, string, string)>, active: seq<char>)
      modifies this
      ensures Valid() && info == NonBlankInfos(entries) && shownIds == Ids(info)
      ensures info != [] ==>
        mode == Simple && cards == Join("\n", LinesOf(info)) && tags == Join("\n", TagsOf(info))
        && labels == SnapshotLabels(info, Simple, dateOf)
      ensures info == [] ==>
        mode == old(mode) && cards == [] && tags == []
        && labels == CardLines.Labels(Split([], '\n'), CardLines.EffectiveDelimiters(active))
      ensures lapsesDescending == old(lapsesDescending)
    {
      info := CollectShown(entries);
      shownIds := Ids(info);
      if info != [] {
        mode := Simple;
        Repopulate();
      } else {
        cards := [];
        tags := [];
        labels := CardLines.UpdateLineNumbers([], active, false, labels);
      }
    }

    /** `clear_creation_info_on_edit`: editing drops the snapshot. */
    method ClearOnEdit()
      modifies this
      ensures Valid()
      ensures old(info) != [] ==> info == [] && mode == Simple
      ensures old(info) == [] ==> info == old(info) && mode == old(mode)
      ensures cards == old(cards) && tags == old(tags) && labels == old(labels) && shownIds == old(shownIds)
      ensures lapsesDescending == old(lapsesDescending)
    {
      if info != [] {
        info := [];
        mode := Simple;
      }
      assert ValidSnapshot(info, mode) by {
        if old(info) == [] { assert old(Valid()) || true; }
      }
    }

    /** `_repopulate_ui_from_creation_info`. */
    method Repopulate()
      requires Valid()
      modifies this
      ensures Valid() && info == old(info) && mode == old(mode) && lapsesDescending == old(lapsesDescending)
      ensures old(info) == [] ==> cards == old(cards) && tags == old(tags) && labels == old(labels) && shownIds == old(shownIds)
      ensures old(info) != [] ==>
        cards == Join("\n", LinesOf(info)) && tags == Join("\n", TagsOf(info))
        && labels == SnapshotLabels(info, mode, dateOf) && shownIds == Ids(info)
    {
      if info == [] {
        return;
      }
      cards := Join("\n", LinesOf(info));
      tags := Join("\n", TagsOf(info));
      labels := SnapshotLabels(info, mode, dateOf);
      shownIds := Ids(info);
    }

    /** `sort_cards_alphabetically`. */
    method SortAlphabetically()
      requires Valid()
      modifies this
      ensures Valid()
      ensures old(info) != [] ==>
        info == AlphaOrder(old(info)) && mode == Simple && shownIds == Ids(info)
        && cards == Join("\n", LinesOf(info)) && tags == Join("\n", TagsOf(info))
        && labels == SnapshotLabels(info, Simple, dateOf)
      ensures old(info) == [] && Strip(old(cards)) == [] ==>
        cards == old(cards) && tags == old(tags) && labels == old(labels)
      ensures old(info) == [] && Strip(old(cards)) != [] ==>
        cards == Join("\n", Firsts(AlphaPairs(old(cards), old(tags))))
        && tags == Join("\n", Seconds(AlphaPairs(old(cards), old(tags))))
      ensures old(info) == [] ==> info == old(info) && mode == old(mode) && shownIds == old(shownIds)
      ensures lapsesDescending == old(lapsesDescending)
    {
      if info != [] {
        var lines := LinesOf(info);
        var sortedLines := SortBy(lines, NaturalLe);
        var reverse := lines == sortedLines;
        info := if reverse then SortBy(info, ByLineDesc) else SortBy(info, ByLine);
        AlphaOrderSpec(old(info));
        PermutedValid(old(info), info, mode);
        PermutedValid(old(info), info, Simple);
        mode := Simple;
        Repopulate();
        return;
      }
      if Strip(cards) == [] {
        return;
      }
      cards, tags := SortEditorAlphabetically(cards, tags);
    }

    /** `sort_cards_randomly`, with the shuffle's random choices given as
        `picks`. */
    method SortRandomly(picks: seq<nat>)
      requires Valid()
      requires info != [] ==> ValidPicks(|info|, picks)
      requires info == [] ==> ValidPicks(|Split(cards, '\n')|, picks)
      modifies this
      ensures Valid()
      ensures old(info) != [] ==>
        info == Shuffled(old(info), picks) && multiset(info) == multiset(old(info))
        && mode == Simple && shownIds == Ids(info)
        && cards == Join("\n", LinesOf(info)) && tags == Join("\n", TagsOf(info))
        && labels == SnapshotLabels(info, Simple, dateOf)
      ensures old(info) == [] && Strip(old(cards)) == [] ==>
        cards == old(cards) && tags == old(tags) && labels == old(labels)
      ensures old(info) == [] && Strip(old(cards)) != [] ==>
        |Split(cards, '\n')| == |Split(old(cards), '\n')|
        && EditorPairs(cards, tags) == Shuffled(EditorPairs(old(cards), old(tags)), picks)
        && multiset(EditorPairs(cards, tags)) == multiset(EditorPairs(old(cards), old(tags)))
      ensures old(info) == [] ==> info == old(info) && mode == old(mode) && shownIds == old(shownIds)
      ensures lapsesDescending == old(lapsesDescending)
    {
      if info != [] {
        info := Shuffle(info, picks);
        PermutedValid(old(info), info, mode);
        PermutedValid(old(info), info, Simple);
        mode := Simple;
        Repopulate();
        return;
      }
      if Strip(cards) == [] {
        return;
      }
      cards, tags := ShuffleEditor(cards, tags, picks);
    }

    /** `sort_cards_by_creation_date`. */
    method SortByCreationDate()
      requires Valid()
      modifies this
      ensures Valid()
      ensures old(info) == [] ==>
        info == old(info) && mode == old(mode) && cards == old(cards) && tags == old(tags)
        && labels == old(labels) && shownIds == old(shownIds)
      ensures old(info) != [] ==>
        info == DateOrder(old(info), old(mode)) && mode == Date && shownIds == Ids(info)
        && cards == Join("\n", LinesOf(info)) && tags == Join("\n", TagsOf(info))
        && labels == SnapshotLabels(info, Date, dateOf)
      ensures lapsesDescending == old(lapsesDescending)
    {
      if info == [] {
        return;
      }
      if mode == Date {
        info := Reverse(info);
      } else {
        info := SortBy(info, ById);
      }
      DateOrderSpec(old(info), old(mode));
      PermutedValid(old(info), info, Simple);
      mode := Date;
      Repopulate();
    }

    /** `sort_cards_by_lapses`, with the revision-log counts of a note given
        by `fetch`. */
    method SortByLapses(fetch: int -> Stats)
      requires Valid()
      modifies this
      ensures Valid()
      ensures old(info) == [] ==>
        info == old(info) && mode == old(mode) && cards == old(cards) && tags == old(tags)
        && labels == old(labels) && shownIds == old(shownIds) && lapsesDescending == old(lapsesDescending)
      ensures old(info) != [] ==>
        info == LapseOrder(WithStats(old(info), fetch)) && mode == StatsView
        && cards == Join("\n", LinesOf(info)) && tags == Join("\n", TagsOf(info))
        && lapsesDescending == LapsesDescendingNext(WithStats(old(info), fetch))
        && shownIds == Ids(info) && labels == SnapshotLabels(info, StatsView, dateOf)
    {
      if info == [] {
        return;
      }
      if info[0].stats.None? {
        var i := 0;
        while i < |info|
          invariant 0 <= i <= |info| && |info| == |old(info)|
          invariant forall k :: 0 <= k < i ==> info[k] == old(info)[k].(stats := Some(fetch(old(info)[k].nid)))
          invariant forall k :: i <= k < |info| ==> info[k] == old(info)[k]
        {
          info := info[i := info[i].(stats := Some(fetch(info[i].nid)))];
          i := i + 1;
        }
      }
      assert info == WithStats(old(info), fetch);
      WithStatsSpec(old(info), fetch);
      var lapses := LapsesOf(info);
      var reverse := !(lapses == SortBy(lapses, GeNat));
      lapsesDescending := reverse;
      ghost var extended := info;
      info := SortBy(info, if reverse then ByLapsesDesc else ByLapses);
      LapseOrderSpec(extended);
      PermutedValid(extended, info, StatsView);
      mode := StatsView;
      Repopulate();
    }
  }

  /** The alphabetical ordering of the editor lines, each card line taking
      its tag line along. */
  method SortEditorAlphabetically(cards: string, tags: string) returns (newCards: string, newTags: string)
    ensures newCards == Join("\n", Firsts(AlphaPairs(cards, tags)))
    ensures newTags == Join("\n", Seconds(AlphaPairs(cards, tags)))
  {
    var cardLines := Split(cards, '\n');
    var tagLines := Split(tags, '\n');
    var reverse := cardLines == SortBy(cardLines, NaturalLe);
    tagLines := PadLines(tagLines, |cardLines|);
    var combined := Zip(cardLines, tagLines);
    combined := SortBy(combined, if reverse then PairDesc else PairAsc);
    newCards := Join("\n", Firsts(combined));
    newTags := Join("\n", Seconds(combined));
  }

  /** The random ordering of the editor lines, each card line taking its
      tag line along. */
  method ShuffleEditor(cards: string, tags: string, picks: seq<nat>) returns (newCards: string, newTags: string)
    requires ValidPicks(|Split(cards, '\n')|, picks)
    ensures |Split(newCards, '\n')| == |Split(cards, '\n')|
    ensures EditorPairs(newCards, newTags) == Shuffled(EditorPairs(cards, tags), picks)
    ensures multiset(EditorPairs(newCards, newTags)) == multiset(EditorPairs(cards, tags))
  {
    var cardLines := Split(cards, '\n');
    var tagLines := Split(tags, '\n');
    tagLines := PadLines(tagLines, |cardLines|);
    var combined := Zip(cardLines, tagLines);
    combined := Shuffle(combined, picks);
    newCards := Join("\n", Firsts(combined));
    newTags := Join("\n", Seconds(combined));
    ShuffledPairsReadBack(cards, tags, combined);
  }

  /** The padding loop of the orderings without a snapshot. */
  method PadLines(lines: seq<string>, n: nat) returns (padded: seq<string>)
    ensures padded == PadTo(lines, n)
  {
    padded := lines;
    while |padded| < n
      invariant |lines| <= |padded| && (|lines| < n ==> |padded| <= n) && (|lines| >= n ==> padded == lines)
      invariant padded == lines + seq(|padded| - |lines|, _ => [])
      decreases n - |padded|
    {
      padded := padded + [[]];
    }

  }

  /** The shuffled pairs read back from the new texts as a rearrangement of
      the old pairs. */
  lemma ShuffledPairsReadBack(cards: string, tags: string, combined: seq<(string, string)>)
    requires multiset(combined) == multiset(EditorPairs(cards, tags))
    ensures var c := Join("\n", Firsts(combined));
      var t := Join("\n", Seconds(combined));
      |Split(c, '\n')| == |Split(cards, '\n')| && EditorPairs(c, t) == combined
      && multiset(EditorPairs(c, t)) == multiset(EditorPairs(cards, tags))
  {
    var before := EditorPairs(cards, tags);
    EditorPairsNonEmpty(cards, tags);
    assert |combined| == |before| by {
      assert |multiset(combined)| == |multiset(before)|;
    }
    PairsReadBack(before, combined, cards, tags);
    var c := Join("\n", Firsts(combined));
    var t := Join("\n", Seconds(combined));
    assert EditorPairs(c, t) == combined;
  }
}
