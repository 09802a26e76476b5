/** The media manager dialog: the list of media files the entry text
    refers to, the media folder (a map from file name to contents), the
    entry text, and a stack of undo records for deletions and renames.
    The host calls that can fail (`os.remove`, `os.rename`, writing a file)
    fail when the caller's `fsError` says so; a failed call is caught and
    reported, and whatever the method did before it stays done. */
module Media {
  import opened Strings
  import opened Regex

  type Bytes = seq<byte>

  /** An undo record: `('delete', name, row, content)` or
      `('rename', old, new, row)`. */
  datatype Action =
    | Deleted(name: string, position: nat, content: Bytes)
    | Renamed(oldName: string, newName: string, position: nat)

  /** The state the dialog's operations read and change. */
  datatype Dialog = Dialog(folder: map<string, Bytes>, files: seq<string>, stack: seq<Action>, text: string)

  /** The entry the list widget shows for each file: `"{idx}-{name}"`, counting from 1. */
  function Entry(i: nat, name: string): string {
    DecimalString(i + 1) + "-" + name
  }

  function Listing(files: seq<string>): (r: seq<string>)
    ensures |r| == |files|
  {
    seq(|files|, i requires 0 <= i < |files| => Entry(i, files[i]))
  }

  /** Each entry gives back its position and its file name: the number before
      the first `-` is the position plus one and the rest is the name. */
  lemma ListingReadsBack(files: seq<string>, i: nat)
    requires i < |files|
    ensures var e := Listing(files)[i];
      var k := |DecimalString(i + 1)|;
      k < |e| && e[k] == '-' && AllDigits(e[..k]) && DecimalValue(e[..k]) == i + 1 && e[k + 1..] == files[i]
  {
    var e := Listing(files)[i];
    var d := DecimalString(i + 1);
    assert e == d + "-" + files[i];
    assert e[..|d|] == d;
    DecimalRoundTrip(i + 1);
  }

  /** `list.pop(i)`. */
  function RemoveAt<T>(xs: seq<T>, i: nat): (r: seq<T>)
    requires i < |xs|
    ensures |r| == |xs| - 1
    ensures forall j :: 0 <= j < i ==> r[j] == xs[j]
    ensures forall j :: i <= j < |r| ==> r[j] == xs[j + 1]
  {
    xs[..i] + xs[i + 1..]
  }

  /** `list.insert(i, x)` for `i >= 0`: past the end it appends. */
  function InsertAt<T>(xs: seq<T>, i: nat, x: T): (r: seq<T>)
    ensures |r| == |xs| + 1
    ensures i <= |xs| ==> r[i] == x
    ensures i > |xs| ==> r[|xs|] == x
  {
    if i >= |xs| then xs + [x] else xs[..i] + [x] + xs[i..]
  }

  /** Putting the popped element back where it was gives the list back. */
  lemma InsertRemove<T>(xs: seq<T>, i: nat)
    requires i < |xs|
    ensures InsertAt(RemoveAt(xs, i), i, xs[i]) == xs
  {
    var r := RemoveAt(xs, i);
    if i == |r| {
      assert r + [xs[i]] == xs;
    } else {
      assert r[..i] == xs[..i] && r[i..] == xs[i + 1..];
      assert xs == xs[..i] + [xs[i]] + xs[i + 1..];
    }
  }

  // ---------------------------------------------------------------------
  // Removing the tags that refer to a deleted file

  /** `src=` followed by a quote, `name` and a quote, starting at `k`. */
  predicate SrcAttrAt(span: string, name: string, k: nat) {
    k + 6 + |name| <= |span| && OccursAt(span, "src=", k) && IsQuote(span[k + 4])
    && OccursAt(span, name, k + 5) && IsQuote(span[k + 5 + |name|])
  }

  /** The pattern `<[^>]*src=["']NAME["'][^>]*>` at the start of `s`, with
      `NAME` matched literally: a `<`, then up to the first `>`, holding the
      attribute after the `<`. */
  function SrcTagMatch(name: string, s: string): Option<Match> {
    if s != [] && s[0] == '<' then
      var e := IndexFrom(s, '>', 0);
      if e < |s| && exists k :: 1 <= k <= e && SrcAttrAt(s[..e], name, k) then Some(Match(e + 1, ""))
      else None
    else None
  }

  function SrcTag(name: string): Matcher {
    s => SrcTagMatch(name, s)
  }

  /** `re.sub(rf'<[^>]*src=["\']{re.escape(name)}["\'][^>]*>', '', text)`. */
  function RemoveSrcTags(text: string, name: string): string {
    Substitute(text, SrcTag(name))
  }

  /** A text that does not mention the file is left as it is. */
  lemma RemoveSrcTagsAbsent(text: string, name: string)
    requires !Contains(text, name)
    ensures RemoveSrcTags(text, name) == text
  {
    forall i | 0 <= i < |text| ensures !MatchesAt(text, SrcTag(name), i) {
      if MatchesAt(text, SrcTag(name), i) {
        SrcTagMentions(text, name, i);
      }
    }
    NoMatchIdentity(text, SrcTag(name));
  }

  /** A matching tag holds the file name. */
  lemma SrcTagMentions(text: string, name: string, i: nat)
    requires i < |text| && MatchesAt(text, SrcTag(name), i)
    ensures Contains(text, name)
  {
    var s := text[i..];
    assert SrcTagMatch(name, s).Some?;
    var e := IndexFrom(s, '>', 0);
    var k :| 1 <= k <= e && SrcAttrAt(s[..e], name, k);
    assert text[i + k + 5..i + k + 5 + |name|] == s[..e][k + 5..k + 5 + |name|];
    ContainsAt(text, name, i + k + 5);
  }

  /** A tag `<...src="name"...>` is removed whole, and removal goes on
      after it. */
  lemma SrcTagRemoved(attrs: string, q1: char, name: string, q2: char, rest: string, after: string)
    requires IsQuote(q1) && IsQuote(q2)
    requires '>' !in attrs && '>' !in name && '>' !in rest
    ensures RemoveSrcTags("<" + attrs + "src=" + [q1] + name + [q2] + rest + ">" + after, name)
      == RemoveSrcTags(after, name)
  {
    var tag := "<" + attrs + "src=" + [q1] + name + [q2] + rest;
    var s := tag + ">" + after;
    var k := 1 + |attrs|;
    assert '>' !in tag by {
      forall j | 0 <= j < |tag| ensures tag[j] != '>' {
        if j == 0 {
        } else if j < k {
          assert tag[j] == attrs[j - 1];
        } else if j < k + 5 {
        } else if j < k + 5 + |name| {
          assert tag[j] == name[j - k - 5];
        } else if j == k + 5 + |name| {
        } else {
          assert tag[j] == rest[j - k - 6 - |name|];
        }
      }
    }
    assert s[|tag|] == '>';
    var e := IndexFrom(s, '>', 0);
    assert e == |tag|;
    assert s[..e] == tag;
    assert tag[k..k + 4] == "src=";
    assert tag[k + 5..k + 5 + |name|] == name;
    assert SrcAttrAt(s[..e], name, k);
    assert SrcTag(name)(s) == Some(Match(|tag| + 1, ""));
    SubstituteMatch(s, SrcTag(name));
    assert s[|tag| + 1..] == after;
  }

  /** Removal only deletes: the text never grows. */
  lemma {:induction false} RemoveSrcTagsShrinks(text: string, name: string)
    ensures |RemoveSrcTags(text, name)| <= |text|
    decreases |text|
  {
    if text != [] {
      var m := SrcTag(name);
      if MatchesAtStart(text, m) {
        RemoveSrcTagsShrinks(text[m(text).value.length..], name);
      } else {
        RemoveSrcTagsShrinks(text[1..], name);
      }
    }
  }

  // ---------------------------------------------------------------------
  // The operations on the dialog's state

  /** `delete_file` on the selected `row` (`-1` when nothing is selected). */
  function AfterDelete(d: Dialog, row: int, fsError: bool): (r: Dialog)
    requires row < |d.files|
    ensures row < 0 || d.files[row] !in d.folder ==> r == d
    ensures r.stack == d.stack || (0 <= row && r.stack == d.stack + [Deleted(d.files[row], row, d.folder[d.files[row]])])
  {
    if row < 0 then d
    else
      var name := d.files[row];
      if name !in d.folder then d
      else
        var pushed := d.(stack := d.stack + [Deleted(name, row, d.folder[name])]);
        if fsError then pushed
        else pushed.(folder := d.folder - {name}, files := RemoveAt(d.files, row), text := RemoveSrcTags(d.text, name))
  }

  /** `rename_file` on the selected `row`, with what the input dialog
      returned: the new name and whether it was accepted (`ok`). */
  function AfterRename(d: Dialog, row: int, newName: string, ok: bool, fsError: bool): (r: Dialog)
    requires row < |d.files|
    ensures row < 0 || !ok || newName == [] || newName == d.files[row] || newName in d.files ==> r == d
    ensures 0 <= row && d.files[row] !in d.folder ==> r == d
    ensures r.stack == d.stack || (0 <= row && r.stack == d.stack + [Renamed(d.files[row], newName, row)])
  {
    if row < 0 then d
    else
      var oldName := d.files[row];
      if !ok || newName == [] || newName == oldName then d
      else if newName in d.files then d
      else if oldName !in d.folder then d
      else
        var pushed := d.(stack := d.stack + [Renamed(oldName, newName, row)]);
        if fsError then pushed
        else
          pushed.(folder := (d.folder - {oldName})[newName := d.folder[oldName]],
                  files := d.files[row := newName], text := Replace(d.text, oldName, newName))
  }

  /** `undo_last_action`: pops the last record and reverses it. Undoing a
      rename moves the file back first; when that fails nothing else
      happens, and when the recorded position is past the end of the list
      the list assignment fails after the file has moved. */
  function AfterUndo(d: Dialog, fsError: bool): (r: Dialog)
    ensures d.stack == [] ==> r == d
    ensures d.stack != [] ==> r.stack == d.stack[..|d.stack| - 1]
  {
    if d.stack == [] then d
    else
      var popped := d.(stack := d.stack[..|d.stack| - 1]);
      match d.stack[|d.stack| - 1]
      case Deleted(name, position, content) =>
        if fsError then popped
        else popped.(folder := d.folder[name := content], files := InsertAt(d.files, position, name))
      case Renamed(oldName, newName, position) =>
        if fsError || newName !in d.folder then popped
        else
          var moved := popped.(folder := (d.folder - {newName})[oldName := d.folder[newName]]);
          if position >= |d.files| then moved
          else moved.(files := d.files[position := oldName], text := Replace(d.text, newName, oldName))
  }

  /** Every listed file exists in the folder and no file is listed twice. */
  predicate Consistent(d: Dialog) {
    (forall i :: 0 <= i < |d.files| ==> d.files[i] in d.folder)
    && (forall i, j :: 0 <= i < j < |d.files| ==> d.files[i] != d.files[j])
  }

  /** A deletion removes exactly the selected entry, keeps the others in
      order, removes the file and the tags that show it, and keeps the list
      consistent with the folder. */
  lemma DeleteSpec(d: Dialog, row: nat)
    requires row < |d.files| && d.files[row] in d.folder
    ensures var r := AfterDelete(d, row, false);
      r.files == d.files[..row] + d.files[row + 1..]
      && r.folder == d.folder - {d.files[row]}
      && r.stack == d.stack + [Deleted(d.files[row], row, d.folder[d.files[row]])]
      && r.text == RemoveSrcTags(d.text, d.files[row])
    ensures Consistent(d) ==> Consistent(AfterDelete(d, row, false))
  {
    var r := AfterDelete(d, row, false);
    if Consistent(d) {
      forall i | 0 <= i < |r.files| ensures r.files[i] in r.folder {
        if i < row {
          assert r.files[i] == d.files[i] != d.files[row];
        } else {
          assert r.files[i] == d.files[i + 1] != d.files[row];
        }
      }
      forall i, j | 0 <= i < j < |r.files| ensures r.files[i] != r.files[j] {
        var i' := if i < row then i else i + 1;
        var j' := if j < row then j else j + 1;
        assert r.files[i] == d.files[i'] && r.files[j] == d.files[j'];
      }
    }
  }

  /** A successful rename changes only the selected entry, moves the
      contents to the new name, replaces the old name in the text, and keeps
      the list consistent with the folder. */
  lemma RenameSpec(d: Dialog, row: nat, newName: string)
    requires row < |d.files| && d.files[row] in d.folder
    requires newName != [] && newName != d.files[row] && newName !in d.files
    ensures var r := AfterRename(d, row, newName, true, false);
      |r.files| == |d.files| && r.files[row] == newName
      && (forall i :: 0 <= i < |d.files| && i != row ==> r.files[i] == d.files[i])
      && d.files[row] !in r.folder && r.folder[newName] == d.folder[d.files[row]]
      && r.stack == d.stack + [Renamed(d.files[row], newName, row)]
      && r.text == Replace(d.text, d.files[row], newName)
    ensures Consistent(d) ==> Consistent(AfterRename(d, row, newName, true, false))
  {
    var r := AfterRename(d, row, newName, true, false);
    if Consistent(d) {
      forall i | 0 <= i < |r.files| ensures r.files[i] in r.folder {
        if i != row {
          assert r.files[i] == d.files[i] != d.files[row];
        }
      }
      forall i, j | 0 <= i < j < |r.files| ensures r.files[i] != r.files[j] {
        if i == row {
          assert r.files[j] == d.files[j];
        } else if j == row {
          assert r.files[i] == d.files[i];
        }
      }
    }
  }

  /** Undoing a deletion right after it gives back the list, the folder and
      the stack. The text is not given back: the removed tags stay removed. */
  lemma DeleteThenUndo(d: Dialog, row: nat)
    requires row < |d.files| && d.files[row] in d.folder
    ensures AfterUndo(AfterDelete(d, row, false), false) == d.(text := RemoveSrcTags(d.text, d.files[row]))
  {
    var name := d.files[row];
    var r := AfterDelete(d, row, false);
    var u := AfterUndo(r, false);
    assert r.stack[..|r.stack| - 1] == d.stack;
    InsertRemove(d.files, row);
    assert u.folder == d.folder;
  }

  /** Undoing a rename right after it gives back the list, the folder and
      the stack, provided no unlisted file already had the new name. In
      the text the new name is replaced by the old one. */
  lemma RenameThenUndo(d: Dialog, row: nat, newName: string)
    requires row < |d.files| && d.files[row] in d.folder
    requires newName != [] && newName != d.files[row] && newName !in d.files
    requires newName !in d.folder
    ensures AfterUndo(AfterRename(d, row, newName, true, false), false)
      == d.(text := Replace(Replace(d.text, d.files[row], newName), newName, d.files[row]))
  {
    var oldName := d.files[row];
    var r := AfterRename(d, row, newName, true, false);
    var u := AfterUndo(r, false);
    assert r.stack[..|r.stack| - 1] == d.stack;
    assert u.files == d.files;
    assert u.folder == d.folder;
  }

  /** Renaming onto the name of an unlisted file overwrites it, and undoing
      the rename does not bring it back. */
  lemma RenameUndoLosesOverwritten(d: Dialog, row: nat, newName: string)
    requires row < |d.files| && d.files[row] in d.folder
    requires newName != [] && newName != d.files[row] && newName !in d.files
    requires newName in d.folder
    ensures newName !in AfterUndo(AfterRename(d, row, newName, true, false), false).folder
  {
    var r := AfterRename(d, row, newName, true, false);
    assert r.stack[|r.stack| - 1] == Renamed(d.files[row], newName, row);
  }

  /** The text is not always given back by undoing a rename: renaming `b`
      to `aa` turns `ab` into `aaa`, and replacing `aa` by `b` again gives
      `ba`. */
  lemma RenameUndoTextDiffers()
    ensures var d := Dialog(map["b" := []], ["b"], [], "ab");
      AfterUndo(AfterRename(d, 0, "aa", true, false), false).text == "ba"
  {
    var d := Dialog(map["b" := []], ["b"], [], "ab");
    var r := AfterRename(d, 0, "aa", true, false);
    assert d.files[0] == "b" && "aa" != "b" && "aa" !in d.files && "b" in d.folder;
    assert r.text == Replace("ab", "b", "aa");
    assert r.text == "aaa" by {
      assert StartsWith("b", "b");
      assert !StartsWith("ab", "b");
      assert "ab"[1..] == "b";
      assert "b"[1..] == [];
      assert Replace("b", "b", "aa") == "aa" + Replace([], "b", "aa");
      assert Replace("ab", "b", "aa") == ['a'] + Replace("b", "b", "aa");
    }
    assert r.stack == [Renamed("b", "aa", 0)];
    assert StartsWith("aaa", "aa");
    assert "aaa"[2..] == "a";
    assert !StartsWith("a", "aa");
    assert "a"[1..] == [];
  }

  /** When removing the file fails, the record is pushed all the same and
      nothing else changes; undoing it then inserts the name a second time. */
  lemma FailedDeleteThenUndo(d: Dialog, row: nat)
    requires row < |d.files| && d.files[row] in d.folder
    ensures var r := AfterDelete(d, row, true);
      r.files == d.files && r.folder == d.folder && r.text == d.text && |r.stack| == |d.stack| + 1
    ensures var u := AfterUndo(AfterDelete(d, row, true), false);
      |u.files| == |d.files| + 1 && u.files[row] == u.files[row + 1] == d.files[row]
      && u.folder == d.folder && u.stack == d.stack
  {
    var r := AfterDelete(d, row, true);
    assert r.stack[..|r.stack| - 1] == d.stack;
    var u := AfterUndo(r, false);
    assert u.files == d.files[..row] + [d.files[row]] + d.files[row..];
  }

  // ---------------------------------------------------------------------
  // The dialog

  class MediaManager {
    var folder: map<string, Bytes>
    var mediaFiles: seq<string>
    /** The entries the list widget shows. */
    var listing: seq<string>
    var undoStack: seq<Action>
    /** The entry text the dialog edits. */
    var text: string

    function State(): Dialog
      reads this
    {
      Dialog(folder, mediaFiles, undoStack, text)
    }

    /** The list widget shows the current list. */
    predicate Valid()
      reads this
    {
      listing == Listing(mediaFiles)
    }

    constructor(folder: map<string, Bytes>, mediaFiles: seq<string>, text: string)
      ensures Valid() && State() == Dialog(folder, mediaFiles, [], text)
    {
      this.folder := folder;
      this.mediaFiles := mediaFiles;
      this.undoStack := [];
      this.text := text;
      this.listing := Listing(mediaFiles);
    }

    /** `update_media_list`. */
    method UpdateMediaList()
      modifies this
      ensures Valid() && State() == old(State())
    {
      var entries: seq<string> := [];
      var i := 0;
      while i < |mediaFiles|
        invariant 0 <= i <= |mediaFiles| && |entries| == i
        invariant forall j :: 0 <= j < i ==> entries[j] == Entry(j, mediaFiles[j])
      {
        entries := entries + [Entry(i, mediaFiles[i])];
        i := i + 1;
      }
      listing := entries;
    }

    /** `delete_file`: `row` is the list widget's current row, `-1` when
        nothing is selected. */
    method DeleteFile(row: int, fsError: bool)
      requires Valid() && row < |listing|
      modifies this
      ensures Valid() && State() == AfterDelete(old(State()), row, fsError)
    {
      if row < 0 {
        return;
      }
      var name := mediaFiles[row];
      if name in folder {
        var content := folder[name];
        undoStack := undoStack + [Deleted(name, row, content)];
        if !fsError {
          folder := folder - {name};
          mediaFiles := RemoveAt(mediaFiles, row);
          UpdateMediaList();
          text := RemoveSrcTags(text, name);
        }
      }
    }

    /** `rename_file`, with the input dialog's answer as `newName` and `ok`. */
    method RenameFile(row: int, newName: string, ok: bool, fsError: bool)
      requires Valid() && row < |listing|
      modifies this
      ensures Valid() && State() == AfterRename(old(State()), row, newName, ok, fsError)
    {
      if row < 0 {
        return;
      }
      var oldName := mediaFiles[row];
      if !ok || newName == [] || newName == oldName {
        return;
      }
      if newName in mediaFiles {
        return;
      }
      if oldName in folder {
        undoStack := undoStack + [Renamed(oldName, newName, row)];
        if !fsError {
          folder := (folder - {oldName})[newName := folder[oldName]];
          mediaFiles := mediaFiles[row := newName];
          UpdateMediaList();
          text := Replace(text, oldName, newName);
        }
      }
    }

    /** `undo_last_action`. */
    method UndoLastAction(fsError: bool)
      requires Valid()
      modifies this
      ensures Valid() && State() == AfterUndo(old(State()), fsError)
    {
      if undoStack == [] {
        return;
      }
      var action := undoStack[|undoStack| - 1];
      undoStack := undoStack[..|undoStack| - 1];
      match action
      case Deleted(name, position, content) =>
        if !fsError {
          folder := folder[name := content];
          mediaFiles := InsertAt(mediaFiles, position, name);
          UpdateMediaList();
        }
      case Renamed(oldName, newName, position) =>
        if !fsError && newName in folder {
          folder := (folder - {newName})[oldName := folder[newName]];
          if position < |mediaFiles| {
            mediaFiles := mediaFiles[position := oldName];
            UpdateMediaList();
            text := Replace(text, newName, oldName);
          }
        }
    }
  }
}
