/** The HTML transforms of the card export: the answer side without the
    question, script removal and script scoping, data URLs for media
    files, and the rewriting of media references into data URLs. The media
    folder is a map from file name to contents; the UTF-8 decoder used for
    percent-decoding is a parameter. */
module Export {
  import opened Strings
  import opened Regex
  import Base64
  import Url

  // ---------------------------------------------------------------------
  // get_pure_back_content

  /** Length of `<hr id=answer>` at the start of `s`, the value optionally
      opened and closed by a quote (`<hr id=[\'"]?answer[\'"]?>`). */
  function MarkerLength(s: string): (r: Option<nat>)
    ensures r.Some? ==> 14 <= r.value <= |s| && s[0] == '<'
  {
    if !StartsWith(s, "<hr id=") then None
    else
      var a := if 7 < |s| && IsQuote(s[7]) then 8 else 7;
      if !OccursAt(s, "answer", a) then None
      else
        var b := if a + 6 < |s| && IsQuote(s[a + 6]) then a + 7 else a + 6;
        if b < |s| && s[b] == '>' then
          assert s[0] == s[..7][0];
          Some(b + 1)
        else None
  }

  /** The first position at or after `i` where the marker starts. */
  function FirstMarker(s: string, i: nat): (r: Option<nat>)
    requires i <= |s|
    ensures r.Some? ==> i <= r.value < |s| && MarkerLength(s[r.value..]).Some?
    ensures forall k :: i <= k < |s| && (r.None? || k < r.value) ==> MarkerLength(s[k..]).None?
    decreases |s| - i
  {
    if i == |s| then None
    else if MarkerLength(s[i..]).Some? then Some(i)
    else FirstMarker(s, i + 1)
  }

  /** `re.split(marker, answer, maxsplit=1)`: the text after the first
      marker, or the whole answer when there is none. */
  function PureBackContent(answer: string): string {
    match FirstMarker(answer, 0)
    case None => answer
    case Some(i) => answer[i + MarkerLength(answer[i..]).value..]
  }

  /** `s` is `""`, `'` or `"`. */
  predicate OptionalQuote(q: string) {
    q == [] || (|q| == 1 && IsQuote(q[0]))
  }

  /** After a front that holds no `<`, each form of the marker is cut away
      with everything before it. */
  lemma BackAfterMarker(front: string, q1: string, q2: string, back: string)
    requires '<' !in front && OptionalQuote(q1) && OptionalQuote(q2)
    ensures PureBackContent(front + "<hr id=" + q1 + "answer" + q2 + ">" + back) == back
  {
    var marker := "<hr id=" + q1 + "answer" + q2 + ">";
    var s := front + "<hr id=" + q1 + "answer" + q2 + ">" + back;
    assert s == front + (marker + back);
    MarkerAtStart(q1, q2, back);
    assert s[|front|..] == marker + back;
    forall k | 0 <= k < |front| ensures MarkerLength(s[k..]).None? {
      assert s[k..][0] == front[k];
    }
    var r := FirstMarker(s, 0);
    assert r == Some(|front|);
    assert s[|front| + |marker|..] == back;
  }

  lemma MarkerAtStart(q1: string, q2: string, back: string)
    requires OptionalQuote(q1) && OptionalQuote(q2)
    ensures MarkerLength("<hr id=" + q1 + "answer" + q2 + ">" + back) == Some(14 + |q1| + |q2|)
  {
    var t := "<hr id=" + q1 + "answer" + q2 + ">" + back;
    assert t[..7] == "<hr id=";
    var a := 7 + |q1|;
    assert t[a..a + 6] == "answer";
    assert t[a + 6 + |q2|] == '>';
  }

  /** An answer without the marker's opening is returned whole. */
  lemma BackWithoutMarker(answer: string)
    requires !Contains(answer, "<hr id=")
    ensures PureBackContent(answer) == answer
  {
    var r := FirstMarker(answer, 0);
    if r.Some? {
      var i := r.value;
      assert answer[i..][..7] == answer[i..i + 7];
      ContainsAt(answer, "<hr id=", i);
    }
  }

  // ---------------------------------------------------------------------
  // process_card_html_remove_js and process_card_html_isolate_js

  /** The first occurrence of `p` at or after `i`. */
  function Find(s: string, p: string, i: nat): (r: Option<nat>)
    requires i <= |s|
    ensures r.Some? ==> i <= r.value && OccursAt(s, p, r.value)
    ensures forall k :: i <= k <= |s| && (r.None? || k < r.value) ==> !OccursAt(s, p, k)
    decreases |s| - i
  {
    if OccursAt(s, p, i) then Some(i)
    else if i == |s| then None
    else Find(s, p, i + 1)
  }

  const ScriptOpen := "<script>"
  const ScriptClose := "</script>"

  /** Length of `<script>.*?</script>` (dot matching newlines) at the start
      of `s`: up to the first closing tag after the opening one. */
  function ScriptSpan(s: string): (r: Option<nat>)
    ensures r.Some? ==> 17 <= r.value <= |s| && StartsWith(s, ScriptOpen)
  {
    if !StartsWith(s, ScriptOpen) then None
    else
      match Find(s, ScriptClose, 8)
      case None => None
      case Some(j) => Some(j + 9)
  }

  /** `<script>.*?</script>` with the block replaced by `f` of its body. */
  function BlockMatcher(f: string -> string): Matcher {
    s => if ScriptSpan(s).Some? then Some(Match(ScriptSpan(s).value, f(s[8..ScriptSpan(s).value - 9]))) else None
  }

  function ScriptRemover(): Matcher {
    BlockMatcher(Dropped)
  }

  /** The removal's replacement: nothing. */
  function Dropped(body: string): string {
    []
  }

  /** `process_card_html_remove_js`. */
  function RemoveJs(html: string): string {
    if html == [] then [] else Substitute(html, ScriptRemover())
  }

  /** Every match of a script matcher starts with the opening tag. */
  lemma BlockMatchesOpen(f: string -> string)
    ensures forall t :: MatchesAtStart(t, BlockMatcher(f)) ==> StartsWith(t, ScriptOpen) && t[0] == '<'
  {
    forall t | MatchesAtStart(t, BlockMatcher(f)) ensures StartsWith(t, ScriptOpen) && t[0] == '<' {
      assert t[..8][0] == t[0];
    }
  }

  /** Input without an opening `<script>` comes back unchanged. */
  lemma RemoveJsNoScript(html: string)
    requires !Contains(html, ScriptOpen)
    ensures RemoveJs(html) == html
  {
    BlockMatchesOpen(Dropped);
    SubstituteAbsent(html, ScriptRemover(), ScriptOpen);
  }

  /** The first occurrence found is the one no earlier occurrence precedes. */
  lemma FindIs(s: string, p: string, i: nat, c: nat)
    requires i <= c <= |s| && OccursAt(s, p, c)
    requires forall k :: i <= k < c ==> !OccursAt(s, p, k)
    ensures Find(s, p, i) == Some(c)
  {
  }

  /** The closing tag has no border: no proper suffix of it is a prefix. */
  lemma CloseNoOverlap(s: string, k: nat, c: nat)
    requires k < c < k + 9 && OccursAt(s, ScriptClose, c)
    ensures !OccursAt(s, ScriptClose, k)
  {
    if OccursAt(s, ScriptClose, k) {
      NoSelfOverlap(s, ScriptClose, k, c);
    }
  }

  /** The closing tag after a body that does not hold it is the first one. */
  lemma CloseFound(body: string, post: string)
    requires !Contains(body, ScriptClose)
    ensures Find(ScriptOpen + body + ScriptClose + post, ScriptClose, 8) == Some(8 + |body|)
  {
    var s := ScriptOpen + body + ScriptClose + post;
    var c := 8 + |body|;
    assert s[c..c + 9] == ScriptClose;
    forall k | 8 <= k < c ensures !OccursAt(s, ScriptClose, k) {
      if k + 9 <= c {
        if OccursAt(s, ScriptClose, k) {
          assert body[k - 8..k + 1] == s[k..k + 9];
          ContainsAt(body, ScriptClose, k - 8);
        }
      } else {
        CloseNoOverlap(s, k, c);
      }
    }
    FindIs(s, ScriptClose, 8, c);
  }

  /** A script block at the start of the text: its length, body and rest. */
  lemma BlockAtStart(body: string, post: string)
    requires !Contains(body, ScriptClose)
    ensures ScriptSpan(ScriptOpen + body + ScriptClose + post) == Some(17 + |body|)
  {
    var b := ScriptOpen + body + ScriptClose + post;
    CloseFound(body, post);
    assert b[..8] == ScriptOpen;
  }

  lemma BlockParts(body: string, post: string)
    ensures var b := ScriptOpen + body + ScriptClose + post;
      |b| == 17 + |body| + |post| && b[8..8 + |body|] == body && b[17 + |body|..] == post
  {
  }

  /** One step of the substitution: a matched block at the start is
      replaced by `f` of its body. */
  lemma BlockStep(t: string, n: nat, f: string -> string)
    requires ScriptSpan(t) == Some(n)
    ensures Substitute(t, BlockMatcher(f)) == f(t[8..n - 9]) + Substitute(t[n..], BlockMatcher(f))
  {
    SubstituteStep(t, BlockMatcher(f), n, f(t[8..n - 9]));
  }

  lemma ConcatAssoc<T>(a: seq<T>, b: seq<T>, c: seq<T>, d: seq<T>, e: seq<T>)
    ensures a + b + c + d + e == a + (b + c + d + e)
  {
  }

  /** A script block is replaced by `f` of its body, text before it
      without `<` is kept, and the substitution goes on after it. */
  lemma BlockReplaced(pre: string, body: string, post: string, f: string -> string)
    requires '<' !in pre && !Contains(body, ScriptClose)
    ensures Substitute(pre + ScriptOpen + body + ScriptClose + post, BlockMatcher(f))
      == pre + f(body) + Substitute(post, BlockMatcher(f))
  {
    var block := ScriptOpen + body + ScriptClose + post;
    BlockAtStart(body, post);
    BlockParts(body, post);
    BlockStep(block, 17 + |body|, f);
    BlockMatchesOpen(f);
    SubstituteSkip(pre, block, BlockMatcher(f), '<');
    ConcatAssoc(pre, ScriptOpen, body, ScriptClose, post);
  }

  /** A script block is removed whole, text before it without `<` is kept,
      and removal goes on after it. */
  lemma ScriptBlockRemoved(pre: string, body: string, post: string)
    requires '<' !in pre && !Contains(body, ScriptClose)
    ensures RemoveJs(pre + ScriptOpen + body + ScriptClose + post)
      == pre + Substitute(post, ScriptRemover())
  {
    BlockReplaced(pre, body, post, Dropped);
    assert pre + Dropped(body) == pre;
  }

  /** Length of `[[type:...]]` at the start of `s` (`\[\[type:[^]]+\]\]`). */
  function TypeMarkerLength(s: string): (r: Option<nat>)
    ensures r.Some? ==> 10 <= r.value <= |s| && StartsWith(s, "[[type:")
  {
    if !StartsWith(s, "[[type:") then None
    else
      var e := IndexFrom(s, ']', 7);
      if e > 7 && e + 1 < |s| && s[e + 1] == ']' then Some(e + 2) else None
  }

  function TypeMarkerRemover(): Matcher {
    s => if TypeMarkerLength(s).Some? then Some(Match(TypeMarkerLength(s).value, "")) else None
  }

  /** A `[[type:...]]` marker is removed, text before it without `[` is
      kept, and removal goes on after it. */
  lemma TypeMarkerRemoved(pre: string, inner: string, post: string)
    requires '[' !in pre && inner != [] && ']' !in inner
    ensures Substitute(pre + "[[type:" + inner + "]]" + post, TypeMarkerRemover())
      == pre + Substitute(post, TypeMarkerRemover())
  {
    var block := "[[type:" + inner + "]]" + post;
    TypeMarkerAtStart(inner, post);
    TypeMarkerStep(block, 9 + |inner|);
    TypeMarkerStarts();
    SubstituteSkip(pre, block, TypeMarkerRemover(), '[');
    ConcatAssoc(pre, "[[type:", inner, "]]", post);
  }

  lemma TypeMarkerAtStart(inner: string, post: string)
    requires inner != [] && ']' !in inner
    ensures var b := "[[type:" + inner + "]]" + post;
      TypeMarkerLength(b) == Some(9 + |inner|) && b[9 + |inner|..] == post
  {
    var b := "[[type:" + inner + "]]" + post;
    assert b[..7] == "[[type:";
    var e := 7 + |inner|;
    forall j | 7 <= j < e ensures b[j] != ']' {
      assert b[j] == inner[j - 7];
    }
    IndexFromIs(b, ']', 7, e);
  }

  lemma TypeMarkerStep(t: string, n: nat)
    requires TypeMarkerLength(t) == Some(n)
    ensures Substitute(t, TypeMarkerRemover()) == Substitute(t[n..], TypeMarkerRemover())
  {
    SubstituteStep(t, TypeMarkerRemover(), n, []);
  }

  lemma TypeMarkerStarts()
    ensures forall t :: MatchesAtStart(t, TypeMarkerRemover()) ==> t[0] == '['
  {
    forall t | MatchesAtStart(t, TypeMarkerRemover()) ensures t[0] == '[' {
      assert t[..7][0] == t[0];
    }
  }

  lemma IndexFromIs(s: string, c: char, i: nat, e: nat)
    requires i <= e < |s| && s[e] == c && forall j :: i <= j < e ==> s[j] != c
    ensures IndexFrom(s, c, i) == e
  {
  }

  lemma QuoteFromIs(s: string, i: nat, e: nat)
    requires i <= e < |s| && IsQuote(s[e]) && forall j :: i <= j < e ==> !IsQuote(s[j])
    ensures QuoteFrom(s, i) == e
  {
  }

  const GetByIdCall := "document.getElementById("

  /** `document\.getElementById\((['"])([^'"]+)\1\)` at the start of `s`,
      replaced by `cardElement.querySelector('#id')`. */
  function GetByIdMatch(s: string): Option<Match> {
    if !(StartsWith(s, GetByIdCall) && 24 < |s| && IsQuote(s[24])) then None
    else
      var e := QuoteFrom(s, 25);
      if e > 25 && e + 1 < |s| && s[e] == s[24] && s[e + 1] == ')' then
        Some(Match(e + 2, "cardElement.querySelector('#" + s[25..e] + "')"))
      else None
  }

  /** The first quote at or after `i`, or `|s|`. */
  function QuoteFrom(s: string, i: nat): (r: nat)
    requires i <= |s|
    ensures i <= r <= |s| && (r < |s| ==> IsQuote(s[r]))
    ensures forall j :: i <= j < r ==> !IsQuote(s[j])
    decreases |s| - i
  {
    if i == |s| || IsQuote(s[i]) then i else QuoteFrom(s, i + 1)
  }

  function GetByIdRewriter(): Matcher {
    GetByIdMatch
  }

  /** A call with a quoted id becomes a query for `#id`. */
  lemma GetByIdRewritten(q: char, id: string)
    requires IsQuote(q) && id != [] && forall i :: 0 <= i < |id| ==> !IsQuote(id[i])
    ensures Substitute(GetByIdCall + [q] + id + [q] + ")", GetByIdRewriter())
      == "cardElement.querySelector('#" + id + "')"
  {
    var s := GetByIdCall + [q] + id + [q] + ")";
    var r := "cardElement.querySelector('#" + id + "')";
    GetByIdAtStart(q, id);
    SubstituteWhole(s, GetByIdRewriter(), r);
  }

  lemma GetByIdAtStart(q: char, id: string)
    requires IsQuote(q) && id != [] && forall i :: 0 <= i < |id| ==> !IsQuote(id[i])
    ensures var s := GetByIdCall + [q] + id + [q] + ")";
      s != [] && GetByIdRewriter()(s) == Some(Match(|s|, "cardElement.querySelector('#" + id + "')"))
  {
    var s := GetByIdCall + [q] + id + [q] + ")";
    assert s[..24] == GetByIdCall;
    var e := 25 + |id|;
    forall j | 25 <= j < e ensures !IsQuote(s[j]) {
      assert s[j] == id[j - 25];
    }
    QuoteFromIs(s, 25, e);
    assert s[25..e] == id;
  }

  /** `window\.(addEventListener|ankiDidShowQuestion|ankiDidShowAnswer)\s*=\s*function\(\)[\s\S]*?};?`
      at the start of `s`: the assignment up to the first `}` and an
      optional `;`. */
  function HandlerLength(s: string): Option<nat> {
    if !StartsWith(s, "window.") then None
    else
      var h := HandlerNameLength(s);
      if h == 0 then None
      else
        var j := SkipSpace(s, 7 + h);
        if !(j < |s| && s[j] == '=') then None
        else
          var k := SkipSpace(s, j + 1);
          if !OccursAt(s, "function()", k) then None
          else
            var e := IndexFrom(s, '}', k + 10);
            if e == |s| then None
            else if e + 1 < |s| && s[e + 1] == ';' then Some(e + 2)
            else Some(e + 1)
  }

  /** Length of the handler name at position 7, or 0. */
  function HandlerNameLength(s: string): nat {
    if OccursAt(s, "addEventListener", 7) then 16
    else if OccursAt(s, "ankiDidShowQuestion", 7) then 19
    else if OccursAt(s, "ankiDidShowAnswer", 7) then 17
    else 0
  }

  /** Each of the three names is recognised as itself. */
  lemma HandlerNameFound(s: string, name: string)
    requires name in {"addEventListener", "ankiDidShowQuestion", "ankiDidShowAnswer"}
    requires OccursAt(s, name, 7)
    ensures HandlerNameLength(s) == |name|
  {
    assert s[7..7 + |name|] == name;
    if name != "addEventListener" {
      assert s[8] == name[1] == 'n';
      if name == "ankiDidShowAnswer" {
        assert s[18] == 'A';
      }
    }
  }

  function HandlerRemover(): Matcher {
    s => if HandlerLength(s).Some? && 1 <= HandlerLength(s).value then Some(Match(HandlerLength(s).value, "")) else None
  }

  /** A handler assignment whose body holds no `}` is removed with its
      closing `};`. */
  lemma HandlerRemoved(name: string, body: string)
    requires name in {"addEventListener", "ankiDidShowQuestion", "ankiDidShowAnswer"}
    requires '}' !in body
    ensures Substitute("window." + name + "=function(){" + body + "};", HandlerRemover()) == []
  {
    var s := "window." + name + "=function(){" + body + "};";
    HandlerAtStart(name, body);
    SubstituteWhole(s, HandlerRemover(), []);
  }

  lemma HandlerAtStart(name: string, body: string)
    requires name in {"addEventListener", "ankiDidShowQuestion", "ankiDidShowAnswer"}
    requires '}' !in body
    ensures var s := "window." + name + "=function(){" + body + "};";
      HandlerLength(s) == Some(|s|)
  {
    var s := "window." + name + "=function(){" + body + "};";
    var h := |name|;
    HandlerParts(name, body);
    HandlerNameFound(s, name);
    assert SkipSpace(s, 7 + h) == 7 + h;
    assert SkipSpace(s, 8 + h) == 8 + h;
    HandlerBodyEnd(name, body);
  }

  lemma HandlerParts(name: string, body: string)
    ensures var s := "window." + name + "=function(){" + body + "};"; var h := |name|;
      |s| == 21 + h + |body| && s[..7] == "window." && s[7..7 + h] == name && s[7 + h] == '='
      && s[8 + h..18 + h] == "function()" && s[|s| - 1] == ';'
  {
  }

  lemma HandlerBodyEnd(name: string, body: string)
    requires '}' !in body
    ensures var s := "window." + name + "=function(){" + body + "};";
      IndexFrom(s, '}', 18 + |name|) == |s| - 2
  {
    var s := "window." + name + "=function(){" + body + "};";
    var h := |name|;
    var e := 19 + h + |body|;
    forall j | 18 + h <= j < e ensures s[j] != '}' {
      if j > 18 + h {
        assert s[j] == body[j - 19 - h];
      }
    }
    IndexFromIs(s, '}', 18 + h, e);
  }

  /** `scope_script_tag` on a script body: `document.querySelector(All)`
      becomes `cardElement.querySelector(All)`, `getElementById` calls
      become `#id` queries and the handler assignments are dropped. */
  function Scope(body: string): string {
    var selectors := Replace(Replace(body, "document.querySelectorAll", "cardElement.querySelectorAll"),
                             "document.querySelector", "cardElement.querySelector");
    Substitute(Substitute(selectors, GetByIdRewriter()), HandlerRemover())
  }

  /** The scoped script: the body runs inside a function that finds the
      enclosing `.card-item` and catches errors. */
  function Wrap(body: string): string {
    "<script>(function(){const cardElement=document.currentScript.closest('.card-item');if(!cardElement)return;try{"
      + body + "}catch(e){console.error('Error in scoped script for card:',cardElement.id,e);}})();</script>"
  }

  function ScriptScoper(): Matcher {
    BlockMatcher(ScopeBlock)
  }

  /** The replacement for one script block. */
  function ScopeBlock(body: string): string {
    Wrap(Scope(body))
  }

  /** `process_card_html_isolate_js`: markers removed first, then each
      script wrapped. */
  function IsolateJs(html: string): string {
    if html == [] then [] else Substitute(Substitute(html, TypeMarkerRemover()), ScriptScoper())
  }

  /** Input with neither a marker nor an opening `<script>` comes back
      unchanged. */
  lemma IsolateJsPlain(html: string)
    requires !Contains(html, "[[type:") && !Contains(html, ScriptOpen)
    ensures IsolateJs(html) == html
  {
    forall t | MatchesAtStart(t, TypeMarkerRemover()) ensures StartsWith(t, "[[type:") {
    }
    SubstituteAbsent(html, TypeMarkerRemover(), "[[type:");
    BlockMatchesOpen(ScopeBlock);
    SubstituteAbsent(html, ScriptScoper(), ScriptOpen);
  }

  /** A script block is replaced by its wrapped, scoped body; text before it
      without `<` is kept and scoping goes on after it. */
  lemma ScriptScoped(pre: string, body: string, post: string)
    requires '<' !in pre && !Contains(body, ScriptClose)
    ensures Substitute(pre + ScriptOpen + body + ScriptClose + post, ScriptScoper())
      == pre + ScopeBlock(body) + Substitute(post, ScriptScoper())
  {
    BlockReplaced(pre, body, post, ScopeBlock);
  }

  // ---------------------------------------------------------------------
  // media_to_data_url

  /** The MIME table, by lower-cased extension. */
  function MimeOf(ext: string): string {
    if ext == ".jpg" || ext == ".jpeg" then "image/jpeg"
    else if ext == ".png" then "image/png"
    else if ext == ".gif" then "image/gif"
    else if ext == ".svg" then "image/svg+xml"
    else "application/octet-stream"
  }

  function DataUrl(mime: string, content: Bytes): string {
    "data:" + mime + ";base64," + Base64.Encode(content)
  }

  type Bytes = seq<byte>

  /** `media_to_data_url`: `None` for an empty name, an unknown media folder
      or a missing file. */
  function MediaToDataUrl(filename: string, mediaDir: string, folder: map<string, Bytes>,
                          utf8: seq<byte> -> string): (r: Option<string>)
    ensures r.Some? <==> filename != [] && mediaDir != [] && Url.Unquote(filename, utf8) in folder
  {
    if filename == [] then None
    else
      var decoded := Url.Unquote(filename, utf8);
      if mediaDir == [] then None
      else if decoded !in folder then None
      else Some(DataUrl(MimeOf(Lower(SplitExt(decoded).1)), folder[decoded]))
  }

  /** The data URL starts with `data:`, names the type and carries the file
      contents: decoding its payload gives them back. */
  lemma DataUrlPayload(mime: string, content: Bytes)
    ensures var u := DataUrl(mime, content);
      StartsWith(u, "data:") && u[5..5 + |mime|] == mime && u[5 + |mime|..13 + |mime|] == ";base64,"
      && Base64.Decode(u[13 + |mime|..]) == Some(content)
  {
    var u := DataUrl(mime, content);
    assert u[..5] == "data:";
    assert u[13 + |mime|..] == Base64.Encode(content);
    Base64.DecodeEncode(content);
  }

  /** A percent-encoded file name is looked up under the name the decoder
      gives for its bytes. */
  lemma EncodedNameLookedUp(bs: Bytes, mediaDir: string, folder: map<string, Bytes>, utf8: seq<byte> -> string)
    requires bs != [] && mediaDir != []
    ensures MediaToDataUrl(Url.Quote(bs), mediaDir, folder, utf8).Some? <==> utf8(bs) in folder
  {
    Url.UnquoteQuote(bs, utf8);
  }

  /** Neither a quote nor a parenthesis. */
  predicate PlainChar(c: char) {
    c != '"' && c != '\'' && c != '(' && c != ')'
  }

  predicate Plain(s: string) {
    forall i :: 0 <= i < |s| ==> PlainChar(s[i])
  }

  /** A data URL holds no quote and no parenthesis, so the rewritten
      reference keeps its delimiters (see `QuotedReferenceEmbedded`). */
  lemma DataUrlPlain(ext: string, content: Bytes)
    ensures var u := DataUrl(MimeOf(ext), content);
      '"' !in u && '\'' !in u && '(' !in u && ')' !in u
  {
    var e := Base64.Encode(content);
    PayloadPlain(content);
    MimePlain(ext);
    var m := MimeOf(ext);
    var u := DataUrl(m, content);
    assert Plain("data:") && Plain(";base64,");
    assert Plain(u) by {
      forall i | 0 <= i < |u| ensures PlainChar(u[i]) {
        if i < 5 { assert u[i] == "data:"[i]; }
        else if i < 5 + |m| { assert u[i] == m[i - 5]; }
        else if i < 13 + |m| { assert u[i] == ";base64,"[i - 5 - |m|]; }
        else { assert u[i] == e[i - 13 - |m|]; }
      }
    }
    assert forall i :: 0 <= i < |u| ==> PlainChar(u[i]);
  }

  lemma MimePlain(ext: string)
    ensures Plain(MimeOf(ext))
  {
    var m := MimeOf(ext);
    forall i | 0 <= i < |m| ensures PlainChar(m[i]) {
      assert 'a' <= m[i] <= 'z' || m[i] == '/' || m[i] == '+' || m[i] == '-';
    }
  }

  lemma PayloadPlain(content: Bytes)
    ensures Plain(Base64.Encode(content))
  {
    Base64.EncodeChars(content);
  }

  // ---------------------------------------------------------------------
  // find_and_embed_media

  /** `c` matches the pattern letter `l` under `re.IGNORECASE`: its ASCII
      lower case, and the long s `ſ`, which Python folds to `s`. */
  predicate FoldsTo(c: char, l: char) {
    LowerChar(c) == l || (l == 's' && c == 'ſ')
  }

  predicate WordAt(s: string, i: nat, w: string) {
    i + |w| <= |s| && forall k :: 0 <= k < |w| ==> FoldsTo(s[i + k], w[k])
  }

  /** `src\s*=\s*["']([^"']+)["']` at `i`: the match's end and the name. */
  function SrcRef(s: string, i: nat): (r: Option<(nat, string)>)
    requires i <= |s|
    ensures r.Some? ==> i < r.value.0 <= |s|
  {
    if !WordAt(s, i, "src") then None
    else
      var j := SkipSpace(s, i + 3);
      if !(j < |s| && s[j] == '=') then None
      else
        var k := SkipSpace(s, j + 1);
        if !(k < |s| && IsQuote(s[k])) then None
        else
          var e := QuoteFrom(s, k + 1);
          if e > k + 1 && e < |s| then Some((e + 1, s[k + 1..e])) else None
  }

  /** The first quote or `)` at or after `i`, or `|s|`. */
  function UrlNameEnd(s: string, i: nat): (r: nat)
    requires i <= |s|
    ensures i <= r <= |s| && (r < |s| ==> IsQuote(s[r]) || s[r] == ')')
    ensures forall j :: i <= j < r ==> !IsQuote(s[j]) && s[j] != ')'
    decreases |s| - i
  {
    if i == |s| || IsQuote(s[i]) || s[i] == ')' then i else UrlNameEnd(s, i + 1)
  }

  /** The rest of `url(...)` with the optional quote tried at `t`:
      `["']?([^"')]+)["']?\s*\)`. */
  function UrlFrom(s: string, t: nat): (r: Option<(nat, string)>)
    requires t <= |s|
    ensures r.Some? ==> t < r.value.0 <= |s|
  {
    var g := if t < |s| && IsQuote(s[t]) then t + 1 else t;
    var e := UrlNameEnd(s, g);
    if e == g || e == |s| then None
    else if s[e] == ')' then Some((e + 1, s[g..e]))
    else
      var f := SkipSpace(s, e + 1);
      if f < |s| && s[f] == ')' then Some((f + 1, s[g..e])) else None
  }

  /** The `\s*` after `(` gives back one character at a time, from the
      longest run down to none, until the rest matches. */
  function UrlBacktrack(s: string, p: nat, t: nat): (r: Option<(nat, string)>)
    requires p <= t <= |s|
    ensures r.Some? ==> p < r.value.0 <= |s|
    decreases t - p
  {
    var here := UrlFrom(s, t);
    if here.Some? then here
    else if t == p then None
    else UrlBacktrack(s, p, t - 1)
  }

  /** `url\s*\(\s*["']?([^"')]+)["']?\s*\)` at `i`. */
  function UrlRef(s: string, i: nat): (r: Option<(nat, string)>)
    requires i <= |s|
    ensures r.Some? ==> i < r.value.0 <= |s|
  {
    if !WordAt(s, i, "url") then None
    else
      var j := SkipSpace(s, i + 3);
      if !(j < |s| && s[j] == '(') then None
      else UrlBacktrack(s, j + 1, SkipSpace(s, j + 1))
  }

  /** One alternative or the other at `i`, the `src` one first. */
  function RefAt(s: string, i: nat): (r: Option<(nat, string)>)
    requires i <= |s|
    ensures r.Some? ==> i < r.value.0 <= |s|
  {
    var src := SrcRef(s, i);
    if src.Some? then src else UrlRef(s, i)
  }

  /** `re.findall` of the two alternatives, left to right and without
      overlap: the captured name of each match. */
  function Refs(s: string, i: nat): seq<string>
    requires i <= |s|
    decreases |s| - i
  {
    if i == |s| then []
    else
      match RefAt(s, i)
      case Some((end, name)) => [name] + Refs(s, end)
      case None => Refs(s, i + 1)
  }

  /** `filenames_to_process`: the referenced names, without the remote and
      inline ones. */
  function Candidates(content: string): set<string> {
    set k | 0 <= k < |Refs(content, 0)| && Refs(content, 0)[k] != []
      && !StartsWith(Refs(content, 0)[k], "http") && !StartsWith(Refs(content, 0)[k], "data:")
      :: Refs(content, 0)[k]
  }

  /** Names that start with `http` or `data:` are never processed. */
  lemma RemoteNotProcessed(content: string, name: string)
    requires StartsWith(name, "http") || StartsWith(name, "data:")
    ensures name !in Candidates(content)
  {
  }

  /** `src = "name"` (the attribute in any case) is found. */
  lemma SrcReferenceFound(attr: string, name: string, rest: string)
    requires |attr| == 3 && WordAt(attr, 0, "src")
    requires name != [] && forall i :: 0 <= i < |name| ==> !IsQuote(name[i])
    ensures RefAt(attr + "=\"" + name + "\"" + rest, 0) == Some((|name| + 6, name))
  {
    var s := attr + "=\"" + name + "\"" + rest;
    assert WordAt(s, 0, "src");
    assert SkipSpace(s, 3) == 3;
    assert SkipSpace(s, 4) == 4;
    var e := 5 + |name|;
    forall j | 5 <= j < e ensures !IsQuote(s[j]) {
      assert s[j] == name[j - 5];
    }
    QuoteFromIs(s, 5, e);
    assert s[5..e] == name;
  }

  /** `url(name)` is found when the name starts with no whitespace. */
  lemma UrlReferenceFound(name: string, rest: string)
    requires name != [] && !IsSpace(name[0])
    requires forall i :: 0 <= i < |name| ==> !IsQuote(name[i]) && name[i] != ')'
    ensures RefAt("url(" + name + ")" + rest, 0) == Some((|name| + 5, name))
  {
    var s := "url(" + name + ")" + rest;
    assert s[0] == 'u' && !FoldsTo(s[0], "src"[0]);
    assert WordAt(s, 0, "url");
    assert SkipSpace(s, 3) == 3;
    assert SkipSpace(s, 4) == 4;
    var e := 4 + |name|;
    forall j | 4 <= j < e ensures !IsQuote(s[j]) && s[j] != ')' {
      assert s[j] == name[j - 4];
    }
    assert s[e] == ')';
    assert UrlNameEnd(s, 4) == e;
    assert s[4..e] == name;
    assert UrlFrom(s, 4) == Some((e + 1, name));
  }

  /** In `url( )` the whitespace is given back to the name: the name found
      is a single space. */
  lemma UrlBlankReference()
    ensures RefAt("url( )", 0) == Some((6, " "))
  {
    var s := "url( )";
    assert !FoldsTo(s[0], "src"[0]);
    assert WordAt(s, 0, "url");
    assert SkipSpace(s, 3) == 3;
    assert SkipSpace(s, 5) == 5;
    assert SkipSpace(s, 4) == 5;
    assert UrlNameEnd(s, 5) == 5;
    assert UrlFrom(s, 5) == None;
    assert UrlNameEnd(s, 4) == 5;
    assert s[4..5] == " ";
    assert UrlFrom(s, 4) == Some((6, " "));
  }

  /** The four rewritings of one name: `"name"`, `'name'`, `(name)` and
      `('name')`, in that order. */
  function EmbedOne(content: string, name: string, url: string): string {
    var a := Replace(content, "\"" + name + "\"", "\"" + url + "\"");
    var b := Replace(a, "'" + name + "'", "'" + url + "'");
    var c := Replace(b, "(" + name + ")", "(" + url + ")");
    Replace(c, "('" + name + "')", "('" + url + "')")
  }

  /** A double-quoted reference becomes the quoted data URL. */
  lemma QuotedReferenceEmbedded(name: string, url: string)
    requires '\'' !in url && '(' !in url
    ensures EmbedOne("\"" + name + "\"", name, url) == "\"" + url + "\""
  {
    var t := "\"" + name + "\"";
    var u := "\"" + url + "\"";
    assert Replace(t, t, u) == u by {
      assert StartsWith(t, t) && t[|t|..] == [];
      assert Replace(t, t, u) == u + Replace([], t, u);
    }
    assert '\'' !in u && '(' !in u;
    var sq := "'" + name + "'";
    CharNotContained(u, sq, '\'');
    ReplaceAbsent(u, sq, "'" + url + "'");
    var par := "(" + name + ")";
    CharNotContained(u, par, '(');
    ReplaceAbsent(u, par, "(" + url + ")");
    var both := "('" + name + "')";
    CharNotContained(u, both, '(');
    ReplaceAbsent(u, both, "('" + url + "')");
  }

  /** A name that is neither quoted nor in parentheses is left alone. */
  lemma BareNameKept(name: string, url: string)
    ensures EmbedOne(name, name, url) == name
  {
    LongerNotContained(name, "\"" + name + "\"");
    ReplaceAbsent(name, "\"" + name + "\"", "\"" + url + "\"");
    LongerNotContained(name, "'" + name + "'");
    ReplaceAbsent(name, "'" + name + "'", "'" + url + "'");
    LongerNotContained(name, "(" + name + ")");
    ReplaceAbsent(name, "(" + name + ")", "(" + url + ")");
    LongerNotContained(name, "('" + name + "')");
    ReplaceAbsent(name, "('" + name + "')", "('" + url + "')");
  }

  /** The loop over the names, in the order the set yields them. */
  function EmbedAll(content: string, names: seq<string>, mediaDir: string, folder: map<string, Bytes>,
                    utf8: seq<byte> -> string): string
  {
    if names == [] then content
    else
      var before := EmbedAll(content, names[..|names| - 1], mediaDir, folder, utf8);
      var name := names[|names| - 1];
      var url := MediaToDataUrl(name, mediaDir, folder, utf8);
      if url.Some? && url.value != [] then EmbedOne(before, name, url.value) else before
  }

  /** Names without a data URL leave the content as it is. */
  lemma {:induction false} EmbedAllUnavailable(content: string, names: seq<string>, mediaDir: string,
                                               folder: map<string, Bytes>, utf8: seq<byte> -> string)
    requires forall k :: 0 <= k < |names| ==> MediaToDataUrl(names[k], mediaDir, folder, utf8).None?
    ensures EmbedAll(content, names, mediaDir, folder, utf8) == content
  {
    if names != [] {
      var init := names[..|names| - 1];
      assert forall k :: 0 <= k < |init| ==> init[k] == names[k];
      EmbedAllUnavailable(content, init, mediaDir, folder, utf8);
      assert MediaToDataUrl(names[|names| - 1], mediaDir, folder, utf8).None?;
    }
  }

  /** `find_and_embed_media`. The set of names is walked in `order`, which
      lists it once each: Python's set iteration order is not specified. */
  method FindAndEmbedMedia(content: string, order: seq<string>, mediaDir: string,
                           folder: map<string, Bytes>, utf8: seq<byte> -> string) returns (r: string)
    requires forall n :: n in order <==> n in Candidates(content)
    requires forall i, j :: 0 <= i < j < |order| ==> order[i] != order[j]
    ensures content == [] ==> r == []
    ensures content != [] ==> r == EmbedAll(content, order, mediaDir, folder, utf8)
  {
    if content == [] {
      return [];
    }
    r := content;
    var i := 0;
    while i < |order|
      invariant 0 <= i <= |order|
      invariant r == EmbedAll(content, order[..i], mediaDir, folder, utf8)
    {
      var name := order[i];
      var url := MediaToDataUrl(name, mediaDir, folder, utf8);
      assert order[..i + 1][..i] == order[..i];
      if url.Some? && url.value != [] {
        r := EmbedOne(r, name, url.value);
      }
      i := i + 1;
    }
    assert order[..|order|] == order;
  }
}
