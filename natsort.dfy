/** `natural_sort_key`: a line is cut into alternating runs of non-digits
    and ASCII digits (`re.split('([0-9]+)', s)`); digit runs compare as
    numbers and the other runs as lower-cased text, so `"card 9"` sorts
    before `"card 10"`. Python compares the resulting lists element by
    element. `convert` hands every run to `int()`, which also accepts the
    decimal digits of other scripts, so a text run made of those becomes a
    number as well (`NaturalKeyAsWritten`); `NaturalKey` is the key with
    numbers only where the split put them. */
module NaturalSort {
  import opened Strings

  /** One element of the key: `int(run)` or `run.lower()`. */
  datatype Chunk = Num(value: int) | Text(text: string)

  /** End of the run starting at `i` of characters that are digits
      (`digit`) or non-digits (`!digit`). */
  function RunEnd(s: string, i: nat, digit: bool): (j: nat)
    requires i <= |s|
    ensures i <= j <= |s|
    ensures j < |s| ==> IsDigit(s[j]) != digit
    decreases |s| - i
  {
    if i == |s| || IsDigit(s[i]) != digit then i else RunEnd(s, i + 1, digit)
  }

  lemma {:induction false} RunEndSpec(s: string, i: nat, digit: bool)
    requires i <= |s|
    ensures forall k :: i <= k < RunEnd(s, i, digit) ==> IsDigit(s[k]) == digit
    decreases |s| - i
  {
    if i < |s| && IsDigit(s[i]) == digit {
      RunEndSpec(s, i + 1, digit);
    }
  }

  /** `re.split('([0-9]+)', s)`: a text run, then pairs of a digit run and
      a text run; text runs may be empty. */
  function Chunks(s: string): (r: seq<string>)
    ensures |r| % 2 == 1
    decreases |s|
  {
    var j := RunEnd(s, 0, false);
    if j == |s| then [s]
    else
      var k := RunEnd(s, j, true);
      [s[..j], s[j..k]] + Chunks(s[k..])
  }

  /** The value `int()` gives a decimal digit: the ASCII digits and the
      Arabic-Indic (U+0660), Extended Arabic-Indic (U+06F0), Devanagari
      (U+0966) and fullwidth (U+FF10) digits. */
  function DigitOf(c: char): (r: Option<nat>)
    ensures r.Some? ==> r.value < 10
    ensures IsDigit(c) ==> r == Some(DigitValue(c))
  {
    if IsDigit(c) then Some(DigitValue(c))
    else if '\U{0660}' <= c <= '\U{0669}' then Some(c as int - 0x660)
    else if '\U{06F0}' <= c <= '\U{06F9}' then Some(c as int - 0x6F0)
    else if '\U{0966}' <= c <= '\U{096F}' then Some(c as int - 0x966)
    else if '\U{FF10}' <= c <= '\U{FF19}' then Some(c as int - 0xFF10)
    else None
  }

  predicate IsDecimal(c: char) {
    DigitOf(c).Some?
  }

  predicate DecimalsOrUnderscores(s: string) {
    forall i :: 0 <= i < |s| ==> IsDecimal(s[i]) || s[i] == '_'
  }

  /** The digits `int()` reads: decimal digits, each underscore between
      two of them. */
  predicate DigitBody(s: string) {
    s != [] && IsDecimal(s[0]) && DecimalsOrUnderscores(s) &&
    forall i :: 0 <= i < |s| && s[i] == '_' ==> i + 1 < |s| && IsDecimal(s[i + 1])
  }

  /** The number the digits spell, underscores skipped. */
  function BodyValue(s: string): nat
    requires DecimalsOrUnderscores(s)
  {
    if s == [] then 0
    else if s[|s| - 1] == '_' then BodyValue(s[..|s| - 1])
    else BodyValue(s[..|s| - 1]) * 10 + DigitOf(s[|s| - 1]).value
  }

  /** `int(text)`: surrounding whitespace, an optional sign, then the
      digits; `None` where Python raises `ValueError`. */
  function PyInt(text: string): Option<int> {
    var t := Strip(text);
    var signed := t != [] && (t[0] == '+' || t[0] == '-');
    var body := if signed then t[1..] else t;
    if !DigitBody(body) then None
    else if signed && t[0] == '-' then Some(-(BodyValue(body) as int))
    else Some(BodyValue(body))
  }

  /** `convert` as written: `int(run)`, and `run.lower()` where `int`
      raises. */
  function ConvertAsWritten(run: string): Chunk {
    match PyInt(run)
    case Some(v) => Num(v)
    case None => Text(Lower(run))
  }

  function NaturalKeyAsWritten(s: string): (key: seq<Chunk>)
    ensures |key| == |Chunks(s)|
  {
    var runs := Chunks(s);
    seq(|runs|, i requires 0 <= i < |runs| => ConvertAsWritten(runs[i]))
  }

  /** `convert` with numbers only for the digit runs the split isolates. */
  function Convert(run: string): Chunk {
    if run != [] && AllDigits(run) then Num(DecimalValue(run)) else Text(Lower(run))
  }

  function NaturalKey(s: string): (key: seq<Chunk>)
    ensures |key| == |Chunks(s)|
  {
    var runs := Chunks(s);
    seq(|runs|, i requires 0 <= i < |runs| => Convert(runs[i]))
  }

  function Concat(runs: seq<string>): string {
    if runs == [] then [] else runs[0] + Concat(runs[1..])
  }

  /** The runs put back together give the line. */
  lemma {:induction false} ChunksConcat(s: string)
    ensures Concat(Chunks(s)) == s
    decreases |s|
  {
    var j := RunEnd(s, 0, false);
    if j == |s| {
      assert Concat([s]) == s + [];
    } else {
      var k := RunEnd(s, j, true);
      var rest := Chunks(s[k..]);
      ChunksConcat(s[k..]);
      assert Chunks(s) == [s[..j], s[j..k]] + rest;
      ConcatPair(s[..j], s[j..k], rest);
      SplitThree(s, j, k);
    }
  }

  lemma ConcatPair(a: string, b: string, rest: seq<string>)
    ensures Concat([a, b] + rest) == a + (b + Concat(rest))
  {
    var r := [a, b] + rest;
    assert r[1..] == [b] + rest;
    assert r[1..][1..] == rest;
  }

  lemma SplitThree(s: string, j: nat, k: nat)
    requires j <= k <= |s|
    ensures s == s[..j] + (s[j..k] + s[k..])
  {
  }

  /** Runs alternate: those at even positions hold no digit, those at odd
      positions are non-empty runs of digits. */
  lemma {:induction false} ChunksAlternate(s: string)
    ensures forall i :: 0 <= i < |Chunks(s)| && i % 2 == 0 ==> forall c :: c in Chunks(s)[i] ==> !IsDigit(c)
    ensures forall i :: 0 <= i < |Chunks(s)| && i % 2 == 1 ==> Chunks(s)[i] != [] && AllDigits(Chunks(s)[i])
    decreases |s|
  {
    var j := RunEnd(s, 0, false);
    RunEndSpec(s, 0, false);
    if j < |s| {
      var k := RunEnd(s, j, true);
      RunEndSpec(s, j, true);
      ChunksAlternate(s[k..]);
      var rest := Chunks(s[k..]);
      var r := Chunks(s);
      assert r == [s[..j], s[j..k]] + rest;
      forall i | 2 <= i < |r| ensures r[i] == rest[i - 2] { }
    }
  }

  /** The shape of every key: text at even positions, numbers at odd ones.
      Two keys therefore never hold an `int` and a `str` at the same
      position, so Python's list comparison never compares the two. */
  predicate WellShaped(key: seq<Chunk>) {
    forall i :: 0 <= i < |key| ==> (key[i].Text? <==> i % 2 == 0)
  }

  lemma NaturalKeyShape(s: string)
    ensures WellShaped(NaturalKey(s)) && |NaturalKey(s)| % 2 == 1
  {
    ChunksAlternate(s);
    var runs := Chunks(s);
    forall i | 0 <= i < |runs| ensures (NaturalKey(s)[i].Text? <==> i % 2 == 0) {
      if i % 2 == 0 && runs[i] != [] {
        assert runs[i][0] in runs[i];
      }
    }
  }

  lemma KeysComparable(s: string, t: string, i: nat)
    requires i < |NaturalKey(s)| && i < |NaturalKey(t)|
    ensures NaturalKey(s)[i].Text? == NaturalKey(t)[i].Text?
  {
    NaturalKeyShape(s);
    NaturalKeyShape(t);
  }

  /** Python's `<` on `str`: code point by code point, a proper prefix first. */
  predicate StrLess(a: string, b: string)
    decreases |a|
  {
    if a == [] then b != []
    else if b == [] then false
    else if a[0] != b[0] then a[0] < b[0]
    else StrLess(a[1..], b[1..])
  }

  /** `<` on two key elements. The mixed cases never arise between
      well-shaped keys; they are ordered only to make the order total. */
  predicate ChunkLess(x: Chunk, y: Chunk) {
    match (x, y)
    case (Num(m), Num(n)) => m < n
    case (Text(a), Text(b)) => StrLess(a, b)
    case (Num(_), Text(_)) => true
    case (Text(_), Num(_)) => false
  }

  /** Python's `<` on lists: the first differing element decides, and a
      proper prefix comes first. */
  predicate KeyLess(a: seq<Chunk>, b: seq<Chunk>)
    decreases |a|
  {
    if a == [] then b != []
    else if b == [] then false
    else if a[0] != b[0] then ChunkLess(a[0], b[0])
    else KeyLess(a[1..], b[1..])
  }

  lemma {:induction false} StrLessOrder(a: string, b: string, c: string)
    ensures !StrLess(a, a)
    ensures a != b ==> StrLess(a, b) || StrLess(b, a)
    ensures StrLess(a, b) ==> !StrLess(b, a)
    ensures StrLess(a, b) && StrLess(b, c) ==> StrLess(a, c)
    decreases |a|
  {
    if a != [] && b != [] && c != [] {
      StrLessOrder(a[1..], b[1..], c[1..]);
      if a[0] == b[0] && a[1..] != b[1..] {
        assert a != b;
      }
      if a[0] == b[0] && a[1..] == b[1..] {
        assert a == [a[0]] + a[1..] && b == [b[0]] + b[1..];
      }
    } else if a != [] && b != [] {
      StrLessOrder(a[1..], b[1..], []);
      if a[0] == b[0] && a[1..] == b[1..] {
        assert a == [a[0]] + a[1..] && b == [b[0]] + b[1..];
      }
    } else if a != [] {
      StrLessOrder(a[1..], a[1..], a[1..]);
    }
  }

  lemma ChunkLessOrder(x: Chunk, y: Chunk, z: Chunk)
    ensures !ChunkLess(x, x)
    ensures x != y ==> ChunkLess(x, y) || ChunkLess(y, x)
    ensures ChunkLess(x, y) ==> !ChunkLess(y, x)
    ensures ChunkLess(x, y) && ChunkLess(y, z) ==> ChunkLess(x, z)
  {
    var a := if x.Text? then x.text else [];
    var b := if y.Text? then y.text else [];
    var c := if z.Text? then z.text else [];
    StrLessOrder(a, b, c);
    StrLessOrder(a, a, a);
  }

  /** `<` on keys is a strict total order: irreflexive, asymmetric,
      transitive, and any two different keys are ordered. */
  lemma {:induction false} KeyLessOrder(a: seq<Chunk>, b: seq<Chunk>, c: seq<Chunk>)
    ensures !KeyLess(a, a)
    ensures a != b ==> KeyLess(a, b) || KeyLess(b, a)
    ensures KeyLess(a, b) ==> !KeyLess(b, a)
    ensures KeyLess(a, b) && KeyLess(b, c) ==> KeyLess(a, c)
    decreases |a|
  {
    if a != [] && b != [] && c != [] {
      KeyLessOrder(a[1..], b[1..], c[1..]);
      ChunkLessOrder(a[0], b[0], c[0]);
      if a[0] == b[0] && a[1..] == b[1..] {
        assert a == [a[0]] + a[1..] && b == [b[0]] + b[1..];
      }
    } else if a != [] && b != [] {
      KeyLessOrder(a[1..], b[1..], []);
      ChunkLessOrder(a[0], b[0], a[0]);
      if a[0] == b[0] && a[1..] == b[1..] {
        assert a == [a[0]] + a[1..] && b == [b[0]] + b[1..];
      }
    } else if a != [] {
      KeyLessOrder(a[1..], a[1..], a[1..]);
    }
  }

  /** The order `sorted(lines, key=natural_sort_key)` places lines in:
      `s` may stay before `t` unless `t`'s key is smaller. */
  predicate NaturalLe(s: string, t: string) {
    !KeyLess(NaturalKey(t), NaturalKey(s))
  }

  /** Any two lines are comparable, and the order is transitive. */
  lemma NaturalLeTotal(s: string, t: string, u: string)
    ensures NaturalLe(s, t) || NaturalLe(t, s)
    ensures NaturalLe(s, t) && NaturalLe(t, u) ==> NaturalLe(s, u)
  {
    var a, b, c := NaturalKey(s), NaturalKey(t), NaturalKey(u);
    KeyLessOrder(b, a, a);
    KeyLessOrder(c, b, a);
    KeyLessOrder(b, a, c);
    KeyLessOrder(c, a, b);
    KeyLessOrder(a, c, b);
  }

  /** On ASCII digits the digit reader and the decimal fold agree. */
  lemma {:induction false} BodyValueAscii(run: string)
    requires AllDigits(run)
    ensures BodyValue(run) == DecimalValue(run)
  {
    if run != [] {
      BodyValueAscii(run[..|run| - 1]);
    }
  }

  /** `int()` reads a digit run of the split as its decimal value. */
  lemma PyIntOfDigits(run: string)
    requires run != [] && AllDigits(run)
    ensures PyInt(run) == Some(DecimalValue(run))
  {
    StripSpec(run);
    assert IsStripped(run);
    BodyValueAscii(run);
  }

  /** `int()` raises on a run holding no decimal digit of any script. */
  lemma PyIntNeedsDigit(text: string)
    requires forall i :: 0 <= i < |text| ==> !IsDecimal(text[i])
    ensures PyInt(text) == None
  {
    var t := Strip(text);
    var signed := t != [] && (t[0] == '+' || t[0] == '-');
    var body := if signed then t[1..] else t;
    if DigitBody(body) {
      var c := body[0];
      assert c in t;
      if c !in text {
        StripKeepsCharOut(text, c);
      }
      assert false;
    }
  }

  /** Every character of a run is a character of the line. */
  lemma {:induction false} RunInConcat(runs: seq<string>, i: nat, c: char)
    requires i < |runs| && c in runs[i]
    ensures c in Concat(runs)
  {
    if i > 0 {
      RunInConcat(runs[1..], i - 1, c);
    }
  }

  /** A line whose only decimal digits are ASCII ones. */
  predicate OnlyAsciiDigits(s: string) {
    forall i :: 0 <= i < |s| ==> IsDecimal(s[i]) ==> IsDigit(s[i])
  }

  /** `convert` as written and corrected agree on a digit run and on a run
      without any decimal digit. */
  lemma RunAgrees(run: string)
    requires (run != [] && AllDigits(run)) || forall k :: 0 <= k < |run| ==> !IsDecimal(run[k])
    ensures ConvertAsWritten(run) == Convert(run)
  {
    if run != [] && AllDigits(run) {
      PyIntOfDigits(run);
    } else {
      PyIntNeedsDigit(run);
    }
  }

  /** On such a line the key as written is the corrected key. */
  lemma KeysAgree(s: string)
    requires OnlyAsciiDigits(s)
    ensures NaturalKeyAsWritten(s) == NaturalKey(s)
  {
    var runs := Chunks(s);
    ChunksAlternate(s);
    ChunksConcat(s);
    forall i | 0 <= i < |runs| ensures ConvertAsWritten(runs[i]) == Convert(runs[i]) {
      if i % 2 == 0 {
        forall k | 0 <= k < |runs[i]| ensures !IsDecimal(runs[i][k]) {
          var c := runs[i][k];
          assert c in runs[i];
          RunInConcat(runs, i, c);
        }
      }
      RunAgrees(runs[i]);
    }
  }

  /** The keys as written of the lines `"\U{0663}"` (Arabic-Indic three)
      and `"a"` hold an `int` and a `str` at the same position, so
      `sorted` compares the two and raises `TypeError`. */
  lemma UnicodeDigitClash()
    ensures NaturalKeyAsWritten("\U{0663}") == [Num(3)]
    ensures NaturalKeyAsWritten("a") == [Text("a")]
    ensures !WellShaped(NaturalKeyAsWritten("\U{0663}"))
  {
    var three := "\U{0663}";
    assert Chunks(three) == [three];
    StripSpec(three);
    assert IsStripped(three);
    assert DigitBody(three);
    assert BodyValue(three) == BodyValue([]) * 10 + 3;
    assert PyInt(three) == Some(3);
    assert NaturalKeyAsWritten(three)[0] == Num(3);
    assert Chunks("a") == ["a"];
    PyIntNeedsDigit("a");
    assert Lower("a") == "a";
  }
}
