/** `urllib.parse.unquote`: percent-decoding as in section 2.1 of RFC 3986.
    Each maximal run of ASCII characters has its `%XX` triplets turned into
    bytes and the bytes decoded as UTF-8; the other characters are kept.
    The UTF-8 decoder (with `errors='replace'`) is a parameter. */
module Url {
  import opened Strings

  predicate IsHexDigit(c: char) {
    '0' <= c <= '9' || 'a' <= c <= 'f' || 'A' <= c <= 'F'
  }

  /** Upper and lower case hexadecimal digits both count. */
  function HexValue(c: char): (v: nat)
    requires IsHexDigit(c)
    ensures v < 16
  {
    if '0' <= c <= '9' then c as int - '0' as int
    else if 'a' <= c <= 'f' then c as int - 'a' as int + 10
    else c as int - 'A' as int + 10
  }

  /** The upper case digit section 2.1 of RFC 3986 recommends producing. */
  function HexDigit(v: nat): (c: char)
    requires v < 16
    ensures IsHexDigit(c) && HexValue(c) == v
  {
    if v < 10 then ('0' as int + v) as char else ('A' as int + v - 10) as char
  }

  predicate IsAscii(c: char) {
    c as int < 0x80
  }

  predicate AllAscii(s: string) {
    forall i :: 0 <= i < |s| ==> IsAscii(s[i])
  }

  /** `unquote_to_bytes` on an ASCII string: `%` and two hexadecimal digits
      give one byte; any other character, a lone `%` included, gives its own
      code. */
  function UnquoteBytes(s: string): (r: seq<byte>)
    requires AllAscii(s)
    decreases |s|
  {
    if s == [] then []
    else if s[0] == '%' && |s| >= 3 && IsHexDigit(s[1]) && IsHexDigit(s[2]) then
      [(HexValue(s[1]) * 16 + HexValue(s[2])) as byte] + UnquoteBytes(s[3..])
    else
      [s[0] as int as byte] + UnquoteBytes(s[1..])
  }

  /** End of the run of characters starting at `i` that are ASCII (`ascii`)
      or not (`!ascii`). */
  function RunEnd(s: string, i: nat, ascii: bool): (j: nat)
    requires i <= |s|
    ensures i <= j <= |s|
    ensures forall k :: i <= k < j ==> IsAscii(s[k]) == ascii
    ensures j < |s| ==> IsAscii(s[j]) != ascii
    decreases |s| - i
  {
    if i == |s| || IsAscii(s[i]) != ascii then i else RunEnd(s, i + 1, ascii)
  }

  function DecodeRuns(s: string, utf8: seq<byte> -> string): string
    decreases |s|
  {
    if s == [] then []
    else if IsAscii(s[0]) then
      var j := RunEnd(s, 0, true);
      utf8(UnquoteBytes(s[..j])) + DecodeRuns(s[j..], utf8)
    else
      var j := RunEnd(s, 0, false);
      s[..j] + DecodeRuns(s[j..], utf8)
  }

  /** `unquote(s)`: a string without `%` is returned as it is. */
  function Unquote(s: string, utf8: seq<byte> -> string): (r: string)
    ensures '%' !in s ==> r == s
  {
    if '%' !in s then s else DecodeRuns(s, utf8)
  }

  /** Percent-encoding of every byte, `%` and two upper case digits. */
  function Quote(bs: seq<byte>): (s: string)
    ensures |s| == 3 * |bs|
  {
    if bs == [] then []
    else ['%', HexDigit(bs[0] as int / 16), HexDigit(bs[0] as int % 16)] + Quote(bs[1..])
  }

  lemma {:induction false} QuoteAscii(bs: seq<byte>)
    ensures AllAscii(Quote(bs))
  {
    if bs != [] {
      QuoteAscii(bs[1..]);
      var s := Quote(bs);
      assert s[3..] == Quote(bs[1..]);
      assert forall i :: 3 <= i < |s| ==> s[i] == Quote(bs[1..])[i - 3];
    }
  }

  /** Percent-decoding gives back the bytes that were percent-encoded. */
  lemma {:induction false} UnquoteBytesQuote(bs: seq<byte>)
    ensures AllAscii(Quote(bs)) && UnquoteBytes(Quote(bs)) == bs
  {
    QuoteAscii(bs);
    if bs != [] {
      UnquoteBytesQuote(bs[1..]);
      var s := Quote(bs);
      var b := bs[0] as int;
      assert s[3..] == Quote(bs[1..]);
      assert HexValue(s[1]) * 16 + HexValue(s[2]) == b;
      assert bs == [bs[0]] + bs[1..];
    }
  }

  /** `unquote` hands the decoder exactly the bytes that were encoded. */
  lemma UnquoteQuote(bs: seq<byte>, utf8: seq<byte> -> string)
    requires bs != []
    ensures Unquote(Quote(bs), utf8) == utf8(bs)
  {
    var s := Quote(bs);
    UnquoteBytesQuote(bs);
    assert s[0] == '%' && '%' in s;
    var j := RunEnd(s, 0, true);
    assert j == |s|;
    assert s[..j] == s;
    assert DecodeRuns(s, utf8) == utf8(UnquoteBytes(s)) + DecodeRuns([], utf8);
  }

  /** Characters outside ASCII are kept as they are, and decoding goes on
      after them. */
  lemma NonAsciiKept(pre: string, bs: seq<byte>, utf8: seq<byte> -> string)
    requires pre != [] && forall i :: 0 <= i < |pre| ==> !IsAscii(pre[i])
    requires bs != []
    ensures Unquote(pre + Quote(bs), utf8) == pre + utf8(bs)
  {
    var q := Quote(bs);
    var s := pre + q;
    UnquoteBytesQuote(bs);
    assert s[|pre|] == '%' && '%' in s;
    var j := RunEnd(s, 0, false);
    assert j == |pre| by {
      assert IsAscii(s[|pre|]);
    }
    assert s[..j] == pre && s[j..] == q;
    var k := RunEnd(q, 0, true);
    assert k == |q|;
    assert q[..k] == q;
    assert DecodeRuns(q, utf8) == utf8(UnquoteBytes(q)) + DecodeRuns([], utf8);
  }
}
