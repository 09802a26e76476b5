/** `base64.b64encode`: the base 64 encoding of section 4 of RFC 4648,
    with `=` padding, and a decoder for it. */
module Base64 {
  import opened Strings

  /** The alphabet of section 4 of RFC 4648 (Table 1). */
  predicate IsBase64Char(c: char) {
    'A' <= c <= 'Z' || 'a' <= c <= 'z' || '0' <= c <= '9' || c == '+' || c == '/'
  }

  function CharOf(v: nat): (c: char)
    requires v < 64
    ensures IsBase64Char(c)
  {
    if v < 26 then ('A' as int + v) as char
    else if v < 52 then ('a' as int + (v - 26)) as char
    else if v < 62 then ('0' as int + (v - 52)) as char
    else if v == 62 then '+'
    else '/'
  }

  function ValueOf(c: char): (v: nat)
    requires IsBase64Char(c)
    ensures v < 64 && CharOf(v) == c
  {
    if 'A' <= c <= 'Z' then c as int - 'A' as int
    else if 'a' <= c <= 'z' then c as int - 'a' as int + 26
    else if '0' <= c <= '9' then c as int - '0' as int + 52
    else if c == '+' then 62
    else 63
  }

  /** Each character of the alphabet stands for exactly one value. */
  lemma ValueOfChar(v: nat)
    requires v < 64
    ensures ValueOf(CharOf(v)) == v
  {
  }

  /** Three bytes, 24 bits, as four 6-bit characters, high bits first. */
  function EncodeGroup(a: byte, b: byte, c: byte): string {
    var x, y, z := a as int, b as int, c as int;
    [CharOf(x / 4), CharOf(x % 4 * 16 + y / 16), CharOf(y % 16 * 4 + z / 64), CharOf(z % 64)]
  }

  /** A final single byte: two characters and `==`. */
  function EncodeOne(a: byte): string {
    var x := a as int;
    [CharOf(x / 4), CharOf(x % 4 * 16), '=', '=']
  }

  /** A final pair of bytes: three characters and `=`. */
  function EncodeTwo(a: byte, b: byte): string {
    var x, y := a as int, b as int;
    [CharOf(x / 4), CharOf(x % 4 * 16 + y / 16), CharOf(y % 16 * 4), '=']
  }

  function Encode(bs: seq<byte>): (s: string)
    ensures |s| == (|bs| + 2) / 3 * 4
  {
    if |bs| == 0 then []
    else if |bs| == 1 then EncodeOne(bs[0])
    else if |bs| == 2 then EncodeTwo(bs[0], bs[1])
    else EncodeGroup(bs[0], bs[1], bs[2]) + Encode(bs[3..])
  }

  /** Four characters of the alphabet as three bytes. */
  function DecodeGroup(s: string): (r: seq<byte>)
    requires |s| == 4 && forall i :: 0 <= i < 4 ==> IsBase64Char(s[i])
    ensures |r| == 3
  {
    var v0, v1, v2, v3 := ValueOf(s[0]), ValueOf(s[1]), ValueOf(s[2]), ValueOf(s[3]);
    [(v0 * 4 + v1 / 16) as byte, (v1 % 16 * 16 + v2 / 4) as byte, (v2 % 4 * 64 + v3) as byte]
  }

  /** The last group, which may be padded with `=` or `==`. */
  function DecodeLast(s: string): (r: Option<seq<byte>>)
    requires |s| == 4
    ensures r.Some? ==> 1 <= |r.value| <= 3
  {
    if !IsBase64Char(s[0]) || !IsBase64Char(s[1]) then None
    else if s[2] == '=' && s[3] == '=' then
      Some([(ValueOf(s[0]) * 4 + ValueOf(s[1]) / 16) as byte])
    else if IsBase64Char(s[2]) && s[3] == '=' then
      var v0, v1, v2 := ValueOf(s[0]), ValueOf(s[1]), ValueOf(s[2]);
      Some([(v0 * 4 + v1 / 16) as byte, (v1 % 16 * 16 + v2 / 4) as byte])
    else if IsBase64Char(s[2]) && IsBase64Char(s[3]) then Some(DecodeGroup(s))
    else None
  }

  /** Decoding: groups of four characters, `=` only as padding at the end. */
  function Decode(s: string): (r: Option<seq<byte>>)
    ensures r.Some? ==> |s| % 4 == 0
    decreases |s|
  {
    if s == [] then Some([])
    else if |s| < 4 then None
    else if |s| == 4 then DecodeLast(s)
    else if !(forall i :: 0 <= i < 4 ==> IsBase64Char(s[i])) then None
    else
      match Decode(s[4..])
      case None => None
      case Some(rest) => Some(DecodeGroup(s[..4]) + rest)
  }

  lemma GroupRoundTrip(a: byte, b: byte, c: byte)
    ensures DecodeGroup(EncodeGroup(a, b, c)) == [a, b, c]
  {
    var x, y, z := a as int, b as int, c as int;
    var s := EncodeGroup(a, b, c);
    ValueOfChar(x / 4);
    ValueOfChar(x % 4 * 16 + y / 16);
    ValueOfChar(y % 16 * 4 + z / 64);
    ValueOfChar(z % 64);
    assert (x % 4 * 16 + y / 16) / 16 == x % 4;
    assert (x % 4 * 16 + y / 16) % 16 == y / 16;
    assert (y % 16 * 4 + z / 64) / 4 == y % 16;
    assert (y % 16 * 4 + z / 64) % 4 == z / 64;
  }

  lemma OneRoundTrip(a: byte)
    ensures DecodeLast(EncodeOne(a)) == Some([a])
  {
    var x := a as int;
    ValueOfChar(x / 4);
    ValueOfChar(x % 4 * 16);
    assert (x % 4 * 16) / 16 == x % 4;
  }

  lemma TwoRoundTrip(a: byte, b: byte)
    ensures DecodeLast(EncodeTwo(a, b)) == Some([a, b])
  {
    var x, y := a as int, b as int;
    ValueOfChar(x / 4);
    ValueOfChar(x % 4 * 16 + y / 16);
    ValueOfChar(y % 16 * 4);
    assert (x % 4 * 16 + y / 16) / 16 == x % 4;
    assert (x % 4 * 16 + y / 16) % 16 == y / 16;
    assert (y % 16 * 4) / 4 == y % 16;
  }

  /** Decoding the encoding gives the bytes back. */
  lemma {:induction false} DecodeEncode(bs: seq<byte>)
    ensures Decode(Encode(bs)) == Some(bs)
    decreases |bs|
  {
    if |bs| == 1 {
      OneRoundTrip(bs[0]);
      assert Encode(bs) == EncodeOne(bs[0]);
      assert bs == [bs[0]];
    } else if |bs| == 2 {
      TwoRoundTrip(bs[0], bs[1]);
      assert Encode(bs) == EncodeTwo(bs[0], bs[1]);
      assert bs == [bs[0], bs[1]];
    } else if |bs| >= 3 {
      DecodeEncode(bs[3..]);
      DecodeEncodeGroup(bs);
    }
  }

  /** One step of `DecodeEncode`: a full first group followed by the rest. */
  lemma DecodeEncodeGroup(bs: seq<byte>)
    requires |bs| >= 3 && Decode(Encode(bs[3..])) == Some(bs[3..])
    ensures Decode(Encode(bs)) == Some(bs)
  {
    var g := EncodeGroup(bs[0], bs[1], bs[2]);
    var t := bs[3..];
    EncodeFirstGroup(bs);
    Split3(bs);
    if |bs| == 3 {
      LastFullGroup(bs[0], bs[1], bs[2]);
    } else {
      EncodeNonEmpty(t);
      DecodeFullGroup(bs[0], bs[1], bs[2], Encode(t));
    }
  }

  lemma Split3<T>(xs: seq<T>)
    requires |xs| >= 3
    ensures xs == [xs[0], xs[1], xs[2]] + xs[3..]
    ensures |xs| == 3 ==> xs == [xs[0], xs[1], xs[2]]
  {
  }

  lemma EncodeNonEmpty(bs: seq<byte>)
    requires bs != []
    ensures Encode(bs) != []
  {
  }

  lemma EncodeFirstGroup(bs: seq<byte>)
    requires |bs| >= 3
    ensures Encode(bs) == EncodeGroup(bs[0], bs[1], bs[2]) + Encode(bs[3..])
    ensures |bs| == 3 ==> Encode(bs) == EncodeGroup(bs[0], bs[1], bs[2])
  {
    if |bs| == 3 {
      assert Encode(bs[3..]) == [];
    }
  }

  lemma LastFullGroup(a: byte, b: byte, c: byte)
    ensures DecodeLast(EncodeGroup(a, b, c)) == Some([a, b, c])
  {
    var g := EncodeGroup(a, b, c);
    GroupRoundTrip(a, b, c);
    assert IsBase64Char(g[2]) && IsBase64Char(g[3]);
  }

  lemma DecodeFullGroup(a: byte, b: byte, c: byte, rest: string)
    requires rest != [] && Decode(rest).Some?
    ensures Decode(EncodeGroup(a, b, c) + rest) == Some([a, b, c] + Decode(rest).value)
  {
    var g := EncodeGroup(a, b, c);
    GroupChars(a, b, c);
    GroupRoundTrip(a, b, c);
    var s := g + rest;
    assert s[..4] == g && s[4..] == rest;
  }

  lemma GroupChars(a: byte, b: byte, c: byte)
    ensures var g := EncodeGroup(a, b, c); |g| == 4 && forall i :: 0 <= i < 4 ==> IsBase64Char(g[i])
  {
  }

  /** The output holds only characters of the alphabet and `=`. */
  lemma {:induction false} EncodeChars(bs: seq<byte>)
    ensures forall i :: 0 <= i < |Encode(bs)| ==> IsBase64Char(Encode(bs)[i]) || Encode(bs)[i] == '='
    decreases |bs|
  {
    if |bs| >= 3 {
      EncodeChars(bs[3..]);
      var s := Encode(bs);
      assert s == EncodeGroup(bs[0], bs[1], bs[2]) + Encode(bs[3..]);
    }
  }
}
