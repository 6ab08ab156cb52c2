/**
 * `base64.b64encode(str(s).encode('utf-8'))`: UTF-8 encoding of a string
 * followed by the standard base64 alphabet with `=` padding (section 4 of
 * RFC 4648). The decoders are the partners that the round-trip lemmas use.
 */
module Base64 {
  import opened Wrappers

  type Byte = x: int | 0 <= x < 256

  /** UTF-8 encoding of one Unicode scalar value (1 to 4 bytes). */
  function Utf8Char(c: char): (r: seq<Byte>)
    ensures 1 <= |r| <= 4
    ensures |r| == 1 <==> c as int < 0x80
  {
    var cp := c as int;
    if cp < 0x80 then [cp]
    else if cp < 0x800 then [0xC0 + cp / 64, 0x80 + cp % 64]
    else if cp < 0x10000 then [0xE0 + cp / 4096, 0x80 + (cp / 64) % 64, 0x80 + cp % 64]
    else [0xF0 + cp / 262144, 0x80 + (cp / 4096) % 64, 0x80 + (cp / 64) % 64, 0x80 + cp % 64]
  }

  /** `s.encode('utf-8')`. */
  function Utf8(s: string): (r: seq<Byte>)
    ensures |r| >= |s|
  {
    if s == [] then [] else Utf8Char(s[0]) + Utf8(s[1..])
  }

  predicate IsContinuation(b: Byte)
  {
    0x80 <= b < 0xC0
  }

  /** Length of the UTF-8 sequence announced by a leading byte, 0 if it is not one. */
  function SequenceLength(lead: Byte): nat
  {
    if lead < 0x80 then 1
    else if 0xC0 <= lead < 0xE0 then 2
    else if 0xE0 <= lead < 0xF0 then 3
    else if 0xF0 <= lead < 0xF8 then 4
    else 0
  }

  /** Code point of one well-formed UTF-8 sequence, without range checks. */
  function CodePoint(bs: seq<Byte>): int
    requires 1 <= |bs| <= 4
  {
    var b := seq(|bs|, k requires 0 <= k < |bs| => bs[k] as int);
    if |b| == 1 then b[0]
    else if |b| == 2 then (b[0] - 0xC0) * 64 + (b[1] - 0x80)
    else if |b| == 3 then (b[0] - 0xE0) * 4096 + (b[1] - 0x80) * 64 + (b[2] - 0x80)
    else (b[0] - 0xF0) * 262144 + (b[1] - 0x80) * 4096 + (b[2] - 0x80) * 64 + (b[3] - 0x80)
  }

  /** Decoder used as the partner of `Utf8`; None on a malformed sequence. */
  function Utf8Decode(bs: seq<Byte>): Option<string>
    decreases |bs|
  {
    if bs == [] then Some("")
    else
      var n := SequenceLength(bs[0]);
      if n == 0 || n > |bs| then None
      else if exists k :: 1 <= k < n && !IsContinuation(bs[k]) then None
      else
        var cp := CodePoint(bs[..n]);
        if !(0 <= cp < 0xD800 || 0xE000 <= cp < 0x110000) then None
        else match Utf8Decode(bs[n..])
          case None => None
          case Some(rest) => Some([cp as char] + rest)
  }

  lemma Utf8CharShape(c: char)
    ensures SequenceLength(Utf8Char(c)[0]) == |Utf8Char(c)|
    ensures forall k :: 1 <= k < |Utf8Char(c)| ==> IsContinuation(Utf8Char(c)[k])
    ensures CodePoint(Utf8Char(c)) == c as int
  {
    var cp := c as int;
    if cp < 0x80 {
    } else if cp < 0x800 {
      TwoByteShape(cp);
    } else if cp < 0x10000 {
      ThreeByteShape(cp);
    } else {
      FourByteShape(cp);
    }
  }

  /** The two-byte form of a code point from U+0080 to U+07FF. */
  lemma TwoByteShape(cp: int)
    requires 0x80 <= cp < 0x800
    ensures var bs: seq<Byte> := [0xC0 + cp / 64, 0x80 + cp % 64];
            SequenceLength(bs[0]) == 2 && IsContinuation(bs[1]) && CodePoint(bs) == cp
  {
    assert (cp / 64) * 64 + cp % 64 == cp;
  }

  /** The three-byte form of a code point from U+0800 to U+FFFF. */
  lemma ThreeByteShape(cp: int)
    requires 0x800 <= cp < 0x10000
    ensures var bs: seq<Byte> := [0xE0 + cp / 4096, 0x80 + (cp / 64) % 64, 0x80 + cp % 64];
            SequenceLength(bs[0]) == 3 && IsContinuation(bs[1]) && IsContinuation(bs[2]) && CodePoint(bs) == cp
  {
    assert (cp / 4096) * 4096 + ((cp / 64) % 64) * 64 + cp % 64 == cp;
  }

  /** The four-byte form of a code point from U+10000 to U+10FFFF. */
  lemma FourByteShape(cp: int)
    requires 0x10000 <= cp < 0x110000
    ensures var bs: seq<Byte> := [0xF0 + cp / 262144, 0x80 + (cp / 4096) % 64, 0x80 + (cp / 64) % 64, 0x80 + cp % 64];
            SequenceLength(bs[0]) == 4 && IsContinuation(bs[1]) && IsContinuation(bs[2]) && IsContinuation(bs[3])
            && CodePoint(bs) == cp
  {
    var q1, q2, q3 := cp / 64, cp / 4096, cp / 262144;
    assert cp == q1 * 64 + cp % 64;
    assert q1 == q2 * 64 + q1 % 64 && q1 / 64 == q2;
    assert q2 == q3 * 64 + q2 % 64 && q2 / 64 == q3;
    assert 0 <= q3 <= 4;
  }

  /** UTF-8 decoding undoes UTF-8 encoding. */
  lemma {:induction false} Utf8RoundTrip(s: string)
    ensures Utf8Decode(Utf8(s)) == Some(s)
  {
    if s != [] {
      var head := Utf8Char(s[0]);
      var bs := Utf8(s);
      assert bs == head + Utf8(s[1..]);
      Utf8CharShape(s[0]);
      assert bs[..|head|] == head;
      assert bs[|head|..] == Utf8(s[1..]);
      Utf8RoundTrip(s[1..]);
      assert s == [s[0]] + s[1..];
    }
  }

  /** The 64-character alphabet of section 4 of RFC 4648. */
  function Sextet(i: nat): (c: char)
    requires i < 64
  {
    if i < 26 then ('A' as int + i) as char
    else if i < 52 then ('a' as int + (i - 26)) as char
    else if i < 62 then ('0' as int + (i - 52)) as char
    else if i == 62 then '+'
    else '/'
  }

  /** Index of an alphabet character, -1 for any other character. */
  function SextetIndex(c: char): (i: int)
    ensures -1 <= i < 64
  {
    if 'A' <= c <= 'Z' then c as int - 'A' as int
    else if 'a' <= c <= 'z' then c as int - 'a' as int + 26
    else if '0' <= c <= '9' then c as int - '0' as int + 52
    else if c == '+' then 62
    else if c == '/' then 63
    else -1
  }

  lemma SextetIndexOf(i: nat)
    requires i < 64
    ensures SextetIndex(Sextet(i)) == i
  {
  }

  predicate InAlphabet(c: char)
  {
    SextetIndex(c) >= 0
  }

  /** Four characters for three bytes. */
  function Block(x: Byte, y: Byte, z: Byte): (r: string)
    ensures |r| == 4 && forall k :: 0 <= k < 4 ==> InAlphabet(r[k])
  {
    SextetIndexOf(x / 4);
    SextetIndexOf((x % 4) * 16 + y / 16);
    SextetIndexOf((y % 16) * 4 + z / 64);
    SextetIndexOf(z % 64);
    [Sextet(x / 4), Sextet((x % 4) * 16 + y / 16), Sextet((y % 16) * 4 + z / 64), Sextet(z % 64)]
  }

  /** Four characters, the last two `=`, for a final single byte. */
  function TailOne(x: Byte): (r: string)
    ensures |r| == 4 && InAlphabet(r[0]) && InAlphabet(r[1]) && r[2] == '=' && r[3] == '='
  {
    SextetIndexOf(x / 4);
    SextetIndexOf((x % 4) * 16);
    [Sextet(x / 4), Sextet((x % 4) * 16), '=', '=']
  }

  /** Four characters, the last one `=`, for two final bytes. */
  function TailTwo(x: Byte, y: Byte): (r: string)
    ensures |r| == 4 && InAlphabet(r[0]) && InAlphabet(r[1]) && InAlphabet(r[2]) && r[3] == '='
  {
    SextetIndexOf(x / 4);
    SextetIndexOf((x % 4) * 16 + y / 16);
    SextetIndexOf((y % 16) * 4);
    [Sextet(x / 4), Sextet((x % 4) * 16 + y / 16), Sextet((y % 16) * 4), '=']
  }

  /** `base64.b64encode(bytes)`. */
  function Encode(b: seq<Byte>): (r: string)
    ensures |r| == 4 * ((|b| + 2) / 3)
    ensures forall k :: 0 <= k < |r| ==> InAlphabet(r[k]) || r[k] == '='
    decreases |b|
  {
    if |b| == 0 then ""
    else if |b| == 1 then TailOne(b[0])
    else if |b| == 2 then TailTwo(b[0], b[1])
    else Block(b[0], b[1], b[2]) + Encode(b[3..])
  }

  /** Decodes one group of four characters; None when it is not canonical. */
  function DecodeGroup(g: string, last: bool): Option<seq<Byte>>
    requires |g| == 4
  {
    var i0, i1, i2, i3 := SextetIndex(g[0]), SextetIndex(g[1]), SextetIndex(g[2]), SextetIndex(g[3]);
    if i0 < 0 || i1 < 0 then None
    else if last && g[2] == '=' && g[3] == '=' then
      if i1 % 16 != 0 then None else Some([i0 * 4 + i1 / 16])
    else if last && g[3] == '=' then
      if i2 < 0 || i2 % 4 != 0 then None else Some([i0 * 4 + i1 / 16, (i1 % 16) * 16 + i2 / 4])
    else if i2 < 0 || i3 < 0 then None
    else Some([i0 * 4 + i1 / 16, (i1 % 16) * 16 + i2 / 4, (i2 % 4) * 64 + i3])
  }

  /** Partner decoder of `Encode`: None for text that `Encode` never produces. */
  function Decode(s: string): Option<seq<Byte>>
    decreases |s|
  {
    if s == [] then Some([])
    else if |s| < 4 then None
    else match DecodeGroup(s[..4], |s| == 4)
      case None => None
      case Some(head) =>
        match Decode(s[4..])
        case None => None
        case Some(rest) => Some(head + rest)
  }

  lemma SplitHighLow(x: Byte, y: Byte)
    ensures ((x % 4) * 16 + y / 16) % 16 == y / 16
    ensures ((x % 4) * 16 + y / 16) / 16 == x % 4
    ensures ((x % 16) * 4 + y / 64) / 4 == x % 16
    ensures ((x % 16) * 4 + y / 64) % 4 == y / 64
  {
    var hi, lo := x % 4, y / 16;
    assert (hi * 16 + lo) / 16 == hi;
  }

  lemma DecodeTailOne(x: Byte)
    ensures Decode(TailOne(x)) == Some([x])
  {
    var g := TailOne(x);
    var i1 := (x % 4) * 16;
    assert SextetIndex(g[0]) == x / 4 && SextetIndex(g[1]) == i1;
    assert i1 % 16 == 0 && i1 / 16 == x % 4;
    assert g[..4] == g && g[4..] == [];
    assert DecodeGroup(g, true) == Some([x]);
    assert Decode(g[4..]) == Some([]);
    assert [x] + [] == [x];
  }

  lemma DecodeTailTwo(x: Byte, y: Byte)
    ensures Decode(TailTwo(x, y)) == Some([x, y])
  {
    var g := TailTwo(x, y);
    var i1, i2 := (x % 4) * 16 + y / 16, (y % 16) * 4;
    assert SextetIndex(g[0]) == x / 4 && SextetIndex(g[1]) == i1 && SextetIndex(g[2]) == i2;
    SplitHighLow(x, y);
    assert g[..4] == g && g[4..] == [];
    assert DecodeGroup(g, true) == Some([x, y]);
    assert Decode(g[4..]) == Some([]);
    assert [x, y] + [] == [x, y];
  }

  lemma DecodeBlock(x: Byte, y: Byte, z: Byte, last: bool)
    ensures DecodeGroup(Block(x, y, z), last) == Some([x, y, z])
  {
    var g := Block(x, y, z);
    var i1, i2 := (x % 4) * 16 + y / 16, (y % 16) * 4 + z / 64;
    assert SextetIndex(g[0]) == x / 4 && SextetIndex(g[1]) == i1;
    assert SextetIndex(g[2]) == i2 && SextetIndex(g[3]) == z % 64;
    SplitHighLow(x, y);
    SplitHighLow(y, z);
  }

  /** Base64 decoding undoes base64 encoding. */
  lemma {:induction false} DecodeEncode(b: seq<Byte>)
    ensures Decode(Encode(b)) == Some(b)
    decreases |b|
  {
    if 0 < |b| < 3 {
      DecodeEncodeTail(b);
    } else if |b| >= 3 {
      DecodeEncode(b[3..]);
      EncodeSplit(b);
      DecodeBlockThen(b[0], b[1], b[2], Encode(b[3..]), b[3..]);
      ByteSplit(b);
    }
  }

  /** One or two bytes encode to a padded group that decodes back to them. */
  lemma DecodeEncodeTail(b: seq<Byte>)
    requires 0 < |b| < 3
    ensures Decode(Encode(b)) == Some(b)
  {
    if |b| == 1 {
      DecodeTailOne(b[0]);
      assert [b[0]] == b;
    } else {
      DecodeTailTwo(b[0], b[1]);
      assert [b[0], b[1]] == b;
    }
  }

  /** Three leading bytes followed by the rest are the whole byte string. */
  lemma ByteSplit(b: seq<Byte>)
    requires |b| >= 3
    ensures b == [b[0], b[1], b[2]] + b[3..]
  {
  }

  /** Three leading bytes encode to a full group ahead of the encoding of the rest. */
  lemma EncodeSplit(b: seq<Byte>)
    requires |b| >= 3
    ensures Encode(b) == Block(b[0], b[1], b[2]) + Encode(b[3..])
  {
  }

  /** A full group followed by decodable text decodes to its three bytes, then the rest. */
  lemma DecodeBlockThen(x: Byte, y: Byte, z: Byte, rest: string, tail: seq<Byte>)
    requires Decode(rest) == Some(tail)
    ensures Decode(Block(x, y, z) + rest) == Some([x, y, z] + tail)
  {
    var g := Block(x, y, z);
    var e := g + rest;
    assert e[..4] == g && e[4..] == rest;
    DecodeBlock(x, y, z, |e| == 4);
  }

  /** `base64_encode(s)` in the crawler: base64 text of the UTF-8 bytes of `s`. */
  function EncodeText(s: string): (r: string)
    ensures Decode(r) == Some(Utf8(s))
  {
    DecodeEncode(Utf8(s));
    Encode(Utf8(s))
  }

  /** `EncodeText` loses nothing: the original text is recovered. */
  lemma EncodeTextRoundTrip(s: string)
    ensures match Decode(EncodeText(s))
            case Some(bytes) => Utf8Decode(bytes) == Some(s)
            case None => false
  {
    Utf8RoundTrip(s);
  }
}
