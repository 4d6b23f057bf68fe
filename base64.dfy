/** Base64 with the standard alphabet and `=` padding (section 4 of
    RFC 4648), as the `STANDARD` engine of Rust's `base64` crate implements
    it: the encoder always pads, and the decoder demands canonical input —
    a length that is a multiple of four, padding only at the end and zero
    unused bits in the last character before the padding. */
module Base64 {
  import opened Wrappers
  import opened Numbers

  predicate IsBase64Char(c: char) {
    ('A' <= c <= 'Z') || ('a' <= c <= 'z') || ('0' <= c <= '9') || c == '+' || c == '/'
  }

  function CharValue(c: char): (v: nat)
    requires IsBase64Char(c)
    ensures v < 64
  {
    if 'A' <= c <= 'Z' then c as int - 'A' as int
    else if 'a' <= c <= 'z' then c as int - 'a' as int + 26
    else if '0' <= c <= '9' then c as int - '0' as int + 52
    else if c == '+' then 62
    else 63
  }

  /** The character for a six-bit value (Table 1 of RFC 4648). */
  function ValueChar(v: nat): (c: char)
    requires v < 64
    ensures IsBase64Char(c) && CharValue(c) == v
  {
    if v < 26 then (v + 'A' as int) as char
    else if v < 52 then (v - 26 + 'a' as int) as char
    else if v < 62 then (v - 52 + '0' as int) as char
    else if v == 62 then '+'
    else '/'
  }

  /** Three bytes as four characters. */
  function EncodeTriple(x: byte, y: byte, z: byte): (s: string)
    ensures |s| == 4
  {
    [ValueChar(x / 4), ValueChar((x % 4) * 16 + y / 16),
     ValueChar((y % 16) * 4 + z / 64), ValueChar(z % 64)]
  }

  /** Padded encoding: every three bytes become four characters and a final
      group of one or two bytes is completed with `==` or `=`. */
  function Encode(b: Bytes): (s: string)
    ensures |s| % 4 == 0
    ensures |b| > 0 ==> |s| >= 4
  {
    if |b| == 0 then ""
    else if |b| == 1 then [ValueChar(b[0] / 4), ValueChar((b[0] % 4) * 16), '=', '=']
    else if |b| == 2 then
      [ValueChar(b[0] / 4), ValueChar((b[0] % 4) * 16 + b[1] / 16), ValueChar((b[1] % 16) * 4), '=']
    else EncodeTriple(b[0], b[1], b[2]) + Encode(b[3..])
  }

  /** The encoder writes only alphabet characters and `=`. */
  lemma {:induction false} EncodeAlphabet(b: Bytes)
    ensures forall i :: 0 <= i < |Encode(b)| ==> IsBase64Char(Encode(b)[i]) || Encode(b)[i] == '='
    decreases |b|
  {
    if |b| > 2 {
      EncodeAlphabet(b[3..]);
      var head := EncodeTriple(b[0], b[1], b[2]);
      var s := Encode(b);
      assert s == head + Encode(b[3..]);
      forall i | 0 <= i < |s| ensures IsBase64Char(s[i]) || s[i] == '=' {
        if i >= 4 {
          assert s[i] == Encode(b[3..])[i - 4];
        }
      }
    }
  }

  /** Four alphabet characters as three bytes. */
  function DecodeQuad(q: string): (r: Option<Bytes>)
    requires |q| == 4
    ensures r.Some? ==> |r.value| == 3
  {
    if IsBase64Char(q[0]) && IsBase64Char(q[1]) && IsBase64Char(q[2]) && IsBase64Char(q[3]) then
      var v0, v1, v2, v3 := CharValue(q[0]), CharValue(q[1]), CharValue(q[2]), CharValue(q[3]);
      Some([v0 * 4 + v1 / 16, (v1 % 16) * 16 + v2 / 4, (v2 % 4) * 64 + v3])
    else None
  }

  /** The last group: four characters, or two or three followed by padding
      whose dropped bits are zero. */
  function DecodeLast(q: string): (r: Option<Bytes>)
    requires |q| == 4
    ensures r.Some? ==> 1 <= |r.value| <= 3
  {
    if IsBase64Char(q[0]) && IsBase64Char(q[1]) && IsBase64Char(q[2]) && IsBase64Char(q[3]) then
      DecodeQuad(q)
    else if IsBase64Char(q[0]) && IsBase64Char(q[1]) && q[2] == '=' && q[3] == '='
      && CharValue(q[1]) % 16 == 0 then
      Some([CharValue(q[0]) * 4 + CharValue(q[1]) / 16])
    else if IsBase64Char(q[0]) && IsBase64Char(q[1]) && IsBase64Char(q[2]) && q[3] == '='
      && CharValue(q[2]) % 4 == 0 then
      var v0, v1, v2 := CharValue(q[0]), CharValue(q[1]), CharValue(q[2]);
      Some([v0 * 4 + v1 / 16, (v1 % 16) * 16 + v2 / 4])
    else None
  }

  /** Canonical decoding; `None` is the crate's decode error. */
  function Decode(s: string): (r: Option<Bytes>)
    ensures r.Some? ==> |s| % 4 == 0
    ensures r.Some? && |s| > 0 ==> |r.value| > 0
    decreases |s|
  {
    if |s| == 0 then Some([])
    else if |s| % 4 != 0 then None
    else if |s| == 4 then DecodeLast(s)
    else
      match DecodeQuad(s[..4])
      case None => None
      case Some(head) =>
        match Decode(s[4..])
        case None => None
        case Some(rest) => Some(head + rest)
  }

  lemma TripleRoundTrip(x: byte, y: byte, z: byte)
    ensures DecodeQuad(EncodeTriple(x, y, z)) == Some([x, y, z])
  {
    var a, b := x % 4, y / 16;
    assert (a * 16 + b) / 16 == a && (a * 16 + b) % 16 == b;
    var c, d := y % 16, z / 64;
    assert (c * 4 + d) / 4 == c && (c * 4 + d) % 4 == d;
  }

  lemma SingleRoundTrip(x: byte)
    ensures Decode(Encode([x])) == Some([x])
  {
    var q := Encode([x]);
    var a := x % 4;
    assert (a * 16) / 16 == a && (a * 16) % 16 == 0;
    assert CharValue(q[0]) == x / 4 && CharValue(q[1]) == a * 16;
    assert q[2] == '=' && q[3] == '=' && IsBase64Char(q[1]);
  }

  lemma PairRoundTrip(x: byte, y: byte)
    ensures Decode(Encode([x, y])) == Some([x, y])
  {
    var q := Encode([x, y]);
    var a, c, e := x % 4, y / 16, y % 16;
    assert (a * 16 + c) / 16 == a && (a * 16 + c) % 16 == c;
    assert (e * 4) / 4 == e && (e * 4) % 4 == 0;
    var v0, v1, v2 := CharValue(q[0]), CharValue(q[1]), CharValue(q[2]);
    assert v0 == x / 4 && v1 == a * 16 + c && v2 == e * 4;
    assert q[3] == '=' && q[2] != '=';
    assert v0 * 4 + v1 / 16 == x;
    assert (v1 % 16) * 16 + v2 / 4 == y;
    assert DecodeLast(q) == Some([v0 * 4 + v1 / 16, (v1 % 16) * 16 + v2 / 4]);
  }

  /** Decoding the encoding gives the bytes back. */
  lemma {:induction false} DecodeEncode(b: Bytes)
    ensures Decode(Encode(b)) == Some(b)
    decreases |b|
  {
    if |b| == 1 {
      SingleRoundTrip(b[0]);
      assert b == [b[0]];
    } else if |b| == 2 {
      PairRoundTrip(b[0], b[1]);
      assert b == [b[0], b[1]];
    } else if |b| == 3 {
      TripleRoundTrip(b[0], b[1], b[2]);
      assert Encode(b) == EncodeTriple(b[0], b[1], b[2]) + Encode([]);
      assert b == [b[0], b[1], b[2]];
    } else if |b| > 3 {
      DecodeEncode(b[3..]);
      GroupRoundTrip(b);
    }
  }

  lemma {:induction false} GroupRoundTrip(b: Bytes)
    requires |b| > 3 && Decode(Encode(b[3..])) == Some(b[3..])
    ensures Decode(Encode(b)) == Some(b)
  {
    var t := EncodeTriple(b[0], b[1], b[2]);
    var r := Encode(b[3..]);
    TripleRoundTrip(b[0], b[1], b[2]);
    var s := t + r;
    assert Encode(b) == s;
    assert s[..4] == t && s[4..] == r;
    DecodeLong(s);
    assert [b[0], b[1], b[2]] + b[3..] == b;
  }

  /** `Decode` on more than one group. */
  lemma DecodeLong(s: string)
    requires |s| > 4 && |s| % 4 == 0
    ensures Decode(s) == if DecodeQuad(s[..4]).None? || Decode(s[4..]).None? then None
                         else Some(DecodeQuad(s[..4]).value + Decode(s[4..]).value)
  {
  }

  /** Four characters for every started group of three bytes. */
  lemma {:induction false} EncodeLength(b: Bytes)
    ensures |Encode(b)| == 4 * ((|b| + 2) / 3)
    decreases |b|
  {
    if |b| > 3 {
      EncodeLength(b[3..]);
      assert |Encode(b)| == 4 + |Encode(b[3..])|;
      assert (|b| + 2) / 3 == (|b[3..]| + 2) / 3 + 1;
    }
  }

  /** Distinct byte strings have distinct encodings. */
  lemma EncodeInjective(a: Bytes, b: Bytes)
    requires Encode(a) == Encode(b)
    ensures a == b
  {
    DecodeEncode(a);
    DecodeEncode(b);
  }

  /** A successful decode has the length the padding announces. */
  lemma {:induction false} DecodeLength(s: string)
    requires Decode(s).Some?
    ensures |s| % 4 == 0
    ensures |s| == 4 * ((|Decode(s).value| + 2) / 3)
    decreases |s|
  {
    if |s| > 4 {
      DecodeLength(s[4..]);
    }
  }
}
