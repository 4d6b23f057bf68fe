/** Base16 text of byte strings: the lowercase encoder of PHP `hash()` /
    `bin2hex` and Rust `hex::encode`, and the decoder of PHP `hex2bin` and Rust
    `hex::decode`, which accept either case and fail on an odd length or on
    a character that is not a hex digit. */
module Hex {
  import opened Wrappers
  import opened Numbers

  predicate IsHexChar(c: char) {
    ('0' <= c <= '9') || ('a' <= c <= 'f') || ('A' <= c <= 'F')
  }

  predicate IsLowerHexChar(c: char) {
    ('0' <= c <= '9') || ('a' <= c <= 'f')
  }

  /** Rust `str::chars().all(|c| c.is_ascii_hexdigit())`. */
  predicate AllHex(s: string) { forall i :: 0 <= i < |s| ==> IsHexChar(s[i]) }

  predicate AllLowerHex(s: string) { forall i :: 0 <= i < |s| ==> IsLowerHexChar(s[i]) }

  function NibbleValue(c: char): (d: nat)
    requires IsHexChar(c)
    ensures d < 16
    ensures IsLowerHexChar(c) ==> NibbleChar(d) == c
  {
    if '0' <= c <= '9' then c as int - '0' as int
    else if 'a' <= c <= 'f' then c as int - 'a' as int + 10
    else c as int - 'A' as int + 10
  }

  function NibbleChar(d: nat): (c: char)
    requires d < 16
    ensures IsLowerHexChar(c)
  {
    if d < 10 then (d + '0' as int) as char else (d - 10 + 'a' as int) as char
  }

  lemma NibbleRoundTrip(d: nat)
    requires d < 16
    ensures NibbleValue(NibbleChar(d)) == d
  {
  }

  /** Two lowercase hex characters per byte, high nibble first. */
  function Encode(b: Bytes): (s: string)
    ensures |s| == 2 * |b|
    ensures AllLowerHex(s)
  {
    if |b| == 0 then ""
    else [NibbleChar(b[0] / 16), NibbleChar(b[0] % 16)] + Encode(b[1..])
  }

  /** `None` for an odd length or a non-hex character. */
  function Decode(s: string): (r: Option<Bytes>)
    ensures r.Some? ==> 2 * |r.value| == |s|
    decreases |s|
  {
    if |s| % 2 == 1 then None
    else if |s| == 0 then Some([])
    else if !IsHexChar(s[0]) || !IsHexChar(s[1]) then None
    else
      match Decode(s[2..])
      case None => None
      case Some(rest) => Some([NibbleValue(s[0]) * 16 + NibbleValue(s[1]) as byte] + rest)
  }

  /** Decoding the encoding gives the bytes back. */
  lemma {:induction false} DecodeEncode(b: Bytes)
    ensures Decode(Encode(b)) == Some(b)
  {
    if |b| > 0 {
      var s := Encode(b);
      assert s[2..] == Encode(b[1..]);
      DecodeEncode(b[1..]);
      NibbleRoundTrip(b[0] / 16);
      NibbleRoundTrip(b[0] % 16);
      assert NibbleValue(s[0]) * 16 + NibbleValue(s[1]) == b[0];
      assert b == [b[0]] + b[1..];
    }
  }

  /** Distinct byte strings have distinct hex texts. */
  lemma EncodeInjective(a: Bytes, b: Bytes)
    requires Encode(a) == Encode(b)
    ensures a == b
  {
    DecodeEncode(a);
    DecodeEncode(b);
  }

  /** Decoding fails exactly on odd lengths and non-hex characters. */
  lemma {:induction false} DecodeSucceeds(s: string)
    ensures Decode(s).Some? <==> |s| % 2 == 0 && AllHex(s)
    decreases |s|
  {
    if |s| % 2 == 0 && |s| > 0 {
      DecodeSucceeds(s[2..]);
      if IsHexChar(s[0]) && IsHexChar(s[1]) && AllHex(s[2..]) {
        assert AllHex(s) by {
          forall i | 0 <= i < |s| ensures IsHexChar(s[i]) {
            if i >= 2 { assert s[i] == s[2..][i - 2]; }
          }
        }
      }
    }
  }

  /** A lowercase hex text is the encoding of what it decodes to. */
  lemma {:induction false} EncodeDecode(s: string)
    requires |s| % 2 == 0 && AllLowerHex(s)
    ensures Decode(s).Some? && Encode(Decode(s).value) == s
    decreases |s|
  {
    if |s| > 0 {
      var tail := s[2..];
      assert AllLowerHex(tail) by {
        forall i | 0 <= i < |tail| ensures IsLowerHexChar(tail[i]) {
          assert tail[i] == s[i + 2];
        }
      }
      EncodeDecode(tail);
      var rest := Decode(tail).value;
      var hi := NibbleValue(s[0]);
      var lo := NibbleValue(s[1]);
      var b := hi * 16 + lo;
      ByteNibbles(hi, lo);
      assert Decode(s) == Some([b as byte] + rest);
      EncodePrepend(b as byte, rest);
      assert [s[0], s[1]] + tail == s;
    }
  }

  lemma ByteNibbles(hi: nat, lo: nat)
    requires hi < 16 && lo < 16
    ensures 0 <= hi * 16 + lo < 256 && (hi * 16 + lo) / 16 == hi && (hi * 16 + lo) % 16 == lo
  {
  }

  lemma EncodePrepend(b: byte, rest: Bytes)
    ensures Encode([b] + rest) == [NibbleChar(b / 16), NibbleChar(b % 16)] + Encode(rest)
  {
    assert ([b] + rest)[0] == b && ([b] + rest)[1..] == rest;
  }
}
