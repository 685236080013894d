/**
  The Base64 encoding of section 4 of RFC 4648 (alphabet `A-Z a-z 0-9 + /`,
  padding `=`), over bytes modelled as integers in [0, 256).  The encoder is
  what Python's `base64.b64encode` produces; the decoder accepts every string the
  encoder produces and rejects characters outside the alphabet.
*/
module Base64 {
  import opened Wrappers

  type Byte = b: int | 0 <= b < 256
  type Index = i: int | 0 <= i < 64

  const Pad: char := '='

  /** The character of the RFC 4648 section 4 alphabet for a 6-bit value. */
  function IndexToChar(i: Index): (c: char)
    ensures c != ',' && c != Pad
  {
    if i < 26 then ('A' as int + i) as char
    else if i < 52 then ('a' as int + (i - 26)) as char
    else if i < 62 then ('0' as int + (i - 52)) as char
    else if i == 62 then '+'
    else '/'
  }

  /** The 6-bit value of an alphabet character, or None for any other character. */
  function CharToIndex(c: char): (r: Option<Index>)
    ensures r.Some? ==> IndexToChar(r.value) == c
  {
    if 'A' <= c <= 'Z' then Some(c as int - 'A' as int)
    else if 'a' <= c <= 'z' then Some(c as int - 'a' as int + 26)
    else if '0' <= c <= '9' then Some(c as int - '0' as int + 52)
    else if c == '+' then Some(62)
    else if c == '/' then Some(63)
    else None
  }

  lemma CharToIndexInverts(i: Index)
    ensures CharToIndex(IndexToChar(i)) == Some(i)
  {
  }

  predicate InAlphabet(c: char) {
    CharToIndex(c).Some?
  }

  /** Characters an encoding may contain: the alphabet and the pad. */
  predicate EncodedChar(c: char) {
    InAlphabet(c) || c == Pad
  }

  // The 24 bits b0 b1 b2 split into four 6-bit groups, most significant first.
  function S0(b0: Byte): Index { b0 / 4 }
  function S1(b0: Byte, b1: Byte): Index { (b0 % 4) * 16 + b1 / 16 }
  function S2(b1: Byte, b2: Byte): Index { (b1 % 16) * 4 + b2 / 64 }
  function S3(b2: Byte): Index { b2 % 64 }

  // Reassembling bytes from 6-bit groups (low bits of a final partial group are ignored).
  function B0(s0: Index, s1: Index): Byte { s0 * 4 + s1 / 16 }
  function B1(s1: Index, s2: Index): Byte { (s1 % 16) * 16 + s2 / 4 }
  function B2(s2: Index, s3: Index): Byte { (s2 % 4) * 64 + s3 }

  lemma GroupBitsRoundTrip(b0: Byte, b1: Byte, b2: Byte)
    ensures B0(S0(b0), S1(b0, b1)) == b0
    ensures B1(S1(b0, b1), S2(b1, b2)) == b1
    ensures B2(S2(b1, b2), S3(b2)) == b2
  {
  }

  /** Four characters for three whole bytes. */
  function EncodeGroup(b0: Byte, b1: Byte, b2: Byte): string {
    [IndexToChar(S0(b0)), IndexToChar(S1(b0, b1)), IndexToChar(S2(b1, b2)), IndexToChar(S3(b2))]
  }

  /**
    Standard Base64 with padding.  Every output is a whole number of
    four-character groups drawn from the alphabet and the pad, and it never
    contains a comma.
  */
  function Encode(data: seq<Byte>): (s: string)
    ensures |s| == 4 * ((|data| + 2) / 3)
    ensures forall k :: 0 <= k < |s| ==> EncodedChar(s[k])
    ensures ',' !in s
    decreases |data|
  {
    if |data| == 0 then []
    else if |data| == 1 then
      [IndexToChar(S0(data[0])), IndexToChar(S1(data[0], 0)), Pad, Pad]
    else if |data| == 2 then
      [IndexToChar(S0(data[0])), IndexToChar(S1(data[0], data[1])), IndexToChar(S2(data[1], 0)), Pad]
    else
      EncodeGroup(data[0], data[1], data[2]) + Encode(data[3..])
  }

  /** Decodes the final group of an encoding, which may carry one or two pads. */
  function DecodeLast(g: string): (r: Option<seq<Byte>>)
    requires |g| == 4
    ensures r.Some? ==> 1 <= |r.value| <= 3 && InAlphabet(g[0]) && InAlphabet(g[1])
    ensures r.Some? ==> EncodedChar(g[2]) && EncodedChar(g[3])
    ensures r.Some? ==> (|r.value| == 3 <==> g[3] != Pad)
  {
    var i0, i1 := CharToIndex(g[0]), CharToIndex(g[1]);
    if i0.None? || i1.None? then None
    else if g[2] == Pad && g[3] == Pad then
      Some([B0(i0.value, i1.value)])
    else
      var i2 := CharToIndex(g[2]);
      if i2.None? then None
      else if g[3] == Pad then
        Some([B0(i0.value, i1.value), B1(i1.value, i2.value)])
      else
        var i3 := CharToIndex(g[3]);
        if i3.None? then None
        else Some([B0(i0.value, i1.value), B1(i1.value, i2.value), B2(i2.value, i3.value)])
  }

  /** Decodes a group that is not the last one: no pad is allowed in it. */
  function DecodeGroup(g: string): (r: Option<seq<Byte>>)
    requires |g| == 4
    ensures r.Some? <==> forall k :: 0 <= k < 4 ==> InAlphabet(g[k])
    ensures r.Some? ==> |r.value| == 3
  {
    var i0, i1, i2, i3 := CharToIndex(g[0]), CharToIndex(g[1]), CharToIndex(g[2]), CharToIndex(g[3]);
    if i0.None? || i1.None? || i2.None? || i3.None? then None
    else Some([B0(i0.value, i1.value), B1(i1.value, i2.value), B2(i2.value, i3.value)])
  }

  /**
    Decodes a padded Base64 string; None (Python's `binascii.Error`) for a
    length that is not a multiple of four, a character outside the alphabet, or a
    pad anywhere but the end.
  */
  function Decode(s: string): (r: Option<seq<Byte>>)
    ensures |s| % 4 != 0 ==> r.None?
    ensures r.Some? ==> forall k :: 0 <= k < |s| ==> EncodedChar(s[k])
    ensures r.Some? ==> forall k :: 0 <= k < |s| - 4 ==> InAlphabet(s[k])
    ensures r.Some? ==> 3 * (|s| / 4) - 2 <= |r.value| <= 3 * (|s| / 4)
    decreases |s|
  {
    if |s| == 0 then Some([])
    else if |s| < 4 then None
    else if |s| == 4 then DecodeLast(s)
    else
      match DecodeGroup(s[..4])
      case None => None
      case Some(head) =>
        match Decode(s[4..])
        case None => None
        case Some(tail) => Some(head + tail)
  }

  lemma DecodeOneGroup(b0: Byte, b1: Byte, b2: Byte)
    ensures DecodeGroup(EncodeGroup(b0, b1, b2)) == Some([b0, b1, b2])
    ensures DecodeLast(EncodeGroup(b0, b1, b2)) == Some([b0, b1, b2])
  {
    GroupBitsRoundTrip(b0, b1, b2);
    CharToIndexInverts(S0(b0));
    CharToIndexInverts(S1(b0, b1));
    CharToIndexInverts(S2(b1, b2));
    CharToIndexInverts(S3(b2));
  }

  lemma DecodeOneByte(b0: Byte)
    ensures Decode([IndexToChar(S0(b0)), IndexToChar(S1(b0, 0)), Pad, Pad]) == Some([b0])
  {
    var i0, i1 := S0(b0), S1(b0, 0);
    var c0, c1 := IndexToChar(i0), IndexToChar(i1);
    assert B0(i0, i1) == b0;
    CharToIndexInverts(i0);
    CharToIndexInverts(i1);
    var g := [c0, c1, Pad, Pad];
    assert DecodeLast(g) == Some([B0(i0, i1)]);
  }

  lemma DecodeTwoBytes(b0: Byte, b1: Byte)
    ensures Decode([IndexToChar(S0(b0)), IndexToChar(S1(b0, b1)), IndexToChar(S2(b1, 0)), Pad]) == Some([b0, b1])
  {
    var g := [IndexToChar(S0(b0)), IndexToChar(S1(b0, b1)), IndexToChar(S2(b1, 0)), Pad];
    GroupBitsRoundTrip(b0, b1, 0);
    CharToIndexInverts(S0(b0));
    CharToIndexInverts(S1(b0, b1));
    CharToIndexInverts(S2(b1, 0));
    assert DecodeLast(g) == Some([b0, b1]);
  }

  /** Decoding inverts encoding for every byte sequence. */
  lemma {:induction false} DecodeEncode(data: seq<Byte>)
    ensures Decode(Encode(data)) == Some(data)
    decreases |data|
  {
    if |data| == 0 {
    } else if |data| == 1 {
      DecodeOneByte(data[0]);
      assert [data[0]] == data;
    } else if |data| == 2 {
      DecodeTwoBytes(data[0], data[1]);
      assert [data[0], data[1]] == data;
    } else {
      DecodeEncode(data[3..]);
      if |data| == 3 {
        DecodeEncodeThree(data);
      } else {
        DecodeEncodeMore(data);
      }
    }
  }

  /** One group of three bytes, alone. */
  lemma DecodeEncodeThree(data: seq<Byte>)
    requires |data| == 3
    ensures Decode(Encode(data)) == Some(data)
  {
    var g := EncodeGroup(data[0], data[1], data[2]);
    DecodeOneGroup(data[0], data[1], data[2]);
    assert Encode(data[3..]) == [];
    assert Encode(data) == g;
    assert data == [data[0], data[1], data[2]];
  }

  /** The inductive step: one more leading group of three bytes before a non-empty rest. */
  lemma DecodeEncodeMore(data: seq<Byte>)
    requires |data| > 3 && Decode(Encode(data[3..])) == Some(data[3..])
    ensures Decode(Encode(data)) == Some(data)
  {
    var g := EncodeGroup(data[0], data[1], data[2]);
    var rest := Encode(data[3..]);
    DecodeOneGroup(data[0], data[1], data[2]);
    assert Encode(data) == g + rest;
    assert |rest| > 0;
    DecodeConcat(g, rest);
    HeadGroup(data);
  }

  lemma HeadGroup(data: seq<Byte>)
    requires |data| >= 3
    ensures [data[0], data[1], data[2]] + data[3..] == data
  {
    assert data[..3] == [data[0], data[1], data[2]];
    assert data[..3] + data[3..] == data;
  }

  /** A full group followed by a decodable non-empty rest decodes to the group's bytes then the rest's. */
  lemma DecodeConcat(g: string, rest: string)
    requires |g| == 4 && DecodeGroup(g).Some?
    requires |rest| > 0 && Decode(rest).Some?
    ensures Decode(g + rest) == Some(DecodeGroup(g).value + Decode(rest).value)
  {
    var s := g + rest;
    assert s[..4] == g && s[4..] == rest;
  }
}
