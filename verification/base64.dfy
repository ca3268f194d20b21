/**
  The Base64 encoding of section 4 of RFC 4648, as `btoa` applies it to a
  string whose code units are all below 256, with the matching decoder.
*/
module Base64 {
  import opened Wrappers

  /** A code unit `btoa` accepts. */
  type Byte = x: int | 0 <= x < 256

  /** The character for a 6-bit value in the alphabet of Table 1. */
  function Sextet(v: nat): (c: char)
    requires v < 64
  {
    if v < 26 then (65 + v) as char
    else if v < 52 then (97 + v - 26) as char
    else if v < 62 then (48 + v - 52) as char
    else if v == 62 then '+'
    else '/'
  }

  /** The 6-bit value of an alphabet character, or -1. */
  function SextetValue(c: char): (v: int)
    ensures -1 <= v < 64
  {
    if 'A' <= c <= 'Z' then c as int - 65
    else if 'a' <= c <= 'z' then c as int - 97 + 26
    else if '0' <= c <= '9' then c as int - 48 + 52
    else if c == '+' then 62
    else if c == '/' then 63
    else -1
  }

  lemma SextetInverse(v: nat)
    requires v < 64
    ensures SextetValue(Sextet(v)) == v
    ensures Sextet(v) != '='
  {
  }

  /** The four characters of a full 3-byte group. */
  function Group(b0: Byte, b1: Byte, b2: Byte): (g: string)
    ensures |g| == 4
  {
    [Sextet(b0 / 4), Sextet((b0 % 4) * 16 + b1 / 16), Sextet((b1 % 16) * 4 + b2 / 64), Sextet(b2 % 64)]
  }

  /** Encode a string of bytes: each 3 bytes give 4 characters; a short tail is padded with `=`. */
  function Encode(b: seq<Byte>): (s: string)
    ensures 4 * |b| <= 3 * |s| <= 4 * |b| + 8
  {
    if |b| == 0 then ""
    else if |b| == 1 then TailOne(b[0])
    else if |b| == 2 then TailTwo(b[0], b[1])
    else Group(b[0], b[1], b[2]) + Encode(b[3..])
  }

  /** One trailing byte: two characters and two `=`. */
  function TailOne(b0: Byte): (g: string)
    ensures |g| == 4
  {
    [Sextet(b0 / 4), Sextet((b0 % 4) * 16), '=', '=']
  }

  /** Two trailing bytes: three characters and one `=`. */
  function TailTwo(b0: Byte, b1: Byte): (g: string)
    ensures |g| == 4
  {
    [Sextet(b0 / 4), Sextet((b0 % 4) * 16 + b1 / 16), Sextet((b1 % 16) * 4), '=']
  }

  /** The three bytes four alphabet characters stand for. */
  function GroupBytes(v0: int, v1: int, v2: int, v3: int): seq<int> {
    [v0 * 4 + v1 / 16, (v1 % 16) * 16 + v2 / 4, (v2 % 4) * 64 + v3]
  }

  /** Decode 4-character groups; a malformed group gives `None`. */
  function Decode(s: string): (r: Option<seq<int>>)
    decreases |s|
  {
    if |s| == 0 then Some([])
    else if |s| < 4 then None
    else
      var v0, v1, v2, v3 := SextetValue(s[0]), SextetValue(s[1]), SextetValue(s[2]), SextetValue(s[3]);
      if v0 < 0 || v1 < 0 then None
      else if s[2] == '=' && s[3] == '=' && |s| == 4 then Some(GroupBytes(v0, v1, 0, 0)[..1])
      else if v2 < 0 then None
      else if s[3] == '=' && |s| == 4 then Some(GroupBytes(v0, v1, v2, 0)[..2])
      else if v3 < 0 then None
      else
        match Decode(s[4..])
        case None => None
        case Some(rest) => Some(GroupBytes(v0, v1, v2, v3) + rest)
  }

  lemma FirstByte(b0: Byte, b1: Byte)
    ensures (b0 / 4) * 4 + ((b0 % 4) * 16 + b1 / 16) / 16 == b0
  {
  }

  lemma SecondByte(b0: Byte, b1: Byte, b2: Byte)
    ensures (((b0 % 4) * 16 + b1 / 16) % 16) * 16 + ((b1 % 16) * 4 + b2 / 64) / 4 == b1
  {
    var hi, lo := b1 / 16, b1 % 16;
    assert ((b0 % 4) * 16 + hi) % 16 == hi;
    assert (lo * 4 + b2 / 64) / 4 == lo;
  }

  lemma ThirdByte(b1: Byte, b2: Byte)
    ensures (((b1 % 16) * 4 + b2 / 64) % 4) * 64 + b2 % 64 == b2
  {
  }

  /** The four sextets of a full group, most significant first. */
  function GroupSextets(b0: Byte, b1: Byte, b2: Byte): (v: seq<nat>)
    ensures |v| == 4 && forall i :: 0 <= i < 4 ==> v[i] < 64
  {
    [b0 / 4, (b0 % 4) * 16 + b1 / 16, (b1 % 16) * 4 + b2 / 64, b2 % 64]
  }

  /** The sextets of a group put back together give its bytes. */
  lemma GroupSextetsInverse(b0: Byte, b1: Byte, b2: Byte)
    ensures var v := GroupSextets(b0, b1, b2); GroupBytes(v[0], v[1], v[2], v[3]) == [b0, b1, b2]
  {
    var v := GroupSextets(b0, b1, b2);
    assert v[0] == b0 / 4 && v[1] == (b0 % 4) * 16 + b1 / 16 && v[2] == (b1 % 16) * 4 + b2 / 64 && v[3] == b2 % 64;
    FirstByte(b0, b1);
    SecondByte(b0, b1, b2);
    ThirdByte(b1, b2);
    BytesOfSextets(v[0], v[1], v[2], v[3], b0, b1, b2);
  }

  lemma BytesOfSextets(v0: int, v1: int, v2: int, v3: int, x: int, y: int, z: int)
    requires v0 * 4 + v1 / 16 == x && (v1 % 16) * 16 + v2 / 4 == y && (v2 % 4) * 64 + v3 == z
    ensures GroupBytes(v0, v1, v2, v3) == [x, y, z]
  {
  }

  /** Four alphabet characters for four sextets: none is padding and each reads back as its sextet. */
  lemma CharsOfSextets(v: seq<nat>)
    requires |v| == 4 && forall i :: 0 <= i < 4 ==> v[i] < 64
    ensures var g := [Sextet(v[0]), Sextet(v[1]), Sextet(v[2]), Sextet(v[3])];
      forall i :: 0 <= i < 4 ==> SextetValue(g[i]) == v[i] && g[i] != '='
  {
    SextetInverse(v[0]);
    SextetInverse(v[1]);
    SextetInverse(v[2]);
    SextetInverse(v[3]);
  }

  /** A full group's characters are alphabet characters that stand for its bytes. */
  lemma GroupRoundTrip(b0: Byte, b1: Byte, b2: Byte)
    ensures var g := Group(b0, b1, b2);
      (forall i :: 0 <= i < 4 ==> SextetValue(g[i]) >= 0 && g[i] != '=')
      && GroupBytes(SextetValue(g[0]), SextetValue(g[1]), SextetValue(g[2]), SextetValue(g[3])) == [b0, b1, b2]
  {
    var v := GroupSextets(b0, b1, b2);
    assert Group(b0, b1, b2) == [Sextet(v[0]), Sextet(v[1]), Sextet(v[2]), Sextet(v[3])];
    CharsOfSextets(v);
    GroupSextetsInverse(b0, b1, b2);
  }

  /** A full group of four alphabet characters decodes to three bytes ahead of the rest. */
  lemma DecodeGroup(g: string, rest: string, tail: seq<int>)
    requires |g| == 4
    requires forall i :: 0 <= i < 4 ==> SextetValue(g[i]) >= 0 && g[i] != '='
    requires Decode(rest) == Some(tail)
    ensures Decode(g + rest) == Some(GroupBytes(SextetValue(g[0]), SextetValue(g[1]), SextetValue(g[2]), SextetValue(g[3])) + tail)
  {
    var s := g + rest;
    assert s[0] == g[0] && s[1] == g[1] && s[2] == g[2] && s[3] == g[3];
    assert s[4..] == rest;
  }

  /** Two alphabet characters and two `=` decode to one byte. */
  lemma DecodePaddedTwice(g: string)
    requires |g| == 4 && SextetValue(g[0]) >= 0 && SextetValue(g[1]) >= 0 && g[2] == '=' && g[3] == '='
    ensures Decode(g) == Some(GroupBytes(SextetValue(g[0]), SextetValue(g[1]), 0, 0)[..1])
  {
  }

  /** Three alphabet characters and one `=` decode to two bytes. */
  lemma DecodePaddedOnce(g: string)
    requires |g| == 4 && SextetValue(g[0]) >= 0 && SextetValue(g[1]) >= 0 && SextetValue(g[2]) >= 0
    requires g[2] != '=' && g[3] == '='
    ensures Decode(g) == Some(GroupBytes(SextetValue(g[0]), SextetValue(g[1]), SextetValue(g[2]), 0)[..2])
  {
  }

  lemma DecodeEncodeOne(b0: Byte)
    ensures Decode(Encode([b0])) == Some([b0])
  {
    var v0, v1 := b0 / 4, (b0 % 4) * 16;
    var g := TailOne(b0);
    assert Encode([b0]) == g;
    SextetInverse(v0);
    SextetInverse(v1);
    assert g == [Sextet(v0), Sextet(v1), '=', '='];
    DecodePaddedTwice(g);
    FirstByte(b0, 0);
    BytesOfSextets(v0, v1, 0, 0, b0, (v1 % 16) * 16, 0);
    assert [b0, (v1 % 16) * 16, 0][..1] == [b0];
  }

  lemma DecodeEncodeTwo(b0: Byte, b1: Byte)
    ensures Decode(Encode([b0, b1])) == Some([b0, b1])
  {
    var v0, v1, v2 := b0 / 4, (b0 % 4) * 16 + b1 / 16, (b1 % 16) * 4;
    var g := TailTwo(b0, b1);
    assert Encode([b0, b1]) == g;
    SextetInverse(v0);
    SextetInverse(v1);
    SextetInverse(v2);
    assert g == [Sextet(v0), Sextet(v1), Sextet(v2), '='];
    DecodePaddedOnce(g);
    FirstByte(b0, b1);
    SecondByte(b0, b1, 0);
    BytesOfSextets(v0, v1, v2, 0, b0, b1, (v2 % 4) * 64);
    assert [b0, b1, (v2 % 4) * 64][..2] == [b0, b1];
  }

  /** Decoding undoes encoding. */
  lemma {:induction false} DecodeEncode(b: seq<Byte>)
    ensures Decode(Encode(b)) == Some(b)
    decreases |b|
  {
    if |b| == 1 {
      assert b == [b[0]];
      DecodeEncodeOne(b[0]);
    } else if |b| == 2 {
      assert b == [b[0], b[1]];
      DecodeEncodeTwo(b[0], b[1]);
    } else if |b| >= 3 {
      DecodeEncode(b[3..]);
      DecodeEncodeGroup(b);
    }
  }

  /** One full group in front of a tail that round-trips. */
  lemma DecodeEncodeGroup(b: seq<Byte>)
    requires |b| >= 3
    requires Decode(Encode(b[3..])) == Some(b[3..])
    ensures Decode(Encode(b)) == Some(b)
  {
    var e, t := Encode(b[3..]), b[3..];
    calc {
      Decode(Encode(b));
      == { EncodeSplit(b); }
      Decode(Group(b[0], b[1], b[2]) + e);
      == { DecodeGroupBytes(b[0], b[1], b[2], e, t); }
      Some([b[0], b[1], b[2]] + t);
      == { ConsThree(b); }
      Some(b);
    }
  }

  lemma ConsThree(b: seq<int>)
    requires |b| >= 3
    ensures [b[0], b[1], b[2]] + b[3..] == b
  {
  }

  /** Every started group of three bytes gives four characters. */
  lemma {:induction false} EncodeLength(b: seq<Byte>)
    ensures |Encode(b)| == 4 * ((|b| + 2) / 3)
    decreases |b|
  {
    if |b| >= 3 {
      EncodeLength(b[3..]);
      assert (|b| + 2) / 3 == (|b[3..]| + 2) / 3 + 1;
    }
  }

  lemma EncodeSplit(b: seq<Byte>)
    requires |b| >= 3
    ensures Encode(b) == Group(b[0], b[1], b[2]) + Encode(b[3..])
  {
  }

  /** The group of three bytes decodes back to them ahead of whatever the rest decodes to. */
  lemma DecodeGroupBytes(b0: Byte, b1: Byte, b2: Byte, rest: string, tail: seq<int>)
    requires Decode(rest) == Some(tail)
    ensures Decode(Group(b0, b1, b2) + rest) == Some([b0, b1, b2] + tail)
  {
    GroupRoundTrip(b0, b1, b2);
    DecodeGroup(Group(b0, b1, b2), rest, tail);
  }
}
