/** The base64 encoding of section 4 of RFC 4648 (standard alphabet, `=`
    padding), as `Buffer.toString('base64')` produces it, and the UTF-8
    encoding `Buffer.from` applies to a string. */
module Base64 {
  import opened Wrappers

  type byte = x: int | 0 <= x < 256

  /** A 6-bit value. */
  type sextet = x: int | 0 <= x < 64

  /** The character of a 6-bit value in the base64 alphabet:
      `A`-`Z`, `a`-`z`, `0`-`9`, `+`, `/`. */
  function EncodeChar(v: sextet): (c: char)
    ensures c != '='
  {
    if v < 26 then ('A' as int + v) as char
    else if v < 52 then ('a' as int + (v - 26)) as char
    else if v < 62 then ('0' as int + (v - 52)) as char
    else if v == 62 then '+'
    else '/'
  }

  predicate IsBase64Char(c: char) {
    || 'A' <= c <= 'Z' || 'a' <= c <= 'z' || '0' <= c <= '9' || c == '+' || c == '/'
  }

  /** The value of an alphabet character. */
  function DecodeChar(c: char): (v: sextet)
    requires IsBase64Char(c)
  {
    if 'A' <= c <= 'Z' then c as int - 'A' as int
    else if 'a' <= c <= 'z' then c as int - 'a' as int + 26
    else if '0' <= c <= '9' then c as int - '0' as int + 52
    else if c == '+' then 62
    else 63
  }

  /** The alphabet is a bijection onto its 64 characters. */
  lemma CharRoundTrip(v: sextet)
    ensures IsBase64Char(EncodeChar(v)) && DecodeChar(EncodeChar(v)) == v
  {
  }

  lemma CharRoundTripBack(c: char)
    requires IsBase64Char(c)
    ensures EncodeChar(DecodeChar(c)) == c
  {
  }

  /** Three bytes as four characters. */
  function EncodeGroup(b0: byte, b1: byte, b2: byte): (r: string)
    ensures |r| == 4
  {
    [EncodeChar(b0 / 4), EncodeChar((b0 % 4) * 16 + b1 / 16), EncodeChar((b1 % 16) * 4 + b2 / 64), EncodeChar(b2 % 64)]
  }

  /** The encoding: each group of three bytes becomes four characters; a
      final group of one or two bytes is padded with `=` to four. */
  function Encode(b: seq<byte>): (r: string)
    ensures |r| == 4 * ((|b| + 2) / 3)
    decreases |b|
  {
    if |b| == 0 then ""
    else if |b| == 1 then [EncodeChar(b[0] / 4), EncodeChar((b[0] % 4) * 16), '=', '=']
    else if |b| == 2 then [EncodeChar(b[0] / 4), EncodeChar((b[0] % 4) * 16 + b[1] / 16), EncodeChar((b[1] % 16) * 4), '=']
    else EncodeGroup(b[0], b[1], b[2]) + Encode(b[3..])
  }

  /** Text the decoder accepts: groups of four alphabet characters, the
      last of which may end in one or two `=`. */
  predicate WellFormed(s: string) {
    && |s| % 4 == 0
    && (forall i :: 0 <= i < |s| - 4 ==> IsBase64Char(s[i]))
    && (|s| >= 4 ==>
          && IsBase64Char(s[|s| - 4]) && IsBase64Char(s[|s| - 3])
          && (IsBase64Char(s[|s| - 2]) || (s[|s| - 2] == '=' && s[|s| - 1] == '='))
          && (IsBase64Char(s[|s| - 1]) || s[|s| - 1] == '='))
  }

  /** Four characters back to one, two or three bytes. */
  function DecodeGroup(c0: char, c1: char, c2: char, c3: char): (r: seq<byte>)
    requires IsBase64Char(c0) && IsBase64Char(c1)
    requires IsBase64Char(c2) || (c2 == '=' && c3 == '=')
    requires IsBase64Char(c3) || c3 == '='
  {
    var v0, v1 := DecodeChar(c0), DecodeChar(c1);
    var b0 := v0 * 4 + v1 / 16;
    if c2 == '=' then [b0]
    else
      var v2 := DecodeChar(c2);
      var b1 := (v1 % 16) * 16 + v2 / 4;
      if c3 == '=' then [b0, b1]
      else [b0, b1, (v2 % 4) * 64 + DecodeChar(c3)]
  }

  /** The decoder. */
  function Decode(s: string): (r: seq<byte>)
    requires WellFormed(s)
    decreases |s|
  {
    if s == [] then []
    else
      assert WellFormed(s[4..]) by {
        assert forall i :: 0 <= i < |s[4..]| ==> s[4..][i] == s[i + 4];
      }
      DecodeGroup(s[0], s[1], s[2], s[3]) + Decode(s[4..])
  }

  lemma Pack16(hi: int, lo: int)
    requires 0 <= hi && 0 <= lo < 16
    ensures (hi * 16 + lo) / 16 == hi && (hi * 16 + lo) % 16 == lo
  {
  }

  lemma Pack4(hi: int, lo: int)
    requires 0 <= hi && 0 <= lo < 4
    ensures (hi * 4 + lo) / 4 == hi && (hi * 4 + lo) % 4 == lo
  {
  }

  /** The bit arithmetic of one group: the four 6-bit values give back the
      three bytes. */
  lemma GroupArith(b0: byte, b1: byte, b2: byte)
    ensures (b0 / 4) * 4 + ((b0 % 4) * 16 + b1 / 16) / 16 == b0
    ensures (((b0 % 4) * 16 + b1 / 16) % 16) * 16 + ((b1 % 16) * 4 + b2 / 64) / 4 == b1
    ensures (((b1 % 16) * 4 + b2 / 64) % 4) * 64 + b2 % 64 == b2
  {
    Pack16(b0 % 4, b1 / 16);
    Pack4(b1 % 16, b2 / 64);
  }

  /** Four alphabet characters decode to the bytes their values pack. */
  lemma DecodeSextets(v0: sextet, v1: sextet, v2: sextet, v3: sextet)
    ensures IsBase64Char(EncodeChar(v0)) && IsBase64Char(EncodeChar(v1))
    ensures IsBase64Char(EncodeChar(v2)) && IsBase64Char(EncodeChar(v3))
    ensures DecodeGroup(EncodeChar(v0), EncodeChar(v1), EncodeChar(v2), EncodeChar(v3))
            == [v0 * 4 + v1 / 16, (v1 % 16) * 16 + v2 / 4, (v2 % 4) * 64 + v3]
  {
    CharRoundTrip(v0);
    CharRoundTrip(v1);
    CharRoundTrip(v2);
    CharRoundTrip(v3);
  }

  /** Three bytes survive a group round trip. */
  lemma GroupRoundTrip(b0: byte, b1: byte, b2: byte)
    ensures var e := EncodeGroup(b0, b1, b2);
            IsBase64Char(e[0]) && IsBase64Char(e[1]) && IsBase64Char(e[2]) && IsBase64Char(e[3])
            && DecodeGroup(e[0], e[1], e[2], e[3]) == [b0, b1, b2]
  {
    var v0: sextet, v1: sextet, v2: sextet, v3: sextet := b0 / 4, (b0 % 4) * 16 + b1 / 16, (b1 % 16) * 4 + b2 / 64, b2 % 64;
    DecodeSextets(v0, v1, v2, v3);
    GroupArith(b0, b1, b2);
  }

  /** One trailing byte survives a padded round trip. */
  lemma OneRoundTrip(b0: byte)
    ensures var e := Encode([b0]);
            IsBase64Char(e[0]) && IsBase64Char(e[1]) && e[2] == '=' && e[3] == '='
            && DecodeGroup(e[0], e[1], e[2], e[3]) == [b0]
  {
    var v0: sextet, v1: sextet := b0 / 4, (b0 % 4) * 16;
    CharRoundTrip(v0);
    CharRoundTrip(v1);
    Pack16(b0 % 4, 0);
  }

  /** Two trailing bytes survive a padded round trip. */
  lemma TwoRoundTrip(b0: byte, b1: byte)
    ensures var e := Encode([b0, b1]);
            IsBase64Char(e[0]) && IsBase64Char(e[1]) && IsBase64Char(e[2]) && e[3] == '='
            && DecodeGroup(e[0], e[1], e[2], e[3]) == [b0, b1]
  {
    var v0: sextet, v1: sextet, v2: sextet := b0 / 4, (b0 % 4) * 16 + b1 / 16, (b1 % 16) * 4;
    CharRoundTrip(v0);
    CharRoundTrip(v1);
    CharRoundTrip(v2);
    GroupArith(b0, b1, 0);
    var e := Encode([b0, b1]);
    assert e == [EncodeChar(v0), EncodeChar(v1), EncodeChar(v2), '='];
    assert DecodeGroup(e[0], e[1], e[2], e[3]) == [v0 * 4 + v1 / 16, (v1 % 16) * 16 + v2 / 4];
  }

  /** Encoded text is well formed. */
  lemma {:induction false} EncodeWellFormed(b: seq<byte>)
    ensures WellFormed(Encode(b))
    decreases |b|
  {
    if |b| == 1 {
      OneRoundTrip(b[0]);
      assert b == [b[0]];
    } else if |b| == 2 {
      TwoRoundTrip(b[0], b[1]);
      assert b == [b[0], b[1]];
    } else if |b| > 2 {
      EncodeWellFormed(b[3..]);
      GroupRoundTrip(b[0], b[1], b[2]);
      GroupThenWellFormed(EncodeGroup(b[0], b[1], b[2]), Encode(b[3..]));
    }
  }

  /** A group of four alphabet characters in front of well-formed text. */
  lemma GroupThenWellFormed(g: string, rest: string)
    requires |g| == 4 && forall i :: 0 <= i < 4 ==> IsBase64Char(g[i])
    requires WellFormed(rest)
    ensures WellFormed(g + rest)
  {
    var s := g + rest;
    assert forall i :: 4 <= i < |s| ==> s[i] == rest[i - 4];
  }

  /** Decoding reads a leading group and then the rest. */
  lemma DecodeFront(g: string, rest: string)
    requires |g| == 4 && forall i :: 0 <= i < 4 ==> IsBase64Char(g[i])
    requires WellFormed(rest)
    ensures WellFormed(g + rest)
    ensures Decode(g + rest) == DecodeGroup(g[0], g[1], g[2], g[3]) + Decode(rest)
  {
    GroupThenWellFormed(g, rest);
    var s := g + rest;
    assert s[4..] == rest;
    assert s[0] == g[0] && s[1] == g[1] && s[2] == g[2] && s[3] == g[3];
  }

  /** A last group decodes on its own. */
  lemma DecodeLast(g: string)
    requires |g| == 4 && WellFormed(g)
    ensures Decode(g) == DecodeGroup(g[0], g[1], g[2], g[3])
  {
    assert g[4..] == [];
  }

  lemma DecodeEncodeOne(b0: byte)
    ensures WellFormed(Encode([b0])) && Decode(Encode([b0])) == [b0]
  {
    var e := Encode([b0]);
    OneRoundTrip(b0);
    assert WellFormed(e);
    DecodeLast(e);
  }

  lemma DecodeEncodeTwo(b0: byte, b1: byte)
    ensures WellFormed(Encode([b0, b1])) && Decode(Encode([b0, b1])) == [b0, b1]
  {
    var e := Encode([b0, b1]);
    TwoRoundTrip(b0, b1);
    assert WellFormed(e);
    DecodeLast(e);
  }

  /** A final group of one or two bytes decodes back. */
  lemma DecodeEncodeShort(b: seq<byte>)
    requires 1 <= |b| <= 2
    ensures WellFormed(Encode(b)) && Decode(Encode(b)) == b
  {
    if |b| == 1 {
      assert b == [b[0]];
      DecodeEncodeOne(b[0]);
    } else {
      assert b == [b[0], b[1]];
      DecodeEncodeTwo(b[0], b[1]);
    }
  }

  /** Decoding undoes encoding. */
  lemma {:induction false} DecodeEncode(b: seq<byte>)
    ensures WellFormed(Encode(b)) && Decode(Encode(b)) == b
    decreases |b|
  {
    if 1 <= |b| <= 2 {
      DecodeEncodeShort(b);
    } else if |b| > 2 {
      DecodeEncode(b[3..]);
      GroupRoundTrip(b[0], b[1], b[2]);
      var g := EncodeGroup(b[0], b[1], b[2]);
      DecodeFront(g, Encode(b[3..]));
      assert b == [b[0], b[1], b[2]] + b[3..];
    }
  }

  /** Complete groups encode independently of what follows. */
  lemma {:induction false} EncodeConcat(a: seq<byte>, b: seq<byte>)
    requires |a| % 3 == 0
    ensures Encode(a + b) == Encode(a) + Encode(b)
    decreases |a|
  {
    if a == [] {
      assert a + b == b;
    } else {
      assert (a + b)[3..] == a[3..] + b;
      assert (a + b)[..3] == a[..3];
      EncodeConcat(a[3..], b);
    }
  }

  /** The UTF-8 bytes of one character. */
  function Utf8Char(c: char): (r: seq<byte>)
    ensures 1 <= |r| <= 4
    ensures c as int < 128 ==> r == [c as int]
  {
    var n := c as int;
    if n < 0x80 then [n]
    else if n < 0x800 then [0xC0 + n / 64, 0x80 + n % 64]
    else if n < 0x1_0000 then [0xE0 + n / 4096, 0x80 + (n / 64) % 64, 0x80 + n % 64]
    else [0xF0 + n / 262144, 0x80 + (n / 4096) % 64, 0x80 + (n / 64) % 64, 0x80 + n % 64]
  }

  /** `Buffer.from(s)`: the UTF-8 bytes of a string. */
  function Utf8(s: string): (r: seq<byte>)
    ensures |r| >= |s|
  {
    if s == [] then [] else Utf8Char(s[0]) + Utf8(s[1..])
  }

  predicate IsAscii(s: string) {
    forall i :: 0 <= i < |s| ==> s[i] as int < 128
  }

  /** ASCII text is its own UTF-8 encoding, one byte per character. */
  lemma {:induction false} Utf8Ascii(s: string)
    requires IsAscii(s)
    ensures |Utf8(s)| == |s|
    ensures forall i :: 0 <= i < |s| ==> Utf8(s)[i] == s[i] as int
  {
    if s != [] {
      Utf8Ascii(s[1..]);
      assert forall i :: 1 <= i < |s| ==> Utf8(s)[i] == Utf8(s[1..])[i - 1];
    }
  }

  lemma {:induction false} Utf8Concat(a: string, b: string)
    ensures Utf8(a + b) == Utf8(a) + Utf8(b)
  {
    if a == [] {
      assert a + b == b;
    } else {
      assert (a + b)[1..] == a[1..] + b;
      Utf8Concat(a[1..], b);
    }
  }
}
