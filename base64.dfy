/** The base64 encoding of RFC 4648 section 4, as the browser's `btoa` computes it
    on the binary string of a byte buffer, together with a decoder that undoes it.
    The decoder is not part of the application; it is the partner that shows the
    encoder loses no information. The encoding is built in the three layers the
    RFC describes: octets to 6-bit values, 6-bit values to alphabet characters,
    and `=` padding of a final partial group. */
module Base64 {
  import opened Wrappers

  /** An octet, as `Uint8Array` holds it. */
  type byte = x: int | 0 <= x < 256

  /** A 6-bit value, the index of a character in the base64 alphabet. */
  type sextet = x: int | 0 <= x < 64

  // ---------------------------------------------------------------------------
  // Octets and 6-bit values

  /** The 6-bit values of `b`, taken 24 bits at a time; a final group of one or
      two octets is filled with zero bits to a whole number of 6-bit values. */
  function Sextets(b: seq<byte>): (vs: seq<sextet>)
    ensures |vs| == (4 * |b| + 2) / 3
    decreases |b|
  {
    if |b| == 0 then []
    else if |b| == 1 then [b[0] / 4, (b[0] % 4) * 16]
    else if |b| == 2 then [b[0] / 4, (b[0] % 4) * 16 + b[1] / 16, (b[1] % 16) * 4]
    else [b[0] / 4, (b[0] % 4) * 16 + b[1] / 16, (b[1] % 16) * 4 + b[2] / 64, b[2] % 64] + Sextets(b[3..])
  }

  /** The octets that a run of 6-bit values carries; bits that do not fill an
      octet are dropped, and a single leftover value carries none. */
  function Octets(vs: seq<sextet>): seq<byte>
    decreases |vs|
  {
    if |vs| < 2 then []
    else
      var v0, v1 := vs[0] as int, vs[1] as int;
      if |vs| == 2 then [v0 * 4 + v1 / 16]
      else
        var v2 := vs[2] as int;
        if |vs| == 3 then [v0 * 4 + v1 / 16, (v1 % 16) * 16 + v2 / 4]
        else [v0 * 4 + v1 / 16, (v1 % 16) * 16 + v2 / 4, (v2 % 4) * 64 + vs[3]] + Octets(vs[4..])
  }

  lemma FirstOctet(b0: byte, b1: byte)
    ensures (b0 / 4) * 4 + ((b0 % 4) * 16 + b1 / 16) / 16 == b0
  {
  }

  lemma SecondOctet(b0: byte, b1: byte, b2: byte)
    ensures (((b0 % 4) * 16 + b1 / 16) % 16) * 16 + ((b1 % 16) * 4 + b2 / 64) / 4 == b1
  {
  }

  lemma ThirdOctet(b1: byte, b2: byte)
    ensures (((b1 % 16) * 4 + b2 / 64) % 4) * 64 + b2 % 64 == b2
  {
  }

  /** One whole group of three octets comes back from its four 6-bit values. */
  lemma OctetsOfGroup(b0: byte, b1: byte, b2: byte, rest: seq<sextet>)
    ensures Octets([b0 / 4, (b0 % 4) * 16 + b1 / 16, (b1 % 16) * 4 + b2 / 64, b2 % 64] + rest) == [b0, b1, b2] + Octets(rest)
  {
    var vs: seq<sextet> := [b0 / 4, (b0 % 4) * 16 + b1 / 16, (b1 % 16) * 4 + b2 / 64, b2 % 64] + rest;
    assert vs[4..] == rest;
    FirstOctet(b0, b1);
    SecondOctet(b0, b1, b2);
    ThirdOctet(b1, b2);
  }

  /** Regrouping octets into 6-bit values and back gives the same octets. */
  lemma {:induction false} OctetsOfSextets(b: seq<byte>)
    ensures Octets(Sextets(b)) == b
    decreases |b|
  {
    if |b| == 1 {
      FirstOctet(b[0], 0);
      assert Octets(Sextets(b)) == [b[0]];
    } else if |b| == 2 {
      FirstOctet(b[0], b[1]);
      SecondOctet(b[0], b[1], 0);
      assert Octets(Sextets(b)) == [b[0], b[1]];
    } else if |b| > 2 {
      OctetsOfGroup(b[0], b[1], b[2], Sextets(b[3..]));
      OctetsOfSextets(b[3..]);
      assert [b[0], b[1], b[2]] + b[3..] == b;
    }
  }

  // ---------------------------------------------------------------------------
  // 6-bit values and characters

  /** The 64 characters of the base64 alphabet (Table 1 of RFC 4648). */
  predicate IsBase64Char(c: char) {
    ('A' <= c <= 'Z') || ('a' <= c <= 'z') || ('0' <= c <= '9') || c == '+' || c == '/'
  }

  /** The character that encodes the 6-bit value `v`. */
  function CharOf(v: sextet): (c: char)
    ensures IsBase64Char(c)
  {
    if v < 26 then ('A' as int + v) as char
    else if v < 52 then ('a' as int + (v - 26)) as char
    else if v < 62 then ('0' as int + (v - 52)) as char
    else if v == 62 then '+'
    else '/'
  }

  /** The 6-bit value a character of the alphabet stands for. */
  function ValueOf(c: char): sextet
    requires IsBase64Char(c)
  {
    if 'A' <= c <= 'Z' then c as int - 'A' as int
    else if 'a' <= c <= 'z' then c as int - 'a' as int + 26
    else if '0' <= c <= '9' then c as int - '0' as int + 52
    else if c == '+' then 62
    else 63
  }

  lemma ValueOfCharOf(v: sextet)
    ensures ValueOf(CharOf(v)) == v
  {
  }

  function Chars(vs: seq<sextet>): (s: string)
    ensures |s| == |vs|
    ensures forall i :: 0 <= i < |vs| ==> s[i] == CharOf(vs[i])
  {
    seq(|vs|, i requires 0 <= i < |vs| => CharOf(vs[i]))
  }

  function Values(s: string): (vs: seq<sextet>)
    requires forall i :: 0 <= i < |s| ==> IsBase64Char(s[i])
    ensures |vs| == |s|
    ensures forall i :: 0 <= i < |s| ==> vs[i] == ValueOf(s[i])
  {
    seq(|s|, i requires 0 <= i < |s| => ValueOf(s[i]))
  }

  lemma ValuesOfChars(vs: seq<sextet>)
    ensures Values(Chars(vs)) == vs
  {
    forall i | 0 <= i < |vs|
      ensures Values(Chars(vs))[i] == vs[i]
    {
      ValueOfCharOf(vs[i]);
    }
  }

  // ---------------------------------------------------------------------------
  // Padding and the whole encoding

  /** Number of `=` characters that end the encoding of `n` octets. */
  function PadCount(n: nat): (p: nat)
    ensures p <= 2
    ensures p == 0 <==> n % 3 == 0
    ensures (4 * n + 2) / 3 + p == 4 * ((n + 2) / 3)
  {
    if n % 3 == 0 then 0 else 3 - n % 3
  }

  function Padding(p: nat): (s: string)
    ensures |s| == p
    ensures forall i :: 0 <= i < p ==> s[i] == '='
  {
    seq(p, _ => '=')
  }

  /** The base64 encoding of `b`: the characters of its 6-bit values, then the
      padding that completes the last group of four. */
  function Encode(b: seq<byte>): (e: string)
    ensures |e| == 4 * ((|b| + 2) / 3)
  {
    Chars(Sextets(b)) + Padding(PadCount(|b|))
  }

  /** The shape section 4 of RFC 4648 prescribes: 4 characters per started group
      of 3 octets, alphabet characters first, then exactly `PadCount` `=`. */
  lemma EncodeShape(b: seq<byte>)
    ensures |Encode(b)| == 4 * ((|b| + 2) / 3)
    ensures forall i :: 0 <= i < |Encode(b)| - PadCount(|b|) ==> IsBase64Char(Encode(b)[i])
    ensures forall i :: |Encode(b)| - PadCount(|b|) <= i < |Encode(b)| ==> Encode(b)[i] == '='
  {
  }

  /** Number of `=` at the end of `s`, up to two. */
  function TrailingPad(s: string): (p: nat)
    ensures p <= 2 && p <= |s|
  {
    if |s| >= 2 && s[|s| - 2] == '=' && s[|s| - 1] == '=' then 2
    else if |s| >= 1 && s[|s| - 1] == '=' then 1
    else 0
  }

  /** A lenient decoder: the length must be a multiple of four, the characters
      before the padding must belong to the alphabet, and the unused bits of a
      final partial group are ignored. */
  function Decode(s: string): Option<seq<byte>> {
    var body := s[..|s| - TrailingPad(s)];
    if |s| % 4 != 0 then None
    else if !(forall i :: 0 <= i < |body| ==> IsBase64Char(body[i])) then None
    else Some(Octets(Values(body)))
  }

  /** Removing the padding that `Encode` adds leaves the alphabet characters. */
  lemma EncodeBody(b: seq<byte>)
    ensures var s := Encode(b);
      TrailingPad(s) == PadCount(|b|) && s[..|s| - TrailingPad(s)] == Chars(Sextets(b))
  {
    var s, vs := Encode(b), Sextets(b);
    var n := |vs|;
    assert |s| == n + PadCount(|b|);
    assert n > 0 ==> s[n - 1] == CharOf(vs[n - 1]) && s[n - 1] != '=';
    assert PadCount(|b|) > 0 ==> n > 1 && s[n - 2] == CharOf(vs[n - 2]);
    assert TrailingPad(s) == PadCount(|b|);
    assert s[..n] == Chars(vs);
  }

  lemma MultipleOfFour(k: nat)
    ensures (4 * k) % 4 == 0
  {
  }

  /** A text of whole groups whose unpadded part spells `vs` decodes to the
      octets of `vs`. */
  lemma DecodeChars(s: string, vs: seq<sextet>)
    requires |s| % 4 == 0 && s[..|s| - TrailingPad(s)] == Chars(vs)
    ensures Decode(s) == Some(Octets(vs))
  {
    ValuesOfChars(vs);
  }

  /** Decoding undoes encoding. */
  lemma DecodeEncode(b: seq<byte>)
    ensures Decode(Encode(b)) == Some(b)
  {
    EncodeShape(b);
    MultipleOfFour((|b| + 2) / 3);
    EncodeBody(b);
    DecodeChars(Encode(b), Sextets(b));
    OctetsOfSextets(b);
  }

  /** So `Encode` is injective. */
  lemma EncodeInjective(b1: seq<byte>, b2: seq<byte>)
    requires Encode(b1) == Encode(b2)
    ensures b1 == b2
  {
    DecodeEncode(b1);
    DecodeEncode(b2);
  }
}
