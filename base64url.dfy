/** The post-processing `generateCodeChallenge` applies to the output of `btoa`:
    three `String.prototype.replace` calls that turn base64 into the unpadded
    base64url form of section 5 of RFC 4648, which is what Appendix A of
    RFC 7636 asks for. */
module Base64Url {
  import opened Base64

  /** `s.replace(/x/g, y)` for single characters `x` and `y`: every occurrence
      is replaced, and nothing else changes. */
  function ReplaceAll(s: string, x: char, y: char): (r: string)
    ensures |r| == |s|
    ensures forall i :: 0 <= i < |s| ==> r[i] == (if s[i] == x then y else s[i])
    decreases |s|
  {
    if |s| == 0 then ""
    else [if s[0] == x then y else s[0]] + ReplaceAll(s[1..], x, y)
  }

  /** `s.replace(/c+$/, '')`: removes the longest run of `c` at the end of `s`.
      The result is a prefix of `s`, what was removed is all `c`, and the result
      does not itself end in `c`. */
  function StripTrailing(s: string, c: char): (r: string)
    ensures |r| <= |s| && r == s[..|r|]
    ensures forall i :: |r| <= i < |s| ==> s[i] == c
    ensures |r| == 0 || r[|r| - 1] != c
    decreases |s|
  {
    if |s| > 0 && s[|s| - 1] == c then StripTrailing(s[..|s| - 1], c) else s
  }

  /** The characters base64 uses at 62 and 63 and their base64url replacements. */
  function UrlChar(c: char): char {
    if c == '+' then '-' else if c == '/' then '_' else c
  }

  /** The alphabet of Table 2 of RFC 4648. */
  predicate IsUrlChar(c: char) {
    ('A' <= c <= 'Z') || ('a' <= c <= 'z') || ('0' <= c <= '9') || c == '-' || c == '_'
  }

  /** The three replacements of `generateCodeChallenge`, in the source's order.
      What is kept is a prefix of `e` with each character made URL-safe, and
      what is dropped is a run of `=` at the end. */
  function ToUrlNoPad(e: string): (u: string)
    ensures |u| <= |e|
    ensures forall i :: 0 <= i < |u| ==> u[i] == UrlChar(e[i])
    ensures forall i :: |u| <= i < |e| ==> e[i] == '='
    ensures forall i :: 0 <= i < |u| ==> u[i] != '+' && u[i] != '/'
    ensures |u| == 0 || u[|u| - 1] != '='
  {
    StripTrailing(ReplaceAll(ReplaceAll(e, '+', '-'), '/', '_'), '=')
  }

  /** The other direction: map `-` and `_` back and restore the padding to a
      multiple of four characters. */
  function FromUrlNoPad(u: string): string {
    ReplaceAll(ReplaceAll(u, '-', '+'), '_', '/') + Padding((4 - |u| % 4) % 4)
  }

  /** Applied to a base64 encoding, the replacements drop exactly the padding
      and change each remaining character by `UrlChar`, so that no `+`, `/` or
      `=` is left. */
  lemma ToUrlNoPadOfEncode(b: seq<byte>)
    ensures var e, u := Encode(b), ToUrlNoPad(Encode(b));
      |u| == |e| - PadCount(|b|) &&
      (forall i :: 0 <= i < |u| ==> u[i] == UrlChar(e[i]) && IsUrlChar(u[i]))
  {
    EncodeShape(b);
    var e, u := Encode(b), ToUrlNoPad(Encode(b));
    var n := |e| - PadCount(|b|);
    assert n > 0 ==> e[n - 1] != '=';
    assert |u| == n;
  }

  lemma RestoredPadCount(k: nat, p: nat)
    requires p <= 2 && p <= 4 * k
    ensures (4 - (4 * k - p) % 4) % 4 == p
  {
  }

  /** Mapping `-` back to `+` and `_` back to `/` undoes `UrlChar` on base64
      characters. */
  lemma UndoUrlChar(c: char)
    requires IsBase64Char(c)
    ensures var u := UrlChar(c);
      (if (if u == '-' then '+' else u) == '_' then '/' else (if u == '-' then '+' else u)) == c
  {
  }

  lemma UndoUrlChars(e: string, u: string)
    requires |u| <= |e|
    requires forall i :: 0 <= i < |u| ==> u[i] == UrlChar(e[i]) && IsBase64Char(e[i])
    ensures forall i :: 0 <= i < |u| ==> ReplaceAll(ReplaceAll(u, '-', '+'), '_', '/')[i] == e[i]
  {
    var m := ReplaceAll(u, '-', '+');
    var d := ReplaceAll(m, '_', '/');
    forall i | 0 <= i < |u|
      ensures d[i] == e[i]
    {
      UndoUrlChar(e[i]);
    }
  }

  lemma EqualPrefix(d: string, e: string)
    requires |d| <= |e|
    requires forall i :: 0 <= i < |d| ==> d[i] == e[i]
    ensures d == e[..|d|]
  {
  }

  lemma RestoreText(e: string, u: string, k: nat)
    requires |e| == 4 * k && |u| <= |e| <= |u| + 2
    requires forall i :: 0 <= i < |u| ==> u[i] == UrlChar(e[i]) && IsBase64Char(e[i])
    requires forall i :: |u| <= i < |e| ==> e[i] == '='
    ensures FromUrlNoPad(u) == e
  {
    var p := |e| - |u|;
    RestoredPadCount(k, p);
    var d := ReplaceAll(ReplaceAll(u, '-', '+'), '_', '/');
    UndoUrlChars(e, u);
    EqualPrefix(d, e);
    assert Padding(p) == e[|u|..];
    assert e == e[..|u|] + e[|u|..];
  }

  /** The padding is restored and the replacements undone, so nothing is lost. */
  lemma FromUrlToUrl(b: seq<byte>)
    ensures FromUrlNoPad(ToUrlNoPad(Encode(b))) == Encode(b)
  {
    var e, u := Encode(b), ToUrlNoPad(Encode(b));
    ToUrlNoPadOfEncode(b);
    EncodeShape(b);
    RestoreText(e, u, (|b| + 2) / 3);
  }

  /** Two byte strings whose encodings give the same base64url text are equal. */
  lemma ToUrlNoPadInjective(b1: seq<byte>, b2: seq<byte>)
    requires ToUrlNoPad(Encode(b1)) == ToUrlNoPad(Encode(b2))
    ensures b1 == b2
  {
    FromUrlToUrl(b1);
    FromUrlToUrl(b2);
    EncodeInjective(b1, b2);
  }
}
