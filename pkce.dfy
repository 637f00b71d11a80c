/** The two PKCE values of RFC 7636 that `src/auth.ts` computes: the code
    verifier (`generateCodeVerifier`) and its S256 code challenge
    (`generateCodeChallenge`). */
module Pkce {
  import opened Base64
  import opened Base64Url

  /** `possible` in `generateCodeVerifier`. */
  const Possible: string := "ABCDEFGHIJKLMNOPQRSTUVWXYZ" + "abcdefghijklmnopqrstuvwxyz" + "0123456789"

  /** The value of `Math.floor(Math.random() * possible.length)`: an index
      into `Possible`. */
  type PossibleIndex = i: int | 0 <= i < 62

  /** The length `redirectToAuthCodeFlow` asks for. */
  const VerifierLength: nat := 128

  predicate IsAlphanumeric(c: char) {
    ('A' <= c <= 'Z') || ('a' <= c <= 'z') || ('0' <= c <= '9')
  }

  /** `unreserved` of section 4.1 of RFC 7636 (the set of section 2.3 of RFC 3986). */
  predicate IsUnreserved(c: char) {
    IsAlphanumeric(c) || c == '-' || c == '.' || c == '_' || c == '~'
  }

  /** `43*128unreserved`: the grammar sections 4.1 and 4.2 of RFC 7636 give for
      both `code-verifier` and `code-challenge`. */
  predicate IsPkceValue(s: string) {
    43 <= |s| <= 128 && forall i :: 0 <= i < |s| ==> IsUnreserved(s[i])
  }

  lemma PossibleIsAlphanumeric()
    ensures |Possible| == 62
    ensures forall i :: 0 <= i < |Possible| ==> IsAlphanumeric(Possible[i])
  {
    var upper, lower, digits := "ABCDEFGHIJKLMNOPQRSTUVWXYZ", "abcdefghijklmnopqrstuvwxyz", "0123456789";
    assert forall i :: 0 <= i < |upper| ==> 'A' <= upper[i] <= 'Z';
    assert forall i :: 0 <= i < |lower| ==> 'a' <= lower[i] <= 'z';
    assert forall i :: 0 <= i < |digits| ==> '0' <= digits[i] <= '9';
  }

  /** `generateCodeVerifier(length)`: one character of `Possible` per iteration,
      chosen by the `i`-th draw of the random source `draw`. */
  method GenerateCodeVerifier(length: nat, draw: nat -> PossibleIndex) returns (text: string)
    ensures |text| == length
    ensures forall i :: 0 <= i < length ==> text[i] == Possible[draw(i)]
    ensures forall i :: 0 <= i < length ==> IsAlphanumeric(text[i])
    ensures 43 <= length <= 128 ==> IsPkceValue(text)
  {
    PossibleIsAlphanumeric();
    text := "";
    for i := 0 to length
      invariant |text| == i
      invariant forall j :: 0 <= j < i ==> text[j] == Possible[draw(j)]
    {
      text := text + [Possible[draw(i)]];
    }
  }

  /** A SHA-256 digest: 32 octets. */
  type Digest = s: seq<byte> | |s| == 32 witness seq(32, _ => 0)

  /** `generateCodeChallenge(verifier)`: the base64 encoding of the digest of
      the verifier, made URL-safe and unpadded. `sha256` stands for
      `crypto.subtle.digest('SHA-256', new TextEncoder().encode(verifier))`. */
  function CodeChallenge(verifier: string, sha256: string -> Digest): (c: string)
    ensures |c| == 43
    ensures forall i :: 0 <= i < |c| ==> IsUrlChar(c[i])
  {
    var d := sha256(verifier);
    DigestEncodingShape(d);
    ToUrlNoPadOfEncode(d);
    ToUrlNoPad(Encode(d))
  }

  /** For a 32-octet digest, base64 gives 44 characters of which only the last
      is `=`. */
  lemma DigestEncodingShape(d: Digest)
    ensures var e := Encode(d);
      |e| == 44 && e[43] == '=' && PadCount(|d|) == 1 &&
      (forall i :: 0 <= i < 43 ==> IsBase64Char(e[i]))
  {
    EncodeShape(d);
  }

  /** So the challenge is the first 43 of them, with `+` and `/` replaced. */
  lemma ChallengeShape(verifier: string, sha256: string -> Digest)
    ensures var e, c := Encode(sha256(verifier)), CodeChallenge(verifier, sha256);
      |e| == 44 && e[43] == '=' && e[42] != '=' && |c| == 43 &&
      (forall i :: 0 <= i < 43 ==> c[i] == UrlChar(e[i])) &&
      (forall i :: 0 <= i < 43 ==> c[i] != '+' && c[i] != '/' && c[i] != '=')
  {
    var d := sha256(verifier);
    DigestEncodingShape(d);
    ToUrlNoPadOfEncode(d);
  }

  /** The challenge meets the grammar of section 4.2 of RFC 7636. */
  lemma ChallengeIsPkceValue(verifier: string, sha256: string -> Digest)
    ensures IsPkceValue(CodeChallenge(verifier, sha256))
  {
    ChallengeShape(verifier, sha256);
    ToUrlNoPadOfEncode(sha256(verifier));
  }

  /** Two verifiers give the same challenge only when their digests are equal:
      the encoding steps after the digest lose nothing. */
  lemma ChallengeDeterminesDigest(v1: string, v2: string, sha256: string -> Digest)
    requires CodeChallenge(v1, sha256) == CodeChallenge(v2, sha256)
    ensures sha256(v1) == sha256(v2)
  {
    ToUrlNoPadInjective(sha256(v1), sha256(v2));
  }
}
