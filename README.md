# Spotify sign-in: OAuth 2.0 authorization code flow with PKCE

This project models `src/auth.ts`, the client side of the app's Spotify login.
That login is the authorization code grant of section 4.1 of RFC 6749 with
Proof Key for Code Exchange (RFC 7636, method `S256`). The model has two steps:

1. `redirectToAuthCodeFlow` makes a 128-character code verifier. It derives the
   S256 code challenge from it, stores the verifier in local storage under
   `"verifier"`, and sends the browser to Spotify's authorization endpoint with
   six query parameters in a fixed order.
2. `getAccessToken` reads the verifier back. If there is none it throws and
   sends nothing. Otherwise it posts a five-field form to the token endpoint and
   turns the response into the access token or an error.

The files:

- `wrappers.dfy` holds `Option`.
- `base64.dfy` holds the base64 encoding of section 4 of RFC 4648, which is what
  `btoa` computes on a digest. It also holds a decoder, which is the partner that
  shows the encoding loses nothing.
- `base64url.dfy` holds the three `replace` calls that turn base64 into unpadded
  base64url (section 5 of RFC 4648), and their inverse.
- `pkce.dfy` holds the verifier loop, the challenge, and the value grammar of
  sections 4.1 and 4.2 of RFC 7636.
- `auth.dfy` holds `URLSearchParams` as a class, and the browser as a class.
  The browser's `storage` is a map. Its `trace` records storage writes, the
  navigation and the token request, in order.

Things the code cannot see become parameters of the model:

- The random source is `draw`, which gives the index chosen in iteration `i`.
- The digest primitive is `sha256`, which returns 32 octets.
- The network is `fetch`, which gives the response to a request.

## Model

| member | source | states |
|---|---|---|
| Pkce.GenerateCodeVerifier | src/auth.ts:71-79 | Returns exactly `length` characters. Character `i` is the one of `possible` that draw `i` picks, so every character is alphanumeric. For 43 to 128 characters the result is a valid `code-verifier` of section 4.1 of RFC 7636. |
| Pkce.PossibleIsAlphanumeric | src/auth.ts:73 | The alphabet has 62 characters, all ASCII letters or digits. |
| Base64.OctetsOfSextets | src/auth.ts:84 | Splitting octets into 6-bit groups and reassembling them gives the original octets, for every length, including a trailing group of one or two octets. |
| Base64.OctetsOfGroup | src/auth.ts:84 | A full group of three octets comes back from its four 6-bit values, whatever follows it. |
| Base64.Encode | src/auth.ts:84 | `btoa` of the digest's binary string gives 4 characters for each started group of 3 octets. Its partner is `Base64.Decode` (see `Base64.DecodeEncode`). |
| Base64.EncodeShape | src/auth.ts:84 | `btoa` output has 4 characters for each started group of 3 octets. It is alphabet characters followed by exactly `PadCount` `=` signs. |
| Base64.EncodeBody | src/auth.ts:84 | Stripping the trailing `=` from the encoding removes exactly the padding and leaves the alphabet characters of the 6-bit values. |
| Base64.ValuesOfChars | src/auth.ts:84 | Mapping alphabet characters back to 6-bit values undoes mapping the values to characters. |
| Base64.DecodeEncode | src/auth.ts:84 | Decoding the base64 encoding of any octet string gives that string back. |
| Base64.EncodeInjective | src/auth.ts:84 | Two octet strings with the same base64 encoding are equal. |
| Base64Url.ReplaceAll | src/auth.ts:85-86 | A global single-character `replace` keeps the length, replaces every occurrence, and changes nothing else. |
| Base64Url.ToUrlNoPad | src/auth.ts:85-87 | The three replacements keep a prefix of their input and make each kept character URL-safe, so no `+` or `/` is left. Everything dropped is `=`, and the result does not end in `=`. Its partner is `Base64Url.FromUrlNoPad` (see `Base64Url.FromUrlToUrl`). |
| Base64Url.StripTrailing | src/auth.ts:87 | `replace(/=+$/, '')` returns the longest prefix that does not end in `=`. Everything it removed was `=`. |
| Base64Url.ToUrlNoPadOfEncode | src/auth.ts:84-87 | Applied to a base64 encoding, the three replacements drop exactly the padding. Every remaining character becomes its URL-safe form, so no `+`, `/` or `=` is left. |
| Base64Url.FromUrlToUrl | src/auth.ts:84-87 | Mapping `-` and `_` back and re-padding to a multiple of four characters restores the base64 text. |
| Base64Url.ToUrlNoPadInjective | src/auth.ts:84-87 | Different octet strings give different base64url texts. |
| Pkce.DigestEncodingShape | src/auth.ts:83-84 | A 32-octet digest encodes to 44 characters. The first 43 are alphabet characters and the last is `=`, so exactly one `=` is padding. |
| Pkce.CodeChallenge | src/auth.ts:81-88 | `generateCodeChallenge` returns 43 characters, all from the URL-safe alphabet. |
| Pkce.ChallengeShape | src/auth.ts:81-88 | The challenge has 43 characters: the first 43 characters of the 44-character encoding of the digest, each made URL-safe. It has no `+`, `/` or `=`. |
| Pkce.ChallengeIsPkceValue | src/auth.ts:81-88 | Every challenge meets the `code-challenge` grammar of section 4.2 of RFC 7636. |
| Pkce.ChallengeDeterminesDigest | src/auth.ts:81-88 | Two verifiers give the same challenge only if their digests are equal. |
| Auth.Lookup | src/auth.ts:14 | `URLSearchParams.get` is the reference reader of the parameter lists the code builds. When it finds a value, some pair has that name and that value. |
| Auth.LookupNone | src/auth.ts:14 | A property of that reader: `get` returns `null` exactly when no pair has the name, in both directions. |
| Auth.LookupAt | src/auth.ts:14 | A property of that reader: `get` returns the value of the first pair with the name. |
| Auth.SearchParams.Append | src/auth.ts:25 | `append` adds one pair at the end and keeps the earlier ones. |
| Auth.AuthorizeQuery | src/auth.ts:24-30 | The authorization query has six parameters, and no name occurs twice. So reading any of them by name gives the one value the code appended. |
| Auth.TokenForm | src/auth.ts:40-45 | The token form has five fields, and no name occurs twice. |
| Auth.AuthorizeParams | src/auth.ts:24-30 | Builds the six authorization parameters in the code's order: `client_id`, `response_type=code`, `redirect_uri`, `scope`, `code_challenge_method=S256`, `code_challenge`. |
| Auth.TokenParams | src/auth.ts:40-45 | Builds the five token-request fields in the code's order: `client_id`, `grant_type=authorization_code`, `code`, `redirect_uri`, `code_verifier`. |
| Auth.AuthorizeQueryLookups | src/auth.ts:24-30 | Each authorization parameter reads back by name with the value the code appended. The redirect URI is the constant of line 9. |
| Auth.TokenFormLookups | src/auth.ts:40-45 | Each token-request field reads back by name with the value the code appended. The redirect URI is the constant of line 9. |
| Auth.AuthorizeQueryConforms | src/auth.ts:19-30 | The authorization request asks for a code with method S256. Its challenge meets section 4.2 of RFC 7636. |
| Auth.TokenFormMatchesAuthorization | src/auth.ts:9 | Both requests carry the same `client_id` and the same `redirect_uri` (as section 4.1.3 of RFC 6749 requires). The presented verifier passes the S256 check of section 4.6 of RFC 7636 against the challenge sent earlier. |
| Auth.OnlyMatchingDigestVerifies | src/auth.ts:81-88 | Any string that passes the S256 check against a verifier's challenge has the same SHA-256 digest as that verifier. |
| Auth.VerifierPassesCheck | src/auth.ts:30-45 | The `code_verifier` of the token form built from a verifier passes the S256 check against the `code_challenge` of the query built from that verifier's challenge. |
| Auth.GetItem | src/auth.ts:37 | `localStorage.getItem` returns `null` exactly when the key is absent, and the stored string otherwise. |
| Auth.HasVerifier | src/auth.ts:37-38 | The guard `!verifier` lets the code continue exactly when the key is present and its value is non-empty. Both `null` and `""` are falsy. |
| Auth.Browser.RedirectToAuthCodeFlow | src/auth.ts:18-33 | It generates a 128-character valid verifier and stores it under `"verifier"`. No other key changes. It then navigates once to the authorize endpoint, with the challenge of that verifier. The storage write comes before the navigation. |
| Auth.Browser.GetAccessToken | src/auth.ts:36-69 | A missing or empty verifier gives `MissingVerifier`, with no request sent. Otherwise it posts one form-encoded request to the token endpoint with the stored verifier. An unparsable body gives `InvalidJson`. Any other non-2xx response gives `TokenRequestFailed`, so a non-2xx response always fails. A 2xx `null` body gives `NullTokenResponse`, the `TypeError` of reading a member of `null`. Any other 2xx body gives its `access_token`, or undefined when that member is absent. Storage is unchanged. |
| Auth.SignIn | src/auth.ts:18-45 | The redirect followed by the exchange: one storage write, one navigation, one token request. The `code_verifier` that the recorded request carries passes the S256 check against the `code_challenge` of the recorded navigation. |

## Left out

- SHA-256 and `TextEncoder` (src/auth.ts:82-83): both are one parameter, `sha256`, that returns 32 octets. The digest algorithm itself is not modelled. The Web Crypto API being absent is not modelled either: the code does not handle it.
- `Math.random`/`Math.floor` (src/auth.ts:76): the `draw` parameter gives an index in `[0, 62)` for each iteration. Randomness and its distribution are not modelled.
- Pkce.GenerateCodeVerifier: takes `length` as a natural number. It does not model a JavaScript `length` that is negative or not an integer.
- `fetch` and the network (src/auth.ts:48-54): a pure function from request to response. Transport failures (a rejected promise) and the HTTP status code beyond `ok` are not modelled.
- `document.location` (src/auth.ts:32): the navigation is a `Navigate` event in the trace, not a page unload.
- `URLSearchParams.toString` and its percent-encoding: query strings and form bodies are kept as lists of name/value pairs.
- `console.error` (src/auth.ts:58, 64): logging has no effect on what the model computes.
- `async`/`await`: the two functions run to completion in program order. Interleaving with other code on the page is not modelled.
- Parsed JSON: a response body is unparsable, `null`, or any other value given by its string-valued members. Members that are not strings are not modelled. This means an `access_token` that is a number or an object is treated as absent.
- `getAuthCode` (src/auth.ts:12-15): it reads the page URL, which is browser I/O. The `URLSearchParams.get` it calls is modelled, as `Lookup`.
- The module-level `clientID` (src/auth.ts:6): it is read from the build environment and never used in this file.
- `src/App.tsx`, `src/pages/Login.tsx`, `src/pages/Callback.tsx` and `src/main.tsx` are not part of this model. These are the UI around these functions. For example, the callback page stores the access token only after `getAccessToken` succeeds (src/pages/Callback.tsx:21-22).

Behaviour of the code that the model keeps:

- A 2xx response whose JSON has no `access_token` returns `undefined`, with no error. The model gives `Token(None)`.
- There is no separate error for a missing Web Crypto API. The call then throws a `TypeError`, which is not modelled.
- The guard `!verifier` also rejects an empty stored string, so the model treats `""` like a missing key.
- On a non-2xx status the code first parses the body as JSON. An unparsable error body therefore throws the JSON error rather than "Failed to get access token". The model gives `InvalidJson`.
- After a successful response the code checks `!response.ok` a second time (src/auth.ts:63-66). That branch can never run, and the model proves this with `assert false`.
