/** The client half of the OAuth 2.0 authorization code flow with PKCE that
    `src/auth.ts` implements (section 4.1 of RFC 6749 with RFC 7636): the
    redirect to the authorization endpoint, then the exchange of the returned
    code for an access token. The browser is a `Browser` object: its local
    storage is a map, and the navigation and the request it makes are recorded,
    in order, in a trace. */
module Auth {
  import opened Wrappers
  import opened Pkce

  /** `redirectURI`. */
  const RedirectUri: string := "http://127.0.0.1:5173/callback"

  const AuthorizeEndpoint: string := "https://accounts.spotify.com/authorize"
  const TokenEndpoint: string := "https://accounts.spotify.com/api/token"
  const FormContentType: string := "application/x-www-form-urlencoded"

  /** The scopes the authorization request asks for, space-separated. */
  const Scope: string := "user-read-private user-read-email user-top-read user-library-read user-read-playback-state user-read-recently-played"

  /** The local storage key of the code verifier. */
  const VerifierKey: string := "verifier"

  /** One name/value pair of a query string or form body, before any
      percent-encoding. */
  datatype Param = Param(name: string, value: string)

  /** `URLSearchParams` as the code uses it: an ordered list of pairs that
      `append` extends at the end. */
  class SearchParams {
    var entries: seq<Param>

    constructor ()
      ensures entries == []
    {
      entries := [];
    }

    method Append(name: string, value: string)
      modifies this
      ensures entries == old(entries) + [Param(name, value)]
    {
      entries := entries + [Param(name, value)];
    }
  }

  /** The value of the first pair called `name`, as `URLSearchParams.get`
      returns it (`null` when there is none). This is how the receiving end
      reads the lists the code builds. */
  function Lookup(ps: seq<Param>, name: string): (r: Option<string>)
    ensures r.Some? ==> Param(name, r.value) in ps
    decreases |ps|
  {
    if |ps| == 0 then None
    else if ps[0].name == name then Some(ps[0].value)
    else Lookup(ps[1..], name)
  }

  /** `Lookup` finds nothing exactly when no pair is called `name`. */
  lemma {:induction false} LookupNone(ps: seq<Param>, name: string)
    ensures Lookup(ps, name).None? <==> forall i :: 0 <= i < |ps| ==> ps[i].name != name
    decreases |ps|
  {
    if |ps| > 0 {
      LookupNone(ps[1..], name);
      assert forall i :: 1 <= i < |ps| ==> ps[i] == ps[1..][i - 1];
    }
  }

  /** The pair at `i` is the first one called `name`, so `Lookup` finds it. */
  lemma {:induction false} LookupAt(ps: seq<Param>, i: nat, name: string)
    requires i < |ps| && ps[i].name == name
    requires forall j :: 0 <= j < i ==> ps[j].name != name
    ensures Lookup(ps, name) == Some(ps[i].value)
    decreases i
  {
    if i > 0 {
      LookupAt(ps[1..], i - 1, name);
    }
  }

  /** No name occurs twice, so every pair is the one `Lookup` finds. */
  predicate DistinctNames(ps: seq<Param>) {
    forall i, j :: 0 <= i < j < |ps| ==> ps[i].name != ps[j].name
  }

  /** The query of the authorization request (section 4.1.1 of RFC 6749,
      section 4.3 of RFC 7636), in the order the code appends it. */
  function AuthorizeQuery(clientId: string, challenge: string): (q: seq<Param>)
    ensures |q| == 6
    ensures DistinctNames(q)
  {
    [Param("client_id", clientId),
     Param("response_type", "code"),
     Param("redirect_uri", RedirectUri),
     Param("scope", Scope),
     Param("code_challenge_method", "S256"),
     Param("code_challenge", challenge)]
  }

  /** The form body of the token request (section 4.1.3 of RFC 6749,
      section 4.5 of RFC 7636), in the order the code appends it. */
  function TokenForm(clientId: string, code: string, verifier: string): (f: seq<Param>)
    ensures |f| == 5
    ensures DistinctNames(f)
  {
    [Param("client_id", clientId),
     Param("grant_type", "authorization_code"),
     Param("code", code),
     Param("redirect_uri", RedirectUri),
     Param("code_verifier", verifier)]
  }

  datatype TokenRequest = TokenRequest(url: string, httpMethod: string, contentType: string, body: seq<Param>)

  /** The POST `getAccessToken` sends for a given code and stored verifier. */
  function TokenRequestFor(clientId: string, code: string, verifier: string): TokenRequest {
    TokenRequest(TokenEndpoint, "POST", FormContentType, TokenForm(clientId, code, verifier))
  }

  /** What `response.json()` gives: a failure to parse, the JSON value `null`
      (on which reading a member throws), or any other value, given by its
      string-valued members (none for a number, a string, an array or a
      boolean, whose `access_token` is `undefined`). */
  datatype Body = Unparsable | JsonNull | Json(fields: map<string, string>)

  /** The part of a `fetch` response the code reads. */
  datatype Response = Response(ok: bool, body: Body)

  /** Why `getAccessToken` throws: no verifier in storage, a body that is not
      JSON, a response whose status is not in the 2xx range, or a 2xx body
      that is `null` (the `TypeError` of reading `access_token` from it). */
  datatype AuthError = MissingVerifier | InvalidJson | TokenRequestFailed | NullTokenResponse

  /** What `getAccessToken` settles to: the `access_token` member of the
      response (`None` for `undefined`, as the code does not check it), or the
      error it throws. */
  datatype Outcome = Token(accessToken: Option<string>) | Failed(error: AuthError)

  /** Side effects on the world outside the page, in the order they happen. */
  datatype Event =
    | StorageSet(key: string, value: string)
    | Navigate(url: string, query: seq<Param>)
    | Post(request: TokenRequest)

  /** `localStorage.getItem(key)`: the stored string, or `null`. */
  function GetItem(storage: map<string, string>, key: string): (r: Option<string>)
    ensures r.None? <==> key !in storage
    ensures r.Some? ==> key in storage && r.value == storage[key]
  {
    if key in storage then Some(storage[key]) else None
  }

  /** The negation of `!verifier` for the result of `getItem("verifier")`:
      both `null` and the empty string are falsy, so a verifier counts only
      when the key is there and its value is not empty. */
  predicate HasVerifier(storage: map<string, string>): (b: bool)
    ensures b <==> VerifierKey in storage && |storage[VerifierKey]| > 0
  {
    var verifier := GetItem(storage, VerifierKey);
    verifier.Some? && verifier.value != ""
  }

  /** What section 4.6 of RFC 7636 has the server check with S256: the
      challenge of the presented verifier equals the one it was sent before. */
  predicate S256Verifies(verifier: string, challenge: string, sha256: string -> Digest) {
    CodeChallenge(verifier, sha256) == challenge
  }

  /** The `code_verifier` of a token request passes the S256 check against the
      `code_challenge` of an authorization request. */
  predicate PresentsChallengedVerifier(query: seq<Param>, form: seq<Param>, sha256: string -> Digest) {
    Lookup(form, "code_verifier").Some? && Lookup(query, "code_challenge").Some? &&
    S256Verifies(Lookup(form, "code_verifier").value, Lookup(query, "code_challenge").value, sha256)
  }

  /** The `URLSearchParams` that `redirectToAuthCodeFlow` builds. */
  method AuthorizeParams(clientId: string, challenge: string) returns (query: seq<Param>)
    ensures query == AuthorizeQuery(clientId, challenge)
  {
    var params := new SearchParams();
    params.Append("client_id", clientId);
    params.Append("response_type", "code");
    params.Append("redirect_uri", RedirectUri);
    params.Append("scope", Scope);
    params.Append("code_challenge_method", "S256");
    params.Append("code_challenge", challenge);
    query := params.entries;
  }

  /** The `URLSearchParams` that `getAccessToken` builds. */
  method TokenParams(clientId: string, code: string, verifier: string) returns (form: seq<Param>)
    ensures form == TokenForm(clientId, code, verifier)
  {
    var params := new SearchParams();
    params.Append("client_id", clientId);
    params.Append("grant_type", "authorization_code");
    params.Append("code", code);
    params.Append("redirect_uri", RedirectUri);
    params.Append("code_verifier", verifier);
    form := params.entries;
  }

  class Browser {
    /** `window.localStorage`. */
    var storage: map<string, string>
    /** Storage writes, navigations and requests, oldest first. */
    var trace: seq<Event>

    constructor (storage: map<string, string>)
      ensures this.storage == storage && trace == []
    {
      this.storage := storage;
      trace := [];
    }

    /** `redirectToAuthCodeFlow(clientId)`. `draw` is the random source of
        `generateCodeVerifier` and `sha256` the digest primitive. The verifier
        is stored under "verifier" and only then does the page navigate, with
        the challenge of that same verifier; no other key changes. */
    method RedirectToAuthCodeFlow(clientId: string, draw: nat -> PossibleIndex, sha256: string -> Digest)
      modifies this
      ensures VerifierKey in storage
      ensures var v := storage[VerifierKey];
        |v| == VerifierLength && IsPkceValue(v) &&
        (forall i :: 0 <= i < VerifierLength ==> v[i] == Possible[draw(i)]) &&
        storage == old(storage)[VerifierKey := v] &&
        trace == old(trace) + [StorageSet(VerifierKey, v),
                               Navigate(AuthorizeEndpoint, AuthorizeQuery(clientId, CodeChallenge(v, sha256)))]
    {
      var verifier := GenerateCodeVerifier(VerifierLength, draw);
      var challenge := CodeChallenge(verifier, sha256);

      storage := storage[VerifierKey := verifier];
      trace := trace + [StorageSet(VerifierKey, verifier)];

      var query := AuthorizeParams(clientId, challenge);
      trace := trace + [Navigate(AuthorizeEndpoint, query)];
    }

    /** `getAccessToken(clientId, code)`. `fetch` gives the response the token
        endpoint sends to a request. Without a verifier nothing is sent; a
        non-2xx response is always an error; storage never changes. */
    method GetAccessToken(clientId: string, code: string, fetch: TokenRequest -> Response) returns (outcome: Outcome)
      modifies this`trace
      ensures storage == old(storage)
      ensures !HasVerifier(storage) ==> outcome == Failed(MissingVerifier) && trace == old(trace)
      ensures HasVerifier(storage) ==>
        var request := TokenRequestFor(clientId, code, storage[VerifierKey]);
        var response := fetch(request);
        trace == old(trace) + [Post(request)] &&
        (!response.ok ==> outcome.Failed?) &&
        (response.body.Unparsable? ==> outcome == Failed(InvalidJson)) &&
        (!response.ok && !response.body.Unparsable? ==> outcome == Failed(TokenRequestFailed)) &&
        (response.ok && response.body.JsonNull? ==> outcome == Failed(NullTokenResponse)) &&
        (response.ok && response.body.Json? ==>
           outcome == Token(if "access_token" in response.body.fields
                            then Some(response.body.fields["access_token"]) else None))
    {
      var verifier := GetItem(storage, VerifierKey);
      if verifier.None? || verifier.value == "" {
        return Failed(MissingVerifier);
      }

      var form := TokenParams(clientId, code, verifier.value);
      var request := TokenRequest(TokenEndpoint, "POST", FormContentType, form);
      trace := trace + [Post(request)];
      var response := fetch(request);

      if !response.ok {
        // `await response.json()` throws first when the body is not JSON
        if response.body.Unparsable? {
          return Failed(InvalidJson);
        }
        return Failed(TokenRequestFailed);
      }

      if response.body.Unparsable? {
        return Failed(InvalidJson);
      }
      if response.body.JsonNull? {
        return Failed(NullTokenResponse);
      }
      var data := response.body.fields;
      if !response.ok {
        // the second check in the code: the first one has already returned
        assert false;
      }

      outcome := Token(if "access_token" in data then Some(data["access_token"]) else None);
    }
  }

  /** The whole flow on one browser: the redirect, then (once the provider has
      sent the user back with `code`) the exchange. The request carries the
      verifier whose challenge the redirect sent, so the server's check passes. */
  method SignIn(browser: Browser, clientId: string, draw: nat -> PossibleIndex, sha256: string -> Digest,
                code: string, fetch: TokenRequest -> Response) returns (outcome: Outcome)
    modifies browser
    ensures VerifierKey in browser.storage
    ensures var v := browser.storage[VerifierKey];
      browser.storage == old(browser.storage)[VerifierKey := v] &&
      browser.trace == old(browser.trace) + [StorageSet(VerifierKey, v),
                                             Navigate(AuthorizeEndpoint, AuthorizeQuery(clientId, CodeChallenge(v, sha256))),
                                             Post(TokenRequestFor(clientId, code, v))]
    ensures var v := browser.storage[VerifierKey];
      PresentsChallengedVerifier(AuthorizeQuery(clientId, CodeChallenge(v, sha256)), TokenForm(clientId, code, v), sha256)
  {
    browser.RedirectToAuthCodeFlow(clientId, draw, sha256);
    outcome := browser.GetAccessToken(clientId, code, fetch);
    VerifierPassesCheck(clientId, code, browser.storage[VerifierKey], sha256);
  }

  /** Each parameter of the authorization request can be read back by name. */
  lemma AuthorizeQueryLookups(clientId: string, challenge: string)
    ensures var q := AuthorizeQuery(clientId, challenge);
      Lookup(q, "client_id") == Some(clientId) &&
      Lookup(q, "response_type") == Some("code") &&
      Lookup(q, "redirect_uri") == Some(RedirectUri) &&
      Lookup(q, "scope") == Some(Scope) &&
      Lookup(q, "code_challenge_method") == Some("S256") &&
      Lookup(q, "code_challenge") == Some(challenge)
  {
    var q := AuthorizeQuery(clientId, challenge);
    LookupAt(q, 0, "client_id");
    LookupAt(q, 1, "response_type");
    LookupAt(q, 2, "redirect_uri");
    LookupAt(q, 3, "scope");
    LookupAt(q, 4, "code_challenge_method");
    LookupAt(q, 5, "code_challenge");
  }

  /** Each parameter of the token request can be read back by name. */
  lemma TokenFormLookups(clientId: string, code: string, verifier: string)
    ensures var f := TokenForm(clientId, code, verifier);
      Lookup(f, "client_id") == Some(clientId) &&
      Lookup(f, "grant_type") == Some("authorization_code") &&
      Lookup(f, "code") == Some(code) &&
      Lookup(f, "redirect_uri") == Some(RedirectUri) &&
      Lookup(f, "code_verifier") == Some(verifier)
  {
    var f := TokenForm(clientId, code, verifier);
    LookupAt(f, 0, "client_id");
    LookupAt(f, 1, "grant_type");
    LookupAt(f, 2, "code");
    LookupAt(f, 3, "redirect_uri");
    LookupAt(f, 4, "code_verifier");
  }

  /** The authorization request asks for a code with the S256 method and
      carries a challenge that meets the grammar of section 4.2 of RFC 7636. */
  lemma AuthorizeQueryConforms(clientId: string, verifier: string, sha256: string -> Digest)
    ensures var q := AuthorizeQuery(clientId, CodeChallenge(verifier, sha256));
      Lookup(q, "response_type") == Some("code") &&
      Lookup(q, "code_challenge_method") == Some("S256") &&
      Lookup(q, "code_challenge").Some? &&
      IsPkceValue(Lookup(q, "code_challenge").value)
  {
    AuthorizeQueryLookups(clientId, CodeChallenge(verifier, sha256));
    ChallengeIsPkceValue(verifier, sha256);
  }

  /** The token request names the same client and redirect URI as the
      authorization request, and the verifier it presents passes the S256
      check against the challenge that request carried. */
  lemma TokenFormMatchesAuthorization(clientId: string, code: string, verifier: string, sha256: string -> Digest)
    ensures var q, f := AuthorizeQuery(clientId, CodeChallenge(verifier, sha256)), TokenForm(clientId, code, verifier);
      Lookup(f, "client_id") == Lookup(q, "client_id") &&
      Lookup(f, "redirect_uri") == Lookup(q, "redirect_uri") == Some(RedirectUri) &&
      PresentsChallengedVerifier(q, f, sha256)
  {
    AuthorizeQueryLookups(clientId, CodeChallenge(verifier, sha256));
    TokenFormLookups(clientId, code, verifier);
  }

  /** The verifier the token request carries passes the S256 check against
      the challenge the authorization request carried. */
  lemma VerifierPassesCheck(clientId: string, code: string, verifier: string, sha256: string -> Digest)
    ensures PresentsChallengedVerifier(AuthorizeQuery(clientId, CodeChallenge(verifier, sha256)),
                                       TokenForm(clientId, code, verifier), sha256)
  {
    LookupAt(AuthorizeQuery(clientId, CodeChallenge(verifier, sha256)), 5, "code_challenge");
    LookupAt(TokenForm(clientId, code, verifier), 4, "code_verifier");
  }

  /** A verifier other than the stored one passes the S256 check only if it
      has the same SHA-256 digest. */
  lemma OnlyMatchingDigestVerifies(verifier: string, other: string, sha256: string -> Digest)
    requires S256Verifies(other, CodeChallenge(verifier, sha256), sha256)
    ensures sha256(other) == sha256(verifier)
  {
    ChallengeDeterminesDigest(other, verifier, sha256);
  }
}
