/** The pure parts of `OAuthService`: the GitHub authorization URL and the
    check of the token-exchange response. The HTTP calls are outside the
    model; `urlencode` is modelled as a `key=value` / `&` serializer over an
    abstract percent-encoder `quote`. */
module OAuthService {
  import opened Wrappers
  import opened Values
  import opened Text
  import opened DomainExceptions
  import opened ExceptionsHandler

  const GITHUB_HOST := "github.com"
  const GITHUB_AUTH_URL := "https://" + GITHUB_HOST + "/login/oauth/authorize"
  const SCOPE := "repo"

  type Params = seq<(string, string)>

  /** The query parameters, in order: `client_id`, `redirect_uri`, `scope`,
      and `state` last, only when a non-empty one is given. */
  function AuthorizeParams(clientId: string, redirectUri: string, state: Option<string>): (ps: Params)
    ensures |ps| >= 3 && ps[..3] == [("client_id", clientId), ("redirect_uri", redirectUri), ("scope", SCOPE)]
    ensures |ps| == 4 <==> state.Some? && state.value != ""
    ensures |ps| == 4 ==> ps[3] == ("state", state.value)
    ensures |ps| <= 4
  {
    var ps := [("client_id", clientId), ("redirect_uri", redirectUri), ("scope", SCOPE)];
    if state.Some? && state.value != "" then ps + [("state", state.value)] else ps
  }

  /** One `key=value` pair, both sides encoded. */
  function EncodePair(p: (string, string), quote: string -> string): string {
    quote(p.0) + "=" + quote(p.1)
  }

  /** `urlencode(params)`. */
  function UrlEncode(ps: Params, quote: string -> string): string {
    Join(seq(|ps|, i requires 0 <= i < |ps| => EncodePair(ps[i], quote)), "&")
  }

  /** `get_github_authorize_url(state)`: the GitHub authorization endpoint,
      then `?`, then the encoded parameters. */
  function AuthorizeUrl(clientId: string, redirectUri: string, state: Option<string>, quote: string -> string): (url: string)
    ensures |url| > |GITHUB_AUTH_URL| && url[..|GITHUB_AUTH_URL|] == GITHUB_AUTH_URL && url[|GITHUB_AUTH_URL|] == '?'
    ensures Contains(url, GITHUB_HOST)
  {
    var url := GITHUB_AUTH_URL + "?" + UrlEncode(AuthorizeParams(clientId, redirectUri, state), quote);
    assert url[..|GITHUB_AUTH_URL|] == GITHUB_AUTH_URL;
    assert GITHUB_AUTH_URL[8..18] == GITHUB_HOST;
    var query := "?" + UrlEncode(AuthorizeParams(clientId, redirectUri, state), quote);
    ContainsInPrefix(GITHUB_AUTH_URL, query, GITHUB_HOST, 8);
    assert url == GITHUB_AUTH_URL + query;
    url
  }

  lemma ContainsInPrefix(p: string, rest: string, sub: string, k: nat)
    requires OccursAt(p, sub, k)
    ensures Contains(p + rest, sub)
  {
    assert (p + rest)[k..k + |sub|] == p[k..k + |sub|];
    assert OccursAt(p + rest, sub, k);
  }

  /** Reading a query back: split on `&`, then each pair on `=`, decoding
      both sides with `unquote`. */
  function ParseQuery(query: string, unquote: string -> string): Params {
    var parts := Split(query, '&');
    seq(|parts|, i requires 0 <= i < |parts| =>
      var kv := Split(parts[i], '=');
      (unquote(kv[0]), unquote(Join(kv[1..], "="))))
  }

  /** An encoder whose output never holds the two delimiters and which
      `unquote` undoes. */
  ghost predicate SafeEncoder(quote: string -> string, unquote: string -> string) {
    forall s :: '&' !in quote(s) && '=' !in quote(s) && unquote(quote(s)) == s
  }

  /** With such an encoder, the encoded parameters read back as exactly the
      parameters, in order. */
  lemma {:induction false} UrlEncodeRoundTrip(ps: Params, quote: string -> string, unquote: string -> string)
    requires SafeEncoder(quote, unquote)
    requires |ps| >= 1
    ensures ParseQuery(UrlEncode(ps, quote), unquote) == ps
  {
    var pairs := seq(|ps|, i requires 0 <= i < |ps| => EncodePair(ps[i], quote));
    forall k | 0 <= k < |pairs| ensures '&' !in pairs[k] {
      assert pairs[k] == quote(ps[k].0) + "=" + quote(ps[k].1);
    }
    SplitJoin(pairs, '&');
    assert Split(UrlEncode(ps, quote), '&') == pairs;
    forall i | 0 <= i < |ps| ensures ParseQuery(UrlEncode(ps, quote), unquote)[i] == ps[i] {
      var kv := [quote(ps[i].0), quote(ps[i].1)];
      assert Join(kv, "=") == pairs[i];
      SplitJoin(kv, '=');
      assert kv[1..] == [quote(ps[i].1)];
    }
  }

  /** The authorization query reads back as the intended parameters. */
  lemma AuthorizeQueryRoundTrip(clientId: string, redirectUri: string, state: Option<string>,
                                quote: string -> string, unquote: string -> string)
    requires SafeEncoder(quote, unquote)
    ensures var url := AuthorizeUrl(clientId, redirectUri, state, quote);
      ParseQuery(url[|GITHUB_AUTH_URL| + 1..], unquote) == AuthorizeParams(clientId, redirectUri, state)
  {
    var ps := AuthorizeParams(clientId, redirectUri, state);
    var url := AuthorizeUrl(clientId, redirectUri, state, quote);
    assert url == GITHUB_AUTH_URL + "?" + UrlEncode(ps, quote);
    assert url[|GITHUB_AUTH_URL| + 1..] == UrlEncode(ps, quote);
    UrlEncodeRoundTrip(ps, quote, unquote);
  }

  const UNKNOWN_GITHUB_ERROR := "Unknown error from GitHub"
  const OAUTH_ERROR_PREFIX := "GitHub OAuth error: "

  /** The check in `exchange_code_for_token` of the JSON GitHub returned: its
      `access_token` unchanged when present; otherwise ExternalServiceError
      for service "github", whose message carries `error_description` (even
      an empty one) or, without it, "Unknown error from GitHub". */
  function ExchangeTokenResponse(data: map<string, string>): (r: Result<string, DomainException>)
    ensures r.Ok? <==> "access_token" in data
    ensures r.Ok? ==> r.value == data["access_token"]
    ensures r.Err? ==> r.error.kind == ExternalService && r.error.details == map["service" := Str("github")]
    ensures r.Err? && "error_description" in data ==> r.error.message == OAUTH_ERROR_PREFIX + data["error_description"]
    ensures r.Err? && "error_description" !in data ==> r.error.message == OAUTH_ERROR_PREFIX + UNKNOWN_GITHUB_ERROR
  {
    if "access_token" !in data then
      var error := if "error_description" in data then data["error_description"] else UNKNOWN_GITHUB_ERROR;
      Err(ExternalServiceError("github", OAUTH_ERROR_PREFIX + error, None))
    else Ok(data["access_token"])
  }

  /** A token response without `access_token` reaches the client as a 502
      EXTERNAL_SERVICE_ERROR naming the service "github" and carrying
      GitHub's description of the failure. */
  lemma ExchangeFailureAnswersBadGateway(data: map<string, string>)
    requires "access_token" !in data
    ensures var description := if "error_description" in data then data["error_description"] else UNKNOWN_GITHUB_ERROR;
      HandleDomainException(ExchangeTokenResponse(data).error)
        == ErrorResponse(502, "EXTERNAL_SERVICE_ERROR", OAUTH_ERROR_PREFIX + description, Some(map["service" := Str("github")]))
  {
  }
}
