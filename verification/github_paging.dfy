/** The paging loop of `fetch_github_repos`: follow the `Link` response
    header's `rel="next"` target until there is none, collecting every
    page's items in order. The HTTP client is a parameter (`get`); the
    header parse is the program's own split-and-strip, not the full link
    grammar of RFC 8288. */
module GithubPaging {
  import opened Wrappers
  import opened Text
  import opened Values

  const REPOS_URL := "https://api.github.com/user/repos"
  const REL_NEXT := "rel=\"next\""
  const LINK_TRIM: set<char> := {' ', '<', '>'}

  type Params = seq<(string, string)>

  /** The query of the first request only. */
  const FIRST_PARAMS: Params := [("per_page", "100"), ("page", "1")]

  /** `part.split(";")[0].strip(" <>")`: the target of one link. */
  function LinkTarget(part: string): string {
    Strip(Split(part, ';')[0], LINK_TRIM)
  }

  /** The index of the first of `parts` containing `sub`. */
  function FirstWith(parts: seq<string>, sub: string): (k: Option<nat>)
    ensures k.None? <==> forall i :: 0 <= i < |parts| ==> !Contains(parts[i], sub)
    ensures k.Some? ==> k.value < |parts| && Contains(parts[k.value], sub)
                        && forall j :: 0 <= j < k.value ==> !Contains(parts[j], sub)
  {
    if |parts| == 0 then None
    else if Contains(parts[0], sub) then Some(0)
    else
      var rest := FirstWith(parts[1..], sub);
      if rest.None? then
        assert forall i :: 1 <= i < |parts| ==> parts[i] == parts[1..][i - 1];
        None
      else
        assert forall j :: 1 <= j < rest.value + 1 ==> parts[j] == parts[1..][j - 1];
        Some(rest.value + 1)
  }

  /** Where the loop goes next: the URL and the query of the next request. */
  datatype Cursor = Cursor(url: string, params: Params)

  /** The body of the loop after a page arrives, given its `link` header.
      A missing header counts as empty. Without `rel="next"` the URL becomes
      empty, which ends the loop. Otherwise the first comma-separated part
      holding `rel="next"` gives the URL and the query is cleared. (Were no
      part to hold it, the cursor would stay as it is; `NextAlwaysInAPart`
      shows that cannot happen.) */
  function Follow(header: Option<string>, c: Cursor): (n: Cursor)
    ensures header.None? ==> n == Cursor("", c.params)
    ensures !Contains(header.GetOr(""), REL_NEXT) ==> n == Cursor("", c.params)
    ensures n.url != "" ==> n.params == []
  {
    var link := header.GetOr("");
    if Contains(link, REL_NEXT) then
      var parts := Split(link, ',');
      NextAlwaysInAPart(link);
      match FirstWith(parts, REL_NEXT)
      case Some(k) => Cursor(LinkTarget(parts[k]), [])
      case None => c
    else Cursor("", c.params)
  }

  /** `rel="next"` holds no comma, so a header containing it has a
      comma-separated part containing it. */
  lemma NextAlwaysInAPart(link: string)
    requires Contains(link, REL_NEXT)
    ensures FirstWith(Split(link, ','), REL_NEXT).Some?
  {
    ContainedInSomePart(link, ',', REL_NEXT);
  }

  /** One well-formed link: optional leading spaces, then `<url>; rel="next"`. */
  function NextLink(pad: nat, url: string): string {
    seq(pad, _ => ' ') + "<" + url + ">; " + REL_NEXT
  }

  /** A target URL that the parse can carry through: no character that is
      trimmed or separates links or parameters. */
  predicate PlainUrl(u: string) {
    |u| > 0 && forall i :: 0 <= i < |u| ==> u[i] !in {' ', '<', '>', ';', ','}
  }

  /** The parse recovers the target of a well-formed link. */
  lemma LinkTargetOfNextLink(pad: nat, u: string)
    requires PlainUrl(u)
    ensures LinkTarget(NextLink(pad, u)) == u
  {
    var spaces := seq(pad, _ => ' ');
    var head := spaces + "<" + u + ">";
    assert NextLink(pad, u) == head + [';'] + (" " + REL_NEXT);
    assert ';' !in head by {
      assert forall i :: 0 <= i < |head| ==> head[i] == ' ' || head[i] == '<' || head[i] == '>' || head[i] in u;
    }
    SplitFirst(head, ';', " " + REL_NEXT);
    assert head == (spaces + "<") + u + ">";
    StripExact(spaces + "<", u, ">", LINK_TRIM);
  }

  /** A well-formed next link mentions `rel="next"`. */
  lemma NextLinkMentionsNext(pad: nat, u: string)
    ensures Contains(NextLink(pad, u), REL_NEXT)
  {
    var l := NextLink(pad, u);
    assert l[|l| - |REL_NEXT|..] == REL_NEXT;
    assert OccursAt(l, REL_NEXT, |l| - |REL_NEXT|);
  }

  /** For a header made of comma-separated links of which the `k`-th is the
      first mentioning `rel="next"`, and is the well-formed link to `u`, the
      next request goes to `u` with no query. */
  lemma FollowFindsNextLink(parts: seq<string>, k: nat, pad: nat, u: string, c: Cursor)
    requires k < |parts| && forall i :: 0 <= i < |parts| ==> ',' !in parts[i]
    requires forall i :: 0 <= i < k ==> !Contains(parts[i], REL_NEXT)
    requires PlainUrl(u) && parts[k] == NextLink(pad, u)
    ensures Follow(Some(Join(parts, ",")), c) == Cursor(u, [])
  {
    var link := Join(parts, ",");
    NextLinkMentionsNext(pad, u);
    ContainsThroughJoin(parts, ",", k, REL_NEXT);
    assert Contains(link, REL_NEXT);
    SplitJoin(parts, ',');
    assert Split(link, ',') == parts;
    var first := FirstWith(parts, REL_NEXT);
    assert first.Some?;
    assert first.value == k;
    LinkTargetOfNextLink(pad, u);
    assert LinkTarget(parts[k]) == u;
  }

  /** One request of the loop. */
  datatype Request = Request(url: string, params: Params)

  /** What a request returns: the page's repositories (JSON objects) and
      its `link` header. */
  datatype Page = Page(items: seq<Dict>, link: Option<string>)

  /** The request the loop makes after `req`. */
  function NextRequest(get: Request -> Page, req: Request): Request {
    var c := Follow(get(req).link, Cursor(req.url, req.params));
    Request(c.url, c.params)
  }

  /** The items of the given requests' pages, concatenated in request order. */
  function Gathered(get: Request -> Page, reqs: seq<Request>): seq<Dict> {
    if |reqs| == 0 then []
    else Gathered(get, reqs[..|reqs| - 1]) + get(reqs[|reqs| - 1]).items
  }

  /** `fetch_github_repos`, making at most `maxPages` requests. The first
      request is for the repositories endpoint with `per_page=100&page=1`;
      each later one goes where the previous page's header pointed, with no
      query; the loop stops at the first page with no next link; the result
      is every page's items in page order. */
  method FetchRepos(get: Request -> Page, maxPages: nat) returns (repos: seq<Dict>, requests: seq<Request>)
    ensures |requests| <= maxPages
    ensures maxPages > 0 ==> |requests| > 0 && requests[0] == Request(REPOS_URL, FIRST_PARAMS)
    ensures forall i :: 0 < i < |requests| ==> requests[i] == NextRequest(get, requests[i - 1])
    ensures forall i :: 0 < i < |requests| ==> requests[i].params == [] && requests[i].url != ""
    ensures 0 < |requests| < maxPages ==> NextRequest(get, requests[|requests| - 1]).url == ""
    ensures repos == Gathered(get, requests)
  {
    repos, requests := [], [];
    var url, params := REPOS_URL, FIRST_PARAMS;
    while url != "" && |requests| < maxPages
      invariant |requests| <= maxPages
      invariant |requests| == 0 ==> url == REPOS_URL && params == FIRST_PARAMS
      invariant |requests| > 0 ==> requests[0] == Request(REPOS_URL, FIRST_PARAMS)
      invariant |requests| > 0 ==> Request(url, params) == NextRequest(get, requests[|requests| - 1])
      invariant forall i :: 0 < i < |requests| ==> requests[i] == NextRequest(get, requests[i - 1])
      invariant forall i :: 0 < i < |requests| ==> requests[i].params == [] && requests[i].url != ""
      invariant repos == Gathered(get, requests)
      decreases maxPages - |requests|
    {
      var req := Request(url, params);
      var page := get(req);
      repos := repos + page.items;
      var before := requests;
      requests := requests + [req];
      assert requests[..|requests| - 1] == before;
      var c := Follow(page.link, Cursor(url, params));
      url, params := c.url, c.params;
    }
  }
}
