/**
 * The query client: it builds the request URL from the configured API URL, a path
 * and a list of query parameters (makeUrl), and turns the outcome of the HTTP
 * exchange into a body and an error (Get).
 *
 * The exchange itself (http.NewRequest, Client.Do, io.ReadAll and the transport
 * that adds headers) is a parameter `server` that maps the URL to an `Exchange`.
 */
module Client {
  import opened GoStrings
  import opened Wrappers
  import opened UrlEscape
  import opened QueryValues
  import opened Errors

  datatype QueryParameters = QueryParameters(key: GoString, value: GoString)

  /**
   * A parsed URL as the client uses it: `origin` is the scheme and host part
   * ("http://127.0.0.1:8080", with a host), `path` the unescaped path and `query`
   * the parsed query (what URL.Query() returns).
   */
  datatype Url = Url(origin: GoString, path: GoString, query: Values)

  datatype ImdbClientOptions = ImdbClientOptions(apiUrl: Url, verbose: bool, userAgent: GoString)

  /** The client: its options, and the user agent its transport sends. */
  datatype ImdbClient = ImdbClient(transportUserAgent: GoString, options: ImdbClientOptions)

  /** client.New: keeps the options and hands the user agent to the transport. */
  function New(options: ImdbClientOptions): (c: ImdbClient)
    ensures c.options == options
    ensures c.transportUserAgent == options.userAgent
  {
    ImdbClient(options.userAgent, options)
  }

  // ---------------------------------------------------------------------------
  // URL pieces (net/url)
  // ---------------------------------------------------------------------------

  predicate Rooted(p: GoString)
  {
    |p| > 0 && p[0] == '/'
  }

  predicate EndsInSlash(p: GoString)
  {
    |p| > 0 && p[|p| - 1] == '/'
  }

  /**
   * URL.JoinPath(elem) on the unescaped path: the non-empty segments of the base
   * path and of `elem` joined by '/', rooted when the base path is, with a final
   * '/' kept when `elem` ends in one.
   */
  function JoinPath(basePath: GoString, elem: GoString): GoString
  {
    var joined := Join(Segments(basePath) + Segments(elem), '/');
    var p := if Rooted(basePath) then "/" + joined else joined;
    if EndsInSlash(elem) && !EndsInSlash(p) then p + "/" else p
  }

  /** URL.String() for a URL with a host, no user, no fragment. */
  function Render(origin: GoString, p: GoString, rawQuery: GoString): GoString
  {
    var path := EscapedPath(p);
    var slash: GoString := if path != [] && path[0] != '/' then "/" else [];
    origin + slash + path + (if rawQuery != [] then "?" + rawQuery else [])
  }

  /** The parameters in order, each Set on the map unless its key is empty. */
  function ApplyParams(q: Values, params: seq<QueryParameters>): Values
  {
    if params == [] then q
    else
      var last := params[|params| - 1];
      var before := ApplyParams(q, params[..|params| - 1]);
      if last.key != [] then Set(before, last.key, last.value) else before
  }

  /** The value of the last parameter whose key is `k`. */
  function LastValue(params: seq<QueryParameters>, k: GoString): Option<GoString>
  {
    if params == [] then None
    else if params[|params| - 1].key == k then Some(params[|params| - 1].value)
    else LastValue(params[..|params| - 1], k)
  }

  /** The URL makeUrl builds. */
  ghost function UrlFor(base: Url, path: GoString, params: seq<QueryParameters>): GoString
  {
    Render(base.origin, JoinPath(base.path, path), Encoded(ApplyParams(base.query, params)))
  }

  /** client.makeUrl(path, params). */
  method MakeUrl(client: ImdbClient, path: GoString, params: seq<QueryParameters>) returns (u: GoString)
    ensures u == UrlFor(client.options.apiUrl, path, params)
  {
    var base := client.options.apiUrl;
    var p := JoinPath(base.path, path);
    var q := base.query;
    for i := 0 to |params|
      invariant q == ApplyParams(base.query, params[..i])
    {
      if params[i].key != [] {
        q := Set(q, params[i].key, params[i].value);
      }
      assert params[..i + 1][..i] == params[..i];
    }
    assert params[..|params|] == params;
    var rawQuery := Encode(q);
    u := Render(base.origin, p, rawQuery);
  }

  // ---------------------------------------------------------------------------
  // Properties of the URL
  // ---------------------------------------------------------------------------

  /**
   * After the parameters are applied, a key whose last parameter exists (and is not
   * empty) has exactly that parameter's value, so a later value for the same key
   * overrides an earlier one; every other key, the empty key included, is as the
   * base query had it.
   */
  lemma {:induction false} ApplyParamsValues(q: Values, params: seq<QueryParameters>, k: GoString)
    ensures k != [] && LastValue(params, k).Some? ==>
      k in ApplyParams(q, params) && ApplyParams(q, params)[k] == [LastValue(params, k).value]
    ensures !(k != [] && LastValue(params, k).Some?) ==>
      (k in ApplyParams(q, params) <==> k in q) && (k in q ==> ApplyParams(q, params)[k] == q[k])
  {
    if params != [] {
      ApplyParamsValues(q, params[..|params| - 1], k);
    }
  }

  /** Parameters with an empty key are dropped: the map is the same without them. */
  lemma {:induction false} EmptyKeysDropped(q: Values, params: seq<QueryParameters>)
    requires forall i :: 0 <= i < |params| ==> params[i].key == []
    ensures ApplyParams(q, params) == q
  {
    if params != [] {
      EmptyKeysDropped(q, params[..|params| - 1]);
    }
  }

  /** The segments of the joined path are those of the base path and then those of
      the element. */
  lemma JoinPathSegments(basePath: GoString, elem: GoString)
    ensures Segments(JoinPath(basePath, elem)) == Segments(basePath) + Segments(elem)
  {
    var segs := Segments(basePath) + Segments(elem);
    var joined := Join(segs, '/');
    SegmentsOfJoin(segs);
    var p := if Rooted(basePath) then "/" + joined else joined;
    if Rooted(basePath) {
      LeadingSlash(joined);
    }
    if EndsInSlash(elem) && !EndsInSlash(p) {
      TrailingSlash(p);
    }
  }

  /** A '/' in front adds no segment. */
  lemma LeadingSlash(x: GoString)
    ensures Segments(['/'] + x) == Segments(x)
  {
    var p := ['/'] + x;
    assert p[0] == '/' && p[1..] == x;
    assert Split(p, '/') == [[]] + Split(x, '/');
    assert ([[]] + Split(x, '/'))[1..] == Split(x, '/');
  }

  /** A '/' at the end adds no segment. */
  lemma TrailingSlash(x: GoString)
    ensures Segments(x + ['/']) == Segments(x)
  {
    SplitAppend(x, '/', []);
    assert x + ['/'] == x + ['/'] + [];
    NonEmptyAppend(Split(x, '/'), [[]]);
    NoSegments();
  }

  /** The non-empty segments of segments joined by '/' are those segments. */
  lemma SegmentsOfJoin(segs: seq<GoString>)
    requires forall i :: 0 <= i < |segs| ==> segs[i] != [] && '/' !in segs[i]
    ensures Segments(Join(segs, '/')) == segs
  {
    if segs == [] {
      assert Split([], '/') == [[]];
      assert Split([], '/')[1..] == [];
    } else {
      SplitJoin(segs, '/');
      NonEmptyKeeps(segs);
    }
  }

  lemma {:induction false} NonEmptyKeeps(parts: seq<GoString>)
    requires forall i :: 0 <= i < |parts| ==> parts[i] != []
    ensures NonEmpty(parts) == parts
  {
    if parts != [] {
      NonEmptyKeeps(parts[1..]);
    }
  }

  lemma {:induction false} NonEmptyAppend(a: seq<GoString>, b: seq<GoString>)
    ensures NonEmpty(a + b) == NonEmpty(a) + NonEmpty(b)
  {
    if a == [] {
      assert a + b == b;
    } else {
      assert (a + b)[0] == a[0] && (a + b)[1..] == a[1..] + b;
      NonEmptyAppend(a[1..], b);
    }
  }

  /** With nothing to encode there is no '?': the URL is the origin and the path. */
  lemma RenderWithoutQuery(origin: GoString, p: GoString)
    requires '?' !in origin
    ensures '?' !in Render(origin, p, [])
  {
    var path := EscapedPath(p);
    var slash: GoString := if path != [] && path[0] != '/' then "/" else [];
    assert Render(origin, p, []) == origin + slash + path;
  }

  /** With a query, the URL's first '?' separates the origin and path from exactly
      the encoded query. */
  lemma RenderWithQuery(origin: GoString, p: GoString, rawQuery: GoString)
    requires '?' !in origin && rawQuery != []
    ensures Cut(Render(origin, p, rawQuery), '?') == (Render(origin, p, []), rawQuery, true)
  {
    var path := EscapedPath(p);
    var slash: GoString := if path != [] && path[0] != '/' then "/" else [];
    var front := origin + slash + path;
    assert '?' !in front;
    assert Render(origin, p, rawQuery) == front + ['?'] + rawQuery;
    assert Render(origin, p, []) == front;
    CutFirst(front, '?', rawQuery);
  }

  /** When every parameter has an empty key and the base URL has no query, the URL
      has no query part and no '?'. */
  lemma NoQueryWithoutKeys(base: Url, path: GoString, params: seq<QueryParameters>)
    requires base.query == map[] && '?' !in base.origin
    requires forall i :: 0 <= i < |params| ==> params[i].key == []
    ensures UrlFor(base, path, params) == Render(base.origin, JoinPath(base.path, path), [])
    ensures '?' !in UrlFor(base, path, params)
  {
    EmptyKeysDropped(base.query, params);
    EncodedEmpty(map[]);
    RenderWithoutQuery(base.origin, JoinPath(base.path, path));
  }

  /**
   * The query of the URL reads back as the base query with the parameters applied:
   * every key whose last parameter has a non-empty key has that one value, in sorted
   * key order, and the base entries of all other keys are kept.
   */
  lemma UrlQuery(base: Url, path: GoString, params: seq<QueryParameters>, k: GoString, x: GoString)
    requires '?' !in base.origin
    requires Encoded(ApplyParams(base.query, params)) != []
    ensures var u := UrlFor(base, path, params);
      var (_, query, found) := Cut(u, '?');
      found && ParseQuery(query).Some? &&
      ((k, x) in ParseQuery(query).value <==>
        if k != [] && LastValue(params, k).Some? then x == LastValue(params, k).value
        else k in base.query && x in base.query[k])
  {
    var q := ApplyParams(base.query, params);
    RenderWithQuery(base.origin, JoinPath(base.path, path), Encoded(q));
    ParseEncoded(q);
    EncodedPairs(q, k, x);
    ApplyParamsValues(base.query, params, k);
  }

  // ---------------------------------------------------------------------------
  // Get
  // ---------------------------------------------------------------------------

  /** What the HTTP exchange for a URL gives: a failure before a status exists (with
      the library's error text) or a status and the body read. */
  datatype Exchange =
    | RequestNotCreated(cause: GoString)
    | RequestFailed(cause: GoString)
    | BodyUnreadable(cause: GoString)
    | Received(status: int, body: GoString)

  /** Get's two results: the body (nil in Go when absent) and the error. */
  datatype Response = Response(body: Option<GoString>, err: Option<Error>)

  const StatusOK := 200

  /** The messages of the three failures before a status exists (Go passes the "%w"
      verb through unformatted). */
  const CreatingRequest: GoString := "error: creating http request %w"
  const ExecutingRequest: GoString := "error: executing http request %w"
  const ReadingBody: GoString := "error: reading body of request %w"

  /** Get's handling of the exchange for the URL `url`. */
  function Classify(url: GoString, ex: Exchange): (r: Response)
    ensures r.err.None? <==> ex.Received? && ex.status == StatusOK
    ensures r.body.Some? <==> ex.Received?
    ensures r.body.Some? ==> r.body.value == ex.body
  {
    match ex
    case RequestNotCreated(cause) =>
      Response(None, Some(NewIMDBClientGenericError(CreatingRequest, Some(Foreign(cause)))))
    case RequestFailed(cause) =>
      Response(None, Some(NewIMDBClientGenericError(ExecutingRequest, Some(Foreign(cause)))))
    case BodyUnreadable(cause) =>
      Response(None, Some(NewIMDBClientGenericError(ReadingBody, Some(Foreign(cause)))))
    case Received(status, body) =>
      if status != StatusOK then
        if status == NotFoundStatus then Response(Some(body), Some(NotFound(url)))
        else Response(Some(body), Some(UnexpectedError(status, body)))
      else Response(Some(body), None)
  }

  /** client.Get(path, params): builds the URL, performs the exchange and classifies it. */
  method Get(client: ImdbClient, path: GoString, params: seq<QueryParameters>, server: GoString -> Exchange)
    returns (r: Response)
    ensures var url := UrlFor(client.options.apiUrl, path, params);
      r == Classify(url, server(url))
  {
    var url := MakeUrl(client, path, params);
    r := Classify(url, server(url));
  }

  /**
   * The status errors of Get, as errors.Is sees them: the error Is Errors.New(c, m) exactly
   * when a status c other than 200 was received and m is the URL for 404 and the
   * body otherwise. So a 404 is NotFound(u) for u the URL of this call and no other.
   */
  lemma ClassifyIs(url: GoString, ex: Exchange, c: int, m: GoString)
    requires Classify(url, ex).err.Some?
    ensures ErrorsIs(Classify(url, ex).err.value, Errors.New(c, m)) <==>
      ex.Received? && ex.status == c && c != StatusOK &&
      m == (if c == NotFoundStatus then url else ex.body)
  {
    var e := Classify(url, ex).err.value;
    if ex.Received? {
      assert Chain(e) == [e];
      NewIsIff(ex.status, if ex.status == NotFoundStatus then url else ex.body, c, m);
      if ErrorsIs(e, Errors.New(c, m)) {
        assert Matches(e, Errors.New(c, m));
      } else {
        assert !Matches(Chain(e)[0], Errors.New(c, m));
      }
    } else {
      var cause := Unwrap(e).value;
      assert Chain(e) == [e, cause];
      assert !Matches(Chain(e)[0], Errors.New(c, m)) && !Matches(Chain(e)[1], Errors.New(c, m));
    }
  }

  /** A 404 is NotFound(u) exactly for the URL of the call. */
  lemma ClassifyNotFound(url: GoString, ex: Exchange, u: GoString)
    requires Classify(url, ex).err.Some?
    ensures ErrorsIs(Classify(url, ex).err.value, NotFound(u)) <==>
      ex.Received? && ex.status == NotFoundStatus && u == url
  {
    ClassifyIs(url, ex, NotFoundStatus, u);
  }

  /** A failure before a status exists gives no body and a client error whose cause
      is the library's error. */
  lemma ClassifyTransport(url: GoString, ex: Exchange)
    requires !ex.Received?
    ensures var r := Classify(url, ex);
      r.body.None? && r.err.Some? && r.err.value.ClientError? &&
      Unwrap(r.err.value) == Some(Foreign(ex.cause)) && ErrorsIs(r.err.value, Foreign(ex.cause))
  {
    var e := Classify(url, ex).err.value;
    assert Chain(e) == [e, Foreign(ex.cause)];
    assert Matches(Chain(e)[1], Foreign(ex.cause));
  }
}
