/**
 * The title search service: FindShowsByTitle asks the API for "search/titles" with
 * the search text and a limit of five, wraps any error of the request in an
 * application error, and decodes the body with a three-way policy (syntax error:
 * nothing found; other decode error: application error; otherwise the titles).
 *
 * JSON decoding (encoding/json's Unmarshal into the search response) is a
 * parameter `decode` whose outcome is abstract. A nil slice of titles is the
 * empty sequence.
 */
module Imdb {
  import opened GoStrings
  import opened Wrappers
  import opened UrlEscape
  import opened QueryValues
  import opened Errors
  import opened Client

  /** A title of the search response: its id and its original title. */
  datatype Title = Title(id: GoString, originalTitle: GoString)

  /** What decoding a body gives: the titles of the response, a JSON syntax error
      (errors.As finds a *json.SyntaxError), or any other decode error. */
  datatype Decoded =
    | Parsed(titles: seq<Title>)
    | SyntaxError(cause: Error)
    | OtherError(cause: Error)

  /** FindShowsByTitle's two results. */
  datatype SearchResult = SearchResult(titles: seq<Title>, err: Option<Error>)

  const SearchPath: GoString := "search/titles"
  const QueryKey: GoString := "query"
  const LimitKey: GoString := "limit"
  const Limit: GoString := "5"

  // Written in two pieces so that each literal is checked as a GoString cheaply.
  const QueryFailed: GoString := "An error has occured " + "querying search results"
  const JsonUnreadable: GoString := "error: Json answer cannot be read"
  const EmptyTitle: GoString := "Search title cannot be empty"

  /** The parameters of every search request, in this order. */
  function SearchParams(searchTitle: GoString): (ps: seq<QueryParameters>)
    ensures |ps| == 2
    ensures ps[0] == QueryParameters(QueryKey, searchTitle)
    ensures ps[1] == QueryParameters(LimitKey, Limit)
  {
    [QueryParameters(QueryKey, searchTitle), QueryParameters(LimitKey, Limit)]
  }

  /** What FindShowsByTitle makes of Get's response and the decoder. */
  function Decide(resp: Response, decode: GoString -> Decoded): (r: SearchResult)
    ensures r.err.Some? ==> r.titles == [] && r.err.value.ApplicationError? && r.err.value.appCode == Unclassified
    ensures resp.err.Some? ==> r.err == Some(NewIMDBClientApplicationError(QueryFailed, resp.err))
    ensures resp.err.None? && decode(resp.body.GetOr([])).Parsed? ==>
      r == SearchResult(decode(resp.body.GetOr([])).titles, None)
    ensures resp.err.None? && decode(resp.body.GetOr([])).SyntaxError? ==> r == SearchResult([], None)
    ensures resp.err.None? && decode(resp.body.GetOr([])).OtherError? ==>
      r.err == Some(NewIMDBClientApplicationError(JsonUnreadable, Some(decode(resp.body.GetOr([])).cause)))
  {
    if resp.err.Some? then
      SearchResult([], Some(NewIMDBClientApplicationError(QueryFailed, resp.err)))
    else
      match decode(resp.body.GetOr([]))
      case SyntaxError(_) => SearchResult([], None)
      case OtherError(cause) => SearchResult([], Some(NewIMDBClientApplicationError(JsonUnreadable, Some(cause))))
      case Parsed(titles) => SearchResult(titles, None)
  }

  /** The result of a search for `searchTitle` against the API at `apiUrl`. The check
      for an empty title is not in FindShowsByTitle itself; `checkEmpty` says whether
      the caller's version makes it. */
  ghost function Search(apiUrl: Url, searchTitle: GoString, checkEmpty: bool,
                        server: GoString -> Exchange, decode: GoString -> Decoded): SearchResult
  {
    if checkEmpty && searchTitle == [] then
      SearchResult([], Some(NewIMDBClientApplicationError(EmptyTitle, None)))
    else
      var url := UrlFor(apiUrl, SearchPath, SearchParams(searchTitle));
      Decide(Classify(url, server(url)), decode)
  }

  /** client.FindShowsByTitle(searchTitle). */
  method FindShowsByTitle(client: ImdbClient, searchTitle: GoString, checkEmpty: bool,
                          server: GoString -> Exchange, decode: GoString -> Decoded)
    returns (r: SearchResult)
    ensures r == Search(client.options.apiUrl, searchTitle, checkEmpty, server, decode)
  {
    if checkEmpty && searchTitle == [] {
      return SearchResult([], Some(NewIMDBClientApplicationError(EmptyTitle, None)));
    }
    var resp := Get(client, SearchPath, SearchParams(searchTitle), server);
    r := Decide(resp, decode);
  }

  // ---------------------------------------------------------------------------
  // Properties of a search
  // ---------------------------------------------------------------------------

  /** No partial result: whenever there is an error there are no titles, and every
      error is an application error whose message is one of the three. */
  lemma SearchErrors(apiUrl: Url, t: GoString, checkEmpty: bool,
                     server: GoString -> Exchange, decode: GoString -> Decoded)
    ensures var r := Search(apiUrl, t, checkEmpty, server, decode);
      r.err.Some? ==>
        r.titles == [] && r.err.value.ApplicationError? &&
        r.err.value.appMessage in {QueryFailed, JsonUnreadable, EmptyTitle} &&
        ErrorText(r.err.value) == "IMDB Client Application Error: " + r.err.value.appMessage
  {
  }

  /** The application error for a failed request keeps Get's error reachable: errors.Is
      finds that error, and everything it wraps, through the application error. */
  lemma {:induction false} FailedRequestWrapsCause(resp: Response, decode: GoString -> Decoded, target: Error)
    requires resp.err.Some?
    ensures var e := Decide(resp, decode).err.value;
      Unwrap(e) == resp.err &&
      (ErrorsIs(e, target) <==> e == target || ErrorsIs(resp.err.value, target))
  {
    var e := Decide(resp, decode).err.value;
    ErrorsIsWrapped(e, resp.err.value, target);
    assert Matches(e, target) <==> e == target;
  }

  /** The error for a decode failure that is not a syntax error wraps the decoder's
      error, which errors.Is then finds. */
  lemma UnreadableWrapsCause(resp: Response, decode: GoString -> Decoded)
    requires resp.err.None? && decode(resp.body.GetOr([])).OtherError?
    ensures var e := Decide(resp, decode).err.value;
      e.appMessage == JsonUnreadable && ErrorsIs(e, decode(resp.body.GetOr([])).cause)
  {
    var e := Decide(resp, decode).err.value;
    var cause := decode(resp.body.GetOr([])).cause;
    ErrorsIsWrapped(e, cause, cause);
    ChainReaches(cause, 0);
  }

  /** A search that reaches the server and is answered with 404 (any title without
      the empty-title check, the empty one included) fails with an error in which
      errors.Is finds NotFound(u) exactly for u the URL of the search request. */
  lemma SearchNotFound(apiUrl: Url, t: GoString, checkEmpty: bool, server: GoString -> Exchange,
                       decode: GoString -> Decoded, u: GoString)
    requires !(checkEmpty && t == [])
    requires var url := UrlFor(apiUrl, SearchPath, SearchParams(t));
      server(url).Received? && server(url).status == NotFoundStatus
    ensures var r := Search(apiUrl, t, checkEmpty, server, decode);
      r.err.Some? && r.titles == [] &&
      (ErrorsIs(r.err.value, NotFound(u)) <==> u == UrlFor(apiUrl, SearchPath, SearchParams(t)))
  {
    var url := UrlFor(apiUrl, SearchPath, SearchParams(t));
    var resp := Classify(url, server(url));
    FailedRequestWrapsCause(resp, decode, NotFound(u));
    ClassifyNotFound(url, server(url), u);
  }

  /** A search answered with 200 gives what the decoder makes of the body: the titles
      in order, or nothing and no error for a syntax error. */
  lemma SearchSucceeds(apiUrl: Url, t: GoString, checkEmpty: bool, server: GoString -> Exchange,
                       decode: GoString -> Decoded)
    requires !(checkEmpty && t == [])
    requires var url := UrlFor(apiUrl, SearchPath, SearchParams(t));
      server(url).Received? && server(url).status == StatusOK
    ensures var url := UrlFor(apiUrl, SearchPath, SearchParams(t));
      var r := Search(apiUrl, t, checkEmpty, server, decode);
      var d := decode(server(url).body);
      (d.Parsed? ==> r == SearchResult(d.titles, None)) &&
      (d.SyntaxError? ==> r == SearchResult([], None)) &&
      (d.OtherError? ==> r.titles == [] && r.err.Some? && r.err.value.appMessage == JsonUnreadable)
  {
  }

  /** With the empty-title check, a search fails with the empty-title message exactly
      when the title is empty, and that error wraps nothing. */
  lemma EmptyTitleOnlyForEmpty(apiUrl: Url, t: GoString, server: GoString -> Exchange,
                               decode: GoString -> Decoded)
    ensures var r := Search(apiUrl, t, true, server, decode);
      (r.err.Some? && r.err.value.appMessage == EmptyTitle) <==> t == []
    ensures t == [] ==> Unwrap(Search(apiUrl, t, true, server, decode).err.value) == None
  {
    assert |QueryFailed| != |EmptyTitle| && |JsonUnreadable| != |EmptyTitle|;
  }
}
