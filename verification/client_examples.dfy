/**
 * The URLs of the client's tests, derived from the model for any server origin
 * (scheme and host, no path, no query): the base URL is Url(origin, "", map[]).
 */
module ClientExamples {
  import opened GoStrings
  import opened Wrappers
  import opened UrlEscape
  import opened QueryValues
  import opened Errors
  import opened Client
  import opened Imdb

  const Slash: GoString := "/"
  const QMark: GoString := "?"

  function Base(origin: GoString): Url
  {
    Url(origin, [], map[])
  }

  /** An element "/" + s, s a single segment, joined to the empty base path is s. */
  lemma JoinOneSegment(s: GoString)
    requires s != [] && '/' !in s
    ensures JoinPath([], "/" + s) == s
  {
    var e := "/" + s;
    assert Segments([]) == [] by {
      assert Split([], '/') == [[]];
    }
    assert Segments(e) == [s] by {
      SplitFree(s, '/');
      assert e[0] == '/' && e[1..] == s;
      assert Split(e, '/') == [[], s];
      assert [[], s][1..] == [s] && [s][1..] == [];
      assert NonEmpty([s]) == [s] + NonEmpty([]);
    }
    assert [] + [s] == [s];
    assert e[|e| - 1] == s[|s| - 1];
  }

  /** Rendering a URL whose escaped path does not start with '/' and whose query is
      not empty. */
  lemma RenderRelative(origin: GoString, p: GoString, escaped: GoString, rawQuery: GoString)
    requires EscapedPath(p) == escaped && escaped != [] && escaped[0] != '/'
    requires rawQuery != []
    ensures Render(origin, p, rawQuery) == origin + Slash + escaped + QMark + rawQuery
  {
  }

  /** The URL from its joined path and its encoded query. */
  lemma UrlForIs(base: Url, path: GoString, params: seq<QueryParameters>, p: GoString, rawQuery: GoString)
    requires JoinPath(base.path, path) == p
    requires Encoded(ApplyParams(base.query, params)) == rawQuery
    ensures UrlFor(base, path, params) == Render(base.origin, p, rawQuery)
  {
  }

  /** One parameter with a non-empty key, possibly after one with an empty key. */
  lemma OneParam(k: GoString, x: GoString, ps: seq<QueryParameters>)
    requires k != []
    requires ps == [QueryParameters(k, x)] || ps == [QueryParameters([], []), QueryParameters(k, x)]
    ensures Encoded(ApplyParams(map[], ps)) == EntryText((k, x))
  {
    var init := ps[..|ps| - 1];
    assert ApplyParams(map[], init) == map[] by {
      if |ps| == 2 {
        assert init == [QueryParameters([], [])];
        assert init[..0] == [];
      } else {
        assert init == [];
      }
    }
    assert ApplyParams(map[], ps) == map[k := [x]];
    EncodedOne(k, x);
  }

  /** Two parameters with different keys, the first smaller, give a two-pair query. */
  lemma TwoParams(k1: GoString, x1: GoString, k2: GoString, x2: GoString)
    requires k1 != [] && Below(k1, k2)
    ensures Encoded(ApplyParams(map[], [QueryParameters(k1, x1), QueryParameters(k2, x2)]))
      == EntryText((k1, x1)) + "&" + EntryText((k2, x2))
  {
    var ps := [QueryParameters(k1, x1), QueryParameters(k2, x2)];
    assert ps[..1] == [ps[0]] && ps[..1][..0] == [];
    assert k2 != [];
    assert ApplyParams(map[], ps[..1]) == map[k1 := [x1]];
    assert ApplyParams(map[], ps) == map[k1 := [x1], k2 := [x2]];
    EncodedTwo(k1, x1, k2, x2);
  }

  /** Empty path, parameters {"", ""} and {k, x}: origin + "?k=x" (the test uses
      key=value). */
  lemma EmptyPathWithQuery(origin: GoString, k: GoString, x: GoString)
    requires k != []
    ensures UrlFor(Base(origin), [], [QueryParameters([], []), QueryParameters(k, x)])
      == origin + QMark + EntryText((k, x))
  {
    var ps := [QueryParameters([], []), QueryParameters(k, x)];
    OneParam(k, x, ps);
    assert JoinPath([], []) == [] by {
      assert Split([], '/') == [[]];
    }
    UrlForIs(Base(origin), [], ps, [], EntryText((k, x)));
    RenderNoPath(origin, EntryText((k, x)));
  }

  /** Rendering a URL with an empty path and a query that is not empty. */
  lemma RenderNoPath(origin: GoString, rawQuery: GoString)
    requires rawQuery != []
    ensures Render(origin, [], rawQuery) == origin + QMark + rawQuery
  {
    assert EscapedPath([]) == [];
  }

  /** Empty path and only an empty key: the origin alone, with no '?'. */
  lemma EmptyPathNoQuery(origin: GoString)
    ensures UrlFor(Base(origin), [], [QueryParameters([], [])]) == origin
  {
    var ps := [QueryParameters([], [])];
    EmptyKeysDropped(map[], ps);
    EncodedEmpty(map[]);
    assert Split([], '/') == [[]];
  }

  /** Path "/" + seg for one segment, then two parameters with the smaller key first
      (the tests use "/foo" and "/" + emoji, with bar=baz and key=value or key=emoji):
      the escaped segment, '?', and the two escaped pairs in key order. */
  lemma SegmentWithTwoParams(origin: GoString, seg: GoString, k1: GoString, x1: GoString, k2: GoString, x2: GoString)
    requires seg != [] && '/' !in seg
    requires k1 != [] && Below(k1, k2)
    ensures UrlFor(Base(origin), "/" + seg, [QueryParameters(k1, x1), QueryParameters(k2, x2)])
      == origin + Slash + EscapedPath(seg) + QMark + (EntryText((k1, x1)) + "&" + EntryText((k2, x2)))
  {
    var ps := [QueryParameters(k1, x1), QueryParameters(k2, x2)];
    var rawQuery := EntryText((k1, x1)) + "&" + EntryText((k2, x2));
    TwoParams(k1, x1, k2, x2);
    JoinOneSegment(seg);
    UrlForIs(Base(origin), "/" + seg, ps, seg, rawQuery);
    EscapedStart(seg);
    RenderRelative(origin, seg, EscapedPath(seg), rawQuery);
  }

  /** Path "/" + seg and one parameter, possibly after an empty one (the tests use
      "/foo" with query="Stranger Things", and "/foo" with {"", ""}, key=value). */
  lemma SegmentWithOneParam(origin: GoString, seg: GoString, ps: seq<QueryParameters>, k: GoString, x: GoString)
    requires seg != [] && '/' !in seg
    requires k != []
    requires ps == [QueryParameters(k, x)] || ps == [QueryParameters([], []), QueryParameters(k, x)]
    ensures UrlFor(Base(origin), "/" + seg, ps) == origin + Slash + EscapedPath(seg) + QMark + EntryText((k, x))
  {
    OneParam(k, x, ps);
    JoinOneSegment(seg);
    UrlForIs(Base(origin), "/" + seg, ps, seg, EntryText((k, x)));
    EscapedStart(seg);
    RenderRelative(origin, seg, EscapedPath(seg), EntryText((k, x)));
  }

  /** The escaped text of a segment is not empty and does not start with '/'. */
  lemma EscapedStart(seg: GoString)
    requires seg != [] && '/' !in seg
    ensures EscapedPath(seg) != [] && EscapedPath(seg)[0] != '/'
  {
    assert seg[0] != '/';
    if !(forall i :: 0 <= i < |seg| ==> PathValid(seg[i])) {
      assert Escape(seg, PathMode) == EscapeByte(seg[0], PathMode) + Escape(seg[1..], PathMode);
    }
  }

  /** A 404 for path "/" + seg with {"", ""} and {k, x} is, as errors.Is sees it,
      NotFound of exactly the URL origin + "/" + escaped seg + "?k=x" (the test
      uses "/foo" and key=value), and the body is still returned. */
  lemma NotFoundForSegment(origin: GoString, seg: GoString, k: GoString, x: GoString, body: GoString)
    requires seg != [] && '/' !in seg && k != []
    ensures var url := UrlFor(Base(origin), "/" + seg, [QueryParameters([], []), QueryParameters(k, x)]);
      var r := Classify(url, Received(404, body));
      r.body == Some(body) && r.err.Some? &&
      ErrorsIs(r.err.value, NotFound(origin + Slash + EscapedPath(seg) + QMark + EntryText((k, x))))
  {
    var ps := [QueryParameters([], []), QueryParameters(k, x)];
    SegmentWithOneParam(origin, seg, ps, k, x);
    var url := UrlFor(Base(origin), "/" + seg, ps);
    ClassifyNotFound(url, Received(404, body), url);
  }

  // ---------------------------------------------------------------------------
  // The search request
  // ---------------------------------------------------------------------------

  /** The path and query every title search sends, before the escaped title. */
  const SearchPrefix: GoString := "/search/titles?limit=5&query="
  const Amp: GoString := "&"
  const Eq: GoString := "="

  lemma SearchPrefixPieces()
    ensures SearchPrefix == Slash + SearchPath + QMark + (LimitKey + Eq + Limit + Amp + QueryKey + Eq)
  {
  }

  /** Segments joined by '/' and joined to the empty base path stay as they are. */
  lemma JoinSegmentsToEmpty(segs: seq<GoString>)
    requires segs != []
    requires forall i :: 0 <= i < |segs| ==> segs[i] != [] && '/' !in segs[i]
    ensures JoinPath([], Join(segs, '/')) == Join(segs, '/')
  {
    SegmentsOfJoin(segs);
    JoinedEnd(segs);
    RelativeToEmpty(Join(segs, '/'), segs);
  }

  /** A relative path that is the join of its own segments and does not end in '/',
      joined to the empty base path, stays as it is. */
  lemma RelativeToEmpty(elem: GoString, segs: seq<GoString>)
    requires Segments(elem) == segs && Join(segs, '/') == elem && !EndsInSlash(elem)
    ensures JoinPath([], elem) == elem
  {
    NoSegments();
    var joined := Join(Segments([]) + Segments(elem), '/');
    assert Segments([]) + Segments(elem) == segs;
    assert joined == elem;
    assert !Rooted([]);
  }

  /** Segments joined by '/' do not end in '/'. */
  lemma JoinedEnd(segs: seq<GoString>)
    requires segs != []
    requires segs[|segs| - 1] != [] && '/' !in segs[|segs| - 1]
    ensures !EndsInSlash(Join(segs, '/'))
  {
    var last := segs[|segs| - 1];
    var j := Join(segs, '/');
    if |segs| > 1 {
      var front := Join(segs[..|segs| - 1], '/') + ['/'];
      assert j == front + last;
      assert j[|j| - 1] == last[|last| - 1];
    }
  }

  /** The search path joined to an empty base path is itself. */
  lemma SearchPathJoined()
    ensures JoinPath([], SearchPath) == SearchPath
  {
    var segs: seq<GoString> := ["search", "titles"];
    assert Join(segs, '/') == SearchPath by {
      assert segs[..1] == ["search"];
    }
    assert forall i :: 0 <= i < |segs| ==> segs[i] != [] && '/' !in segs[i];
    JoinSegmentsToEmpty(segs);
  }

  /** The search path is written as it is. */
  lemma SearchPathUnescaped()
    ensures EscapedPath(SearchPath) == SearchPath
  {
    assert forall i :: 0 <= i < |SearchPath| ==> PathValid(SearchPath[i]);
  }

  /** The two search parameters, in key order: limit first, then query. */
  lemma SearchQuery(t: GoString)
    ensures Encoded(ApplyParams(map[], SearchParams(t)))
      == EntryText((LimitKey, Limit)) + Amp + EntryText((QueryKey, t))
  {
    var ps := SearchParams(t);
    assert ps[..1] == [ps[0]] && ps[..1][..0] == [];
    assert ApplyParams(map[], ps[..1]) == map[QueryKey := [t]];
    assert ApplyParams(map[], ps) == map[LimitKey := [Limit], QueryKey := [t]];
    assert Below(LimitKey, QueryKey) by {
      assert LimitKey[0] < QueryKey[0];
    }
    EncodedTwo(LimitKey, Limit, QueryKey, t);
  }

  /** The text of the limit pair: neither its key nor its value needs escaping. */
  lemma LimitPair()
    ensures EntryText((LimitKey, Limit)) == LimitKey + Eq + Limit
  {
    EscapeKept(LimitKey, QueryComponentMode);
    EscapeKept(Limit, QueryComponentMode);
  }

  /** The text of the query pair: its key needs no escaping. */
  lemma QueryPair(t: GoString)
    ensures EntryText((QueryKey, t)) == QueryKey + Eq + Escape(t, QueryComponentMode)
  {
    EscapeKept(QueryKey, QueryComponentMode);
  }

  /** Putting the URL together from its pieces. */
  lemma Assemble(origin: GoString, prefix: GoString, path: GoString, limitPair: GoString,
                 key: GoString, escaped: GoString)
    requires prefix == Slash + path + QMark + (limitPair + Amp + key + Eq)
    ensures origin + Slash + path + QMark + (limitPair + Amp + (key + Eq + escaped))
      == origin + prefix + escaped
  {
  }

  /** Every title search against an API URL with no path and no query requests
      origin + "/search/titles?limit=5&query=" + the title escaped as a query value
      (a space in it becomes '+'). */
  lemma SearchRequestUrl(origin: GoString, t: GoString)
    ensures UrlFor(Base(origin), SearchPath, SearchParams(t))
      == origin + SearchPrefix + Escape(t, QueryComponentMode)
  {
    var limitPair := EntryText((LimitKey, Limit));
    var rawQuery := limitPair + Amp + EntryText((QueryKey, t));
    SearchPathJoined();
    SearchPathUnescaped();
    SearchQuery(t);
    UrlForIs(Base(origin), SearchPath, SearchParams(t), SearchPath, rawQuery);
    RenderRelative(origin, SearchPath, SearchPath, rawQuery);
    LimitPair();
    QueryPair(t);
    SearchPrefixPieces();
    assert LimitKey + Eq + Limit + Amp + QueryKey + Eq == limitPair + Amp + QueryKey + Eq;
    Assemble(origin, SearchPrefix, SearchPath, limitPair, QueryKey, Escape(t, QueryComponentMode));
  }
}
