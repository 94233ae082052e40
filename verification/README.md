# imdblookup in Dafny

This project models the core of `imdblookup`, a small Go command that looks up
titles through a title-search web API. Four parts are modelled:

- **The query client** (`internal/client/client.go`). `makeUrl` builds the request URL from the configured
  API URL, a path and a list of query parameters. `Get` performs the HTTP exchange and classifies
  its outcome: the body, `NotFound(url)` for a 404, `UnexpectedError(status, body)` for any
  other status, or a client error wrapping a failure that happened before a status existed.
- **The error taxonomy** (`internal/errors/errors.go`). `HTTPError` has its message format and
  its `Is`. `IMDBClientError` and `IMDBClientApplicationError` each wrap a cause. All are one
  datatype, and `errors.Is` is modelled as a walk along the `Unwrap` chain.
- **The title search** (`internal/client/imdb.go`). `FindShowsByTitle` fixes the request
  (`search/titles`, `query` and `limit=5`) and wraps a failed request in an application error. It then
  decodes the body under a three-way policy: a JSON syntax error means no titles and no error, any other
  decode error is an application error, and otherwise the result is the decoded titles.
- **The command's workers** (`cmd.go`). `getTitles` copies a failure into the caller's
  application-error record, with a code chosen by its message. On success it prints one line
  per title. `progressMarker` prints a dot per tick and a newline after every hundredth dot.

Go strings are byte strings. Here they are `GoString`, a sequence of characters below 256,
one per byte, so a UTF-8 emoji is four characters. The emoji cases of
internal/client/client_test.go:156-171 are read as the emoji U+1F97A, whose four UTF-8 bytes escape
to the `%F0%9F%A5%BA` those tests expect. The test file's literal is stored mis-encoded, as the eight
bytes `C3 B0 C5 B8 C2 A5 C2 BA` (the UTF-8 of its cp1252 rendering `ðŸ¥º`), which would escape
to `%C3%B0%C5%B8%C2%A5%C2%BA` instead. `net/url` is modelled to the extent the client
uses it:
- `URL.JoinPath` on the unescaped path;
- `url.Values.Set`, and `Values.Encode`, which sorts the keys;
- the percent-escaping of query components, including `+` for a space;
- `URL.EscapedPath` as it writes a path stored by `JoinPath`. The path is written as it is when every
  byte is valid in a path, the sub-delimiters `! ' ( ) * [ ]` included. Any other path is
  percent-escaped;
- `URL.String` for a URL with a host.

The HTTP exchange is a parameter `server` that maps a URL to an `Exchange`: one of three early
failures, or a status and a body. JSON decoding is a parameter `decode` that maps a body to a
`Decoded` outcome.

Modules, one per file: `Wrappers` (Option), `GoStrings` (split, join, path segments, byte-wise
string order), `Decimal` (`%d`), `UrlEscape`, `QueryValues`, `Errors`, `Client`,
`ClientExamples` (the URLs of the client's tests and of a search request), `Imdb` and `Cmd`.

## Model

| member | source | states |
|---|---|---|
| Client.New | internal/client/client.go:32-45 | The client keeps the options it is given and hands their user agent to its transport. |
| Client.MakeUrl | internal/client/client.go:90-100 | The loop leaves the base URL's query with every parameter of non-empty key `Set` in order. The result is the joined path rendered with that query encoded (`UrlFor`). |
| Client.ApplyParamsValues | internal/client/client.go:93-97 | A non-empty key that some parameter names ends with exactly one value, the one of its last parameter, so a later value overrides an earlier one. Every other key, the empty key included, keeps the base query's values or stays absent. |
| Client.EmptyKeysDropped | internal/client/client.go:93-97 | Parameters whose key is empty leave the query map unchanged. |
| Client.NoQueryWithoutKeys | internal/client/client.go:92-99 | With every key empty and no base query, the URL is the origin and the path, with no `?`. |
| Client.UrlQuery | internal/client/client.go:92-99 | The text after the URL's first `?` parses back to exactly these pairs: (k, x) for x the last value given for a non-empty key k, and the base URL's pairs for every other key. |
| Client.JoinPathSegments | internal/client/client.go:91 | The path segments of the joined path are those of the base path followed by those of the element. |
| Client.RenderWithoutQuery | internal/client/client.go:99 | For an origin without `?`, an empty raw query renders no `?`, because the written path never holds one. |
| Client.RenderWithQuery | internal/client/client.go:98-99 | For an origin without `?`, a non-empty raw query follows the first `?` of the rendered URL, exactly. |
| Client.Classify | internal/client/client.go:63-87 | There is no error exactly when a status of 200 was received. There is a body exactly when a status was received, and it is the body read. |
| Client.Get | internal/client/client.go:58-88 | Get's result is the classification of the exchange for the URL that makeUrl builds. |
| Client.ClassifyIs | internal/client/client.go:79-85 | `errors.Is(err, New(c, m))` holds exactly when a status c other than 200 was received and m is the URL for a 404 and the body for any other status. |
| Client.ClassifyNotFound | internal/client/client.go:80-81 | A 404 error Is `NotFound(u)` exactly for u the URL of this call. |
| Client.ClassifyTransport | internal/client/client.go:63-77 | A failure before a status exists gives no body and a client error whose cause is the library's error, which `errors.Is` finds. |
| Errors.New | internal/errors/errors.go:13-26 | The code is kept. The message is `error: path or body: (` m `), status code ` followed by the decimal code. `Error()` returns it unchanged, and nothing is wrapped. |
| Errors.NotFound | internal/errors/errors.go:28-30 | It is `New(404, m)`. |
| Errors.UnexpectedError | internal/errors/errors.go:32-34 | It is `New(c, m)`, field for field. |
| Errors.IsIff | internal/errors/errors.go:36-41 | For an HTTPError, `Is` holds exactly when the target is the same record (equal code and message). |
| Errors.IsReflexive | internal/errors/errors.go:36-41 | Every HTTPError Is itself. |
| Errors.IsSymmetric | internal/errors/errors.go:36-41 | `Is` between HTTP errors is symmetric. |
| Errors.HttpMessageInjective | internal/errors/errors.go:24 | For a given code, the message determines the path or body it was made from. |
| Errors.NewIsIff | internal/errors/errors.go:21-41 | `New(c1, m1)` Is `New(c2, m2)` exactly when c1 == c2 and m1 == m2. |
| Errors.NotFoundIsIff | internal/errors/errors.go:28-41 | `NotFound(u1)` Is `NotFound(u2)` exactly when u1 == u2. |
| Errors.NewIMDBClientGenericError | internal/errors/errors.go:48-61 | `Error()` is `IMDB Client Error: (` m `)`, and `Unwrap` returns exactly the error given. |
| Errors.NewIMDBClientApplicationError | internal/errors/errors.go:68-81 | `Error()` is `IMDB Client Application Error: ` m. `Unwrap` returns exactly the error given, nil when none was given. The code starts unclassified. |
| Errors.Chain | internal/errors/errors.go:52-54 | The chain starts at the error, and each element unwraps to the next. It is finite and ends at an error that wraps nothing. |
| Errors.WrapChain | internal/errors/errors.go:72-74 | A wrapper's chain is the wrapper followed by its cause's chain. |
| Errors.ErrorsIsWrapped | internal/errors/errors.go:72-74 | `errors.Is` through a wrapper holds exactly when it holds for the wrapper itself or for its cause. |
| Errors.ChainReaches | internal/errors/errors.go:48-74 | `errors.Is` finds every error at any depth of the chain. |
| Errors.ErrorsIsNotFound | internal/errors/errors.go:28-41 | `errors.Is(NotFound(u1), NotFound(u2))` holds exactly when u1 == u2. |
| Decimal.IntTextRoundTrip | internal/errors/errors.go:24 | The decimal text of a status code reads back as that code, negative codes included. |
| Decimal.IntTextInjective | internal/errors/errors.go:24 | Different codes print differently. |
| UrlEscape.EscapeByte | internal/client/client.go:98-99 | A byte that needs no escaping is kept. Any other byte becomes a `%XX` triple, or `+` for a space in a query component. |
| UrlEscape.EscapeAlphabet | internal/client/client.go:98-99 | An escaped query component holds only unreserved characters, `%` and `+`. An escaped path holds no `?` and no space. |
| UrlEscape.EscapeRoundTrip | internal/client/client.go:98-99 | Unescaping an escaped string gives the string back, in both modes. |
| UrlEscape.EscapeInjective | internal/client/client.go:98-99 | Different strings escape differently. |
| UrlEscape.EscapeConcat | internal/client/client.go:98-99 | Escaping works byte by byte: it distributes over concatenation. |
| UrlEscape.EscapeEmoji | internal/client/client_test.go:156-171 | The four UTF-8 bytes of the emoji escape to `%F0%9F%A5%BA` in a path and in a query value. |
| UrlEscape.EscapedPath | internal/client/client.go:91-99 | The written path never holds a `?` or a space. |
| UrlEscape.EscapedPathRoundTrip | internal/client/client.go:91-99 | The written path decodes back to the path, whether it was written raw or escaped. |
| UrlEscape.EscapedPathInjective | internal/client/client.go:91-99 | Different paths are written differently. |
| UrlEscape.EscapedPathSubDelims | internal/client/client.go:91-99 | The path `foo!` is written as `foo!`, although escaping it would give `foo%21`. |
| UrlEscape.EscapedPathEmoji | internal/client/client_test.go:156-163 | The emoji as a path segment is written escaped, as `%F0%9F%A5%BA`. |
| UrlEscape.EscapeSpaceInValue | internal/client/client_test.go:172-178 | The query value `Stranger Things` escapes to `Stranger+Things`. |
| QueryValues.Set | internal/client/client.go:95 | The key gets exactly the one given value. Every other key is unchanged. |
| QueryValues.Encode | internal/client/client.go:98 | The method computes the encoded query (`Encoded`): the `key=value` pieces joined by `&`, keys in sorted order, a key's values in their order. |
| QueryValues.WriteKeys | internal/client/client.go:98 | Writing the keys in the given order produces the `&`-joined pieces of their entries. |
| QueryValues.WriteKey | internal/client/client.go:98 | Writing one key appends the pieces of each of its values to what was written. |
| QueryValues.SortKeys | internal/client/client.go:98 | The keys are produced strictly sorted, each exactly once. |
| GoStrings.SortedUnique | internal/client/client.go:98 | Two strictly sorted key lists with the same members are equal, so the encoded order is determined. |
| QueryValues.ParseEntryText | internal/client/client.go:98 | One `key=value` piece parses back to its key and value. |
| QueryValues.ParseEncoded | internal/client/client.go:98 | The encoded query parses back to the entries of every key, in sorted key order. |
| QueryValues.EncodedPairs | internal/client/client.go:98 | The pair (k, x) is among the encoded entries exactly when x is one of k's values. |
| QueryValues.EncodedEmpty | internal/client/client.go:98 | The encoded query is empty exactly when no key has a value. |
| QueryValues.EncodedOne | internal/client/client.go:98 | A one-key map encodes to the single piece `k=x`. |
| QueryValues.EncodedTwo | internal/client/client.go:98 | A two-key map encodes to the smaller key's piece, `&`, then the other key's piece. |
| ClientExamples.OneParam | internal/client/client.go:93-98 | One parameter of non-empty key, with or without an empty-keyed one before it, encodes to `k=x`. |
| ClientExamples.TwoParams | internal/client/client.go:93-98 | Two parameters with sorted keys encode to `k1=x1&k2=x2`. |
| ClientExamples.JoinOneSegment | internal/client/client.go:91 | Joining `/seg` onto an empty path gives `seg`, with no leading slash. |
| ClientExamples.EmptyPathWithQuery | internal/client/client_test.go:133-140 | For an API URL with no path and no query (as in the tests), an empty path with `[{"",""},{"key","value"}]` gives the base URL, `?` and `key=value`. |
| ClientExamples.EmptyPathNoQuery | internal/client/client_test.go:141-147 | For an API URL with no path and no query, an empty path whose only parameter has an empty key gives the base URL unchanged. |
| ClientExamples.SegmentWithTwoParams | internal/client/client_test.go:148-171 | For an API URL with no path and no query, the path `/seg` (one segment) with two parameters in key order gives the base URL, `/`, the written segment, `?` and `k1=x1&k2=x2` with the values escaped. This covers `/foo?bar=baz&key=value` and the emoji cases, with the emoji read as its four UTF-8 bytes. |
| ClientExamples.SegmentWithOneParam | internal/client/client_test.go:172-178 | For an API URL with no path and no query, the path `/seg` (one segment) with one parameter gives the base URL, `/`, the written segment, `?` and `k=x`. |
| ClientExamples.NotFoundForSegment | internal/client/client_test.go:76-84 | For an API URL with no path and no query, a 404 for `/seg` and `[{"",""},{k,x}]` returns the body and an error that Is `NotFound(base + "/seg?k=x")`. |
| ClientExamples.SearchRequestUrl | internal/client/imdb.go:15-21 | For an API URL with no path and no query, a search for t requests the API URL followed by `/search/titles?limit=5&query=` and the escaped t. |
| Imdb.SearchParams | internal/client/imdb.go:15-19 | A search always passes two parameters, in this order: `query` with the search title, then `limit` with `5`. |
| Imdb.Decide | internal/client/imdb.go:21-37 | A request error becomes an application error `An error has occured querying search results` wrapping it. A syntax error gives no titles and no error. Any other decode error becomes `error: Json answer cannot be read` wrapping the decoder's error. A successful decode gives the decoded titles. Any error comes with no titles. |
| Imdb.FindShowsByTitle | internal/client/imdb.go:11-38 | The method computes `Search`: the optional empty-title check, then Get on the search URL, then `Decide`. |
| Imdb.SearchErrors | internal/client/imdb.go:22-33 | There is never a partial result: an error comes with no titles. The error is an application error with one of the three messages, and its text is `IMDB Client Application Error: ` and the message. |
| Imdb.FailedRequestWrapsCause | internal/client/imdb.go:22-23 | The application error unwraps to Get's error exactly, and `errors.Is` through it finds what Get's error matches. |
| Imdb.UnreadableWrapsCause | internal/client/imdb.go:31-33 | An error other than a syntax error makes `error: Json answer cannot be read`, and `errors.Is` finds the decoder's error through it. |
| Imdb.SearchNotFound | internal/client/imdb.go:21-23 | With or without the empty-title check (without it, the empty title included), a search answered with 404 fails with no titles. `errors.Is` finds `NotFound(u)` in the error exactly for u the search URL. |
| Imdb.SearchSucceeds | internal/client/imdb.go:27-37 | A search answered with 200 gives the decoded titles in order. A syntax error gives no titles and no error, and any other decode error gives the `Json answer` error. |
| Imdb.EmptyTitleOnlyForEmpty | internal/client/client_test.go:210-216 | With the empty-title check, the `Search title cannot be empty` error occurs exactly for the empty title, and it wraps nothing. |
| Cmd.ResultRecord.constructor | internal/errors/errors.go:63-66 | The caller's record starts as Go's zero value: no cause, an empty message, no code. |
| Cmd.ResultRecord.AsError | internal/errors/errors.go:63-74 | The record read as an error is an application error that unwraps to its stored cause. After a failed search, GetTitles leaves it equal to the search's error with the code CodeFor gives. |
| Cmd.CodeFor | cmd.go:19-27 | The code is EMPTYQUERYERROR exactly when the message is `Search title cannot be empty`, and GENERICERROR otherwise. |
| Cmd.ErrorLogReadBack | cmd.go:19-25 | The log line for an application error reads back as whether its message was `Search title cannot be empty`, together with the error's text. |
| Cmd.ErrorLogInjective | cmd.go:19-25 | Two errors log the same line only when both or neither have the empty-title message and their texts are equal. |
| Cmd.TitleLine | cmd.go:39 | A title prints as `(` id `)` tab `-> "` original title `"` and a newline. |
| Cmd.TitleLines | cmd.go:38-40 | One line per title, in list order. |
| Cmd.TitleLineRoundTrip | cmd.go:39 | A title line reads back as its title when the id holds no `)`. |
| Cmd.TitleLineInjective | cmd.go:39 | Different titles whose ids hold no `)` print different lines. |
| Cmd.TitleLinesReadBack | cmd.go:38-40 | When no id holds `)`, the i-th printed line reads back as the i-th title. |
| Cmd.GetTitles | cmd.go:13-41 | On failure, the record gets the error's cause and message and the code CodeFor gives. Only the header is printed, and `done` stays open. On success, the record is unchanged and `done` is closed. The header, `Done fetching results.` and the title lines in order are printed, and `No titles found` is logged for an empty list. |
| Cmd.Report | cmd.go:18-40 | The same record updates and output as GetTitles, for a search result already in hand. |
| Cmd.PrintTitles | cmd.go:38-40 | The loop appends the title lines in list order to what was printed. |
| Cmd.EmptyQueryCode | cmd.go:18-28 | A failed search is recorded as EMPTYQUERYERROR exactly when the query was empty. Every other failure is recorded as GENERICERROR. |
| Cmd.ProgressMarker | cmd.go:43-60 | The loop's output after n ticks is `ProgressOutput(n)`, and its counter is n mod 100, always below 100. |
| Cmd.CounterStep | cmd.go:51-55 | One more tick either increments the counter, or resets it to 0 exactly on a hundredth tick. |
| Cmd.ProgressShape | cmd.go:49-55 | After n ticks the output has n dots and n / 100 newlines. Each newline comes right after a dot whose 1-based number is a multiple of 100 (every 101st character). |
| Cmd.TickMarks | cmd.go:49-55 | Tick n adds one dot, plus a newline when n is a multiple of 100, at the places that shape gives. |

## Left out

- The transport's `RoundTrip` (internal/client/client.go:47-56) adds request headers; requests and headers are not modelled, only the user agent the transport keeps.
- `http.NewRequest`, `Client.Do` and `io.ReadAll` are the abstract `server` parameter. Each failure is a `Foreign` error carrying the library's text; the three messages keep the literal `%w`, as Go passes it through unformatted.
- Logging: the log line of `Get` (internal/client/client.go:61) is not modelled, and in getTitles a log line is its text without the logger's prefix or timestamp.
- `net/url` is modelled only as far as the client uses it. `JoinPath` does not clean `.`/`..` segments or unescape `%` in its elements, and the base URL's raw path, user info and fragment are not modelled. The base URL's query is held already parsed (what `URL.Query()` returns).
- Client.Render: a base URL with `ForceQuery` set (one ending in a bare `?`) is not modelled; the model renders it without the `?`.
- JSON decoding is the abstract `decode` parameter, and `errors.As(err, &syntaxErr)` is the `SyntaxError` case of its outcome.
- Errors.ErrorsIs: a chain element equals the target by value, where Go compares `*IMDBClientError` and `*IMDBClientApplicationError` pointers by identity; HTTP errors go through their `Is` as in Go.
- Concurrency: the goroutines, the WaitGroup, the `done` channel and the ticker are not modelled. getTitles reports whether it closed `done`. Cmd.ProgressMarker runs for a given number of ticks instead of until `done` is closed.
- The empty-title check: getTitles branches on the message `Search title cannot be empty` (cmd.go:19), and the client's tests expect it (internal/client/client_test.go:210-216), but the `FindShowsByTitle` of internal/client/imdb.go:11-38 never produces it. Imdb.FindShowsByTitle takes a `checkEmpty` flag: false is the code as written, and true (what Cmd.GetTitles passes) adds the check before the request.
- cmd.go calls `FindShowsByTitle(&query)` and sets `result.Code`, neither of which matches `FindShowsByTitle(searchTitle string)` at internal/client/imdb.go:11 or `IMDBClientApplicationError` at internal/errors/errors.go:63-66, which has no `Code` field. The model passes the query by value and adds a code (`AppCode`) to the application error, unclassified when created.
- Cmd.TitleLineRoundTrip: holds only for ids without `)`, since the printed line is ambiguous otherwise.
- Cmd.TitleLineInjective: holds only for ids without `)`. The titles (`a)` tab `-> "b`, `c`) and (`a`, `b)` tab `-> "c`) print the same line.
- Cmd.TitleLinesReadBack: holds only when no id holds `)`, for the same reason.
- The exit codes and main.go (an older version built on `findResults`) are not part of this model.
- A nil slice of titles and an empty one are both the empty sequence.
- Imdb.Decide, Cmd.GetTitles: a title is a value, so a nil element of the decoded `[]*models.ImdbapiTitle` (a `null` in the JSON array) is not modelled, nor is the panic when cmd.go:39 reads `title.ID` from it. GetTitles' success contract assumes every element is a title.
- The `Verbose` option is stored but used by nothing in the core.
