/**
 * The client's error taxonomy: HTTPError for a response whose status is not 200,
 * IMDBClientError for a failure of the HTTP exchange itself (it wraps the cause),
 * and IMDBClientApplicationError for a failure of a service call (it wraps the
 * client error). Errors raised by libraries outside the model (net/http,
 * encoding/json) are `Foreign` leaves carrying their text.
 *
 * Go's `errors.Is` walks the chain of `Unwrap` results; `Chain` is that chain and
 * `ErrorsIs` the walk.
 */
module Errors {
  import opened GoStrings
  import opened Wrappers
  import opened Decimal

  /** The classification the command gives an application error (its Code field). */
  datatype AppCode = Unclassified | EmptyQueryError | GenericError

  datatype Error =
    | HttpError(code: int, message: GoString)
    | ClientError(err: Option<Error>, message: GoString)
    | ApplicationError(clientError: Option<Error>, appMessage: GoString, appCode: AppCode)
    | Foreign(text: GoString)

  const NotFoundStatus := 404

  // ---------------------------------------------------------------------------
  // HTTPError
  // ---------------------------------------------------------------------------

  const HttpPrefix: GoString := "error: path or body: ("
  const StatusSuffix: GoString := "), status code "

  /** The message New writes for a status code and a path or body. */
  function HttpMessage(code: int, detail: GoString): GoString
  {
    HttpPrefix + detail + (StatusSuffix + IntText(code))
  }

  /** errors.New(code, message). */
  function New(code: int, message: GoString): (e: Error)
    ensures e.HttpError? && e.code == code
    ensures e.message == HttpMessage(code, message)
    ensures ErrorText(e) == e.message && Unwrap(e) == None
  {
    HttpError(code, HttpMessage(code, message))
  }

  /** errors.NotFound(message): a 404 error about `message`. */
  function NotFound(message: GoString): (e: Error)
    ensures e == New(NotFoundStatus, message)
    ensures e.HttpError? && e.code == 404
  {
    New(NotFoundStatus, message)
  }

  /** errors.UnexpectedError(statusCode, message). */
  function UnexpectedError(statusCode: int, message: GoString): (e: Error)
    ensures e == New(statusCode, message)
  {
    New(statusCode, message)
  }

  /** HTTPError.Is(target): the target is an HTTPError with the same code and message. */
  predicate Is(e: Error, target: Error)
    requires e.HttpError?
  {
    target.HttpError? && e.code == target.code && e.message == target.message
  }

  /** For HTTP errors, Is is equality of the two records. */
  lemma IsIff(a: Error, b: Error)
    requires a.HttpError?
    ensures Is(a, b) <==> b == a
  {
  }

  lemma IsReflexive(a: Error)
    requires a.HttpError?
    ensures Is(a, a)
  {
  }

  lemma IsSymmetric(a: Error, b: Error)
    requires a.HttpError? && b.HttpError?
    ensures Is(a, b) <==> Is(b, a)
  {
  }

  /** The message of New determines the path or body it was made from, for a given code. */
  lemma HttpMessageInjective(code: int, m1: GoString, m2: GoString)
    requires HttpMessage(code, m1) == HttpMessage(code, m2)
    ensures m1 == m2
  {
    MiddleInjective(HttpPrefix, m1, m2, StatusSuffix + IntText(code));
  }

  /** Two errors made by New are Is-equal exactly when they were made from the same
      code and the same path or body. */
  lemma NewIsIff(c1: int, m1: GoString, c2: int, m2: GoString)
    ensures Is(New(c1, m1), New(c2, m2)) <==> c1 == c2 && m1 == m2
  {
    if Is(New(c1, m1), New(c2, m2)) {
      HttpMessageInjective(c1, m1, m2);
    }
  }

  /** NotFound(u1) Is NotFound(u2) exactly when u1 == u2. */
  lemma NotFoundIsIff(u1: GoString, u2: GoString)
    ensures Is(NotFound(u1), NotFound(u2)) <==> u1 == u2
  {
    NewIsIff(NotFoundStatus, u1, NotFoundStatus, u2);
  }

  // ---------------------------------------------------------------------------
  // IMDBClientError and IMDBClientApplicationError
  // ---------------------------------------------------------------------------

  /** errors.NewIMDBClientGenericError(message, err). */
  function NewIMDBClientGenericError(message: GoString, err: Option<Error>): (e: Error)
    ensures e.ClientError? && Unwrap(e) == err
    ensures ErrorText(e) == "IMDB Client Error: (" + message + ")"
  {
    ClientError(err, "IMDB Client Error: (" + message + ")")
  }

  /** errors.NewIMDBClientApplicationError(appMessage, clientError); the code starts
      unclassified (Go's zero value). */
  function NewIMDBClientApplicationError(appMessage: GoString, clientError: Option<Error>): (e: Error)
    ensures e.ApplicationError? && e.appMessage == appMessage && e.appCode == Unclassified
    ensures Unwrap(e) == clientError
    ensures ErrorText(e) == "IMDB Client Application Error: " + appMessage
  {
    ApplicationError(clientError, appMessage, Unclassified)
  }

  /** The Error() method of each kind. */
  function ErrorText(e: Error): GoString
  {
    match e
    case HttpError(_, message) => message
    case ClientError(_, message) => message
    case ApplicationError(_, appMessage, _) => "IMDB Client Application Error: " + appMessage
    case Foreign(text) => text
  }

  /** The Unwrap() method; HTTPError has none, and library errors end the chain here. */
  function Unwrap(e: Error): Option<Error>
  {
    match e
    case ClientError(err, _) => err
    case ApplicationError(clientError, _, _) => clientError
    case _ => None
  }

  // ---------------------------------------------------------------------------
  // Cause chains
  // ---------------------------------------------------------------------------

  /** `e`, what it unwraps to, what that unwraps to, ... until Unwrap gives nil. */
  function Chain(e: Error): (c: seq<Error>)
    ensures |c| >= 1 && c[0] == e
    ensures forall i :: 0 <= i < |c| - 1 ==> Unwrap(c[i]) == Some(c[i + 1])
    ensures Unwrap(c[|c| - 1]) == None
  {
    match Unwrap(e)
    case None => [e]
    case Some(cause) => [e] + Chain(cause)
  }

  /** errors.Is(err, target): some error of the chain is the target itself or is an
      HTTPError that Is the target. */
  predicate ErrorsIs(err: Error, target: Error)
  {
    exists i :: 0 <= i < |Chain(err)| && Matches(Chain(err)[i], target)
  }

  predicate Matches(e: Error, target: Error)
  {
    e == target || (e.HttpError? && Is(e, target))
  }

  /** Wrapping an error puts the wrapper in front of the cause's chain: the cause and
      everything it wraps stay reachable. */
  lemma WrapChain(e: Error, cause: Error)
    requires Unwrap(e) == Some(cause)
    ensures Chain(e) == [e] + Chain(cause)
  {
  }

  /** errors.Is sees through a wrapper to the cause. */
  lemma {:induction false} ErrorsIsWrapped(e: Error, cause: Error, target: Error)
    requires Unwrap(e) == Some(cause)
    ensures ErrorsIs(e, target) <==> Matches(e, target) || ErrorsIs(cause, target)
  {
    var c := Chain(e);
    assert c == [e] + Chain(cause);
    if ErrorsIs(e, target) && !Matches(e, target) {
      var i :| 0 <= i < |c| && Matches(c[i], target);
      assert Chain(cause)[i - 1] == c[i];
    }
    if ErrorsIs(cause, target) {
      var i :| 0 <= i < |Chain(cause)| && Matches(Chain(cause)[i], target);
      assert c[i + 1] == Chain(cause)[i];
    }
    if Matches(e, target) {
      assert Matches(c[0], target);
    }
  }

  /** An error reaches every error of its chain, so anything wrapped at any depth
      is found by errors.Is. */
  lemma {:induction false} ChainReaches(err: Error, i: nat)
    requires i < |Chain(err)|
    ensures ErrorsIs(err, Chain(err)[i])
  {
    assert Matches(Chain(err)[i], Chain(err)[i]);
  }

  /** errors.Is with a NotFound target holds for a NotFound error exactly when the two
      were made from the same text. */
  lemma ErrorsIsNotFound(u1: GoString, u2: GoString)
    ensures ErrorsIs(NotFound(u1), NotFound(u2)) <==> u1 == u2
  {
    var c := Chain(NotFound(u1));
    assert c == [NotFound(u1)];
    NotFoundIsIff(u1, u2);
    if u1 == u2 {
      assert Matches(c[0], NotFound(u2));
    }
  }
}
