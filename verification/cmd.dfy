/**
 * The command's two workers. getTitles runs the title search, reports a failure
 * back through the application-error record it was handed (classified as an
 * empty query or a generic error), and on success prints one line per title.
 * progressMarker prints a dot per tick of its ticker and a newline after every
 * hundredth dot.
 *
 * What the workers print is returned: the standard-output writes, the log lines
 * (without the logger's timestamp) and whether the `done` channel was closed. The
 * goroutines, the WaitGroup, the channel and the ticker are not part of this model;
 * progressMarker runs for a given number of ticks.
 */
module Cmd {
  import opened GoStrings
  import opened Wrappers
  import opened QueryValues
  import opened Errors
  import opened Client
  import opened Imdb

  // ---------------------------------------------------------------------------
  // getTitles
  // ---------------------------------------------------------------------------

  /** The application error that getTitles writes through its `result` pointer. */
  class ResultRecord {
    var clientError: Option<Error>
    var appMessage: GoString
    var code: AppCode

    /** A zero record, as the caller declares it. */
    constructor ()
      ensures clientError == None && appMessage == [] && code == Unclassified
    {
      clientError := None;
      appMessage := [];
      code := Unclassified;
    }

    /** The record as an error value. */
    function AsError(): (e: Error)
      reads this
      ensures e.ApplicationError? && Unwrap(e) == clientError
    {
      ApplicationError(clientError, appMessage, code)
    }
  }

  /** What getTitles printed and whether it closed `done`. */
  datatype Output = Output(stdout: seq<GoString>, log: seq<GoString>, doneClosed: bool)

  const FindingResults: GoString := "Finding results:\n"
  const DoneFetching: GoString := "\nDone fetching results.\n"
  const NoTitlesFound: GoString := "No titles found\n"
  const EmptyTitleLog: GoString := "Title cannot be empty "
  const UnexpectedLog: GoString := "An unexpected error has occurred: ("
  const LineEnd: GoString := "\n"
  const CloseLine: GoString := ")\n"

  /** The code getTitles gives an application error, chosen by its message. */
  function CodeFor(appMessage: GoString): (c: AppCode)
    ensures c != Unclassified
    ensures c == EmptyQueryError <==> appMessage == EmptyTitle
  {
    if appMessage == EmptyTitle then EmptyQueryError else GenericError
  }

  /** The log line getTitles writes for an application error. */
  function ErrorLog(e: Error): (line: GoString)
    requires e.ApplicationError?
    ensures e.appMessage == EmptyTitle ==> line == EmptyTitleLog + ErrorText(e) + LineEnd
    ensures e.appMessage != EmptyTitle ==> line == UnexpectedLog + ErrorText(e) + CloseLine
  {
    if e.appMessage == EmptyTitle then EmptyTitleLog + ErrorText(e) + LineEnd
    else UnexpectedLog + ErrorText(e) + CloseLine
  }

  /** Reading a log line back: whether it is the empty-title line, and the error text
      it holds. */
  function ParseErrorLog(line: GoString): Option<(bool, GoString)>
  {
    if |line| >= |EmptyTitleLog| + |LineEnd| && line[..|EmptyTitleLog|] == EmptyTitleLog
       && line[|line| - |LineEnd|..] == LineEnd
    then Some((true, line[|EmptyTitleLog|..|line| - |LineEnd|]))
    else if |line| >= |UnexpectedLog| + |CloseLine| && line[..|UnexpectedLog|] == UnexpectedLog
       && line[|line| - |CloseLine|..] == CloseLine
    then Some((false, line[|UnexpectedLog|..|line| - |CloseLine|]))
    else None
  }

  /** The log line tells which of the two cases the error was, and holds its text. */
  lemma ErrorLogReadBack(e: Error)
    requires e.ApplicationError?
    ensures ParseErrorLog(ErrorLog(e)) == Some((e.appMessage == EmptyTitle, ErrorText(e)))
  {
    var line, text := ErrorLog(e), ErrorText(e);
    if e.appMessage == EmptyTitle {
      assert line[..|EmptyTitleLog|] == EmptyTitleLog;
      assert line[|line| - |LineEnd|..] == LineEnd;
      assert line[|EmptyTitleLog|..|line| - |LineEnd|] == text;
    } else {
      assert line[0] == UnexpectedLog[0] != EmptyTitleLog[0];
      assert line[..|UnexpectedLog|] == UnexpectedLog;
      assert line[|line| - |CloseLine|..] == CloseLine;
      assert line[|UnexpectedLog|..|line| - |CloseLine|] == text;
    }
  }

  /** Two application errors log the same line only when they fall in the same case
      and have the same text. */
  lemma ErrorLogInjective(a: Error, b: Error)
    requires a.ApplicationError? && b.ApplicationError?
    requires ErrorLog(a) == ErrorLog(b)
    ensures (a.appMessage == EmptyTitle) == (b.appMessage == EmptyTitle)
    ensures ErrorText(a) == ErrorText(b)
  {
    ErrorLogReadBack(a);
    ErrorLogReadBack(b);
  }

  /** The two pieces of a title line around the original title. */
  const Arrow: GoString := "\t-> \""
  const Close: GoString := "\"\n"

  /** The line printed for a title: its id in parentheses, a tab, an arrow, and its
      original title in double quotes, ending the line. */
  function TitleLine(t: Title): (line: GoString)
    ensures |line| == |t.id| + |t.originalTitle| + 1 + 1 + |Arrow| + |Close|
    ensures line[0] == '('
  {
    ['('] + t.id + [')'] + Arrow + t.originalTitle + Close
  }

  /** The title lines of a list of titles, in order. */
  function TitleLines(titles: seq<Title>): (lines: seq<GoString>)
    ensures |lines| == |titles|
    ensures forall i :: 0 <= i < |titles| ==> lines[i] == TitleLine(titles[i])
  {
    seq(|titles|, i requires 0 <= i < |titles| => TitleLine(titles[i]))
  }

  /** Reading a title line back: the id up to the first ')', the original title between
      the arrow and the closing quote. */
  function ParseTitleLine(line: GoString): Option<Title>
  {
    if |line| == 0 || line[0] != '(' then None
    else
      var (id, rest, found) := Cut(line[1..], ')');
      if found && |rest| >= |Arrow| + |Close| && rest[..|Arrow|] == Arrow
         && rest[|rest| - |Close|..] == Close
      then Some(Title(id, rest[|Arrow|..|rest| - |Close|]))
      else None
  }

  /** A title line gives back its title, when the id has no ')'. */
  lemma TitleLineRoundTrip(t: Title)
    requires ')' !in t.id
    ensures ParseTitleLine(TitleLine(t)) == Some(t)
  {
    var line := TitleLine(t);
    var rest := Arrow + t.originalTitle + Close;
    assert line[1..] == t.id + [')'] + rest;
    CutFirst(t.id, ')', rest);
    assert rest[..|Arrow|] == Arrow;
    assert rest[|rest| - |Close|..] == Close;
    assert rest[|Arrow|..|rest| - |Close|] == t.originalTitle;
  }

  /** Different titles whose ids have no ')' print different lines. */
  lemma TitleLineInjective(a: Title, b: Title)
    requires ')' !in a.id && ')' !in b.id
    requires TitleLine(a) == TitleLine(b)
    ensures a == b
  {
    TitleLineRoundTrip(a);
    TitleLineRoundTrip(b);
  }

  /** getTitles(imdbClient, query, wg, done, result), with the title check on. */
  method GetTitles(client: ImdbClient, query: GoString, server: GoString -> Exchange,
                   decode: GoString -> Decoded, result: ResultRecord)
    returns (out: Output)
    modifies result
    ensures var r := Search(client.options.apiUrl, query, true, server, decode);
      r.err.Some? ==>
        r.err.value.ApplicationError? &&
        result.clientError == r.err.value.clientError &&
        result.appMessage == r.err.value.appMessage &&
        result.code == CodeFor(r.err.value.appMessage) &&
        result.AsError() == r.err.value.(appCode := CodeFor(r.err.value.appMessage)) &&
        out == Output([FindingResults], [ErrorLog(r.err.value)], false)
    ensures var r := Search(client.options.apiUrl, query, true, server, decode);
      r.err.None? ==>
        unchanged(result) &&
        out == Output([FindingResults, DoneFetching] + TitleLines(r.titles),
                      if r.titles == [] then [NoTitlesFound] else [], true)
  {
    var r := FindShowsByTitle(client, query, true, server, decode);
    SearchErrors(client.options.apiUrl, query, true, server, decode);
    out := Report(r, result);
  }

  /** The rest of getTitles once the search has returned `r`. */
  method Report(r: SearchResult, result: ResultRecord) returns (out: Output)
    requires r.err.Some? ==> r.err.value.ApplicationError?
    modifies result
    ensures r.err.Some? ==>
      result.clientError == r.err.value.clientError &&
      result.appMessage == r.err.value.appMessage &&
      result.code == CodeFor(r.err.value.appMessage) &&
      result.AsError() == r.err.value.(appCode := CodeFor(r.err.value.appMessage)) &&
      out == Output([FindingResults], [ErrorLog(r.err.value)], false)
    ensures r.err.None? ==>
      unchanged(result) &&
      out == Output([FindingResults, DoneFetching] + TitleLines(r.titles),
                    if r.titles == [] then [NoTitlesFound] else [], true)
  {
    var stdout := [FindingResults];
    if r.err.Some? {
      var err := r.err.value;
      var line := ErrorLog(err);
      result.clientError, result.appMessage := err.clientError, err.appMessage;
      result.code := CodeFor(err.appMessage);
      return Output(stdout, [line], false);
    }
    stdout := stdout + [DoneFetching];
    var log := if r.titles == [] then [NoTitlesFound] else [];
    stdout := PrintTitles(stdout, r.titles);
    out := Output(stdout, log, true);
  }

  /** The loop of getTitles that prints one line per title, in list order. */
  method PrintTitles(printed: seq<GoString>, titles: seq<Title>) returns (stdout: seq<GoString>)
    ensures stdout == printed + TitleLines(titles)
  {
    stdout := printed;
    var i := 0;
    while i < |titles|
      invariant 0 <= i <= |titles|
      invariant stdout == printed + TitleLines(titles[..i])
    {
      stdout := stdout + [TitleLine(titles[i])];
      assert titles[..i + 1] == titles[..i] + [titles[i]];
      i := i + 1;
    }
    assert titles[..i] == titles;
  }

  /** The code recorded for a failed search is EMPTYQUERYERROR exactly when the query
      was empty; every other failure is GENERICERROR. */
  lemma {:induction false} EmptyQueryCode(apiUrl: Url, query: GoString, server: GoString -> Exchange,
                                          decode: GoString -> Decoded)
    ensures var r := Search(apiUrl, query, true, server, decode);
      query == [] ==> r.err.Some? && CodeFor(r.err.value.appMessage) == EmptyQueryError
    ensures var r := Search(apiUrl, query, true, server, decode);
      query != [] && r.err.Some? ==> CodeFor(r.err.value.appMessage) == GenericError
  {
    EmptyTitleOnlyForEmpty(apiUrl, query, server, decode);
  }

  /** Every line getTitles prints after the header reads back as the title it was
      printed for, in order, when no id contains ')'. */
  lemma TitleLinesReadBack(titles: seq<Title>)
    requires forall i :: 0 <= i < |titles| ==> ')' !in titles[i].id
    ensures forall i :: 0 <= i < |titles| ==> ParseTitleLine(TitleLines(titles)[i]) == Some(titles[i])
  {
    forall i | 0 <= i < |titles|
      ensures ParseTitleLine(TitleLines(titles)[i]) == Some(titles[i])
    {
      TitleLineRoundTrip(titles[i]);
    }
  }

  // ---------------------------------------------------------------------------
  // progressMarker
  // ---------------------------------------------------------------------------

  const Dot: GoString := "."
  const Newline: GoString := "\n"

  /** What progressMarker has printed after `ticks` ticks. */
  function ProgressOutput(ticks: nat): GoString
  {
    if ticks == 0 then []
    else ProgressOutput(ticks - 1) + Dot + (if ticks % 100 == 0 then Newline else [])
  }

  /** progressMarker(done), stopped after `ticks` ticks: what it printed and its counter. */
  method ProgressMarker(ticks: nat) returns (out: GoString, counter: nat)
    ensures out == ProgressOutput(ticks)
    ensures counter == ticks % 100 && counter < 100
  {
    out, counter := [], 0;
    var i := 0;
    while i < ticks
      invariant i <= ticks
      invariant out == ProgressOutput(i)
      invariant counter == i % 100
    {
      CounterStep(i);
      out := out + Dot;
      counter := counter + 1;
      if counter % 100 == 0 {
        out := out + Newline;
        counter := 0;
      }
      i := i + 1;
    }
  }

  /** The counter after one more tick. */
  lemma CounterStep(i: nat)
    ensures (i + 1) % 100 == (if (i % 100 + 1) % 100 == 0 then 0 else i % 100 + 1)
    ensures (i + 1) % 100 == 0 <==> (i % 100 + 1) % 100 == 0
  {
  }

  /** The character at position i of the progress output: a newline at every 101st
      place, right after each hundredth dot, and a dot everywhere else. */
  function Mark(i: nat): char
  {
    if (i + 1) % 101 == 0 then '\n' else '.'
  }

  /** Counting ticks in hundreds: one more tick adds a hundred exactly when it is a
      multiple of 100. */
  lemma HundredsStep(n: nat)
    requires n >= 1
    ensures n / 100 == (n - 1) / 100 + (if n % 100 == 0 then 1 else 0)
  {
  }

  /** The place of the dot of tick n, after the output of the earlier ticks, is not
      a newline place. */
  lemma DotPlace(n: nat)
    requires n >= 1
    ensures Mark((n - 1) + (n - 1) / 100) == '.'
  {
    var q, r := (n - 1) / 100, (n - 1) % 100;
    assert (n - 1) + q == 101 * q + r;
    assert ((n - 1) + q + 1) % 101 == r + 1 by {
      assert (n - 1) + q + 1 == 101 * q + (r + 1);
    }
  }

  /** When n is a multiple of 100, the place right after the dot of tick n is a
      newline place. */
  lemma NewlinePlace(n: nat)
    requires n >= 1 && n % 100 == 0
    ensures Mark((n - 1) + (n - 1) / 100 + 1) == '\n'
  {
    var q := (n - 1) / 100;
    assert (n - 1) % 100 == 99;
    assert (n - 1) + q + 2 == 101 * (q + 1);
  }

  /** After n ticks there are n dots and n / 100 newlines, each newline right after a
      dot whose number is a multiple of 100. */
  lemma {:induction false} ProgressShape(n: nat)
    ensures |ProgressOutput(n)| == n + n / 100
    ensures forall i :: 0 <= i < |ProgressOutput(n)| ==> ProgressOutput(n)[i] == Mark(i)
  {
    if n > 0 {
      ProgressShape(n - 1);
      TickMarks(n);
      var before, out := ProgressOutput(n - 1), ProgressOutput(n);
      assert forall i :: 0 <= i < |before| ==> out[i] == before[i];
    }
  }

  /** What tick n adds after the output of the earlier ticks: a dot, and a newline
      when n is a multiple of 100, at the places Mark gives. */
  lemma TickMarks(n: nat)
    requires n >= 1
    requires |ProgressOutput(n - 1)| == (n - 1) + (n - 1) / 100
    ensures |ProgressOutput(n)| == n + n / 100
    ensures forall i :: |ProgressOutput(n - 1)| <= i < |ProgressOutput(n)| ==> ProgressOutput(n)[i] == Mark(i)
  {
    HundredsStep(n);
    DotPlace(n);
    var before, out := ProgressOutput(n - 1), ProgressOutput(n);
    assert out[|before|] == '.';
    if n % 100 == 0 {
      NewlinePlace(n);
      assert out[|before| + 1] == '\n';
    }
  }
}
