/**
 * Percent-encoding as Go's net/url does it for the two kinds of text the client
 * writes into a URL: the path (encodePath, used by URL.EscapedPath) and a query
 * key or value (encodeQueryComponent, used by QueryEscape). Every byte that must
 * be escaped becomes '%' and two upper-case hex digits (section 2.1 of RFC 3986);
 * in a query component a space becomes '+'. Unescape is the decoder
 * (net/url's unescape), and the round trip is proved.
 */
module UrlEscape {
  import opened GoStrings
  import opened Wrappers

  datatype Mode = PathMode | QueryComponentMode

  /** Letters, digits and the four unreserved marks of section 2.3 of RFC 3986. */
  predicate Unreserved(c: char)
  {
    || 'a' <= c <= 'z' || 'A' <= c <= 'Z' || '0' <= c <= '9'
    || c == '-' || c == '_' || c == '.' || c == '~'
  }

  /** net/url's shouldEscape for the two modes. */
  predicate ShouldEscape(c: ByteChar, mode: Mode)
  {
    if Unreserved(c) then false
    else if Reserved(c) then mode == QueryComponentMode || c == '?'
    else true
  }

  /** The reserved characters that net/url lists for paths and queries: $ & + , / : ; = ? @ */
  predicate Reserved(c: char)
  {
    || c == '$' || c == '&' || c == '+' || c == ',' || c == '/'
    || c == ':' || c == ';' || c == '=' || c == '?' || c == '@'
  }

  /** An upper-case hex digit. */
  function HexDigit(n: nat): (c: ByteChar)
    requires n < 16
    ensures Unreserved(c)
  {
    if n < 10 then (n + '0' as int) as char else (n - 10 + 'A' as int) as char
  }

  /** The value of a hex digit of either case (net/url's ishex and unhex). */
  function UnHex(c: char): (r: Option<nat>)
    ensures r.Some? ==> r.value < 16
  {
    if '0' <= c <= '9' then Some(c as int - '0' as int)
    else if 'a' <= c <= 'f' then Some(c as int - 'a' as int + 10)
    else if 'A' <= c <= 'F' then Some(c as int - 'A' as int + 10)
    else None
  }

  lemma UnHexDigit(n: nat)
    requires n < 16
    ensures UnHex(HexDigit(n)) == Some(n)
  {
  }

  /** The text one byte becomes. */
  function EscapeByte(c: ByteChar, mode: Mode): (r: GoString)
    ensures 1 <= |r| <= 3
    ensures !ShouldEscape(c, mode) ==> r == [c]
    ensures ShouldEscape(c, mode) ==> r[0] == '%' || r == ['+']
  {
    if !ShouldEscape(c, mode) then [c]
    else if c == ' ' && mode == QueryComponentMode then ['+']
    else ['%', HexDigit(c as int / 16), HexDigit(c as int % 16)]
  }

  /** net/url's escape(s, mode). */
  function Escape(s: GoString, mode: Mode): GoString
  {
    if s == [] then []
    else
      var head, tail := EscapeByte(s[0], mode), Escape(s[1..], mode);
      head + tail
  }

  /** What escaped text may contain: in a query component only unreserved characters,
      '%' and '+', so never the '&' and '=' that delimit pairs; in a path never '?' or
      a space. */
  lemma {:induction false} EscapeAlphabet(s: GoString, mode: Mode)
    ensures mode == QueryComponentMode ==>
      forall i :: 0 <= i < |Escape(s, mode)| ==> QuerySafe(Escape(s, mode)[i])
    ensures mode == PathMode ==>
      forall i :: 0 <= i < |Escape(s, mode)| ==> Escape(s, mode)[i] != '?' && Escape(s, mode)[i] != ' '
  {
    if s != [] {
      EscapeAlphabet(s[1..], mode);
      var head, tail := EscapeByte(s[0], mode), Escape(s[1..], mode);
      assert Escape(s, mode) == head + tail;
      assert forall i :: |head| <= i < |head| + |tail| ==> (head + tail)[i] == tail[i - |head|];
    }
  }

  /** The characters an escaped query key or value is made of. */
  predicate QuerySafe(c: char)
  {
    Unreserved(c) || c == '%' || c == '+'
  }

  /** net/url's unescape(s, mode): None where a '%' is not followed by two hex digits. */
  function Unescape(s: GoString, mode: Mode): Option<GoString>
  {
    if s == [] then Some([])
    else if s[0] == '%' then
      if |s| < 3 then None
      else match (UnHex(s[1]), UnHex(s[2]))
        case (Some(hi), Some(lo)) => Prepend((hi * 16 + lo) as char, Unescape(s[3..], mode))
        case _ => None
    else if s[0] == '+' && mode == QueryComponentMode then Prepend(' ', Unescape(s[1..], mode))
    else Prepend(s[0], Unescape(s[1..], mode))
  }

  function Prepend(c: ByteChar, rest: Option<GoString>): Option<GoString>
  {
    match rest
    case Some(r) => Some([c] + r)
    case None => None
  }

  /** Decoding the text of one byte followed by more text gives back that byte first. */
  lemma UnescapeByte(c: ByteChar, mode: Mode, rest: GoString)
    ensures Unescape(EscapeByte(c, mode) + rest, mode) == Prepend(c, Unescape(rest, mode))
  {
    var e := EscapeByte(c, mode);
    assert (e + rest)[0] == e[0];
    if !ShouldEscape(c, mode) {
      assert (e + rest)[1..] == rest;
    } else if c == ' ' && mode == QueryComponentMode {
      assert (e + rest)[1..] == rest;
    } else {
      var hi, lo := c as int / 16, c as int % 16;
      UnHexDigit(hi);
      UnHexDigit(lo);
      assert (e + rest)[1] == HexDigit(hi) && (e + rest)[2] == HexDigit(lo);
      assert (e + rest)[3..] == rest;
      assert ((hi * 16 + lo) as char) == c;
    }
  }

  /** Unescape undoes Escape in both modes. */
  lemma {:induction false} EscapeRoundTrip(s: GoString, mode: Mode)
    ensures Unescape(Escape(s, mode), mode) == Some(s)
  {
    if s != [] {
      EscapeRoundTrip(s[1..], mode);
      UnescapeByte(s[0], mode, Escape(s[1..], mode));
      assert [s[0]] + s[1..] == s;
    }
  }

  /** Escaping is one-to-one: different keys or values never share a text. */
  lemma EscapeInjective(a: GoString, b: GoString, mode: Mode)
    requires Escape(a, mode) == Escape(b, mode)
    ensures a == b
  {
    EscapeRoundTrip(a, mode);
    EscapeRoundTrip(b, mode);
  }

  /** Escaping works byte by byte, so it distributes over concatenation. */
  lemma {:induction false} EscapeConcat(a: GoString, b: GoString, mode: Mode)
    ensures Escape(a + b, mode) == Escape(a, mode) + Escape(b, mode)
  {
    if a == [] {
      assert a + b == b;
    } else {
      assert (a + b)[0] == a[0] && (a + b)[1..] == a[1..] + b;
      EscapeConcat(a[1..], b, mode);
    }
  }

  /** Text none of whose bytes needs escaping is left as it is. */
  lemma {:induction false} EscapeKept(s: GoString, mode: Mode)
    requires forall i :: 0 <= i < |s| ==> !ShouldEscape(s[i], mode)
    ensures Escape(s, mode) == s
  {
    if s != [] {
      EscapeKept(s[1..], mode);
      assert [s[0]] + s[1..] == s;
    }
  }

  /** One byte between two runs of text that is kept as it is. */
  lemma EscapeBetween(a: GoString, c: ByteChar, b: GoString, mode: Mode)
    requires forall i :: 0 <= i < |a| ==> !ShouldEscape(a[i], mode)
    requires forall i :: 0 <= i < |b| ==> !ShouldEscape(b[i], mode)
    ensures Escape(a + [c] + b, mode) == a + EscapeByte(c, mode) + b
  {
    EscapeKept(a, mode);
    EscapeKept(b, mode);
    EscapeConcat(a + [c], b, mode);
    EscapeConcat(a, [c], mode);
    assert Escape([c], mode) == EscapeByte(c, mode) by {
      assert [c][1..] == [];
    }
  }

  // ---------------------------------------------------------------------------
  // URL.EscapedPath
  // ---------------------------------------------------------------------------

  /** The bytes other than '%' that net/url's validEncoded accepts in a path: those
      encodePath leaves alone and the sub-delimiters ! ' ( ) * [ ]. */
  predicate PathValid(c: ByteChar)
  {
    || !ShouldEscape(c, PathMode)
    || c == '!' || c == '\'' || c == '(' || c == ')' || c == '*' || c == '[' || c == ']'
  }

  /**
   * The path as URL.EscapedPath writes it once URL.JoinPath has stored it: a path
   * that escaping would change is kept as the raw path, which is written as it is
   * when every byte of it is valid in a path; any other path is escaped.
   */
  function EscapedPath(p: GoString): (r: GoString)
    ensures forall i :: 0 <= i < |r| ==> r[i] != '?' && r[i] != ' '
  {
    if forall i :: 0 <= i < |p| ==> PathValid(p[i]) then p
    else
      EscapeAlphabet(p, PathMode);
      Escape(p, PathMode)
  }

  /** Text without '%' decodes to itself in a path. */
  lemma {:induction false} UnescapePlain(s: GoString)
    requires forall i :: 0 <= i < |s| ==> s[i] != '%'
    ensures Unescape(s, PathMode) == Some(s)
  {
    if s != [] {
      UnescapePlain(s[1..]);
      assert [s[0]] + s[1..] == s;
    }
  }

  /** The written path always decodes back to the path, raw or escaped. */
  lemma EscapedPathRoundTrip(p: GoString)
    ensures Unescape(EscapedPath(p), PathMode) == Some(p)
  {
    if forall i :: 0 <= i < |p| ==> PathValid(p[i]) {
      UnescapePlain(p);
    } else {
      EscapeRoundTrip(p, PathMode);
    }
  }

  /** Different paths are written differently. */
  lemma EscapedPathInjective(a: GoString, b: GoString)
    requires EscapedPath(a) == EscapedPath(b)
    ensures a == b
  {
    EscapedPathRoundTrip(a);
    EscapedPathRoundTrip(b);
  }

  /** The four UTF-8 bytes of the emoji U+1F97A. */
  const Emoji: GoString := "\U{F0}\U{9F}\U{A5}\U{BA}"

  /** Each byte of the emoji is escaped, in a path as in a query component. */
  lemma EscapeEmoji(mode: Mode)
    ensures Escape(Emoji, mode) == "%F0%9F%A5%BA"
  {
  }

  /** The emoji as a whole path is written escaped, since its bytes are not valid in
      a path. */
  lemma EscapedPathEmoji()
    ensures EscapedPath(Emoji) == "%F0%9F%A5%BA"
  {
    assert !PathValid(Emoji[0]);
    EscapeEmoji(PathMode);
  }

  /** A path holding a sub-delimiter is written as it is: "foo!" stays "foo!", where
      escaping it would give "foo%21". */
  lemma EscapedPathSubDelims()
    ensures EscapedPath("foo!") == "foo!"
    ensures Escape("foo!", PathMode) == "foo%21"
  {
    var foo: GoString := "foo";
    assert "foo!" == foo + ['!'] + [];
    EscapeBetween(foo, '!', [], PathMode);
  }

  /** A space in a query value becomes '+'. */
  lemma EscapeSpaceInValue()
    ensures Escape("Stranger" + " " + "Things", QueryComponentMode) == "Stranger+Things"
  {
    EscapeBetween("Stranger", ' ', "Things", QueryComponentMode);
  }
}
