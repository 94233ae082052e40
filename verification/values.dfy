/**
 * url.Values, the key to values map of a URL query, and its encoding as Go's
 * net/url writes it: the keys in byte order, each value as `key=value` with both
 * sides escaped as query components, the pairs joined by '&'. ParseQuery, the
 * decoder, is given as the partner of Encode and the two are proved inverse.
 */
module QueryValues {
  import opened GoStrings
  import opened Wrappers
  import opened UrlEscape

  /** url.Values: every key has a list of values. */
  type Values = map<GoString, seq<GoString>>

  /** One `key=value` pair of a query, before escaping. */
  type Entry = (GoString, GoString)

  /** Values.Set(key, value): the key now has this one value and no other. */
  function Set(v: Values, key: GoString, value: GoString): (r: Values)
    ensures r.Keys == v.Keys + {key}
    ensures r[key] == [value]
    ensures forall k :: k in v && k != key ==> r[k] == v[k]
  {
    v[key := [value]]
  }

  // ---------------------------------------------------------------------------
  // Encoding
  // ---------------------------------------------------------------------------

  /** The pairs of one key, in the order of its values. */
  function KeyEntries(k: GoString, vs: seq<GoString>): (es: seq<Entry>)
    ensures |es| == |vs|
    ensures forall i :: 0 <= i < |es| ==> es[i] == (k, vs[i])
  {
    seq(|vs|, i requires 0 <= i < |vs| => (k, vs[i]))
  }

  lemma KeyEntriesSnoc(k: GoString, vs: seq<GoString>, j: nat)
    requires j < |vs|
    ensures KeyEntries(k, vs[..j + 1]) == KeyEntries(k, vs[..j]) + [(k, vs[j])]
  {
    var a, b := KeyEntries(k, vs[..j + 1]), KeyEntries(k, vs[..j]) + [(k, vs[j])];
    assert |a| == |b|;
    forall i | 0 <= i < |a| ensures a[i] == b[i] {
      if i < j { assert b[i] == KeyEntries(k, vs[..j])[i]; }
    }
  }

  /** The pairs of the keys `ks`, key after key. */
  function Entries(v: Values, ks: seq<GoString>): seq<Entry>
    requires forall i :: 0 <= i < |ks| ==> ks[i] in v
  {
    if ks == [] then []
    else
      var k := ks[|ks| - 1];
      Entries(v, ks[..|ks| - 1]) + KeyEntries(k, v[k])
  }

  /** The text of one pair: both sides escaped as query components. */
  function EntryText(e: Entry): (t: GoString)
    ensures '=' in t
  {
    var t := Escape(e.0, QueryComponentMode) + "=" + Escape(e.1, QueryComponentMode);
    assert t[|Escape(e.0, QueryComponentMode)|] == '=';
    t
  }

  function Texts(es: seq<Entry>): (ts: seq<GoString>)
    ensures |ts| == |es|
    ensures forall i :: 0 <= i < |ts| ==> ts[i] == EntryText(es[i])
  {
    seq(|es|, i requires 0 <= i < |es| => EntryText(es[i]))
  }

  /** What Values.Encode returns: the pairs of all keys in sorted key order, joined by '&'. */
  ghost function Encoded(v: Values): GoString
  {
    Join(Texts(Entries(v, SortedKeys(v.Keys))), '&')
  }

  /** Values.Encode. */
  method Encode(v: Values) returns (s: GoString)
    ensures s == Encoded(v)
  {
    if v == map[] {
      EncodedEmpty(v);
      return [];
    }
    var ks := SortKeys(v.Keys);
    s := WriteKeys(v, ks);
  }

  /** The outer loop of Values.Encode: the pairs of the keys `ks`, key after key. */
  method WriteKeys(v: Values, ks: seq<GoString>) returns (s: GoString)
    requires forall j :: 0 <= j < |ks| ==> ks[j] in v
    ensures Written(s, Entries(v, ks))
  {
    s := [];
    for i := 0 to |ks|
      invariant Written(s, Entries(v, ks[..i]))
    {
      s := WriteKey(s, Entries(v, ks[..i]), ks[i], v[ks[i]]);
      EntriesSnoc(v, ks, i);
    }
    assert ks[..|ks|] == ks;
  }

  lemma EntriesSnoc(v: Values, ks: seq<GoString>, i: nat)
    requires forall j :: 0 <= j < |ks| ==> ks[j] in v
    requires i < |ks|
    ensures Entries(v, ks[..i + 1]) == Entries(v, ks[..i]) + KeyEntries(ks[i], v[ks[i]])
  {
    assert ks[..i + 1][..i] == ks[..i];
  }

  /** `s` is the text of the pairs `es`. */
  ghost predicate Written(s: GoString, es: seq<Entry>)
  {
    s == Join(Texts(es), '&') && (|s| > 0 <==> es != [])
  }

  /** The inner loop of Values.Encode: the pairs of one key written after `s0`,
      with '&' before each unless nothing was written yet. */
  method WriteKey(s0: GoString, ghost es0: seq<Entry>, k: GoString, vs: seq<GoString>) returns (s: GoString)
    requires Written(s0, es0)
    ensures Written(s, es0 + KeyEntries(k, vs))
  {
    s := s0;
    var keyEscaped := Escape(k, QueryComponentMode);
    assert es0 + KeyEntries(k, vs[..0]) == es0;
    for j := 0 to |vs|
      invariant Written(s, es0 + KeyEntries(k, vs[..j]))
    {
      var piece := keyEscaped + "=" + Escape(vs[j], QueryComponentMode);
      WriteStep(s, es0, k, vs, j);
      if |s| > 0 {
        s := s + "&";
      }
      s := s + piece;
    }
    assert vs[..|vs|] == vs;
  }

  /** One pass of WriteKey's loop keeps the text and the pairs written in step. */
  lemma WriteStep(s: GoString, es0: seq<Entry>, k: GoString, vs: seq<GoString>, j: nat)
    requires j < |vs|
    requires Written(s, es0 + KeyEntries(k, vs[..j]))
    ensures Written((if |s| > 0 then s + "&" else s) + EntryText((k, vs[j])), es0 + KeyEntries(k, vs[..j + 1]))
  {
    var es := es0 + KeyEntries(k, vs[..j]);
    AppendPiece(s, es, (k, vs[j]));
    KeyEntriesSnoc(k, vs, j);
    assert es + [(k, vs[j])] == es0 + KeyEntries(k, vs[..j + 1]);
  }

  /** The keys of a map in byte order (Values.Encode collects them and sorts them). */
  method SortKeys(keys: set<GoString>) returns (ks: seq<GoString>)
    ensures ks == SortedKeys(keys)
  {
    ks := [];
    var rest := keys;
    while rest != {}
      invariant rest <= keys
      invariant StrictlySorted(ks)
      invariant forall x :: x in ks <==> x in keys - rest
      decreases |rest|
    {
      var k :| k in rest;
      ks := Insert(k, ks);
      rest := rest - {k};
    }
    SortedUnique(ks, SortedKeys(keys));
  }

  /** Writing one more pair after the text of `es` (with '&' when that text is not
      empty) gives the text of `es` and the pair. */
  lemma AppendPiece(s: GoString, es: seq<Entry>, e: Entry)
    requires s == Join(Texts(es), '&')
    requires |s| > 0 <==> es != []
    ensures (if |s| > 0 then s + "&" else s) + EntryText(e) == Join(Texts(es + [e]), '&')
  {
    var ts := Texts(es + [e]);
    assert ts == Texts(es) + [EntryText(e)];
    assert ts[..|es|] == Texts(es);
  }

  // ---------------------------------------------------------------------------
  // Decoding (url.ParseQuery)
  // ---------------------------------------------------------------------------

  /** strings.Cut(s, sep): the text before the first `sep`, the text after it, and
      whether there was one. */
  function Cut(s: GoString, sep: ByteChar): (r: (GoString, GoString, bool))
    ensures r.2 ==> s == r.0 + [sep] + r.1 && sep !in r.0
    ensures !r.2 ==> r.0 == s && r.1 == [] && sep !in s
  {
    if s == [] then ([], [], false)
    else if s[0] == sep then
      assert s == [] + [sep] + s[1..];
      ([], s[1..], true)
    else
      var (before, after, found) := Cut(s[1..], sep);
      assert s == [s[0]] + s[1..];
      ([s[0]] + before, after, found)
  }

  /** Cutting at the first separator finds the text before it. */
  lemma {:induction false} CutFirst(a: GoString, sep: ByteChar, b: GoString)
    requires sep !in a
    ensures Cut(a + [sep] + b, sep) == (a, b, true)
  {
    if a == [] {
      assert a + [sep] + b == [sep] + b;
      assert ([sep] + b)[1..] == b;
    } else {
      var s := a + [sep] + b;
      assert s[0] == a[0] && s[1..] == a[1..] + [sep] + b;
      CutFirst(a[1..], sep, b);
      assert [a[0]] + a[1..] == a;
    }
  }

  /** One `key=value` piece: a piece without '=' is a key with an empty value. */
  function ParseEntry(piece: GoString): Option<Entry>
  {
    var (key, value, _) := Cut(piece, '=');
    match (Unescape(key, QueryComponentMode), Unescape(value, QueryComponentMode))
    case (Some(k), Some(x)) => Some((k, x))
    case _ => None
  }

  /** The pairs of the pieces between '&', empty pieces skipped; None when a piece
      does not unescape. */
  function ParseEntries(pieces: seq<GoString>): Option<seq<Entry>>
  {
    if pieces == [] then Some([])
    else
      var last := pieces[|pieces| - 1];
      match ParseEntries(pieces[..|pieces| - 1])
      case None => None
      case Some(es) =>
        if last == [] then Some(es)
        else match ParseEntry(last)
          case None => None
          case Some(e) => Some(es + [e])
  }

  /** url.ParseQuery, with the pairs kept in order. */
  function ParseQuery(s: GoString): Option<seq<Entry>>
  {
    ParseEntries(Split(s, '&'))
  }

  /** The text of a pair reads back as that pair. */
  lemma ParseEntryText(e: Entry)
    ensures ParseEntry(EntryText(e)) == Some(e)
  {
    var k, x := Escape(e.0, QueryComponentMode), Escape(e.1, QueryComponentMode);
    EscapeAlphabet(e.0, QueryComponentMode);
    assert '=' !in k by {
      assert forall i :: 0 <= i < |k| ==> QuerySafe(k[i]);
    }
    CutFirst(k, '=', x);
    assert EntryText(e) == k + ['='] + x;
    EscapeRoundTrip(e.0, QueryComponentMode);
    EscapeRoundTrip(e.1, QueryComponentMode);
  }

  /** The texts of pairs read back as those pairs. */
  lemma {:induction false} ParseTexts(es: seq<Entry>)
    ensures ParseEntries(Texts(es)) == Some(es)
  {
    if es != [] {
      var init, e := es[..|es| - 1], es[|es| - 1];
      var ts := Texts(es);
      ParseTexts(init);
      assert ts[..|ts| - 1] == Texts(init);
      assert ts[|ts| - 1] == EntryText(e) && EntryText(e) != [];
      ParseEntryText(e);
      assert ParseEntries(ts) == Some(init + [e]);
      assert init + [e] == es;
    }
  }

  /** No escaped pair holds the '&' that separates pairs. */
  lemma EntryTextFree(e: Entry)
    ensures '&' !in EntryText(e)
  {
    var k, x := Escape(e.0, QueryComponentMode), Escape(e.1, QueryComponentMode);
    EscapeAlphabet(e.0, QueryComponentMode);
    EscapeAlphabet(e.1, QueryComponentMode);
    assert forall i :: 0 <= i < |k| ==> QuerySafe(k[i]);
    assert forall i :: 0 <= i < |x| ==> QuerySafe(x[i]);
    assert EntryText(e) == k + "=" + x;
  }

  /** ParseQuery undoes Encode: the encoded query reads back as every pair of `v`,
      in sorted key order. */
  lemma ParseEncoded(v: Values)
    ensures ParseQuery(Encoded(v)) == Some(Entries(v, SortedKeys(v.Keys)))
  {
    var es := Entries(v, SortedKeys(v.Keys));
    var ts := Texts(es);
    ParseTexts(es);
    if ts == [] {
      assert Split([], '&') == [[]];
      assert Split([], '&')[..0] == [];
    } else {
      forall i | 0 <= i < |ts| ensures '&' !in ts[i] {
        EntryTextFree(es[i]);
      }
      SplitJoin(ts, '&');
    }
  }

  /** A pair is listed exactly when its key is among `ks` and its value among the key's values. */
  lemma {:induction false} EntriesHold(v: Values, ks: seq<GoString>, k: GoString, x: GoString)
    requires forall i :: 0 <= i < |ks| ==> ks[i] in v
    ensures (k, x) in Entries(v, ks) <==> k in ks && x in v[k]
  {
    if ks != [] {
      var init, last := ks[..|ks| - 1], ks[|ks| - 1];
      EntriesHold(v, init, k, x);
      assert ks == init + [last];
      var ke := KeyEntries(last, v[last]);
      assert (k, x) in ke <==> k == last && x in v[last] by {
        if (k, x) in ke {
          var i :| 0 <= i < |ke| && ke[i] == (k, x);
        }
        if k == last && x in v[last] {
          var i :| 0 <= i < |v[last]| && v[last][i] == x;
          assert ke[i] == (k, x);
        }
      }
    }
  }

  /** The encoded query lists exactly the pairs of `v`. */
  lemma EncodedPairs(v: Values, k: GoString, x: GoString)
    ensures (k, x) in Entries(v, SortedKeys(v.Keys)) <==> k in v && x in v[k]
  {
    EntriesHold(v, SortedKeys(v.Keys), k, x);
  }

  /** Nothing to encode gives the empty query. */
  lemma EncodedEmpty(v: Values)
    ensures Encoded(v) == [] <==> forall k :: k in v ==> v[k] == []
  {
    var es := Entries(v, SortedKeys(v.Keys));
    var ts := Texts(es);
    assert Encoded(v) == [] <==> es == [] by {
      if es != [] {
        assert ts[|ts| - 1] != [];
      }
    }
    assert es == [] <==> forall k :: k in v ==> v[k] == [] by {
      forall k | k in v && v[k] != [] ensures es != [] {
        EncodedPairs(v, k, v[k][0]);
      }
      if es != [] {
        EncodedPairs(v, es[0].0, es[0].1);
      }
    }
  }

  // ---------------------------------------------------------------------------
  // Small maps
  // ---------------------------------------------------------------------------

  /** A query with one key and one value is that single pair. */
  lemma EncodedOne(k: GoString, x: GoString)
    ensures Encoded(map[k := [x]]) == EntryText((k, x))
  {
    var v := map[k := [x]];
    SortedUnique(SortedKeys(v.Keys), [k]);
    assert Entries(v, [k]) == [(k, x)] by {
      assert [k][..0] == [];
      assert KeyEntries(k, [x]) == [(k, x)];
    }
  }

  /** A query with two keys, one value each, lists the smaller key first. */
  lemma EncodedTwo(k1: GoString, x1: GoString, k2: GoString, x2: GoString)
    requires Below(k1, k2)
    ensures Encoded(map[k1 := [x1], k2 := [x2]]) == EntryText((k1, x1)) + "&" + EntryText((k2, x2))
  {
    var v := map[k1 := [x1], k2 := [x2]];
    BelowIrreflexive(k1);
    SortedTwo(k1, k2);
    assert v.Keys == {k1, k2};
    EntriesTwo(v, k1, x1, k2, x2);
    var ts := Texts([(k1, x1), (k2, x2)]);
    assert ts[..1] == [ts[0]];
    assert Join(ts, '&') == Join(ts[..1], '&') + "&" + ts[1];
  }

  lemma SortedTwo(k1: GoString, k2: GoString)
    requires Below(k1, k2)
    ensures SortedKeys({k1, k2}) == [k1, k2]
  {
    BelowIrreflexive(k1);
    assert StrictlySorted([k1, k2]);
    SortedUnique(SortedKeys({k1, k2}), [k1, k2]);
  }

  lemma EntriesTwo(v: Values, k1: GoString, x1: GoString, k2: GoString, x2: GoString)
    requires k1 in v && k2 in v && v[k1] == [x1] && v[k2] == [x2]
    ensures Entries(v, [k1, k2]) == [(k1, x1), (k2, x2)]
  {
    assert KeyEntries(k1, [x1]) == [(k1, x1)];
    assert KeyEntries(k2, [x2]) == [(k2, x2)];
    assert Entries(v, [k1]) == [(k1, x1)] by {
      assert [k1][..0] == [];
    }
    assert [k1, k2][..1] == [k1];
  }
}
