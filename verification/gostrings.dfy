/**
 * Go strings are sequences of bytes. A `GoString` holds one char per byte, every
 * char below 256, so that a multi-byte UTF-8 character is several chars here
 * (the emoji U+1F97A is the four chars F0 9F A5 BA).
 *
 * The module also gives the pieces of Go's `strings` package and of the byte-wise
 * string order that the URL builder relies on: splitting and joining on a
 * separator, and sorting a set of keys.
 */
module GoStrings {

  type ByteChar = c: char | c as int < 256 witness 'a'

  type GoString = seq<ByteChar>

  // ---------------------------------------------------------------------------
  // Split and Join (strings.Split, strings.Join)
  // ---------------------------------------------------------------------------

  /** strings.Split(s, sep): the maximal pieces of `s` between separators. */
  function Split(s: GoString, sep: ByteChar): (parts: seq<GoString>)
    ensures |parts| >= 1
    ensures forall i :: 0 <= i < |parts| ==> sep !in parts[i]
    ensures |parts| == 1 ==> parts[0] == s
    decreases |s|
  {
    if s == [] then [[]]
    else
      var rest := Split(s[1..], sep);
      if s[0] == sep then [[]] + rest
      else
        assert |rest| == 1 ==> rest[0] == s[1..];
        assert s == [s[0]] + s[1..];
        [[s[0]] + rest[0]] + rest[1..]
  }

  /** strings.Join(parts, sep), written by its last piece. */
  function Join(parts: seq<GoString>, sep: ByteChar): GoString
  {
    if |parts| == 0 then []
    else if |parts| == 1 then parts[0]
    else Join(parts[..|parts| - 1], sep) + [sep] + parts[|parts| - 1]
  }

  /** Splitting after one more separator adds exactly the trailing piece. */
  lemma {:induction false} SplitAppend(x: GoString, sep: ByteChar, b: GoString)
    requires sep !in b
    ensures Split(x + [sep] + b, sep) == Split(x, sep) + [b]
    decreases |x|
  {
    if x == [] {
      assert x + [sep] + b == [sep] + b;
      assert ([sep] + b)[1..] == b;
      assert Split(b, sep) == [b] by { SplitFree(b, sep); }
    } else {
      var s := x + [sep] + b;
      assert s[0] == x[0];
      assert s[1..] == x[1..] + [sep] + b;
      SplitAppend(x[1..], sep, b);
    }
  }

  /** A string without the separator splits into itself. */
  lemma {:induction false} SplitFree(s: GoString, sep: ByteChar)
    requires sep !in s
    ensures Split(s, sep) == [s]
    decreases |s|
  {
    if s != [] {
      assert sep !in s[1..];
      SplitFree(s[1..], sep);
    }
  }

  /** Split undoes Join when no piece holds the separator. */
  lemma {:induction false} SplitJoin(parts: seq<GoString>, sep: ByteChar)
    requires |parts| >= 1
    requires forall i :: 0 <= i < |parts| ==> sep !in parts[i]
    ensures Split(Join(parts, sep), sep) == parts
    decreases |parts|
  {
    if |parts| == 1 {
      SplitFree(parts[0], sep);
    } else {
      var init := parts[..|parts| - 1];
      SplitJoin(init, sep);
      SplitAppend(Join(init, sep), sep, parts[|parts| - 1]);
      assert init + [parts[|parts| - 1]] == parts;
    }
  }

  /** The pieces of `s` between '/' that are not empty: what path.Join keeps. */
  function Segments(s: GoString): (segs: seq<GoString>)
    ensures forall i :: 0 <= i < |segs| ==> segs[i] != [] && '/' !in segs[i]
  {
    NonEmpty(Split(s, '/'))
  }

  /** The empty path has no segments. */
  lemma NoSegments()
    ensures Segments([]) == []
  {
    assert Split([], '/') == [[]];
  }

  /** The parts that are not empty, in order. */
  function NonEmpty(parts: seq<GoString>): (r: seq<GoString>)
    ensures forall i :: 0 <= i < |r| ==> r[i] != [] && r[i] in parts
    ensures forall p :: p in parts && p != [] ==> p in r
  {
    if parts == [] then []
    else if parts[0] == [] then NonEmpty(parts[1..])
    else [parts[0]] + NonEmpty(parts[1..])
  }

  /** Text between a fixed prefix and a fixed suffix is determined by the whole. */
  lemma MiddleInjective(prefix: GoString, a: GoString, b: GoString, suffix: GoString)
    requires prefix + a + suffix == prefix + b + suffix
    ensures a == b
  {
    assert |a| == |b|;
    forall i | 0 <= i < |a|
      ensures a[i] == b[i]
    {
      assert a[i] == (prefix + a + suffix)[|prefix| + i];
      assert b[i] == (prefix + b + suffix)[|prefix| + i];
    }
  }

  // ---------------------------------------------------------------------------
  // Byte-wise order (Go compares strings byte by byte)
  // ---------------------------------------------------------------------------

  /** `a` sorts strictly before `b`. */
  predicate Below(a: GoString, b: GoString)
  {
    if a == [] then b != []
    else if b == [] then false
    else if a[0] == b[0] then Below(a[1..], b[1..])
    else a[0] < b[0]
  }

  lemma {:induction false} BelowIrreflexive(a: GoString)
    ensures !Below(a, a)
  {
    if a != [] { BelowIrreflexive(a[1..]); }
  }

  lemma {:induction false} BelowAsymmetric(a: GoString, b: GoString)
    requires Below(a, b)
    ensures !Below(b, a)
  {
    if a != [] && b != [] && a[0] == b[0] { BelowAsymmetric(a[1..], b[1..]); }
  }

  lemma {:induction false} BelowTransitive(a: GoString, b: GoString, c: GoString)
    requires Below(a, b) && Below(b, c)
    ensures Below(a, c)
  {
    if a != [] && a[0] == b[0] && b[0] == c[0] {
      BelowTransitive(a[1..], b[1..], c[1..]);
    }
  }

  lemma {:induction false} BelowTotal(a: GoString, b: GoString)
    requires a != b
    ensures Below(a, b) || Below(b, a)
  {
    if a != [] && b != [] && a[0] == b[0] {
      assert a == [a[0]] + a[1..] && b == [b[0]] + b[1..];
      BelowTotal(a[1..], b[1..]);
    }
  }

  // ---------------------------------------------------------------------------
  // Sorted key lists (the key order of url.Values.Encode)
  // ---------------------------------------------------------------------------

  ghost predicate StrictlySorted(ks: seq<GoString>)
  {
    forall i, j :: 0 <= i < j < |ks| ==> Below(ks[i], ks[j])
  }

  /** Inserts a new key at its place in a sorted key list. */
  function Insert(k: GoString, ks: seq<GoString>): (r: seq<GoString>)
    requires StrictlySorted(ks) && k !in ks
    ensures StrictlySorted(r)
    ensures forall x :: x in r <==> x == k || x in ks
    ensures |r| == |ks| + 1
  {
    if ks == [] then [k]
    else if Below(k, ks[0]) then
      assert forall j :: 0 < j < |ks| ==> Below(k, ks[j]) by {
        forall j | 0 < j < |ks| ensures Below(k, ks[j]) { BelowTransitive(k, ks[0], ks[j]); }
      }
      [k] + ks
    else
      BelowTotal(k, ks[0]);
      var tail := Insert(k, ks[1..]);
      assert forall x :: x in tail ==> Below(ks[0], x);
      [ks[0]] + tail
  }

  /** The keys of `keys` in increasing order. */
  ghost function SortedKeys(keys: set<GoString>): (ks: seq<GoString>)
    ensures StrictlySorted(ks)
    ensures forall x :: x in ks <==> x in keys
    decreases keys
  {
    if keys == {} then []
    else
      var k :| k in keys;
      Insert(k, SortedKeys(keys - {k}))
  }

  /** A set has exactly one strictly sorted listing. */
  lemma {:induction false} SortedUnique(a: seq<GoString>, b: seq<GoString>)
    requires StrictlySorted(a) && StrictlySorted(b)
    requires forall x :: x in a <==> x in b
    ensures a == b
    decreases |a|
  {
    if a == [] {
      HeadIn(b);
    } else {
      assert a[0] in b;
      assert b != [];
      assert b[0] in a;
      if a[0] != b[0] {
        var i :| 0 <= i < |b| && b[i] == a[0];
        var j :| 0 <= j < |a| && a[j] == b[0];
        assert Below(b[0], a[0]);
        assert Below(a[0], b[0]);
        BelowAsymmetric(a[0], b[0]);
      }
      forall x ensures x in a[1..] <==> x in b[1..] {
        if x in a[1..] {
          var i :| 1 <= i < |a| && a[i] == x;
          BelowIrreflexiveAt(a, i);
          assert x in a && x in b;
          var j :| 0 <= j < |b| && b[j] == x;
          assert j != 0;
          assert b[1..][j - 1] == x;
        }
        if x in b[1..] {
          var i :| 1 <= i < |b| && b[i] == x;
          BelowIrreflexiveAt(b, i);
          assert x in b && x in a;
          var j :| 0 <= j < |a| && a[j] == x;
          assert j != 0;
          assert a[1..][j - 1] == x;
        }
      }
      SortedUnique(a[1..], b[1..]);
      assert a == [a[0]] + a[1..] && b == [b[0]] + b[1..];
    }
  }

  lemma HeadIn(b: seq<GoString>)
    ensures |b| > 0 ==> b[0] in b
  {
  }

  /** In a strictly sorted list, no later key equals the first. */
  lemma BelowIrreflexiveAt(ks: seq<GoString>, i: int)
    requires StrictlySorted(ks) && 0 < i < |ks|
    ensures ks[i] != ks[0]
  {
    BelowIrreflexive(ks[0]);
  }
}
