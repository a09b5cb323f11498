/** The few Python string operations the core relies on: str.split,
    str.rstrip and str.startswith. */
module Text {

  /** str.startswith: case-sensitive prefix test. */
  predicate StartsWith(s: string, prefix: string) {
    |prefix| <= |s| && s[..|prefix|] == prefix
  }

  /** A string starts with prefix exactly when it is prefix followed by
      something. */
  lemma StartsWithAppend(s: string, prefix: string)
    ensures StartsWith(s, prefix) <==> exists t: string :: s == prefix + t
  {
    if StartsWith(s, prefix) {
      assert s == prefix + s[|prefix|..];
    } else {
      forall t: string ensures s != prefix + t {
        assert (prefix + t)[..|prefix|] == prefix;
      }
    }
  }

  /** str.split(sep) for a one-character separator: the pieces between
      separators, keeping empty pieces ("".split("/") == [""]). */
  function Split(s: string, sep: char): (parts: seq<string>)
    ensures |parts| >= 1
    ensures forall i | 0 <= i < |parts| :: sep !in parts[i]
  {
    if s == [] then [[]]
    else
      var rest := Split(s[1..], sep);
      if s[0] == sep then [[]] + rest
      else [[s[0]] + rest[0]] + rest[1..]
  }

  /** The pieces glued back together with the separator. */
  function Join(parts: seq<string>, sep: char): string
    requires |parts| >= 1
  {
    if |parts| == 1 then parts[0] else parts[0] + [sep] + Join(parts[1..], sep)
  }

  /** Splitting loses nothing: joining the pieces gives the input back. */
  lemma {:induction false} JoinSplit(s: string, sep: char)
    ensures Join(Split(s, sep), sep) == s
  {
    if s != [] {
      JoinSplit(s[1..], sep);
      var rest := Split(s[1..], sep);
      if s[0] != sep {
        assert ([[s[0]] + rest[0]] + rest[1..])[1..] == rest[1..];
        if |rest| == 1 {
          assert Join(Split(s, sep), sep) == [s[0]] + rest[0];
        } else {
          assert Join(rest, sep) == rest[0] + [sep] + Join(rest[1..], sep);
        }
      } else {
        assert ([[]] + rest)[1..] == rest;
      }
    }
  }

  /** Python's s.split(sep)[-1]. */
  function LastSegment(s: string, sep: char): (t: string)
    ensures sep !in t
  {
    var parts := Split(s, sep);
    parts[|parts| - 1]
  }

  lemma {:induction false} SplitNoSeparator(t: string, sep: char)
    requires sep !in t
    ensures Split(t, sep) == [t]
  {
    if t != [] {
      assert t[0] != sep && sep !in t[1..];
      SplitNoSeparator(t[1..], sep);
      assert [t[0]] + t[1..] == t;
    }
  }

  /** A separator-free piece followed by a separator splits off as one part. */
  lemma {:induction false} SplitAfterPiece(p: string, sep: char, t: string)
    requires sep !in p
    ensures Split(p + [sep] + t, sep) == [p] + Split(t, sep)
  {
    var s := p + [sep] + t;
    if p == [] {
      assert s[1..] == t;
    } else {
      assert s[1..] == p[1..] + [sep] + t;
      SplitAfterPiece(p[1..], sep, t);
      assert [p[0]] + p[1..] == p;
    }
  }

  /** The last piece of p + sep + t is t whenever t holds no separator,
      however many separators p holds. */
  lemma {:induction false} LastSegmentAfter(p: string, sep: char, t: string)
    requires sep !in t
    ensures |Split(p + [sep] + t, sep)| >= 2
    ensures LastSegment(p + [sep] + t, sep) == t
  {
    var s := p + [sep] + t;
    if p == [] {
      assert s[1..] == t;
      SplitNoSeparator(t, sep);
    } else {
      assert s[1..] == p[1..] + [sep] + t;
      LastSegmentAfter(p[1..], sep, t);
    }
  }

  /** str.rstrip(c): drop every trailing c. */
  function StripTrailing(s: string, c: char): (r: string)
    ensures |r| <= |s| && r == s[..|r|]
    ensures r == [] || r[|r| - 1] != c
    ensures forall i | |r| <= i < |s| :: s[i] == c
  {
    if s == [] || s[|s| - 1] != c then s
    else StripTrailing(s[..|s| - 1], c)
  }
}
