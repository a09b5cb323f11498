/** The URL syntax check of url_shortener/shortener.py (URL_REGEX with
    re.IGNORECASE, applied with re.match), written out as a recognizer:
      scheme   http:// or https://, any letter case
      host     a dotted host name whose last label has 2 to 6 letters
               (an optional final dot allowed), or localhost, or four
               groups of 1 to 3 digits separated by dots
      port     optional, ':' and one or more digits
      rest     nothing, a single '/', or '/' or '?' followed by one or
               more characters that are not white space
    The regex ends in '$', which also matches just before a final newline. */
module UrlSyntax {
  import opened Text

  predicate IsDigit(c: char) { '0' <= c <= '9' }

  predicate IsLetter(c: char) { 'a' <= c <= 'z' || 'A' <= c <= 'Z' }

  predicate IsAlnum(c: char) { IsDigit(c) || IsLetter(c) }

  /** White space as Python's \s sees it in a str pattern. */
  predicate IsSpace(c: char) {
    var k := c as int;
    (9 <= k <= 13) || (28 <= k <= 32) || k == 0x85 || k == 0xA0 || k == 0x1680
    || (0x2000 <= k <= 0x200A) || k == 0x2028 || k == 0x2029 || k == 0x202F
    || k == 0x205F || k == 0x3000
  }

  predicate NoSpace(s: string) {
    forall i | 0 <= i < |s| :: !IsSpace(s[i])
  }

  function ToLower(c: char): char {
    if 'A' <= c <= 'Z' then (c as int + 32) as char else c
  }

  /** Equal after folding ASCII letters to lower case (re.IGNORECASE). */
  predicate EqualsIgnoreCase(s: string, t: string) {
    |s| == |t| && forall i | 0 <= i < |s| :: ToLower(s[i]) == ToLower(t[i])
  }

  /** ^https?:// */
  predicate IsScheme(t: string) {
    EqualsIgnoreCase(t, "http://") || EqualsIgnoreCase(t, "https://")
  }

  /** [A-Z0-9](?:[A-Z0-9-]{0,61}[A-Z0-9])? */
  predicate IsLabel(t: string) {
    1 <= |t| <= 63 && IsAlnum(t[0]) && IsAlnum(t[|t| - 1])
    && forall i | 0 <= i < |t| :: IsAlnum(t[i]) || t[i] == '-'
  }

  /** [A-Z]{2,6} */
  predicate IsTopLabel(t: string) {
    2 <= |t| <= 6 && forall i | 0 <= i < |t| :: IsLetter(t[i])
  }

  /** (?:label\.)+toplabel\.? -- labels hold no dot, so the host splits on
      dots into the labels and the top label, plus one empty piece when the
      optional final dot is present. */
  predicate IsDomainName(h: string) {
    var ps := DomainPieces(h);
    |ps| >= 2 && IsTopLabel(ps[|ps| - 1])
    && forall i | 0 <= i < |ps| - 1 :: IsLabel(ps[i])
  }

  /** The dot-separated pieces of h, without the empty piece an optional
      final dot leaves. */
  function DomainPieces(h: string): (ps: seq<string>)
    ensures var parts := Split(h, '.');
      ps <= parts && |ps| >= |parts| - 1
      && (|ps| == |parts| - 1 ==> parts[|parts| - 1] == "")
  {
    var parts := Split(h, '.');
    if |parts| >= 2 && parts[|parts| - 1] == "" then parts[..|parts| - 1] else parts
  }

  /** \d{1,3}\.\d{1,3}\.\d{1,3}\.\d{1,3} (no range check: 256.256.256.256 passes) */
  predicate IsDottedQuad(h: string) {
    var parts := Split(h, '.');
    |parts| == 4
    && forall i | 0 <= i < 4 ::
         1 <= |parts[i]| <= 3 && forall j | 0 <= j < |parts[i]| :: IsDigit(parts[i][j])
  }

  predicate IsHost(h: string) {
    IsDomainName(h) || EqualsIgnoreCase(h, "localhost") || IsDottedQuad(h)
  }

  /** (?::\d+)? */
  predicate IsPort(t: string) {
    t == "" || (|t| >= 2 && t[0] == ':' && forall i | 1 <= i < |t| :: IsDigit(t[i]))
  }

  /** (?:/?|[/?]\S+) */
  predicate IsRest(t: string) {
    t == "" || t == "/"
    || (|t| >= 2 && (t[0] == '/' || t[0] == '?') && forall i | 1 <= i < |t| :: !IsSpace(t[i]))
  }

  /** The four pieces in order, covering all of t. */
  predicate MatchesAt(t: string, i: int, j: int, k: int)
    requires 0 <= i <= j <= k <= |t|
  {
    IsScheme(t[..i]) && IsHost(t[i..j]) && IsPort(t[j..k]) && IsRest(t[k..])
  }

  predicate MatchesAll(t: string) {
    exists i, j, k | 0 <= i <= j <= k <= |t| :: MatchesAt(t, i, j, k)
  }

  /** Shortener.is_valid_url: the whole string matches the pattern, or,
      as `$` also matches just before a final newline, everything but a
      final newline does. An accepted URL starts with an h (of http), and
      holds no white space except that final newline, which is never part
      of the match. */
  predicate IsValidUrl(s: string): (ok: bool)
    ensures ok ==> |s| >= 7 && ToLower(s[0]) == 'h'
    ensures ok ==> forall i | 0 <= i < |s| :: IsSpace(s[i]) ==> i == |s| - 1 && s[i] == '\n'
    ensures ok && s[|s| - 1] == '\n' ==> MatchesAll(s[..|s| - 1])
  {
    AcceptedShape(s);
    MatchesAll(s) || (|s| >= 1 && s[|s| - 1] == '\n' && MatchesAll(s[..|s| - 1]))
  }

  lemma SchemeShape(t: string)
    requires IsScheme(t)
    ensures |t| == 7 || |t| == 8
    ensures ToLower(t[0]) == 'h' && NoSpace(t)
  {
    forall i | 0 <= i < |t| ensures !IsSpace(t[i]) {
      assert !IsSpace(ToLower(t[i]));
    }
  }

  lemma {:induction false} JoinNoSpace(parts: seq<string>, sep: char)
    requires |parts| >= 1 && !IsSpace(sep)
    requires forall i | 0 <= i < |parts| :: NoSpace(parts[i])
    ensures NoSpace(Join(parts, sep))
  {
    if |parts| > 1 {
      JoinNoSpace(parts[1..], sep);
    }
  }

  lemma HostNoSpace(h: string)
    requires IsHost(h)
    ensures NoSpace(h)
  {
    if IsDomainName(h) {
      DomainNoSpace(h);
    } else if IsDottedQuad(h) {
      JoinSplit(h, '.');
      JoinNoSpace(Split(h, '.'), '.');
    } else {
      LocalhostNoSpace(h);
    }
  }

  lemma DomainNoSpace(h: string)
    requires IsDomainName(h)
    ensures NoSpace(h)
  {
    var parts := Split(h, '.');
    var ps := DomainPieces(h);
    JoinSplit(h, '.');
    forall i | 0 <= i < |parts| ensures NoSpace(parts[i]) {
      if i < |ps| - 1 {
        assert ps[i] == parts[i] && IsLabel(ps[i]);
      } else if i == |ps| - 1 {
        assert ps[i] == parts[i] && IsTopLabel(ps[i]);
      } else {
        assert parts[i] == "";
      }
    }
    JoinNoSpace(parts, '.');
  }

  lemma LocalhostNoSpace(h: string)
    requires EqualsIgnoreCase(h, "localhost")
    ensures NoSpace(h)
  {
    forall i | 0 <= i < |h| ensures !IsSpace(h[i]) {
      assert IsLetter(ToLower(h[i]));
    }
  }

  lemma PortRestNoSpace(port: string, rest: string)
    requires IsPort(port) && IsRest(rest)
    ensures NoSpace(port) && NoSpace(rest)
  {
  }

  lemma MatchAtNoSpace(t: string, i: int, j: int, k: int)
    requires 0 <= i <= j <= k <= |t| && MatchesAt(t, i, j, k)
    ensures NoSpace(t)
    ensures |t| >= 7 && ToLower(t[0]) == 'h'
  {
    SchemeShape(t[..i]);
    HostNoSpace(t[i..j]);
    PortRestNoSpace(t[j..k], t[k..]);
    forall n | 0 <= n < |t| ensures !IsSpace(t[n]) {
      if n < i {
        assert t[n] == t[..i][n];
      } else if n < j {
        assert t[n] == t[i..j][n - i];
      } else if n < k {
        assert t[n] == t[j..k][n - j];
      } else {
        assert t[n] == t[k..][n - k];
      }
    }
    assert t[0] == t[..i][0];
  }

  lemma MatchNoSpace(t: string)
    requires MatchesAll(t)
    ensures NoSpace(t)
    ensures |t| >= 7 && ToLower(t[0]) == 'h'
  {
    var i, j, k :| 0 <= i <= j <= k <= |t| && MatchesAt(t, i, j, k);
    MatchAtNoSpace(t, i, j, k);
  }

  /** The shape of a full match, or of a match up to a final newline. */
  lemma AcceptedShape(s: string)
    ensures MatchesAll(s) || (|s| >= 1 && s[|s| - 1] == '\n' && MatchesAll(s[..|s| - 1])) ==>
      && |s| >= 7 && ToLower(s[0]) == 'h'
      && (forall i | 0 <= i < |s| :: IsSpace(s[i]) ==> i == |s| - 1 && s[i] == '\n')
      && (s[|s| - 1] == '\n' ==> MatchesAll(s[..|s| - 1]))
  {
    if MatchesAll(s) {
      MatchNoSpace(s);
    } else if |s| >= 1 && s[|s| - 1] == '\n' && MatchesAll(s[..|s| - 1]) {
      var t := s[..|s| - 1];
      MatchNoSpace(t);
      assert forall i | 0 <= i < |s| - 1 :: s[i] == t[i];
    }
  }

  /** Any scheme, host, port and rest that pass their checks make an
      accepted URL. */
  lemma AcceptsPieces(scheme: string, host: string, port: string, rest: string)
    requires IsScheme(scheme) && IsHost(host) && IsPort(port) && IsRest(rest)
    ensures IsValidUrl(scheme + host + port + rest)
  {
    var t := scheme + host + port + rest;
    var i, j, k := |scheme|, |scheme + host|, |scheme + host + port|;
    assert t[..i] == scheme && t[i..j] == host && t[j..k] == port && t[k..] == rest;
    assert MatchesAt(t, i, j, k);
  }

  predicate IsDigitGroup(g: string) {
    1 <= |g| <= 3 && forall j | 0 <= j < |g| :: IsDigit(g[j])
  }

  /** Four groups of one to three digits form a host, whatever their value. */
  lemma QuadOf(a: string, b: string, c: string, d: string)
    requires IsDigitGroup(a) && IsDigitGroup(b) && IsDigitGroup(c) && IsDigitGroup(d)
    ensures IsDottedQuad(a + ['.'] + b + ['.'] + c + ['.'] + d)
  {
    assert '.' !in a && '.' !in b && '.' !in c && '.' !in d;
    var q := a + ['.'] + b + ['.'] + c + ['.'] + d;
    assert q == a + ['.'] + (b + ['.'] + (c + ['.'] + d));
    SplitNoSeparator(d, '.');
    SplitAfterPiece(c, '.', d);
    SplitAfterPiece(b, '.', c + ['.'] + d);
    SplitAfterPiece(a, '.', b + ['.'] + (c + ['.'] + d));
    assert Split(q, '.') == [a, b, c, d];
  }

  /** A label, a dot and a top label form a host. */
  lemma DomainOf(name: string, top: string)
    requires IsLabel(name) && IsTopLabel(top)
    ensures IsDomainName(name + ['.'] + top)
  {
    assert '.' !in name && '.' !in top;
    SplitAfterPiece(name, '.', top);
    SplitNoSeparator(top, '.');
    assert Split(name + ['.'] + top, '.') == [name, top];
  }

  // The accepted examples below are written as concatenations of their
  // pieces (scheme, host, port, rest); the verifier handles short string
  // literals far better than long ones.

  lemma HttpScheme()
    ensures IsScheme("http://")
  {
  }

  /** The port and the rest of the localhost example. */
  lemma LocalhostTail()
    ensures IsPort(":8080") && IsRest("/x")
  {
    var t := ":8080";
    assert |t| == 5 && t[1] == '8' && t[2] == '0' && t[3] == '8' && t[4] == '0';
  }

  /** localhost, in any letter case, is a host. */
  lemma LocalhostHost(h: string)
    requires EqualsIgnoreCase(h, "localhost")
    ensures IsHost(h)
  {
  }

  lemma LocalhostAccepted()
    ensures IsValidUrl("http://" + "localhost" + ":8080" + "/x")
  {
    HttpScheme();
    LocalhostHost("localhost");
    LocalhostTail();
    AcceptsPieces("http://", "localhost", ":8080", "/x");
  }

  /** The digit groups are not range-checked: 256.256.256.256 passes. */
  lemma OutOfRangeQuadAccepted()
    ensures IsValidUrl("http://" + "256.256.256.256")
  {
    var g := "256";
    assert IsDigitGroup(g);
    QuadOf(g, g, g, g);
    assert g + ['.'] + g + ['.'] + g + ['.'] + g == "256.256.256.256";
    assert IsScheme("http://");
    AcceptsPieces("http://", "256.256.256.256", "", "");
    assert "http://" + "256.256.256.256" + "" + "" == "http://" + "256.256.256.256";
  }

  /** The host of the mixed-case example: a label and a top label. */
  lemma MixedCaseHost()
    ensures IsHost("Example.COM")
  {
    assert IsLabel("Example") && IsTopLabel("COM");
    DomainOf("Example", "COM");
    assert "Example" + ['.'] + "COM" == "Example.COM";
  }

  /** The scheme and the rest of the mixed-case example. */
  lemma MixedCaseEnds()
    ensures IsScheme("HTTPS://") && IsRest("/a?b=c")
  {
  }

  lemma MixedCaseAccepted()
    ensures IsValidUrl("HTTPS://" + "Example.COM" + "" + "/a?b=c")
  {
    MixedCaseHost();
    MixedCaseEnds();
    AcceptsPieces("HTTPS://", "Example.COM", "", "/a?b=c");
  }

  /** A label followed by .com is a host. */
  lemma DotComHost(name: string)
    requires IsLabel(name)
    ensures IsHost(name + ".com")
  {
    assert IsTopLabel("com");
    DomainOf(name, "com");
    assert name + ['.'] + "com" == name + ".com";
  }

  /** A plain host name with a three-letter top label and nothing after it. */
  lemma PlainDomainAccepted(name: string)
    requires IsLabel(name)
    ensures IsValidUrl("http://" + name + ".com")
  {
    DotComHost(name);
    HttpScheme();
    AcceptsPieces("http://", name + ".com", "", "");
    assert "http://" + (name + ".com") + "" + "" == "http://" + name + ".com";
  }

  lemma InvalidExamples()
    ensures !IsValidUrl("not a url")
    ensures !IsValidUrl("http://x.com/a b")
  {
    assert IsSpace("not a url"[3]);
    assert IsSpace("http://x.com/a b"[14]);
  }
}
