/** URL normalisation of url_shortener/shortener.py (_normalize_long_url):
    the URL is parsed into its six parts, a path that is exactly "/" is
    dropped, and the parts are put back together. The parser itself
    (urllib.parse.urlparse) is not part of this model: a URL enters the
    model already in its parsed form. */
module Urls {
  import opened Text

  /** The six parts urllib.parse.urlparse returns. */
  datatype ParsedUrl = ParsedUrl(
    scheme: string, netloc: string, path: string,
    params: string, query: string, fragment: string)

  /** Schemes for which urlunparse writes "//" even with an empty netloc. */
  const UsesNetloc: set<string> := {
    "", "ftp", "http", "gopher", "nntp", "telnet", "imap", "wais", "file",
    "mms", "https", "shttp", "snews", "prospero", "rtsp", "rtsps", "rtspu",
    "rsync", "svn", "svn+ssh", "sftp", "nfs", "git", "git+ssh", "ws", "wss",
    "itms-services"}

  /** urllib.parse.urlunparse (the urlunsplit rule of CPython up to 3.11). */
  function Unparse(p: ParsedUrl): string {
    var path := if p.params != "" then p.path + ";" + p.params else p.path;
    var withNet :=
      if p.netloc != "" || (p.scheme != "" && p.scheme in UsesNetloc && !StartsWith(path, "//"))
      then "//" + p.netloc + (if path != "" && path[0] != '/' then "/" + path else path)
      else path;
    var withScheme := if p.scheme != "" then p.scheme + ":" + withNet else withNet;
    var withQuery := if p.query != "" then withScheme + "?" + p.query else withScheme;
    if p.fragment != "" then withQuery + "#" + p.fragment else withQuery
  }

  /** What the reassembled URL begins and ends with: the scheme and a
      colon, then "//" and the network location when there is one, and the
      fragment after a '#' at the very end. */
  lemma UnparseShape(p: ParsedUrl)
    ensures p.scheme != "" ==> StartsWith(Unparse(p), p.scheme + ":")
    ensures p.scheme != "" && p.netloc != "" ==> StartsWith(Unparse(p), p.scheme + "://" + p.netloc)
    ensures p.fragment != "" ==>
      var r := Unparse(p);
      |r| > |p.fragment| && r[|r| - |p.fragment| - 1..] == "#" + p.fragment
  {
  }

  /** The parsed URL with a root path "/" cleared; nothing else changes. */
  function Normalize(p: ParsedUrl): (q: ParsedUrl)
    ensures q.path != "/"
    ensures q.path == (if p.path == "/" then "" else p.path)
    ensures q.(path := p.path) == p
  {
    if p.path == "/" then p.(path := "") else p
  }

  /** The string the shortener validates, stores and deduplicates on. */
  function NormalizedText(p: ParsedUrl): string {
    Unparse(Normalize(p))
  }

  /** Normalising twice is normalising once. */
  lemma NormalizeIdempotent(p: ParsedUrl)
    ensures Normalize(Normalize(p)) == Normalize(p)
  {
  }

  /** A URL with root path "/" and the same URL with no path normalise to
      the same text, so the shortener treats them as one URL. */
  lemma RootPathEquivalent(p: ParsedUrl)
    requires p.path == "/"
    ensures NormalizedText(p) == NormalizedText(p.(path := ""))
  {
  }

  /** http://a.com/ is stored as http://a.com. */
  lemma RootPathExample()
    ensures NormalizedText(ParsedUrl("http", "a.com", "/", "", "", "")) == "http://a.com"
  {
    assert "http" in UsesNetloc;
  }
}
