/** Runs of the shortener and the backends end to end, each stating what
    the whole run observes. */
module Scenarios {
  import opened Results
  import opened Urls
  import opened JsonStore
  import opened SqlStore
  import opened Storage
  import opened UrlSyntax
  import opened ShortenerCore
  import opened Base62
  import opened Text

  /** The same two saves against each backend: one identifier, two URLs.
      The JSON file overwrites and counts both saves; the SQL table keeps
      the first row, rejects the second, and counts rows. */
  method BackendsDiverge() returns (jsonDoc: Document, sqlOutcome: Outcome, sqlRows: map<string, string>)
    ensures jsonDoc == Document(2, map["1" := "http://b.com"])
    ensures sqlOutcome == Fail(IntegrityError)
    ensures sqlRows == map["1" := "http://a.com"]
  {
    var json := new JsonStorage(None);
    json.Save("1", "http://a.com");
    json.Save("1", "http://b.com");
    jsonDoc := json.document;

    var sql := new SqlStorage.Attach(DbPath("data/links.db"), NoTable);
    var first := sql.Save("1", "http://a.com");
    assert "http://a.com" in sql.Rows().Values by {
      assert sql.Rows()["1"] == "http://a.com";
    }
    sqlOutcome := sql.Save("1", "http://b.com");
    sqlRows := sql.Rows();
  }

  /** A shortener in step with its backend, with a consistent index,
      shortens every valid URL: neither SQL constraint can be hit. The link
      resolves to the normalized URL and the shortener stays in step. */
  method ShortenInStep(s: Shortener, longUrl: ParsedUrl) returns (link: Result<string>)
    requires s.Valid() && s.Synced() && Consistent(s.State())
    modifies s, s.store.Repr()
    ensures s.Valid() && s.Synced() && Consistent(s.State())
    ensures link.Success? ==> Lookup(s.mappings, link.value) == Success(NormalizedText(longUrl))
    ensures var u := NormalizedText(longUrl);
      (s.State(), link) == ShortenStep(old(s.State()), s.baseUrl, u, IsValidUrl(u), true)
    ensures IsValidUrl(NormalizedText(longUrl)) <==> link.Success?
  {
    ghost var x := s.State();
    ghost var u := NormalizedText(longUrl);
    ghost var accepted := s.store.Accepts(NextId(x), u);
    if u !in x.urlToId {
      SyncedAccepts(s.store, x, u);
    }
    link := s.Shorten(longUrl);
    ShortenResolves(x, s.baseUrl, u, IsValidUrl(u), accepted);
    ShortenKeepsConsistent(x, s.baseUrl, u, IsValidUrl(u), accepted);
  }

  /** A link issued by one shortener resolves, in a second shortener
      loaded from the same backend afterwards, to the normalized URL. */
  method RestartResolves(store: Backend, baseUrl: string, longUrl: ParsedUrl)
    returns (link: Result<string>, resolved: Result<string>)
    requires store.Valid() && WellIssued(store.Contents(), store.StoredCount())
    modifies store.Repr()
    ensures link.Success? ==> resolved == Success(NormalizedText(longUrl))
    ensures IsValidUrl(NormalizedText(longUrl)) <==> link.Success?
  {
    var first := new Shortener(store, baseUrl);
    link := ShortenInStep(first, longUrl);
    var second := new Shortener(store, baseUrl);
    if link.Success? {
      assert second.mappings == first.mappings;
      resolved := second.Resolve(link.value);
    } else {
      resolved := link;
    }
  }

  /** http://a.com/ and http://a.com are one URL to the shortener: once
      the first is shortened, the second gets the same link. */
  method RootPathSameLink(s: Shortener, p: ParsedUrl) returns (r1: Result<string>, r2: Result<string>)
    requires s.Valid() && p.path == "/"
    modifies s, s.store.Repr()
    ensures r1.Success? ==> r2 == r1
  {
    r1 := s.Shorten(p);
    r2 := s.Shorten(p.(path := ""));
    RootPathEquivalent(p);
  }

  /** ShortenInStep for a URL known to be valid: the step succeeds, as
      a step in which the backend accepts the pair. */
  method ShortenValid(s: Shortener, longUrl: ParsedUrl) returns (link: Result<string>)
    requires s.Valid() && s.Synced() && Consistent(s.State())
    requires IsValidUrl(NormalizedText(longUrl))
    modifies s, s.store.Repr()
    ensures s.Valid() && s.Synced() && Consistent(s.State())
    ensures (s.State(), link) == ShortenStep(old(s.State()), s.baseUrl, NormalizedText(longUrl), true, true)
  {
    link := ShortenInStep(s, longUrl);
  }

  /** The three steps of the scenario below on the attributes alone. */
  lemma ThreeSteps(baseUrl: string, u: string, v: string)
    requires u != v
    ensures var (x1, r1) := ShortenStep(Index(map[], map[], 0), baseUrl, u, true, true);
      var (x2, r2) := ShortenStep(x1, baseUrl, v, true, true);
      var (x3, r3) := ShortenStep(x2, baseUrl, u, true, true);
      && r1 == r3 == Success(baseUrl + "/1") && r2 == Success(baseUrl + "/2")
      && x3 == Index(map["1" := u, "2" := v], map[u := "1", v := "2"], 2)
  {
    assert ToBase62(1) == "1" && ToBase62(2) == "2";
    assert Link(baseUrl, "1") == baseUrl + "/1" && Link(baseUrl, "2") == baseUrl + "/2";
    var x1 := Index(map["1" := u], map[u := "1"], 1);
    assert ShortenStep(Index(map[], map[], 0), baseUrl, u, true, true) == (x1, Success(baseUrl + "/1"));
    var x2 := Index(map["1" := u, "2" := v], map[u := "1", v := "2"], 2);
    assert ShortenStep(x1, baseUrl, v, true, true) == (x2, Success(baseUrl + "/2"));
  }

  /** Three shortenings against an empty backend: p, then a different
      URL q, then p again. Whichever backend it is, the links end in 1, 2
      and 1 again, the counter ends at 2 and the backend holds the two
      pairs. */
  method ShortenPQP(store: Backend, baseUrl: string, p: ParsedUrl, q: ParsedUrl)
    returns (l1: Result<string>, l2: Result<string>, l3: Result<string>, count: nat, stored: map<string, string>)
    requires store.Valid() && store.Contents() == map[] && store.StoredCount() == 0
    requires IsValidUrl(NormalizedText(p)) && IsValidUrl(NormalizedText(q))
    requires NormalizedText(p) != NormalizedText(q)
    modifies store.Repr()
    ensures var base := StripTrailing(baseUrl, '/');
      l1 == l3 == Success(base + "/1") && l2 == Success(base + "/2")
    ensures count == 2 && stored == map["1" := NormalizedText(p), "2" := NormalizedText(q)]
  {
    var s := new Shortener(store, baseUrl);
    assert s.urlToId == map[];
    ThreeSteps(s.baseUrl, NormalizedText(p), NormalizedText(q));
    l1 := ShortenValid(s, p);
    l2 := ShortenValid(s, q);
    l3 := ShortenValid(s, p);
    count := s.GetCount();
    var loaded;
    stored, loaded := store.LoadAll();
  }

  /** The links for identifiers 1 and 2 differ. */
  lemma LinksDiffer(base: string)
    ensures base + "/1" != base + "/2"
  {
    assert (base + "/1")[|base| + 1] != (base + "/2")[|base| + 1];
  }

  /** The same three shortenings against a new JSON file and a new SQL
      database give the same links, counter and stored pairs. */
  method BackendsConform(baseUrl: string, p: ParsedUrl, q: ParsedUrl)
    returns (json: (Result<string>, Result<string>, Result<string>, nat, map<string, string>),
             sql: (Result<string>, Result<string>, Result<string>, nat, map<string, string>))
    requires IsValidUrl(NormalizedText(p)) && IsValidUrl(NormalizedText(q))
    requires NormalizedText(p) != NormalizedText(q)
    ensures json == sql
    ensures json.3 == 2 && json.0 == json.2 != json.1
  {
    var j := new JsonStorage(None);
    var a1, a2, a3, ac, am := ShortenPQP(Json(j), baseUrl, p, q);
    json := (a1, a2, a3, ac, am);
    var t := new SqlStorage.Attach(DbPath("data/links.db"), NoTable);
    var b1, b2, b3, bc, bm := ShortenPQP(Sql(t), baseUrl, p, q);
    sql := (b1, b2, b3, bc, bm);
    LinksDiffer(StripTrailing(baseUrl, '/'));
  }
}
