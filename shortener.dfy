/** The Shortener of url_shortener/shortener.py: an in-memory forward
    index (short_id to long_url), a reverse index (long_url to short_id)
    and a counter, loaded from a storage backend once and then written
    through to it. */
module ShortenerCore {
  import opened Results
  import opened Text
  import opened Base62
  import opened Urls
  import opened UrlSyntax
  import opened Storage

  /** The short link for an identifier. */
  function Link(baseUrl: string, shortId: string): string {
    baseUrl + "/" + shortId
  }

  /** A link is the base URL, a slash, and the identifier, which is its
      last segment when it holds no slash. */
  lemma LinkParts(baseUrl: string, shortId: string)
    requires '/' !in shortId
    ensures Link(baseUrl, shortId)[..|baseUrl|] == baseUrl
    ensures LastSegment(Link(baseUrl, shortId), '/') == shortId
  {
    LastSegmentAfter(baseUrl, '/', shortId);
  }

  /** No two identifiers map to the same URL. */
  ghost predicate Injective(m: map<string, string>) {
    forall k1, k2 | k1 in m && k2 in m && m[k1] == m[k2] :: k1 == k2
  }

  /** rev is exactly the inverse of fwd. */
  ghost predicate IsInverse(fwd: map<string, string>, rev: map<string, string>) {
    && (forall k | k in fwd :: fwd[k] in rev && rev[fwd[k]] == k)
    && (forall u | u in rev :: rev[u] in fwd && fwd[rev[u]] == u)
  }

  /** An identifier that resolve can find again at the end of a link. */
  predicate IsLinkable(shortId: string) {
    shortId != [] && '/' !in shortId
  }

  /** Every identifier in m that encode could have produced encodes a
      counter value of at most count. */
  ghost predicate IssuedUpTo(m: map<string, string>, count: nat) {
    forall k | k in m && IsCanonical(k) :: Decode(k) <= count
  }

  /** Stored mappings that look like what the shortener itself writes:
      injective, every identifier linkable, none issued above count. */
  ghost predicate WellIssued(m: map<string, string>, count: nat) {
    && Injective(m)
    && (forall k | k in m :: IsLinkable(k))
    && IssuedUpTo(m, count)
  }

  /** The three attributes of a shortener: mappings, url_to_id, counter. */
  datatype Index = Index(mappings: map<string, string>, urlToId: map<string, string>, counter: nat)

  /** The invariant of the three attributes: the two maps are inverse to
      each other, every identifier is linkable, and encode(counter + 1)
      and every later identifier are still free. */
  ghost predicate Consistent(x: Index) {
    && IsInverse(x.mappings, x.urlToId)
    && (forall k | k in x.mappings :: IsLinkable(k))
    && IssuedUpTo(x.mappings, x.counter)
  }

  /** resolve on the forward index: the last '/'-separated segment of the
      input, looked up. An empty segment or an unknown one is not found. */
  function Lookup(m: map<string, string>, shortUrl: string): (r: Result<string>)
    ensures r.Failure? ==> r.error == NotFound
    ensures r.Success? <==> LastSegment(shortUrl, '/') in m && LastSegment(shortUrl, '/') != ""
    ensures r.Success? ==> r.value == m[LastSegment(shortUrl, '/')] && r.value in m.Values
  {
    var shortId := LastSegment(shortUrl, '/');
    if shortId == "" then Failure(NotFound)
    else if shortId in m then Success(m[shortId])
    else Failure(NotFound)
  }

  /** shorten on the three attributes, for the normalized URL u. Whether
      the backend accepts the new pair is a parameter: the JSON file always
      does, the SQL table only for a new short_id and a new long_url. */
  function ShortenStep(x: Index, baseUrl: string, u: string, valid: bool, accepted: bool): (r: (Index, Result<string>))
    ensures r.1.Success? <==> valid && (u in x.urlToId || accepted)
    ensures r.1.Failure? ==>
      && r.1.error == (if valid then IntegrityError else InvalidUrl)
      && r.0.mappings == x.mappings && r.0.urlToId == x.urlToId
    ensures r.1.Success? ==> u in r.0.urlToId && r.1.value == Link(baseUrl, r.0.urlToId[u])
    ensures r.0.counter == x.counter + (if valid && u !in x.urlToId then 1 else 0)
  {
    if !valid then (x, Failure(InvalidUrl))
    else if u in x.urlToId then (x, Success(Link(baseUrl, x.urlToId[u])))
    else
      var shortId := ToBase62(x.counter + 1);
      if accepted then
        (Index(x.mappings[shortId := u], x.urlToId[u := shortId], x.counter + 1), Success(Link(baseUrl, shortId)))
      else
        (x.(counter := x.counter + 1), Failure(IntegrityError))
  }

  /** The identifier shorten issues for a URL it has not seen. */
  function NextId(x: Index): string {
    ToBase62(x.counter + 1)
  }

  lemma InverseInsert(fwd: map<string, string>, rev: map<string, string>, id: string, url: string)
    requires IsInverse(fwd, rev) && id !in fwd && url !in rev
    ensures IsInverse(fwd[id := url], rev[url := id])
  {
  }

  /** Encode gives canonical, linkable identifiers. */
  lemma EncodeCanonical(n: nat)
    ensures IsCanonical(ToBase62(n)) && IsLinkable(ToBase62(n))
  {
    if n == 0 {
      EncodeZero();
    }
  }

  /** No identifier above count has been issued. */
  lemma IssuedFresh(m: map<string, string>, count: nat, j: nat)
    requires IssuedUpTo(m, count) && j > count
    ensures ToBase62(j) !in m
  {
    EncodeCanonical(j);
    DecodeEncode(j);
  }

  /** IssuedUpTo, restated over the counter values themselves. */
  lemma IssuedNoneAbove(m: map<string, string>, count: nat)
    ensures IssuedUpTo(m, count) ==> forall j: nat | j > count :: ToBase62(j) !in m
  {
    if IssuedUpTo(m, count) {
      forall j: nat | j > count
        ensures ToBase62(j) !in m
      {
        IssuedFresh(m, count, j);
      }
    }
  }

  /** The identifier issued next and a URL missing from the reverse index
      are both absent from the forward index: a backend holding exactly
      the forward index accepts the pair. */
  lemma FreshPair(x: Index, u: string)
    requires Consistent(x) && u !in x.urlToId
    ensures NextId(x) !in x.mappings && u !in x.mappings.Values
  {
    IssuedFresh(x.mappings, x.counter, x.counter + 1);
  }

  /** A backend holding exactly the forward index of a consistent index
      accepts the identifier issued next together with any new URL: a
      shortener in step with its backend never meets the SQL constraints. */
  lemma SyncedAccepts(store: Backend, x: Index, u: string)
    requires store.Valid() && store.Contents() == x.mappings
    requires Consistent(x) && u !in x.urlToId
    ensures store.Accepts(NextId(x), u)
  {
    FreshPair(x, u);
  }

  /** A consistent index describes mappings the shortener could have
      written, so a shortener loading them is consistent again. */
  lemma ConsistentWellIssued(x: Index)
    requires Consistent(x)
    ensures WellIssued(x.mappings, x.counter)
  {
  }

  /** Why Consistent asks for more than two inverse maps: with a counter
      lagging behind the stored identifiers (a JSON count reset or edited
      by hand), the next identifier is already taken, and recording it for
      a new URL leaves url_to_id pointing "a" at an identifier that now
      holds "b". */
  lemma LaggingCounterBreaksInverse()
    ensures var x := Index(map["1" := "a"], map["a" := "1"], 0);
      && Injective(x.mappings) && IsInverse(x.mappings, x.urlToId)
      && !IssuedUpTo(x.mappings, x.counter)
      && !IsInverse(ShortenStep(x, "", "b", true, true).0.mappings, ShortenStep(x, "", "b", true, true).0.urlToId)
  {
    var x := Index(map["1" := "a"], map["a" := "1"], 0);
    assert ToBase62(1) == "1";
    assert IsCanonical("1") && Decode("1") == 1;
    var y := ShortenStep(x, "", "b", true, true).0;
    assert y.urlToId["a"] == "1" && y.mappings["1"] == "b";
  }

  /** shorten keeps the invariant, whatever the backend answers. */
  lemma {:induction false} ShortenKeepsConsistent(x: Index, baseUrl: string, u: string, valid: bool, accepted: bool)
    requires Consistent(x)
    ensures Consistent(ShortenStep(x, baseUrl, u, valid, accepted).0)
  {
    if valid && u !in x.urlToId && accepted {
      RecordKeepsConsistent(x, u);
    }
  }

  /** Recording the next identifier for a new URL keeps the invariant. */
  lemma RecordKeepsConsistent(x: Index, u: string)
    requires Consistent(x) && u !in x.urlToId
    ensures var id := NextId(x);
      Consistent(Index(x.mappings[id := u], x.urlToId[u := id], x.counter + 1))
  {
    var id := NextId(x);
    FreshPair(x, u);
    InverseInsert(x.mappings, x.urlToId, id, u);
    EncodeCanonical(x.counter + 1);
    DecodeEncode(x.counter + 1);
    var m := x.mappings[id := u];
    forall k | k in m && IsCanonical(k)
      ensures Decode(k) <= x.counter + 1
    {
      if k != id {
        assert k in x.mappings;
      }
    }
  }

  /** A link shorten returns resolves to the normalized URL. */
  lemma ShortenResolves(x: Index, baseUrl: string, u: string, valid: bool, accepted: bool)
    requires Consistent(x)
    ensures var (y, r) := ShortenStep(x, baseUrl, u, valid, accepted);
      r.Success? ==> Lookup(y.mappings, r.value) == Success(u)
  {
    if valid {
      var shortId := if u in x.urlToId then x.urlToId[u] else NextId(x);
      EncodeCanonical(x.counter + 1);
      LastSegmentAfter(baseUrl, '/', shortId);
    }
  }

  /** Once shorten has returned a link for u, shortening u again returns
      the same link and changes nothing, whatever the backend would say. */
  lemma ShortenRepeats(x: Index, baseUrl: string, u: string, valid: bool, accepted: bool, again: bool)
    ensures var (y, r) := ShortenStep(x, baseUrl, u, valid, accepted);
      r.Success? ==> ShortenStep(y, baseUrl, u, valid, again) == (y, r)
  {
  }

  /** {v: k for k, v in mappings.items()}: for a URL stored under several
      identifiers, the model picks any of them (Python keeps the last in
      dict order); for an injective map the result is its inverse. */
  method BuildReverseIndex(m: map<string, string>) returns (rev: map<string, string>)
    ensures rev.Keys == m.Values
    ensures forall u | u in rev :: rev[u] in m && m[rev[u]] == u
    ensures Injective(m) ==> IsInverse(m, rev)
  {
    rev := map[];
    var todo := m.Keys;
    while todo != {}
      invariant todo <= m.Keys
      invariant rev.Keys == set k | k in m.Keys - todo :: m[k]
      invariant forall u | u in rev :: rev[u] in m.Keys - todo && m[rev[u]] == u
      decreases |todo|
    {
      var k :| k in todo;
      rev := rev[m[k] := k];
      todo := todo - {k};
    }
    assert m.Keys - todo == m.Keys;
  }

  class Shortener {
    const store: Backend
    const baseUrl: string
    var mappings: map<string, string>
    var urlToId: map<string, string>
    var counter: nat

    ghost predicate Valid()
      reads this, store.Repr()
    {
      store.Valid() && this !in store.Repr() && (baseUrl == [] || baseUrl[|baseUrl| - 1] != '/')
    }

    /** The three attributes as one value. */
    function State(): Index
      reads this
    {
      Index(mappings, urlToId, counter)
    }

    /** Memory mirrors the backend: the same mappings, and the counter
        equal to the one the backend would report on the next load. */
    ghost predicate Synced()
      reads this, store.Repr()
      requires store.Valid()
    {
      mappings == store.Contents() && counter == store.StoredCount()
    }

    /** __init__: strip the trailing slashes of the base URL, load the
        mappings and the counter, and build the reverse index. */
    constructor (store: Backend, baseUrl: string)
      requires store.Valid()
      ensures Valid() && this.store == store && Synced()
      ensures this.baseUrl == StripTrailing(baseUrl, '/')
      ensures mappings == store.Contents() && counter == store.StoredCount()
      ensures urlToId.Keys == mappings.Values
      ensures forall u | u in urlToId :: urlToId[u] in mappings && mappings[urlToId[u]] == u
      ensures WellIssued(store.Contents(), store.StoredCount()) ==> Consistent(State())
    {
      this.store := store;
      this.baseUrl := StripTrailing(baseUrl, '/');
      var m, c := store.LoadAll();
      var rev := BuildReverseIndex(m);
      mappings, counter, urlToId := m, c, rev;
    }

    /** resolve. */
    function Resolve(shortUrl: string): (r: Result<string>)
      reads this
      ensures r == Lookup(mappings, shortUrl)
      ensures r.Success? ==> r.value in mappings.Values
    {
      Lookup(mappings, shortUrl)
    }

    /** get_count: the in-memory counter; once consistent, no identifier
        encode gives for a larger value has been issued. */
    function GetCount(): (c: nat)
      reads this
      ensures c == counter
      ensures Consistent(State()) ==> forall j: nat | j > c :: ToBase62(j) !in mappings
    {
      IssuedNoneAbove(mappings, counter);
      counter
    }

    /** shorten: normalize the URL, check it, and go on with the
        normalized text and the verdict. */
    method Shorten(longUrl: ParsedUrl) returns (r: Result<string>)
      requires Valid()
      modifies this, store.Repr()
      ensures Valid()
      ensures var u := NormalizedText(longUrl);
        if counter == old(counter) + 1 && r.Success? then
          && store.Contents() == old(store.Contents())[ToBase62(old(counter) + 1) := u]
          && store.StoredCount() == old(store.StoredCount()) + 1
        else unchanged(store.Repr())
      ensures old(Synced()) && r.Success? ==> Synced()
      ensures var u := NormalizedText(longUrl);
        (Index(mappings, urlToId, counter), r) == ShortenStep(old(Index(mappings, urlToId, counter)), baseUrl, u, IsValidUrl(u), old(store.Accepts(ToBase62(counter + 1), u)))
    {
      var u := NormalizedText(longUrl);
      r := ShortenNormalized(u, IsValidUrl(u));
    }

    /** The rest of shorten, for the normalized URL u and the verdict of
        the URL check on it. */
    method ShortenNormalized(u: string, valid: bool) returns (r: Result<string>)
      requires Valid()
      modifies this, store.Repr()
      ensures Valid()
      ensures (Index(mappings, urlToId, counter), r) == ShortenStep(old(Index(mappings, urlToId, counter)), baseUrl, u, valid, old(store.Accepts(ToBase62(counter + 1), u)))
      ensures if counter == old(counter) + 1 && r.Success? then
          && store.Contents() == old(store.Contents())[ToBase62(old(counter) + 1) := u]
          && store.StoredCount() == old(store.StoredCount()) + 1
        else unchanged(store.Repr())
      ensures old(Synced()) && r.Success? ==> Synced()
    {
      if !valid {
        return Failure(InvalidUrl);
      }
      if u in urlToId {
        return Success(Link(baseUrl, urlToId[u]));
      }
      r := Issue(u);
    }

    /** The rest of shorten for a valid URL not shortened before: bump the
        counter, encode it, save the pair, and record it in both indexes if
        the backend takes it. A rejected save (the SQL IntegrityError)
        leaves the counter bumped. */
    method Issue(u: string) returns (r: Result<string>)
      requires Valid() && u !in urlToId
      modifies this, store.Repr()
      ensures Valid() && counter == old(counter) + 1
      ensures var shortId := ToBase62(old(counter) + 1);
        if old(store.Accepts(ToBase62(counter + 1), u)) then
          && r == Success(Link(baseUrl, shortId))
          && mappings == old(mappings)[shortId := u] && urlToId == old(urlToId)[u := shortId]
          && store.Contents() == old(store.Contents())[shortId := u]
          && store.StoredCount() == old(store.StoredCount()) + 1
        else
          && r == Failure(IntegrityError)
          && mappings == old(mappings) && urlToId == old(urlToId)
          && unchanged(store.Repr())
    {
      counter := counter + 1;
      var shortId := Encode(counter);
      var saved := store.Save(shortId, u);
      if saved.Fail? {
        return Failure(saved.error);
      }
      urlToId, mappings := urlToId[u := shortId], mappings[shortId := u];
      r := Success(Link(baseUrl, shortId));
    }
  }
}
