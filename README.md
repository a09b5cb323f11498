# URL shortener: a verified model of the shortener core and its two storage backends

This project models the `Shortener` of `url_shortener/shortener.py` and the
two storage backends it writes through, in Dafny:

- `Shortener` shortens a long URL. It normalises the URL, checks it against
  a regular expression, returns the existing link for a URL it has seen,
  and otherwise issues the next counter value, encoded in base 62, as the
  short identifier. It saves the pair to the backend, records it in two
  in-memory dictionaries (`mappings`: short_id to long_url, `url_to_id`:
  long_url to short_id) and returns `base_url/short_id`. It also resolves
  a short link and reports its counter.
- `JSONStorage` keeps one document `{count, mappings}` in a file. `save`
  rewrites it with the pair added (overwriting silently) and the count
  increased by one.
- `SQLStorage` keeps a table `urls(short_id TEXT PRIMARY KEY, long_url TEXT
  UNIQUE)`. `save` inserts a row or fails with an integrity error, and
  `load_all` reports the number of rows as the counter.

Modules, one per file:

| file | module | what it holds |
|---|---|---|
| results.dfy | `Results` | `Option`, `Result`, `Outcome` and the error kinds |
| text.dfy | `Text` | `str.split`, the last segment, `str.rstrip`, `str.startswith` |
| base62.dfy | `Base62` | the alphabet, the reference encoding `ToBase62`, its decoder, and the `Encode` loop |
| urls.dfy | `Urls` | the parsed-URL record, `urlunparse`, the root-path normalisation |
| url_syntax.dfy | `UrlSyntax` | a recognizer for the language of `URL_REGEX` |
| sql_storage.dfy | `SqlStore` | the connection-string check, the table as a map with its two constraints, the `SqlStorage` class |
| json_storage.dfy | `JsonStore` | the stored document and the `JsonStorage` class |
| storage.dfy | `Storage` | the storage interface (`save`, `load_all`) over both backends |
| shortener.dfy | `ShortenerCore` | the `Shortener` class, its state as a value (`Index`), the step function `ShortenStep`, and its invariant |
| scenarios.dfy | `Scenarios` | end-to-end runs: the backends side by side, a restart, repeated shortening |

The model's central pieces:

- `ShortenStep` is `shorten` as a function on the three attributes
  (`Index(mappings, urlToId, counter)`). The backend's answer to `save` is
  a parameter of it.
- `Shortener.Shorten` is proved to change the object's fields exactly as
  `ShortenStep` does, and the backend exactly as its `save` does.
- `Consistent` is the invariant: the two dictionaries are inverse to each
  other, every identifier is non-empty and free of `/`, and no canonical
  identifier above the counter is stored. `ShortenKeepsConsistent` proves
  every step keeps it, whatever the backend answers.
- Two inverse dictionaries alone are not enough for that. When the counter
  lags behind the stored identifiers (a JSON count edited or reset by
  hand), the next identifier is already taken. Recording it for a new URL
  then leaves the old URL pointing at an identifier that now holds the new
  one. `LaggingCounterBreaksInverse` exhibits this, which is why
  `Consistent` also bounds the stored identifiers by the counter.
- `Synced` says memory mirrors the backend. `SyncedAccepts` proves that a
  consistent shortener in step with its backend never meets the SQL
  constraints. Without consistency it can: a table holding identifier
  `2` with counter 1 is in step, and the next identifier `2` is rejected.

Where the code and its documentation disagree, the model follows the code:

- When `save` fails, `shorten` has already increased the counter and does
  not roll it back (shortener.py:66-69). The model keeps this
  (`ShortenStep`, `Shortener.Issue`). A save failure that leaves
  nothing changed would be a different program.
- The two backends report different counters: the JSON file its stored
  count, the SQL table its number of rows. `JsonStore.OverwriteDrift` and
  `Scenarios.BackendsDiverge` state where they part.

## Model

| member | source | states |
|---|---|---|
| Base62.Encode | url_shortener/shortener.py:46-55 | the loop (remainders appended least significant first, then reversed) returns exactly the reference encoding `ToBase62(n)`, for 0 as well as for n > 0 |
| Base62.ToBase62 | url_shortener/shortener.py:50-55 | the encoding has at least one symbol, every symbol is in the 62-symbol alphabet, and for n > 0 it does not start with `'0'` |
| Base62.AlphabetAt | url_shortener/shortener.py:28-30 | the alphabet literal has 62 symbols and lists `0-9`, `a-z`, `A-Z` in digit order |
| Base62.SymbolValue | url_shortener/shortener.py:28-30 | every alphabet symbol stands for a digit below 62 and is that digit's symbol |
| Base62.DecodeEncode | url_shortener/shortener.py:50-55 | decoding the encoding of n gives back n |
| Base62.EncodeDecode | url_shortener/shortener.py:50-55 | every canonical symbol string (no leading `'0'` unless it is `"0"`) is the encoding of its value |
| Base62.EncodeInjective | url_shortener/shortener.py:50-55 | two counter values have the same encoding exactly when they are equal |
| Base62.DecodeLowerBound | url_shortener/shortener.py:50-55 | a string without a leading `'0'` has value at least 1, and at least 62 when it has two symbols or more |
| Base62.EncodeZero | url_shortener/shortener.py:48-49 | `encode(0)` is the first alphabet symbol, `"0"` |
| Base62.Reversed | url_shortener/shortener.py:54 | `arr.reverse()`: the same length, and position i holds the element from position len - 1 - i |
| Text.StartsWithAppend | url_shortener/storage/sql_storage.py:27-29 | `str.startswith`: a string starts with a prefix exactly when it is that prefix followed by something |
| Text.StripTrailing | url_shortener/shortener.py:31 | `rstrip("/")` keeps a prefix, drops only `/` characters, and leaves no trailing `/` |
| Text.Split | url_shortener/shortener.py:77 | `split("/")` gives at least one piece and no piece contains the separator |
| Text.JoinSplit | url_shortener/shortener.py:77 | splitting loses nothing: joining the pieces with the separator gives the input back |
| Text.LastSegment | url_shortener/shortener.py:77 | `split("/")[-1]` contains no `/` |
| Text.LastSegmentAfter | url_shortener/shortener.py:77 | the last segment of `p + "/" + t` is `t` whenever `t` has no `/` |
| Urls.UnparseShape | url_shortener/shortener.py:40 | `urlunparse` puts the scheme and a colon first, then `//` and the network location when there is one, and ends with `#` and the fragment when there is one |
| Urls.Normalize | url_shortener/shortener.py:36-40 | a path equal to `/` becomes empty, any other path is kept, no other part changes, and the result never has path `/` |
| Urls.NormalizeIdempotent | url_shortener/shortener.py:36-40 | normalising twice is normalising once |
| Urls.RootPathEquivalent | url_shortener/shortener.py:38-40 | a URL with path `/` and the same URL with an empty path normalise to the same string |
| Urls.RootPathExample | url_shortener/shortener.py:38-40 | `http://a.com/` normalises to `http://a.com` |
| UrlSyntax.IsValidUrl | url_shortener/shortener.py:42-44 | `URL_REGEX.match` (lines 14-22) on the whole string, where `$` also matches just before a final newline. Its contract: every accepted URL starts with an `h`, is at least 7 characters long, and contains no white space except a final newline; that newline is never part of the match, so the rest of the string matches |
| UrlSyntax.MatchNoSpace | url_shortener/shortener.py:14-22 | a full match of the pattern contains no white space |
| UrlSyntax.SchemeShape | url_shortener/shortener.py:15 | `https?://` matches 7 or 8 characters starting with `h` in either case |
| UrlSyntax.HostNoSpace | url_shortener/shortener.py:16-18 | no host the pattern accepts contains white space |
| UrlSyntax.AcceptsPieces | url_shortener/shortener.py:14-22 | any scheme, host, port and rest that each match their part of the pattern make an accepted URL |
| UrlSyntax.DomainOf | url_shortener/shortener.py:16 | a label, a dot and a 2-6 letter top label form a domain name |
| UrlSyntax.QuadOf | url_shortener/shortener.py:18 | four groups of 1-3 digits joined by dots form a dotted quad |
| UrlSyntax.LocalhostAccepted | url_shortener/shortener.py:17-20 | `http://localhost:8080/x` is accepted |
| UrlSyntax.OutOfRangeQuadAccepted | url_shortener/shortener.py:18 | `http://256.256.256.256` is accepted: the digit groups are not range-checked |
| UrlSyntax.MixedCaseAccepted | url_shortener/shortener.py:14-22 | `HTTPS://Example.COM/a?b=c` is accepted, as the pattern ignores case |
| UrlSyntax.PlainDomainAccepted | url_shortener/shortener.py:14-22 | `http://<label>.com` is accepted for every label |
| UrlSyntax.InvalidExamples | url_shortener/shortener.py:14-22 | `not a url` and a URL with a space in its path are rejected |
| ShortenerCore.Lookup | url_shortener/shortener.py:75-80 | resolve succeeds exactly when the last `/`-segment is non-empty and stored, and then returns the stored URL; otherwise the error is not-found |
| ShortenerCore.ShortenStep | url_shortener/shortener.py:57-73 | `shorten` on the three attributes. It succeeds exactly for a valid URL that is known or that the backend accepts. A failure is the invalid-URL error or the integrity error and leaves both dictionaries unchanged. A success returns the link to the identifier `url_to_id` now holds for the URL. The counter grows by one exactly for a valid new URL, even when the save is then rejected |
| ShortenerCore.LinkParts | url_shortener/shortener.py:73 | a link starts with the base URL, and its last `/`-segment is the identifier when the identifier holds no `/` |
| ShortenerCore.LaggingCounterBreaksInverse | url_shortener/shortener.py:66-71 | a counter behind the stored identifiers breaks the inverse: two inverse, injective dictionaries with counter 0 and identifier `1` stored no longer invert each other after one accepted step for a new URL |
| ShortenerCore.InverseInsert | url_shortener/shortener.py:70-71 | adding a new identifier and a new URL to both dictionaries keeps them inverse to each other |
| ShortenerCore.EncodeCanonical | url_shortener/shortener.py:67 | every issued identifier is canonical, non-empty and free of `/` |
| ShortenerCore.IssuedFresh | url_shortener/shortener.py:66-67 | an identifier for a counter value above the counter is not stored yet |
| ShortenerCore.IssuedNoneAbove | url_shortener/shortener.py:66-67 | the same, stated for every value above the counter |
| ShortenerCore.FreshPair | url_shortener/shortener.py:63-69 | for a new URL, the next identifier and the URL are both absent from `mappings` |
| ShortenerCore.SyncedAccepts | url_shortener/shortener.py:66-69 | a backend holding exactly `mappings` accepts the next identifier with any new URL |
| ShortenerCore.ConsistentWellIssued | url_shortener/shortener.py:33-34 | a consistent state holds mappings a new shortener loads into a consistent state again |
| ShortenerCore.ShortenKeepsConsistent | url_shortener/shortener.py:57-73 | every shorten step keeps the two dictionaries inverse and no identifier above the counter stored, whatever the backend answers |
| ShortenerCore.RecordKeepsConsistent | url_shortener/shortener.py:66-71 | recording the next identifier for a new URL in both dictionaries, with the counter bumped, keeps the invariant |
| ShortenerCore.ShortenResolves | url_shortener/shortener.py:57-80 | a link that shorten returns resolves to the normalised URL |
| ShortenerCore.ShortenRepeats | url_shortener/shortener.py:63-64 | once shorten has returned a link for a URL, shortening it again returns the same link and changes nothing |
| ShortenerCore.BuildReverseIndex | url_shortener/shortener.py:34 | the reverse index has exactly the stored URLs as keys, each mapped to an identifier that holds it; for injective mappings it is the inverse |
| ShortenerCore.Shortener.constructor | url_shortener/shortener.py:24-34 | the base URL is stripped of trailing `/`, mappings and counter are what the backend loads, `url_to_id` inverts them, and well-issued stored data gives a consistent state |
| ShortenerCore.Shortener.Resolve | url_shortener/shortener.py:75-80 | resolve on the current `mappings` |
| ShortenerCore.Shortener.GetCount | url_shortener/shortener.py:82-84 | the counter; in a consistent state no identifier for a larger value is stored |
| ShortenerCore.Shortener.Shorten | url_shortener/shortener.py:57-73 | the fields change exactly as `ShortenStep` on the normalised URL says. The backend gains the one new pair and one count when an identifier is issued and saved, and is untouched otherwise. A shortener in step with its backend stays in step after a success |
| ShortenerCore.Shortener.ShortenNormalized | url_shortener/shortener.py:60-73 | an invalid URL fails and changes nothing; a known URL returns its existing link and changes nothing; a new URL goes through `Issue` |
| ShortenerCore.Shortener.Issue | url_shortener/shortener.py:66-73 | the counter grows by one first. If the backend accepts the pair, both dictionaries and the backend gain it and the link is returned. Otherwise the error is returned, the dictionaries and the backend are unchanged, and the counter stays bumped |
| JsonStore.Saved | url_shortener/storage/json_storage.py:32-36 | the written document binds the identifier to the URL, keeps every other binding, and has count one more than before |
| JsonStore.OverwriteDrift | url_shortener/storage/json_storage.py:33-36 | saving an identifier that is already stored replaces its URL, keeps the number of mappings, and moves the count one further from it |
| JsonStore.JsonStorage.constructor | url_shortener/storage/json_storage.py:18-25 | a missing file is created with count 0 and no mappings; an existing one is kept |
| JsonStore.JsonStorage.LoadAll | url_shortener/storage/json_storage.py:27-30 | exactly the stored mappings and the stored count |
| JsonStore.JsonStorage.Save | url_shortener/storage/json_storage.py:32-36 | the document becomes `Saved` of the old one |
| SqlStore.Connect | url_shortener/storage/sql_storage.py:23-33 | no URL connects to the file path; a URL connects to itself when it starts with `sqlite://` or `file:` and is refused otherwise |
| SqlStore.ConnectAccepts | url_shortener/storage/sql_storage.py:27-30 | `sqlite:///a.db` and `file:a.db` are accepted |
| SqlStore.ConnectRejects | url_shortener/storage/sql_storage.py:27-33 | `mysql://h/db` and `SQLITE:///a.db` (the prefix test is case-sensitive) are refused |
| SqlStore.UniqueUrlsPairwise | url_shortener/storage/sql_storage.py:39-42 | under the UNIQUE constraint no two rows share a long_url |
| SqlStore.Insert | url_shortener/storage/sql_storage.py:51-56 | INSERT fails with an integrity error exactly when the short_id or the long_url is already stored; otherwise it adds exactly that one row and keeps the URLs unique |
| SqlStore.InsertUnique | url_shortener/storage/sql_storage.py:39-42 | a new key with a new URL keeps the long_urls unique |
| SqlStore.SqlStorage.Open | url_shortener/storage/sql_storage.py:12-21 | construction fails exactly when the connection string is refused; otherwise the table exists and holds the rows found |
| SqlStore.SqlStorage.Attach | url_shortener/storage/sql_storage.py:12-21 | a store on an accepted target has the table, with the rows found or none |
| SqlStore.SqlStorage.CreateTable | url_shortener/storage/sql_storage.py:35-43 | creates an empty table when there is none, and leaves an existing table and its rows as they are |
| SqlStore.SqlStorage.LoadAll | url_shortener/storage/sql_storage.py:45-49 | the rows as short_id to long_url, the number of rows as the counter, and no two identifiers share a URL |
| SqlStore.SqlStorage.Save | url_shortener/storage/sql_storage.py:51-56 | the rows change exactly as `Insert` says; a rejected insert changes nothing |
| Storage.Backend.LoadAll | url_shortener/storage/base_storage.py:15-17 | the stored mappings and the counter the backend reports |
| Storage.Backend.Save | url_shortener/storage/base_storage.py:10-12 | save succeeds exactly when the backend accepts the pair; then the mappings gain that pair and the reported counter grows by one; a failure is an integrity error and changes nothing |
| Scenarios.BackendsDiverge | url_shortener/storage/json_storage.py:32-36 | the same identifier saved with two URLs: the JSON file overwrites and counts 2, while the SQL table (sql_storage.py:51-56) keeps the first row and rejects the second |
| Scenarios.ShortenInStep | url_shortener/shortener.py:57-73 | on a shortener in step with its backend, shorten succeeds exactly for valid URLs, acts as a step the backend accepts, its link resolves to the normalised URL, and the shortener stays in step and consistent |
| Scenarios.ShortenValid | url_shortener/shortener.py:57-73 | a valid URL is shortened as in a step the backend accepts |
| Scenarios.RestartResolves | url_shortener/shortener.py:24-34 | a link issued by one shortener resolves to the normalised URL in a second shortener loaded from the same backend afterwards |
| Scenarios.RootPathSameLink | url_shortener/shortener.py:38-40 | shortening `.../` and then the same URL without the slash gives the same link |
| Scenarios.ThreeSteps | url_shortener/shortener.py:57-73 | from the empty state, shortening u, v and u again gives links ending in 1, 2 and 1, with counter 2 and both pairs in both dictionaries |
| Scenarios.ShortenPQP | url_shortener/shortener.py:57-73 | against any empty backend, shortening p, q and p again returns `base/1`, `base/2`, `base/1`; the counter ends at 2 and the backend holds the two pairs |
| Scenarios.BackendsConform | url_shortener/shortener.py:57-73 | the run above gives the same links, counter and stored pairs on a new JSON file and on a new SQL database |

## Left out

- `urllib.parse.urlparse`: `Shortener.Shorten` takes the parsed record.
  `urlunparse` is modelled by the rule of CPython up to 3.11 (the `//` is
  written for an empty netloc only for schemes in its netloc list).
- The `re` engine: `is_valid_url` is a hand-written recognizer of the
  language of `URL_REGEX`. White space for `\S` is Python's full `str`
  set. But `\d` is ASCII digits only, and case folding covers only ASCII
  letters; Python's Unicode digits and case folding beyond ASCII are not
  modelled.
- File and SQLite I/O, `os.makedirs`, JSON encoding, connections and
  transactions: each backend is in-memory state, and what was on disk
  when a store is opened is a parameter (`Option<Document>`, `Database`).
- Exceptions: a refused connection string, a rejected INSERT and an
  invalid or unknown URL are `Failure` values with a typed error. The
  source returns the strings `"Error: Invalid URL format."` and `"Error:
  Shortened URL not found."` or raises.
- SqlStore.Insert: when both constraints are violated, which one SQLite
  reports is not modelled; both give the one integrity error.
- Base62.Encode: counters are natural numbers. For a negative `n` the
  Python loop does not terminate, and the model does not cover it.
- JsonStore.Document: the stored count is a natural number. A file holding
  a negative or non-integer count is outside the model.
- ShortenerCore.BuildReverseIndex: for stored mappings where several
  identifiers share one URL, Python keeps the last in dictionary order;
  the model only says some identifier holding the URL is kept.
- Concurrency and several shorteners sharing one store: each `Shortener`
  is the only writer between its construction and its last call.
  `Scenarios.RestartResolves` opens a second shortener only after the
  first has finished.
- Default arguments: `base_url="https://myapp.com"` (shortener.py:25),
  `file_path="data/links.json"` (json_storage.py:18), and
  `db_path="data/links.db"` with `database_url=None` (sql_storage.py:13).
  Each is an explicit parameter of the model; the scenarios pass the
  defaults where it matters.
- `url_shortener/cli.py`, `config.py` and the package `__init__` files:
  input/output glue and constants. The choice of backend from
  configuration is not part of this model.
