/** The SQLite backend of url_shortener/storage/sql_storage.py. The database
    is modelled by its one table, urls(short_id TEXT PRIMARY KEY, long_url
    TEXT UNIQUE), held by the storage object as a map from the primary key
    to the rest of the row. */
module SqlStore {
  import opened Results
  import opened Text

  /** What the UNIQUE constraint on long_url guarantees of the rows: no
      two short_ids share a long_url, stated as one long_url per row. */
  predicate UniqueUrls(rows: map<string, string>) {
    |rows.Values| == |rows|
  }

  /** UniqueUrls, stated pairwise. */
  lemma UniqueUrlsPairwise(rows: map<string, string>, k1: string, k2: string)
    requires UniqueUrls(rows) && k1 in rows && k2 in rows && rows[k1] == rows[k2]
    ensures k1 == k2
  {
    if k1 != k2 {
      SharedUrlShrinks(rows, k1, k2);
    }
  }

  /** Two short_ids with one long_url leave fewer long_urls than rows. */
  lemma SharedUrlShrinks(rows: map<string, string>, k1: string, k2: string)
    requires k1 in rows && k2 in rows && rows[k1] == rows[k2] && k1 != k2
    ensures |rows.Values| < |rows|
  {
    var rest := rows - {k1};
    forall v | v in rows.Values
      ensures v in rest.Values
    {
      var k :| k in rows && rows[k] == v;
      if k == k1 {
        assert k2 in rest && rest[k2] == v;
      } else {
        assert k in rest && rest[k] == v;
      }
    }
    assert rest.Values == rows.Values + (rest.Values - rows.Values);
    ValuesBound(rest);
    assert |rest| == |rows| - 1;
  }

  /** A map has at most as many values as keys. */
  lemma {:induction false} ValuesBound(m: map<string, string>)
    ensures |m.Values| <= |m|
    decreases |m|
  {
    if |m| > 0 {
      var k :| k in m;
      var rest := m - {k};
      ValuesBound(rest);
      assert m.Values <= rest.Values + {m[k]} by {
        forall v | v in m.Values ensures v in rest.Values + {m[k]} {
          var j :| j in m && m[j] == v;
          if j != k {
            assert j in rest;
          }
        }
      }
      assert |rest| == |m| - 1;
    }
  }

  /** The database file as it is found when the store is opened: without
      the urls table, or with it and its rows, keyed by the primary key
      short_id. */
  datatype Database = NoTable | Table(rows: map<string, string>)

  /** Where _connect connects to. */
  datatype Target = DbPath(path: string) | Uri(uri: string)

  /** _connect: with no database URL, the file path; otherwise the URL,
      which must start with "sqlite://" or "file:" (case-sensitive). */
  function Connect(dbPath: string, databaseUrl: Option<string>): (r: Result<Target>)
    ensures databaseUrl.None? ==> r == Success(DbPath(dbPath))
    ensures databaseUrl.Some? ==>
      (r.Success? <==> StartsWith(databaseUrl.value, "sqlite://") || StartsWith(databaseUrl.value, "file:"))
    ensures r.Success? && databaseUrl.Some? ==> r.value == Uri(databaseUrl.value)
    ensures r.Failure? ==> r.error == UnsupportedConnectionString
  {
    match databaseUrl
    case None => Success(DbPath(dbPath))
    case Some(url) =>
      if StartsWith(url, "sqlite://") || StartsWith(url, "file:") then Success(Uri(url))
      else Failure(UnsupportedConnectionString)
  }

  /** Both accepted prefixes connect to the URL itself. */
  lemma ConnectAccepts()
    ensures Connect("data/links.db", Some("sqlite:///a.db")) == Success(Uri("sqlite:///a.db"))
    ensures Connect("data/links.db", Some("file:a.db")) == Success(Uri("file:a.db"))
  {
    assert "sqlite:///a.db"[..9] == "sqlite://";
    assert "file:a.db"[..5] == "file:";
  }

  /** Other schemes, and the accepted prefix in another letter case, are
      refused. */
  lemma ConnectRejects()
    ensures Connect("data/links.db", Some("mysql://h/db")) == Failure(UnsupportedConnectionString)
    ensures Connect("data/links.db", Some("SQLITE:///a.db")) == Failure(UnsupportedConnectionString)
  {
    assert "mysql://h/db"[0] == 'm';
    assert "SQLITE:///a.db"[0] == 'S';
  }

  /** A new short_id and a new long_url keep the long_urls unique. */
  lemma InsertUnique(rows: map<string, string>, shortId: string, longUrl: string)
    requires UniqueUrls(rows) && shortId !in rows && longUrl !in rows.Values
    ensures UniqueUrls(rows[shortId := longUrl])
  {
    var m := rows[shortId := longUrl];
    forall v | v in m.Values
      ensures v in rows.Values + {longUrl}
    {
      var k :| k in m && m[k] == v;
      if k != shortId {
        assert k in rows && rows[k] == v;
      }
    }
    forall v | v in rows.Values + {longUrl}
      ensures v in m.Values
    {
      if v == longUrl {
        assert m[shortId] == v;
      } else {
        var k :| k in rows && rows[k] == v;
        assert k in m && m[k] == v;
      }
    }
    assert m.Values == rows.Values + {longUrl};
  }

  /** The effect of INSERT INTO urls on the rows: rejected with an
      integrity error when the short_id (primary key) or the long_url
      (unique) is already stored, otherwise exactly one new row. */
  function Insert(rows: map<string, string>, shortId: string, longUrl: string): (r: Result<map<string, string>>)
    requires UniqueUrls(rows)
    ensures r.Failure? <==> shortId in rows || longUrl in rows.Values
    ensures r.Failure? ==> r.error == IntegrityError
    ensures r.Success? ==> r.value == rows[shortId := longUrl] && |r.value| == |rows| + 1
    ensures r.Success? ==> UniqueUrls(r.value)
  {
    if shortId in rows || longUrl in rows.Values then
      Failure(IntegrityError)
    else
      InsertUnique(rows, shortId, longUrl);
      Success(rows[shortId := longUrl])
  }

  class SqlStorage {
    const target: Target
    var table: Database

    ghost predicate Valid()
      reads this
    {
      table.Table? && UniqueUrls(table.rows)
    }

    /** The rows of urls, once the table exists. */
    function Rows(): map<string, string>
      reads this
      requires Valid()
    {
      table.rows
    }

    /** __init__: check the connection string, then create the table if it
        is missing. A rejected connection string fails the construction. */
    static method Open(dbPath: string, databaseUrl: Option<string>, disk: Database)
      returns (r: Result<SqlStorage>)
      requires disk.Table? ==> UniqueUrls(disk.rows)
      ensures r.Failure? <==> Connect(dbPath, databaseUrl).Failure?
      ensures r.Failure? ==> r.error == UnsupportedConnectionString
      ensures r.Success? ==>
        && fresh(r.value) && r.value.Valid()
        && r.value.target == Connect(dbPath, databaseUrl).value
        && r.value.Rows() == (if disk.Table? then disk.rows else map[])
    {
      var conn := Connect(dbPath, databaseUrl);
      if conn.Failure? {
        return Failure(conn.error);
      }
      var store := new SqlStorage.Attach(conn.value, disk);
      r := Success(store);
    }

    constructor Attach(target: Target, disk: Database)
      requires disk.Table? ==> UniqueUrls(disk.rows)
      ensures Valid() && this.target == target
      ensures Rows() == (if disk.Table? then disk.rows else map[])
    {
      this.target := target;
      table := disk;
      new;
      CreateTable();
    }

    /** CREATE TABLE IF NOT EXISTS: creates an empty table when there is
        none and leaves an existing table and its rows alone. */
    method CreateTable()
      requires table.Table? ==> UniqueUrls(table.rows)
      modifies this
      ensures Valid()
      ensures old(table).Table? ==> table == old(table)
      ensures old(table).NoTable? ==> table == Table(map[])
    {
      if table.NoTable? {
        table := Table(map[]);
      }
    }

    /** SELECT short_id, long_url FROM urls: every row as short_id to
        long_url, and the number of rows as the counter. */
    method LoadAll() returns (mappings: map<string, string>, count: nat)
      requires Valid()
      ensures mappings == Rows() && count == |Rows()|
      ensures forall k1, k2 | k1 in mappings && k2 in mappings && mappings[k1] == mappings[k2] :: k1 == k2
    {
      mappings := table.rows;
      count := |mappings|;
      forall k1, k2 | k1 in mappings && k2 in mappings && mappings[k1] == mappings[k2]
        ensures k1 == k2
      {
        UniqueUrlsPairwise(mappings, k1, k2);
      }
    }

    /** INSERT INTO urls (short_id, long_url) VALUES (?, ?). */
    method Save(shortId: string, longUrl: string) returns (r: Outcome)
      requires Valid()
      modifies this
      ensures Valid()
      ensures Insert(old(Rows()), shortId, longUrl).Failure? ==>
                r == Fail(IntegrityError) && unchanged(this)
      ensures Insert(old(Rows()), shortId, longUrl).Success? ==>
                r == Pass && Rows() == Insert(old(Rows()), shortId, longUrl).value
    {
      var inserted := Insert(table.rows, shortId, longUrl);
      if inserted.Failure? {
        return Fail(inserted.error);
      }
      table := Table(inserted.value);
      r := Pass;
    }
  }
}
