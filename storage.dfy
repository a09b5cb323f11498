/** The storage interface of url_shortener/storage/base_storage.py
    (save and load_all) over its two implementations. The model has one
    backend type with a case per implementation, and dispatches on it. */
module Storage {
  import opened Results
  import opened JsonStore
  import opened SqlStore

  datatype Backend = Json(json: JsonStorage) | Sql(sql: SqlStorage) {

    /** The one object the backend keeps its state in. */
    function Repr(): set<object> {
      if Json? then {json} else {sql}
    }

    ghost predicate Valid()
      reads Repr()
    {
      Sql? ==> sql.Valid()
    }

    /** The short_id to long_url mappings load_all reports. */
    function Contents(): map<string, string>
      reads Repr()
      requires Valid()
    {
      if Json? then json.document.mappings else sql.Rows()
    }

    /** The counter load_all reports: the stored count of the JSON document,
        the number of rows of the SQL table. */
    function StoredCount(): nat
      reads Repr()
      requires Valid()
    {
      if Json? then json.document.count else |sql.Rows()|
    }

    /** Whether save(shortId, longUrl) succeeds: always for the JSON file,
        which overwrites; for the SQL table only when neither the short_id
        nor the long_url is stored yet. */
    predicate Accepts(shortId: string, longUrl: string)
      reads Repr()
      requires Valid()
    {
      Json? || (shortId !in Contents() && longUrl !in Contents().Values)
    }

    method LoadAll() returns (mappings: map<string, string>, count: nat)
      requires Valid()
      ensures mappings == Contents() && count == StoredCount()
    {
      if Json? {
        mappings, count := json.LoadAll();
      } else {
        mappings, count := sql.LoadAll();
      }
    }

    /** save: on success the stored mappings gain shortId |-> longUrl and
        nothing else; on failure nothing changes. */
    method Save(shortId: string, longUrl: string) returns (r: Outcome)
      requires Valid()
      modifies Repr()
      ensures Valid()
      ensures r.Pass? <==> old(Accepts(shortId, longUrl))
      ensures r.Pass? ==> Contents() == old(Contents())[shortId := longUrl]
      ensures r.Fail? ==> r.error == IntegrityError && unchanged(Repr())
      ensures StoredCount() == old(StoredCount()) + (if r.Pass? then 1 else 0)
    {
      if Json? {
        json.Save(shortId, longUrl);
        r := Pass;
      } else {
        r := sql.Save(shortId, longUrl);
      }
    }
  }
}
