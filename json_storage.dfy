/** The JSON-file backend of url_shortener/storage/json_storage.py. The file
    holds one document {"count": ..., "mappings": {...}}; here the document
    is a field of the storage object, and reading or rewriting the file is
    reading or assigning that field. */
module JsonStore {
  import opened Results

  /** The stored document (StorageData in the source). */
  datatype Document = Document(count: nat, mappings: map<string, string>)

  /** The document a fresh file is created with. */
  const EmptyDocument: Document := Document(0, map[])

  /** The document save writes: the old mappings with short_id bound to
      long_url, whether or not short_id was there before, and the count one
      higher. */
  function Saved(d: Document, shortId: string, longUrl: string): (r: Document)
    ensures r.count == d.count + 1
    ensures shortId in r.mappings && r.mappings[shortId] == longUrl
    ensures r.mappings.Keys == d.mappings.Keys + {shortId}
    ensures forall k | k in d.mappings && k != shortId :: r.mappings[k] == d.mappings[k]
    ensures |r.mappings| == |d.mappings| + (if shortId in d.mappings then 0 else 1)
  {
    Document(d.count + 1, d.mappings[shortId := longUrl])
  }

  /** Saving an identifier that is already stored replaces its URL without
      complaint, and the count still goes up although no entry was added:
      from then on the count exceeds the number of mappings by one more. */
  lemma OverwriteDrift(d: Document, shortId: string, longUrl: string)
    requires shortId in d.mappings
    ensures Saved(d, shortId, longUrl).mappings[shortId] == longUrl
    ensures |Saved(d, shortId, longUrl).mappings| == |d.mappings|
    ensures Saved(d, shortId, longUrl).count - |Saved(d, shortId, longUrl).mappings|
         == d.count - |d.mappings| + 1
  {
  }

  class JsonStorage {
    var document: Document

    /** Opening a store: a missing file is created holding the empty
        document; an existing file is read as it is. */
    constructor (existing: Option<Document>)
      ensures existing.None? ==> document == EmptyDocument
      ensures existing.Some? ==> document == existing.value
    {
      document := if existing.None? then EmptyDocument else existing.value;
    }

    /** The stored mappings and the stored count, as they are in the file. */
    method LoadAll() returns (mappings: map<string, string>, count: nat)
      ensures mappings == document.mappings && count == document.count
    {
      mappings, count := document.mappings, document.count;
    }

    /** Reads the document, binds short_id to long_url and writes the
        document back with the count increased. Never rejects anything. */
    method Save(shortId: string, longUrl: string)
      modifies this
      ensures document == Saved(old(document), shortId, longUrl)
    {
      var mappings, count := LoadAll();
      mappings := mappings[shortId := longUrl];
      document := Document(count + 1, mappings);
    }
  }
}
