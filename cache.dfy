/**
 * The Redis cache shared by the web handlers and the Celery worker, as an
 * in-memory map from keys to values.  Redis stores text; the two kinds of text
 * the core writes are kept apart as values: a plain integer (the step counter)
 * and a JSON object of integer fields (the byte-progress record).
 */
module Cache {
  import opened Wrappers

  /** One `"name": value` member of a JSON object, in insertion order. */
  datatype Field = Field(name: string, value: int)

  datatype Value =
    | Int(n: int)                  // `cache.set(key, 0)` and its successors
    | Object(fields: seq<Field>)   // `json.dumps({...})` of integer members

  /** The byte-progress record `{"transferred": t, "total": T}`, keys in that order. */
  function Record(transferred: int, total: int): (v: Value)
    ensures v.Object? && |v.fields| == 2
    ensures v.fields[0].name == "transferred" && v.fields[1].name == "total"
  {
    Object([Field("transferred", transferred), Field("total", total)])
  }

  datatype UnpackError = WrongCount(count: nat)  // Python's ValueError on tuple unpacking

  /**
   * `transferred, total = data.values()`: the values are taken by position,
   * whatever the member names are; exactly two are needed.
   */
  function Unpack(fields: seq<Field>): (r: Result<(int, int), UnpackError>)
    ensures r.Success? <==> |fields| == 2
    ensures r.Success? ==> r.value == (fields[0].value, fields[1].value)
    ensures r.Failure? ==> r.error == WrongCount(|fields|)
  {
    if |fields| == 2 then Success((fields[0].value, fields[1].value))
    else Failure(WrongCount(|fields|))
  }

  /** The reader gets back exactly the pair the writer stored. */
  lemma RecordRoundTrip(transferred: int, total: int)
    ensures Unpack(Record(transferred, total).fields) == Success((transferred, total))
  {
  }

  /**
   * The round trip relies on the writer's member order: an object with the same
   * members written total-first is read back with the two numbers swapped.
   */
  lemma UnpackIgnoresNames(transferred: int, total: int)
    ensures Unpack([Field("total", total), Field("transferred", transferred)])
            == Success((total, transferred))
  {
  }

  /** The key-value store: `get` and `set` on string keys. */
  class Store {
    var entries: map<string, Value>

    constructor ()
      ensures entries == map[]
    {
      entries := map[];
    }

    /** `cache.get(key)`: `None` for an absent key. */
    method Get(key: string) returns (v: Option<Value>)
      ensures key in entries <==> v.Some?
      ensures v.Some? ==> v.value == entries[key]
    {
      v := if key in entries then Some(entries[key]) else None;
    }

    /** `cache.set(key, v)`: overwrites, last writer wins. */
    method Set(key: string, v: Value)
      modifies this
      ensures entries == old(entries)[key := v]
    {
      entries := entries[key := v];
    }
  }
}
