/** The JSON values that snapshots and caches are made of. */
module Json {
  import opened Outcomes

  /** A JSON value. Numbers are integral: the modelled converters only write `long`s. */
  datatype Json =
    | JNumber(n: int)
    | JString(s: string)
    | JNullString            // a JSONString wrapping null
    | JObject(fields: map<string, Json>)
    | JArray(items: seq<Json>)

  /** A JSONObject used as a snapshot or as a live cache: keys to values. */
  type Snapshot = map<string, Json>

  /** `JSONObject.get`: the value stored at `key`, or None (Java's null) when absent. */
  function Get(s: Snapshot, key: string): Option<Json> {
    if key in s then Some(s[key]) else None
  }

  /** The entry at `key` of a cache that may be disabled (None). */
  function Lookup(cache: Option<Snapshot>, key: string): (r: Option<Json>)
    ensures r.Some? <==> cache.Some? && key in cache.value
  {
    if cache.Some? then Get(cache.value, key) else None
  }

  /**
   * Writes `entry` at `key` into an enabled cache: Some(j) is `put`, None is `remove`.
   * A disabled cache is left alone.
   */
  function Write(cache: Option<Snapshot>, key: string, entry: Option<Json>): (r: Option<Snapshot>)
    ensures r.Some? == cache.Some?
    ensures cache.Some? ==> Lookup(r, key) == entry
    ensures forall k :: k != key ==> Lookup(r, k) == Lookup(cache, k)
  {
    if cache.None? then cache
    else if entry.None? then Some(cache.value - {key})
    else Some(cache.value[key := entry.value])
  }

  /** Two snapshots that answer every `get` alike are the same. */
  lemma GetExtensional(s: Snapshot, t: Snapshot)
    requires forall k :: Get(s, k) == Get(t, k)
    ensures s == t
  {
    assert s.Keys == t.Keys by {
      forall k ensures k in s <==> k in t {
        assert Get(s, k).Some? <==> Get(t, k).Some?;
      }
    }
    forall k | k in s ensures s[k] == t[k] {
      assert Get(s, k) == Get(t, k);
    }
  }
}
