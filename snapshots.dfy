/**
 * Snapshots: what `PropertyObject.toJSON()` builds, and what `load` reads
 * back from one.
 */
module Snapshots {
  import opened Outcomes
  import opened Json
  import opened Values
  import opened Gateways
  import opened PropertyData

  /** Every entry of the property map names a property of this object under its own key. */
  ghost predicate Registered(a: seq<Property>, pm: map<string, nat>, o: nat) {
    forall k | k in pm :: pm[k] < |a| && a[pm[k]].owner == o && a[pm[k]].key == k
  }

  /** `k` is the key of a registered, non-transient property: one that is saved and loaded. */
  ghost predicate Persistent(a: seq<Property>, pm: map<string, nat>, k: string) {
    k in pm && pm[k] < |a| && !a[pm[k]].isTransient
  }

  /**
   * The snapshot `PropertyObject.toJSON()` builds from the registered
   * properties: each non-transient one contributes its `Property.toJSON()`
   * unless that is null; a `converter.to` that throws makes the whole call throw.
   */
  ghost function SnapshotOf(a: seq<Property>, pm: map<string, nat>): Result<Snapshot>
    requires forall k | k in pm :: pm[k] < |a|
  {
    if exists k :: Persistent(a, pm, k) && PropertyJson(a[pm[k]]).Failure? then Failure(NullPointer)
    else Success(map k | k in pm && Persistent(a, pm, k) && PropertyJson(a[pm[k]]).value.Some? :: PropertyJson(a[pm[k]]).value.value)
  }

  /** Value and default of the property's own type: `converter.to` throws on nothing but null. */
  ghost predicate WellTyped(q: Property) {
    TypedFor(q.converter, q.value) && TypedFor(q.converter, q.def)
  }

  /**
   * The snapshot holds exactly the keys of non-transient properties whose value
   * differs from their default (by `Objects.equals`), each mapped to
   * `converter.to(value)`; it fails only on a null value whose default is not
   * null, held by a property whose converter dereferences its argument.
   */
  lemma SnapshotContents(a: seq<Property>, pm: map<string, nat>, k: string)
    requires forall k | k in pm :: pm[k] < |a| && WellTyped(a[pm[k]])
    ensures SnapshotOf(a, pm).Failure? <==>
      exists k' :: Persistent(a, pm, k') && a[pm[k']].value.Null? && !Equal(a[pm[k']].value, a[pm[k']].def)
                   && !a[pm[k']].converter.StringGateway?
    ensures SnapshotOf(a, pm).Success? ==>
      (k in SnapshotOf(a, pm).value <==> Persistent(a, pm, k) && !Equal(a[pm[k]].value, a[pm[k]].def))
    ensures SnapshotOf(a, pm).Success? && k in SnapshotOf(a, pm).value ==>
      Success(SnapshotOf(a, pm).value[k]) == To(a[pm[k]].converter, a[pm[k]].value)
  {
    if SnapshotOf(a, pm).Failure? {
      var k' :| Persistent(a, pm, k') && PropertyJson(a[pm[k']]).Failure?;
      assert a[pm[k']].value.Null?;
    }
  }

  /**
   * Properties start transient: until `setTransient(false)` is called on one
   * of them, the object's snapshot is empty.
   */
  lemma AllTransientSnapshotEmpty(a: seq<Property>, pm: map<string, nat>)
    requires forall k | k in pm :: pm[k] < |a| && a[pm[k]].isTransient
    ensures SnapshotOf(a, pm) == Success(map[])
  {
  }

  /**
   * The constructor puts a non-null default into an enabled cache, while the
   * snapshot elides a property at its default: right after construction the
   * cache holds a key that `toJSON()` would not write, transient or not.
   */
  lemma ConstructorCacheDisagrees(key: string, d: Content, g: Gateway, transient: bool)
    requires TypedFor(g, Box(0, d))
    ensures var q := Property(0, key, Box(0, d), Box(0, d), g, transient, true, None, {});
            && SnapshotOf([q], map[key := 0]) == Success(map[])
            && To(g, Box(0, d)).Success?
            && Write(Some(map[]), key, Some(To(g, Box(0, d)).value)) != Some(map[])
  {
    var q := Property(0, key, Box(0, d), Box(0, d), g, transient, true, None, {});
    assert PropertyJson(q) == Success(None);
    assert key in Write(Some(map[]), key, Some(To(g, Box(0, d)).value)).value;
  }

  /** What `get(k)` returns on a snapshot: the entry of the property saved at `k`, if any. */
  lemma SnapshotGet(a: seq<Property>, pm: map<string, nat>, k: string)
    requires forall k | k in pm :: pm[k] < |a|
    requires SnapshotOf(a, pm).Success?
    ensures Persistent(a, pm, k) ==> PropertyJson(a[pm[k]]).Success?
    ensures Get(SnapshotOf(a, pm).value, k) == if Persistent(a, pm, k) then PropertyJson(a[pm[k]]).value else None
  {
  }

  // ---------------------------------------------------------------------------
  // Loading
  // ---------------------------------------------------------------------------

  /** `converter.from(properties.get(key))` for property `q`. */
  function Decode(q: Property, s: Snapshot): Result<Option<Content>> {
    From(q.converter, Get(s, q.key))
  }

  /** Some non-transient registered property cannot be decoded from `s`: `load(s)` throws. */
  ghost predicate LoadThrows(a: seq<Property>, pm: map<string, nat>, s: Snapshot) {
    exists k :: Persistent(a, pm, k) && Decode(a[pm[k]], s).Failure?
  }

  /**
   * A snapshot written by `toJSON()` leaves out every property at its default;
   * `load` reads such a missing key as null, which every converter dereferences.
   * So reloading an object's own snapshot throws as soon as one non-transient
   * property holds its default.
   */
  lemma OwnSnapshotFailsToLoad(a: seq<Property>, pm: map<string, nat>, o: nat, k: string)
    requires Registered(a, pm, o)
    requires SnapshotOf(a, pm).Success?
    requires Persistent(a, pm, k) && Equal(a[pm[k]].value, a[pm[k]].def)
    ensures Decode(a[pm[k]], SnapshotOf(a, pm).value) == Failure(NullPointer)
    ensures LoadThrows(a, pm, SnapshotOf(a, pm).value)
  {
    assert k !in SnapshotOf(a, pm).value;
  }

  /**
   * The decoding that default elision evidently intends: a missing key means
   * the property is at its default; a present one is decoded.
   */
  function DecodeOrDefault(q: Property, s: Snapshot): (r: Result<Value>)
    ensures q.key !in s ==> r == Success(q.def)
    ensures q.key in s ==> (r.Success? <==> Decode(q, s).Success?)
  {
    if q.key !in s then Success(q.def)
    else match Decode(q, s)
      case Success(d) => Success(Materialize(d, 0))
      case Failure(e) => Failure(e)
  }

  /**
   * With missing keys read as defaults, loading a snapshot restores every
   * non-transient property whose converter round-trips to a value equal to
   * the one it had when the snapshot was taken.
   */
  lemma IntendedLoadRoundTrip(a: seq<Property>, pm: map<string, nat>, o: nat, k: string)
    requires Registered(a, pm, o)
    requires SnapshotOf(a, pm).Success?
    requires Persistent(a, pm, k) && WellTyped(a[pm[k]]) && RoundTrips(a[pm[k]].converter)
    ensures DecodeOrDefault(a[pm[k]], SnapshotOf(a, pm).value).Success?
    ensures Equal(DecodeOrDefault(a[pm[k]], SnapshotOf(a, pm).value).value, a[pm[k]].value)
  {
    var q := a[pm[k]];
    var s := SnapshotOf(a, pm).value;
    if Equal(q.value, q.def) {
      assert k !in s;
    } else {
      assert PropertyJson(q).Success? && PropertyJson(q).value.Some?;
      assert k in s && s[k] == PropertyJson(q).value.value;
      assert q.value.Box? || q.converter.StringGateway?;
    }
  }
}
