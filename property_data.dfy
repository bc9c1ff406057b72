/**
 * The state of a `Property` and of a `PropertyObject`, as values. The heap
 * (property_objects.dfy) stores them in sequences indexed by id; references
 * between them are ids.
 */
module PropertyData {
  import opened Outcomes
  import opened Json
  import opened Values
  import opened Gateways

  /** One `Property<V>`: its fields, with references to other properties as ids. */
  datatype Property = Property(
    owner: nat,             // the enclosing PropertyObject
    key: string,
    value: Value,
    def: Value,
    converter: Gateway,
    isTransient: bool,      // transient0
    isAttribute: bool,      // attribute
    upstream: Option<nat>,  // propertyBinding: the property this one is bound to
    dependents: set<nat>)   // propertyBindings: the properties bound to this one

  /** One `PropertyObject`: its cache (null when disabled) and its property map. */
  datatype PropertyObject = PropertyObject(cache: Option<Snapshot>, propertyMap: map<string, nat>)

  /** A call `change(before, after)` on the Observable of property `property`. */
  datatype Change = Change(property: nat, before: Value, after: Value)

  /**
   * The JSON form of `q` holding `v`: nothing when `v` equals the default,
   * `converter.to(v)` otherwise. This is what `Property.toJSON` returns for
   * `v == q.value`, and the cache entry `set(v)` writes (None meaning `remove`).
   */
  function Entry(q: Property, v: Value): (r: Result<Option<Json>>)
    ensures r == Success(None) <==> Equal(v, q.def)
    ensures r.Failure? ==> !Equal(v, q.def) && ((v.Null? && !q.converter.StringGateway?) || !TypedFor(q.converter, v))
    ensures r.Failure? && TypedFor(q.converter, v) ==> r.error == NullPointer
    ensures TypedFor(q.converter, v) && (v.Box? || q.converter.StringGateway?) ==> r.Success?
    ensures r.Success? && r.value.Some? ==> Success(r.value.value) == To(q.converter, v)
  {
    if Equal(v, q.def) then Success(None)
    else match To(q.converter, v)
      case Success(j) => Success(Some(j))
      case Failure(e) => Failure(e)
  }

  /** `Property.toJSON()`. */
  function PropertyJson(q: Property): Result<Option<Json>> {
    Entry(q, q.value)
  }

  /** Identical values have the same JSON form: the entry depends on content only. */
  lemma EntryOfIdentical(q: Property, v: Value, w: Value)
    requires Identical(v, w)
    ensures Entry(q, v) == Entry(q, w)
  {
  }
}
