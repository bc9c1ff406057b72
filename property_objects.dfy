/**
 * The mutable state of PropertyObject.java: every `PropertyObject` and every
 * `Property` of the program, held by one heap so that bindings may cross
 * objects. Property and object references are ids into `props` and `objects`.
 */
module PropertyObjects {
  import opened Outcomes
  import opened Json
  import opened Values
  import opened Gateways
  import opened PropertyData
  import opened Bindings
  import opened Snapshots
  import opened Cascade

  /** The object with id `id` allocated already when the allocator stands at `next`. */
  predicate Allocated(v: Value, next: nat) {
    v.Box? ==> v.id < next
  }

  /**
   * The heap invariant: ids name existing properties and objects, every value
   * and default has its property's type and was allocated, bound properties
   * have the same type, and every property map is registered.
   */
  ghost predicate Consistent(props: seq<Property>, objects: seq<PropertyObject>, next: nat) {
    && GraphIds(props)
    && (forall q | 0 <= q < |props| ::
          && props[q].owner < |objects|
          && WellTyped(props[q])
          && Allocated(props[q].value, next) && Allocated(props[q].def, next))
    && (forall x: nat, y: nat | Edge(props, x, y) :: TypeOf(props[y].converter) == TypeOf(props[x].converter))
    && (forall o | 0 <= o < |objects| :: Registered(props, objects[o].propertyMap, o))
  }

  /** Storing a value of the property's type keeps the heap consistent. */
  lemma StoreValue(props: seq<Property>, objects: seq<PropertyObject>, next: nat, p: nat, v: Value)
    requires Consistent(props, objects, next) && p < |props|
    requires TypedFor(props[p].converter, v) && Allocated(v, next)
    ensures Consistent(props[p := props[p].(value := v)], objects, next)
  {
    var b := props[p := props[p].(value := v)];
    assert forall x: nat, y: nat | Edge(b, x, y) :: Edge(props, x, y);
    forall o | 0 <= o < |objects| ensures Registered(b, objects[o].propertyMap, o) {
      assert Registered(props, objects[o].propertyMap, o);
    }
  }

  /** Replacing a cache keeps the heap consistent. */
  lemma StoreCache(props: seq<Property>, objects: seq<PropertyObject>, next: nat, o: nat, c: Option<Snapshot>)
    requires Consistent(props, objects, next) && o < |objects|
    ensures Consistent(props, objects[o := objects[o].(cache := c)], next)
  {
    var os := objects[o := objects[o].(cache := c)];
    forall o' | 0 <= o' < |os| ensures Registered(props, os[o'].propertyMap, o') {
      assert os[o'].propertyMap == objects[o'].propertyMap;
    }
  }

  /** A new edge between properties of the same type keeps the heap consistent. */
  lemma StoreEdge(props: seq<Property>, objects: seq<PropertyObject>, next: nat, b: nat, p: nat)
    requires Consistent(props, objects, next) && b < |props| && p < |props|
    requires TypeOf(props[b].converter) == TypeOf(props[p].converter)
    ensures Consistent(Attach(props, b, p), objects, next)
  {
    var a := Attach(props, b, p);
    GraphUpdatesKeepIds(props, b, p);
    forall x: nat, y: nat | Edge(a, x, y) ensures TypeOf(a[y].converter) == TypeOf(a[x].converter) {
      if !(x == b && y == p) {
        assert Edge(props, x, y);
      }
    }
    forall o | 0 <= o < |objects| ensures Registered(a, objects[o].propertyMap, o) {
      assert Registered(props, objects[o].propertyMap, o);
    }
  }

  /** Rebinding keeps the heap consistent. */
  lemma StoreUpstream(props: seq<Property>, objects: seq<PropertyObject>, next: nat, p: nat, b: nat)
    requires Consistent(props, objects, next) && p < |props| && b < |props|
    ensures Consistent(Rebind(props, p, b), objects, next)
  {
    var a := Rebind(props, p, b);
    assert forall x: nat, y: nat | Edge(a, x, y) :: Edge(props, x, y);
    forall o | 0 <= o < |objects| ensures Registered(a, objects[o].propertyMap, o) {
      assert Registered(props, objects[o].propertyMap, o);
    }
  }

  /** Unbinding keeps the heap consistent. */
  lemma StoreDetach(props: seq<Property>, objects: seq<PropertyObject>, next: nat, p: nat)
    requires Consistent(props, objects, next) && p < |props|
    ensures Consistent(Detach(props, p), objects, next)
  {
    var d := Detach(props, p);
    GraphUpdatesKeepIds(props, p, p);
    assert forall x: nat, y: nat | Edge(d, x, y) :: Edge(props, x, y);
    forall o | 0 <= o < |objects| ensures Registered(d, objects[o].propertyMap, o) {
      assert Registered(props, objects[o].propertyMap, o);
    }
  }

  /** A new default of the property's type keeps the heap consistent. */
  lemma DefaultKeepsConsistent(props: seq<Property>, objects: seq<PropertyObject>, next: nat, p: nat, d: Value)
    requires Consistent(props, objects, next) && p < |props|
    requires TypedFor(props[p].converter, d) && Allocated(d, next)
    ensures Consistent(props[p := props[p].(def := d)], objects, next)
  {
    var b := props[p := props[p].(def := d)];
    assert forall x: nat, y: nat | Edge(b, x, y) :: Edge(props, x, y);
    forall o | 0 <= o < |objects| ensures Registered(b, objects[o].propertyMap, o) {
      assert Registered(props, objects[o].propertyMap, o);
    }
  }

  /** The flags take no part in the heap invariant. */
  lemma FlagsKeepConsistent(props: seq<Property>, objects: seq<PropertyObject>, next: nat, p: nat, t: bool, at: bool)
    requires Consistent(props, objects, next) && p < |props|
    ensures Consistent(props[p := props[p].(isTransient := t, isAttribute := at)], objects, next)
  {
    var b := props[p := props[p].(isTransient := t, isAttribute := at)];
    assert forall x: nat, y: nat | Edge(b, x, y) :: Edge(props, x, y);
    forall o | 0 <= o < |objects| ensures Registered(b, objects[o].propertyMap, o) {
      assert Registered(props, objects[o].propertyMap, o);
    }
  }

  /** A value decoded by the property's converter, allocated as the next object, keeps the heap consistent. */
  lemma DecodedKeepsConsistent(props: seq<Property>, objects: seq<PropertyObject>, next: nat, p: nat, s: Snapshot)
    requires Consistent(props, objects, next) && p < |props| && Decode(props[p], s).Success?
    ensures var v := Materialize(Decode(props[p], s).value, next);
            Consistent(props[p := props[p].(value := v)], objects, if v.Box? then next + 1 else next)
  {
    var v := Materialize(Decode(props[p], s).value, next);
    Grow(props, objects, next, next + 1);
    StoreValue(props, objects, next + 1, p, v);
    if v.Null? {
      StoreValue(props, objects, next, p, v);
    }
  }

  /** Allocating a new object keeps the heap consistent. */
  lemma Grow(props: seq<Property>, objects: seq<PropertyObject>, next: nat, next': nat)
    requires Consistent(props, objects, next) && next <= next'
    ensures Consistent(props, objects, next')
  {
  }

  /** `v` is what `converter.from` produced as content `d`: null for None, a box holding `d` otherwise. */
  predicate Holds(v: Value, d: Option<Content>) {
    (v.Null? <==> d.None?) && (v.Box? ==> v.content == d.value)
  }

  /**
   * The effect of `forceLoad(s)` on property `p`, from properties `a`, objects
   * `oa` and allocator `n` to `b`, `ob` and `m`: a decoding failure throws
   * before anything changes; otherwise the decoded value (a fresh object, or
   * null) is stored without notification or cascade, and the owner's cache
   * drops `p`'s key when the new value equals the default.
   */
  ghost predicate ForceLoaded(a: seq<Property>, oa: seq<PropertyObject>, n: nat,
                              b: seq<Property>, ob: seq<PropertyObject>, m: nat, p: nat, s: Snapshot, r: Outcome)
    requires p < |a|
  {
    match Decode(a[p], s)
    case Failure(e) => r == Fail(e) && b == a && ob == oa && m == n
    case Success(d) =>
      && r == Pass
      && b == a[p := a[p].(value := Materialize(d, n))]
      && m == (if d.Some? then n + 1 else n)
      && ob == (if a[p].owner < |oa| && Equal(a[p].def, Materialize(d, n))
                then oa[a[p].owner := oa[a[p].owner].(cache := Write(oa[a[p].owner].cache, a[p].key, None))]
                else oa)
  }

  /** `x` is the property registered at one of `keys` in `pm`, and is not transient: `load` reads it. */
  ghost predicate Loads(a: seq<Property>, pm: map<string, nat>, x: nat, keys: set<string>)
    requires x < |a|
  {
    a[x].key in keys && a[x].key in pm && pm[a[x].key] == x && !a[x].isTransient
  }

  /**
   * From `a` to `b`, exactly the properties `load` reads at `keys` moved: each
   * to the value `converter.from` produced for it from `s`, and only its value.
   */
  ghost predicate LoadedAt(a: seq<Property>, b: seq<Property>, pm: map<string, nat>, s: Snapshot, keys: set<string>) {
    |b| == |a| &&
    forall x | 0 <= x < |b| ::
      if Loads(a, pm, x, keys)
      then Decode(a[x], s).Success? && b[x] == a[x].(value := b[x].value) && Holds(b[x].value, Decode(a[x], s).value)
      else b[x] == a[x]
  }

  /** From `oa` to `ob`, only the cache of `o` changed, and only by removals. */
  ghost predicate CacheShrunk(oa: seq<PropertyObject>, ob: seq<PropertyObject>, o: nat) {
    && |ob| == |oa| && o < |oa|
    && (forall o' | 0 <= o' < |ob| && o' != o :: ob[o'] == oa[o'])
    && ob[o].propertyMap == oa[o].propertyMap
    && forall k :: Lookup(ob[o].cache, k) == Lookup(oa[o].cache, k) || Lookup(ob[o].cache, k).None?
  }

  /**
   * One `forceLoad` inside `load`: property `x`, registered at key `k` and not
   * loaded so far, moves from `b` to `c` as the decoding of `s` says.
   */
  lemma LoadStep(a: seq<Property>, b: seq<Property>, c: seq<Property>,
                 oa: seq<PropertyObject>, ob: seq<PropertyObject>, oc: seq<PropertyObject>,
                 n: nat, m: nat, pm: map<string, nat>, o: nat, x: nat, k: string, done: set<string>, s: Snapshot, r: Outcome)
    requires LoadedAt(a, b, pm, s, done) && CacheShrunk(oa, ob, o)
    requires k in pm && pm[k] == x && x < |a| && k !in done && !b[x].isTransient
    requires Registered(a, pm, o) && oa[o].propertyMap == pm
    requires ForceLoaded(b, ob, n, c, oc, m, x, s, r)
    ensures r.Pass? || r.Fail?
    ensures r.Fail? ==> Decode(a[x], s) == Failure(r.error) && c == b && oc == ob && m == n
    ensures r.Pass? ==> n <= m && LoadedAt(a, c, pm, s, done + {k}) && CacheShrunk(oa, oc, o)
  {
    assert b[x] == a[x] by {
      assert !Loads(a, pm, x, done);
    }
    if r.Pass? {
      forall y | 0 <= y < |c|
        ensures if Loads(a, pm, y, done + {k})
                then Decode(a[y], s).Success? && c[y] == a[y].(value := c[y].value) && Holds(c[y].value, Decode(a[y], s).value)
                else c[y] == a[y]
      {
        if y == x {
          assert Loads(a, pm, y, done + {k});
        } else {
          assert Loads(a, pm, y, done + {k}) == Loads(a, pm, y, done);
        }
      }
    }
  }

  /** How the cycle check in `bind` ends. */
  datatype Walk = Rejected | Cleared | Endless

  const CyclicBinding := IllegalArgument("Cyclic binding detected.")

  class PropertyHeap {
    var props: seq<Property>
    var objects: seq<PropertyObject>
    /** The id the next allocated object gets. */
    var nextBox: nat
    /** Every `Observable.change(before, after)` call so far. */
    ghost var log: seq<Change>

    ghost predicate Valid()
      reads this
    {
      Consistent(props, objects, nextBox)
    }

    constructor ()
      ensures Valid()
      ensures props == [] && objects == [] && nextBox == 0 && log == []
    {
      props, objects, nextBox, log := [], [], 0, [];
    }

    /** `new`: a fresh object holding `c`, distinct from every object allocated before. */
    method NewValue(c: Content) returns (v: Value)
      requires Valid()
      modifies this
      ensures Valid()
      ensures v == Box(old(nextBox), c) && nextBox == old(nextBox) + 1
      ensures props == old(props) && objects == old(objects) && log == old(log)
    {
      v := Box(nextBox, c);
      nextBox := nextBox + 1;
    }

    /** `new PropertyObject()`: an empty property map and no cache. */
    method NewObject() returns (o: nat)
      requires Valid()
      modifies this
      ensures Valid()
      ensures o == |old(objects)| && objects == old(objects) + [PropertyObject(None, map[])]
      ensures props == old(props) && nextBox == old(nextBox) && log == old(log)
    {
      o := |objects|;
      objects := objects + [PropertyObject(None, map[])];
    }

    /**
     * `new Property<>(key, def, converter)` inside object `o`: an enabled cache
     * receives `converter.to(def)` for a non-null default (although the value is
     * at its default); the property starts unbound, transient and an attribute,
     * and replaces any property registered under `key`.
     */
    method NewProperty(o: nat, key: string, def: Value, g: Gateway) returns (id: nat)
      requires Valid() && o < |objects| && TypedFor(g, def) && Allocated(def, nextBox)
      modifies this
      ensures Valid()
      ensures id == |old(props)|
      ensures props == old(props) + [Property(o, key, def, def, g, true, true, None, {})]
      ensures objects == old(objects)[o := PropertyObject(
                if old(objects)[o].cache.Some? && def.Box?
                then Write(old(objects)[o].cache, key, Some(To(g, def).value))
                else old(objects)[o].cache,
                old(objects)[o].propertyMap[key := id])]
      ensures nextBox == old(nextBox) && log == old(log)
    {
      var obj := objects[o];
      var cache := obj.cache;
      if cache.Some? && def.Box? {
        cache := Write(cache, key, Some(To(g, def).value));
      }
      id := |props|;
      props := props + [Property(o, key, def, def, g, true, true, None, {})];
      objects := objects[o := PropertyObject(cache, obj.propertyMap[key := id])];
    }

    /**
     * `set(v)` on property `p`: write the owner's cache entry (when enabled),
     * stop if `v` is the current value itself, otherwise store `v`, notify, and
     * call `set(v)` on each dependent.
     */
    method Set(p: nat, v: Value) returns (r: Outcome)
      requires Valid() && p < |props| && TypedFor(props[p].converter, v) && Allocated(v, nextBox)
      modifies this
      decreases |Pending(props, v)|, 0
      ensures Valid() && nextBox == old(nextBox)
      ensures Extends(log, old(log))
      ensures SetPost(old(objects), objects, old(props), props, log[|old(log)|..], p, v, r)
    {
      var q := props[p];
      var owner := objects[q.owner];
      if owner.cache.Some? {
        var e := Entry(q, v);
        if e.Failure? {
          SetRefused(old(objects), objects, old(props), props, old(log), log, p, v, e.error);
          return Fail(e.error);
        }
        StoreCache(props, objects, nextBox, q.owner, Write(owner.cache, q.key, e.value));
        objects := objects[q.owner := owner.(cache := Write(owner.cache, q.key, e.value))];
      }
      if Identical(q.value, v) {
        SetUnchanged(old(objects), objects, old(props), props, old(log), log, p, v);
        return Pass;
      }
      StoreValue(props, objects, nextBox, p, v);
      props := props[p := q.(value := v)];
      log := log + [Change(p, q.value, v)];
      FirstWrite(old(objects), objects, old(props), props, p, v);
      MidwayStart(old(objects), objects, old(props), props, old(log), log, p, v);
      r := SetDependents(p, v, old(objects), old(props), old(log));
    }

    /** The loop of `set` over the dependents of `p`, once `p` has moved from `a[p]` to `v`. */
    method SetDependents(p: nat, v: Value, ghost oa: seq<PropertyObject>, ghost a: seq<Property>, ghost l0: seq<Change>)
      returns (r: Outcome)
      requires Valid() && p < |props| && TypedFor(props[p].converter, v) && Allocated(v, nextBox)
      requires Extends(log, l0) && Midway(oa, objects, a, props, log[|l0|..], p, v, {})
      requires WroteSoFar(objects, a, props, p, v, {})
      modifies this
      decreases |Pending(props, v)|, 1
      ensures Valid() && nextBox == old(nextBox)
      ensures Extends(log, l0)
      ensures SetPost(oa, objects, a, props, log[|l0|..], p, v, r)
    {
      var todo := props[p].dependents;
      ghost var done: set<nat> := {};
      while todo != {}
        invariant Valid() && nextBox == old(nextBox) && |props| == |a|
        invariant todo <= a[p].dependents && forall y | y in a[p].dependents :: y in done || y in todo
        invariant Extends(log, l0)
        invariant |Pending(props, v)| <= |Pending(old(props), v)|
        invariant Midway(oa, objects, a, props, log[|l0|..], p, v, done)
        invariant WroteSoFar(objects, a, props, p, v, done)
        decreases todo
      {
        var s :| s in todo;
        ghost var b, ob, lb := props, objects, log;
        assert Edge(props, p, s);
        var rs := Set(s, v);
        SuffixSplit(l0, lb, log);
        PendingKeeps(b, props, v);
        if rs.Fail? {
          SetStopped(oa, ob, objects, a, b, props, lb[|l0|..], log[|lb|..], p, s, v, done, rs);
          return rs;
        }
        MidwayStep(oa, ob, objects, a, b, props, lb[|l0|..], log[|lb|..], p, s, v, done);
        ComposeWroteBelow(ob, objects, a, b, props, log[|lb|..], p, s, v, done);
        todo := todo - {s};
        done := done + {s};
      }
      SetDone(oa, objects, a, props, log[|l0|..], p, v, done);
      return Pass;
    }

    /**
     * The loop at the head of `bind(b)` on property `p`: follow upstream links
     * from `b` while the current property is bound, throwing when it is `p`.
     * The loop never ends on an upstream cycle that avoids `p`; the walk
     * reports that after |props| + 1 bound steps.
     */
    method CheckChain(p: nat, b: nat) returns (w: Walk)
      requires Valid() && b < |props|
      ensures w == Rejected <==> WalkRejects(props, p, b)
      ensures w == Endless <==> WalkHangs(props, p, b)
    {
      var c, k := b, 0;
      while Bound(props, c)
        invariant c < |props| && k <= |props| && c == Chain(props, b, k)
        invariant forall j: nat | j < k :: Bound(props, Chain(props, b, j)) && Chain(props, b, j) != p
        decreases |props| - k
      {
        if c == p {
          assert forall j: nat | j <= k :: Bound(props, Chain(props, b, j));
          return Rejected;
        }
        if k == |props| {
          WalkHangsFromPrefix(props, p, b);
          return Endless;
        }
        c, k := props[c].upstream.value, k + 1;
      }
      forall m: nat | Chain(props, b, m) == p ensures !forall j: nat | j <= m :: Bound(props, Chain(props, b, j)) {
        assert k <= m;
      }
      return Cleared;
    }

    /**
     * `bind(binding)` on property `p`: the cycle check, then `p` joins the
     * dependents of `binding`, takes its value through `set` when the two are
     * not equal, and finally records `binding` as its upstream. A null
     * `binding` throws at the first dereference. `mid` is the graph `set`
     * left behind, before the upstream assignment.
     */
    method Bind(p: nat, binding: Option<nat>) returns (r: Outcome, ghost mid: seq<Property>)
      requires Valid() && p < |props|
      requires binding.Some? ==> binding.value < |props|
      requires binding.Some? ==> TypeOf(props[binding.value].converter) == TypeOf(props[p].converter)
      modifies this
      ensures Valid() && nextBox == old(nextBox)
      ensures Extends(log, old(log))
      ensures binding.None? ==> r == Fail(NullPointer)
      ensures binding.Some? ==> (r == Fail(CyclicBinding) <==> WalkRejects(old(props), p, binding.value))
      ensures binding.Some? ==> (r == Diverges <==> WalkHangs(old(props), p, binding.value))
      ensures binding.None? || r == Fail(CyclicBinding) || r == Diverges ==>
                props == old(props) && objects == old(objects) && log == old(log)
      ensures binding.Some? && r != Fail(CyclicBinding) && r != Diverges ==>
                var b, a1 := binding.value, Attach(old(props), binding.value, p);
                && GraphIds(a1) && |mid| == |a1|
                && (if Equal(old(props)[b].value, old(props)[p].value)
                    then r == Pass && mid == a1 && objects == old(objects) && log == old(log)
                    else SetPost(old(objects), objects, a1, mid, log[|old(log)|..], p, old(props)[b].value, r))
                && props == (if r.Pass? then Rebind(mid, p, b) else mid)
      ensures binding.Some? && r == Pass ==>
                && props[p].upstream == binding && p in props[binding.value].dependents
                && Equal(props[binding.value].value, props[p].value)
    {
      mid := props;
      if binding.None? {
        return Fail(NullPointer), mid;
      }
      var b := binding.value;
      var w := CheckChain(p, b);
      if w == Rejected {
        return Fail(CyclicBinding), mid;
      }
      if w == Endless {
        return Diverges, mid;
      }
      ghost var a1 := Attach(props, b, p);
      StoreEdge(props, objects, nextBox, b, p);
      props := props[b := props[b].(dependents := props[b].dependents + {p})];
      var v := props[b].value;
      if !Equal(v, props[p].value) {
        r := Set(p, v);
        mid := props;
        if r.Fail? {
          return r, mid;
        }
        BindSettles(old(objects), objects, a1, props, log[|old(log)|..], p, b, v);
      } else {
        mid := props;
        r := Pass;
      }
      StoreUpstream(props, objects, nextBox, p, b);
      props := props[p := props[p].(upstream := binding)];
    }

    /** `unbind()` on property `p`. */
    method Unbind(p: nat)
      requires Valid() && p < |props|
      modifies this
      ensures Valid() && props == Detach(old(props), p)
      ensures objects == old(objects) && nextBox == old(nextBox) && log == old(log)
    {
      StoreDetach(props, objects, nextBox, p);
      if props[p].upstream.Some? {
        var u := props[p].upstream.value;
        props := props[u := props[u].(dependents := props[u].dependents - {p})];
        props := props[p := props[p].(upstream := None)];
      }
    }

    /**
     * `setDefault(d)` on property `p`: the new default is stored, and an
     * enabled cache drops `p`'s key when the current value equals it. An entry
     * the old default had elided is not written back.
     */
    method SetDefault(p: nat, d: Value)
      requires Valid() && p < |props| && TypedFor(props[p].converter, d) && Allocated(d, nextBox)
      modifies this
      ensures Valid()
      ensures props == old(props)[p := old(props)[p].(def := d)]
      ensures var q := old(props)[p];
              objects == if Equal(d, q.value)
                         then old(objects)[q.owner := old(objects)[q.owner].(cache := Write(old(objects)[q.owner].cache, q.key, None))]
                         else old(objects)
      ensures nextBox == old(nextBox) && log == old(log)
    {
      var q := props[p];
      if Equal(d, q.value) {
        StoreCache(props, objects, nextBox, q.owner, Write(objects[q.owner].cache, q.key, None));
        objects := objects[q.owner := objects[q.owner].(cache := Write(objects[q.owner].cache, q.key, None))];
      }
      DefaultKeepsConsistent(props, objects, nextBox, p, d);
      props := props[p := q.(def := d)];
    }

    /** `setTransient(t)` on property `p`. */
    method SetTransient(p: nat, t: bool)
      requires Valid() && p < |props|
      modifies this
      ensures Valid() && props == old(props)[p := old(props)[p].(isTransient := t)]
      ensures objects == old(objects) && nextBox == old(nextBox) && log == old(log)
    {
      FlagsKeepConsistent(props, objects, nextBox, p, t, props[p].isAttribute);
      props := props[p := props[p].(isTransient := t)];
    }

    /** `setAttribute(t)` on property `p`. */
    method SetAttribute(p: nat, t: bool)
      requires Valid() && p < |props|
      modifies this
      ensures Valid() && props == old(props)[p := old(props)[p].(isAttribute := t)]
      ensures objects == old(objects) && nextBox == old(nextBox) && log == old(log)
    {
      FlagsKeepConsistent(props, objects, nextBox, p, props[p].isTransient, t);
      props := props[p := props[p].(isAttribute := t)];
    }

    /** `forceLoad(s)` on property `p`. */
    method ForceLoad(p: nat, s: Snapshot) returns (r: Outcome)
      requires Valid() && p < |props|
      modifies this
      ensures Valid() && log == old(log)
      ensures ForceLoaded(old(props), old(objects), old(nextBox), props, objects, nextBox, p, s, r)
    {
      var q := props[p];
      var d := Decode(q, s);
      if d.Failure? {
        return Fail(d.error);
      }
      var v := Materialize(d.value, nextBox);
      DecodedKeepsConsistent(props, objects, nextBox, p, s);
      if d.value.Some? {
        nextBox := nextBox + 1;
      }
      props := props[p := q.(value := v)];
      if Equal(q.def, v) {
        StoreCache(props, objects, nextBox, q.owner, Write(objects[q.owner].cache, q.key, None));
        objects := objects[q.owner := objects[q.owner].(cache := Write(objects[q.owner].cache, q.key, None))];
      }
      r := Pass;
    }

    /**
     * `Property.load(s)` on property `p`: only a non-transient property is
     * loaded; a null `s` makes `properties.get(key)` throw.
     */
    method LoadProperty(p: nat, s: Option<Snapshot>) returns (r: Outcome)
      requires Valid() && p < |props|
      modifies this
      ensures Valid() && log == old(log)
      ensures old(props)[p].isTransient ==>
                r == Pass && props == old(props) && objects == old(objects) && nextBox == old(nextBox)
      ensures !old(props)[p].isTransient && s.None? ==>
                r == Fail(NullPointer) && props == old(props) && objects == old(objects) && nextBox == old(nextBox)
      ensures !old(props)[p].isTransient && s.Some? ==>
                ForceLoaded(old(props), old(objects), old(nextBox), props, objects, nextBox, p, s.value, r)
    {
      if props[p].isTransient {
        return Pass;
      }
      if s.None? {
        return Fail(NullPointer);
      }
      r := ForceLoad(p, s.value);
    }

    /**
     * `toJSON()` on object `o`: the entries of the non-transient registered
     * properties, visited in the map's (unspecified) order.
     */
    method ToJson(o: nat) returns (r: Result<Snapshot>)
      requires Valid() && o < |objects|
      ensures r == SnapshotOf(props, objects[o].propertyMap)
    {
      var pm := objects[o].propertyMap;
      assert Registered(props, pm, o);
      var keys := pm.Keys;
      ghost var done: set<string> := {};
      var out: Snapshot := map[];
      while keys != {}
        invariant keys <= pm.Keys && keys !! done && forall k | k in pm :: k in keys || k in done
        invariant forall k | k in done :: Persistent(props, pm, k) ==> PropertyJson(props[pm[k]]).Success?
        invariant forall k :: Get(out, k) == if k in done && Persistent(props, pm, k) then PropertyJson(props[pm[k]]).value else None
        decreases keys
      {
        var k :| k in keys;
        var q := props[pm[k]];
        if !q.isTransient {
          var e := PropertyJson(q);
          if e.Failure? {
            assert Persistent(props, pm, k);
            return Failure(e.error);
          }
          if e.value.Some? {
            out := out[q.key := e.value.value];
          }
        }
        keys := keys - {k};
        done := done + {k};
      }
      assert SnapshotOf(props, pm).Success?;
      forall k ensures Get(out, k) == Get(SnapshotOf(props, pm).value, k) {
        SnapshotGet(props, pm, k);
      }
      GetExtensional(out, SnapshotOf(props, pm).value);
      return Success(out);
    }

    /**
     * `enableCache()` on object `o`: the cache becomes the object's snapshot,
     * unless building it throws.
     */
    method EnableCache(o: nat) returns (r: Outcome)
      requires Valid() && o < |objects|
      modifies this
      ensures Valid() && props == old(props) && nextBox == old(nextBox) && log == old(log)
      ensures r.Pass? || r == Fail(NullPointer)
      ensures r.Pass? <==> SnapshotOf(props, old(objects)[o].propertyMap).Success?
      ensures r.Pass? ==>
                && SnapshotOf(props, old(objects)[o].propertyMap).Success?
                && objects == old(objects)[o := old(objects)[o].(cache := Some(SnapshotOf(props, old(objects)[o].propertyMap).value))]
      ensures r.Fail? ==> objects == old(objects)
      ensures Registered(props, objects[o].propertyMap, o) && (r.Pass? ==> Mirrors(objects, props, o))
    {
      var s := ToJson(o);
      if s.Failure? {
        return Fail(s.error);
      }
      StoreCache(props, objects, nextBox, o, Some(s.value));
      objects := objects[o := objects[o].(cache := Some(s.value))];
      return Pass;
    }

    /** `disableCache()` on object `o`. */
    method DisableCache(o: nat)
      requires Valid() && o < |objects|
      modifies this
      ensures Valid() && objects == old(objects)[o := old(objects)[o].(cache := None)]
      ensures props == old(props) && nextBox == old(nextBox) && log == old(log)
    {
      StoreCache(props, objects, nextBox, o, None);
      objects := objects[o := objects[o].(cache := None)];
    }

    /**
     * `load(s)` on object `o`: each non-transient registered property is
     * force-loaded from `s` (in the map's unspecified order), then `s` becomes
     * the cache; a null `s` loads nothing and disables the cache. A decoding
     * failure throws and leaves the properties already loaded, and removals
     * from the old cache, in place. Nothing is notified and nothing cascades.
     */
    method Load(o: nat, s: Option<Snapshot>) returns (r: Outcome, ghost loaded: set<string>)
      requires Valid() && o < |objects|
      modifies this
      ensures Valid() && log == old(log) && nextBox >= old(nextBox)
      ensures r.Pass? || r.Fail?
      ensures r.Fail? <==> s.Some? && LoadThrows(old(props), old(objects)[o].propertyMap, s.value)
      ensures r.Fail? ==> exists k :: Persistent(old(props), old(objects)[o].propertyMap, k)
                                      && Decode(old(props)[old(objects)[o].propertyMap[k]], s.value) == Failure(r.error)
      ensures s.None? ==> props == old(props)
      ensures s.Some? ==> LoadedAt(old(props), props, old(objects)[o].propertyMap, s.value, loaded)
      ensures r.Pass? && s.Some? ==> old(objects)[o].propertyMap.Keys <= loaded
      ensures r.Pass? ==> objects == old(objects)[o := old(objects)[o].(cache := s)]
      ensures r.Fail? ==> CacheShrunk(old(objects), objects, o)
    {
      loaded := {};
      if s.Some? {
        r, loaded := LoadEach(o, s.value);
        if r.Fail? {
          return r, loaded;
        }
      }
      StoreCache(props, objects, nextBox, o, s);
      objects := objects[o := objects[o].(cache := s)];
      r := Pass;
    }

    /** The loop of `load(s)` over the property map, before `s` becomes the cache. */
    method LoadEach(o: nat, s: Snapshot) returns (r: Outcome, ghost loaded: set<string>)
      requires Valid() && o < |objects|
      modifies this
      ensures Valid() && log == old(log) && nextBox >= old(nextBox)
      ensures r.Pass? || r.Fail?
      ensures r.Fail? <==> LoadThrows(old(props), old(objects)[o].propertyMap, s)
      ensures r.Fail? ==> exists k :: Persistent(old(props), old(objects)[o].propertyMap, k)
                                      && Decode(old(props)[old(objects)[o].propertyMap[k]], s) == Failure(r.error)
      ensures LoadedAt(old(props), props, old(objects)[o].propertyMap, s, loaded)
      ensures r.Pass? ==> old(objects)[o].propertyMap.Keys <= loaded
      ensures CacheShrunk(old(objects), objects, o)
    {
      var pm := objects[o].propertyMap;
      ghost var a, oa := props, objects;
      assert Registered(a, pm, o);
      loaded := {};
      var keys := pm.Keys;
      while keys != {}
        invariant Valid() && log == old(log) && nextBox >= old(nextBox)
        invariant keys <= pm.Keys && keys !! loaded && forall k | k in pm :: k in keys || k in loaded
        invariant forall k | k in loaded :: !Persistent(a, pm, k) || Decode(a[pm[k]], s).Success?
        invariant LoadedAt(a, props, pm, s, loaded) && CacheShrunk(oa, objects, o)
        decreases keys
      {
        var k :| k in keys;
        var x := pm[k];
        if !props[x].isTransient {
          ghost var b, ob, n := props, objects, nextBox;
          r := ForceLoad(x, s);
          LoadStep(a, b, props, oa, ob, objects, n, nextBox, pm, o, x, k, loaded, s, r);
          if r.Fail? {
            return r, loaded;
          }
        }
        keys := keys - {k};
        loaded := loaded + {k};
      }
      return Pass, loaded;
    }
  }
}
