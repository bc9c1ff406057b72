# Persisted properties and the battle queue of c10ver, in Dafny

This project models two parts of the c10ver Discord bot (Java) and proves
properties of the model.

**`PropertyObject` and its inner `Property`** is a small framework of
persisted, observable, bindable fields. Each property holds:

- a value and a default;
- a converter (`Gateway`) to and from JSON;
- a transient flag and an attribute flag;
- an upstream binding (`propertyBinding`);
- a set of dependents (`propertyBindings`).

An object keeps its properties in a map by key. It may also keep a live JSON
`cache`, which every `set` updates incrementally.

- `toJSON()` writes the non-transient properties whose value differs from the
  default.
- `load` reads the properties back and adopts the JSON object as the new cache.
- `set` writes the cache and stops on an identical value. Otherwise it stores
  the value, notifies the observers and calls `set` on every dependent.
- `bind` walks the upstream chain looking for a cycle. It then joins the
  binding's dependents and takes over its value.

**`Battle`** holds a queue of fighters from several teams:

- The varargs constructor keeps the queue in descending natural order by
  binary-search insertion. A fighter that ties with one already queued makes
  the insertion throw.
- `start` gives every queued fighter a number of ticks till its turn, then
  sorts the queue by ticks.

The model is imperative, as the Java is:

- One class, `PropertyObjects.PropertyHeap`, holds every property and every
  property object of a program, as sequences indexed by id. It has a ghost log
  of `Observable.change` calls and an allocator for object identities.
- `set` is a recursive method. It terminates on the number of properties whose
  value is not yet the new value.
- Values carry an object identity besides their content. This is what lets
  Java's `==` in `set` be told apart from `Objects.equals` in `toJSON`.
- `Battles.Battle` is a class over a tick map, the queue and the teams. The
  queue is built by nested loops around a binary search, and it is sorted by
  insertion.

Modules and files:

| file | module | contents |
|---|---|---|
| outcomes.dfy | `Outcomes` | Option, Result, the Java exceptions, and the outcome of a statement (normal, thrown, or never ending) |
| json.dfy | `Json` | JSON values; the `JSONObject` operations `get`, `put` and `remove` |
| values.dfy | `Values` | values with identity; `Objects.equals` and `==` |
| gateways.dfy | `Gateways` | the converters; integral narrowing; round trips |
| property_data.dfy | `PropertyData` | the fields of `Property` and `PropertyObject`; `Property.toJSON` |
| bindings.dfy | `Bindings` | the binding graph; the cycle check of `bind`; `unbind` |
| snapshots.dfy | `Snapshots` | what `PropertyObject.toJSON` builds and what `load` decodes |
| cascade.dfy | `Cascade` | what one `set` call does, and how the recursive calls compose |
| property_objects.dfy | `PropertyObjects` | the heap class and its operations |
| battle.dfy | `Battles` | the battle queue |

## Model

All source paths are below `src/gartham/c10ver/`, written out in full in each cell.

| member | source | states |
|---|---|---|
| Json.Write | src/gartham/c10ver/data/PropertyObject.java:313-317 | A `put` or `remove` on an enabled cache changes only the entry at `key`, which becomes the given entry; a disabled cache stays disabled |
| Values.EqualButNotIdentical | src/gartham/c10ver/data/PropertyObject.java:318 | Any two distinct objects with the same content, other than enum constants (which are singletons), are `Objects.equals` but not `==` |
| Gateways.Narrow | src/gartham/c10ver/data/PropertyObject.java:367-377 | `intValue`/`byteValue`/`longValue` results lie in the target width, agree with the argument modulo 2^width, and leave an in-range number unchanged |
| Gateways.To | src/gartham/c10ver/data/PropertyObject.java:76-135 | `converter.to` throws NullPointerException on null for every converter but the string one (which wraps null); on a value of the converter's type it succeeds; otherwise it throws only ClassCastException |
| Gateways.From | src/gartham/c10ver/data/PropertyObject.java:76-135 | `converter.from` throws NullPointerException on a missing entry; a decoded value has the converter's type; only the string converter decodes to null |
| Gateways.IntegralRoundTrip | src/gartham/c10ver/data/PropertyObject.java:91-104 | Writing an in-range byte, int or long as a JSON long and reading it back gives the same number |
| Gateways.IntegralNarrowsOnRead | src/gartham/c10ver/data/PropertyObject.java:367-369 | An int property reads 2^31 back as -2^31 |
| Gateways.OrdinalRoundTrip | src/gartham/c10ver/data/PropertyObject.java:418-431 | An enum constant written by ordinal is read back as the same constant |
| Gateways.TextRoundTrip | src/gartham/c10ver/data/PropertyObject.java:76-89 | Strings, and null, come back from the string converter unchanged |
| Gateways.EnumNameReadsKey | src/gartham/c10ver/data/PropertyObject.java:410-416 | Whatever constant `enumStringProperty` wrote, reading gives the constant named like the property's key, or fails when there is none |
| Gateways.EnumNameRoundTripFails | src/gartham/c10ver/data/PropertyObject.java:410-412 | A constant written under the key "rarity" cannot be read back |
| Gateways.FromEnumName | src/gartham/c10ver/data/PropertyObject.java:410-412 | The decoding that parses the stored name: on success, a constant whose name is the stored string |
| Gateways.EnumNameIntendedRoundTrip | src/gartham/c10ver/data/PropertyObject.java:410-412 | Decoding by the stored name gives back every constant that was written, when the names are distinct |
| PropertyData.Entry | src/gartham/c10ver/data/PropertyObject.java:338-340 | `Property.toJSON` is null if and only if the value equals the default; otherwise it is `converter.to(value)`, and it throws only NullPointerException on a well-typed value |
| Bindings.WalkHangsFromPrefix | src/gartham/c10ver/data/PropertyObject.java:279-281 | A walk that has gone \|props\|+1 bound steps without meeting `this` never ends |
| Bindings.TriangleNotRejected | src/gartham/c10ver/data/PropertyObject.java:279-281 | With A bound to B and B bound to C, `C.bind(A)` neither throws nor hangs, and the binding it makes leaves a cycle |
| Bindings.SelfBindingNotRejected | src/gartham/c10ver/data/PropertyObject.java:279-281 | `A.bind(A)` on an unbound A neither throws nor hangs, and makes A its own upstream |
| Bindings.IntendedCheckKeepsAcyclic | src/gartham/c10ver/data/PropertyObject.java:279-285 | A check that rejects `this` anywhere on the chain, its unbound end included, keeps an acyclic graph acyclic |
| Bindings.DetachUnbinds | src/gartham/c10ver/data/PropertyObject.java:292-297 | After `unbind` the property is unbound and not among its former upstream's dependents; no other dependents set changes |
| Bindings.DetachIdempotent | src/gartham/c10ver/data/PropertyObject.java:292-297 | A second `unbind` changes nothing |
| Bindings.DetachUndoesBind | src/gartham/c10ver/data/PropertyObject.java:282-297 | `unbind` undoes the graph updates of a `bind` on an unbound property |
| Bindings.RebindKeepsStaleEdge | src/gartham/c10ver/data/PropertyObject.java:282-285 | Re-binding to another property keeps `this` among the old upstream's dependents, next to the new one |
| Snapshots.SnapshotContents | src/gartham/c10ver/data/PropertyObject.java:344-353 | The snapshot holds exactly the non-transient keys whose value differs from the default, each as `converter.to(value)`. It fails exactly when such a value is null and its converter dereferences it |
| Snapshots.SnapshotGet | src/gartham/c10ver/data/PropertyObject.java:344-353 | `get(k)` on the snapshot is the `Property.toJSON` of the property saved at `k`, and null for any other key |
| Snapshots.AllTransientSnapshotEmpty | src/gartham/c10ver/data/PropertyObject.java:246 | An object whose properties are all still transient has an empty snapshot |
| Snapshots.ConstructorCacheDisagrees | src/gartham/c10ver/data/PropertyObject.java:305-307 | Right after construction, an enabled cache holds the key of a non-null default that the snapshot leaves out |
| Snapshots.OwnSnapshotFailsToLoad | src/gartham/c10ver/data/PropertyObject.java:227-231 | Loading an object's own snapshot throws NullPointerException as soon as a non-transient property is at its default |
| Snapshots.IntendedLoadRoundTrip | src/gartham/c10ver/data/PropertyObject.java:227-231 | With missing keys read as defaults (the corrected decoding `Snapshots.DecodeOrDefault`), a snapshot restores every saved property whose converter round-trips |
| Cascade.PendingShrinks | src/gartham/c10ver/data/PropertyObject.java:318-321 | Storing a value not identical to `v` shrinks the set of properties not yet at `v`, which bounds the recursion of `set` |
| Cascade.FirstWrite | src/gartham/c10ver/data/PropertyObject.java:313-317 | The first cache write of `set` affects only its own key, and leaves the property's entry for `v` there |
| Cascade.SetRefused | src/gartham/c10ver/data/PropertyObject.java:313-317 | A converter that throws on `v` ends `set` with nothing changed |
| Cascade.SetUnchanged | src/gartham/c10ver/data/PropertyObject.java:318-319 | For `v` identical to the value, `set` writes the cache and changes no value, notifies nothing and cascades nowhere |
| Cascade.MidwayStep | src/gartham/c10ver/data/PropertyObject.java:324-325 | A completed call on one dependent keeps the cascade, cache and notification invariants of the loop, and settles that dependent |
| Cascade.SetStopped | src/gartham/c10ver/data/PropertyObject.java:324-325 | An exception from a dependent's `set` ends the outer `set` with the same exception, and the effects so far still form a cascade |
| Cascade.BindSettles | src/gartham/c10ver/data/PropertyObject.java:283-284 | After the `set` in `bind`, the binding still holds its value and `this` holds an equal one |
| Cascade.CascadeReachesAll | src/gartham/c10ver/data/PropertyObject.java:320-325 | If bound properties agreed before, then after a completed `set(v)` every property downstream of the target holds a value equal to `v` |
| Cascade.SetKeepsAgreement | src/gartham/c10ver/data/PropertyObject.java:320-325 | `set` on an unbound property keeps bound properties agreeing, when no dependents edge is stale |
| Cascade.IncrementalMirror | src/gartham/c10ver/data/PropertyObject.java:312-317 | The incremental cache writes of a cascade keep a cache equal to `toJSON()`, when every visited property of that object is registered, non-transient and alone at its key |
| PropertyObjects.LoadStep | src/gartham/c10ver/data/PropertyObject.java:58-61 | One `forceLoad` inside `load` either throws the decoding error with nothing changed, or moves exactly that property to its decoded value and only removes cache entries |
| PropertyObjects.PropertyHeap.NewObject | src/gartham/c10ver/data/PropertyObject.java:73-74 | A new object has an empty property map and no cache |
| PropertyObjects.PropertyHeap.NewProperty | src/gartham/c10ver/data/PropertyObject.java:303-310 | The property starts at its default, unbound, transient and an attribute, and is registered under its key. An enabled cache receives `converter.to(def)` for a non-null default |
| PropertyObjects.PropertyHeap.Set | src/gartham/c10ver/data/PropertyObject.java:312-326 | Every value that changes, changes to `v` along a path of changed dependents from the target. These are notified once each, from the old value to `v`. Cache entries change only by the writes of the cascade. An identical `v` changes nothing. A completed call settles every dependent of a changed property to `v`. It leaves in the cache the entry for `v` of the target, of every changed property and of every dependent of a changed property, including a dependent that already held `v`, whenever that property is alone at its key. A throw happens only on null reaching a dereferencing converter |
| PropertyObjects.PropertyHeap.SetDependents | src/gartham/c10ver/data/PropertyObject.java:324-325 | The loop over the dependents completes or passes on the first exception, with the postcondition of `set` |
| PropertyObjects.PropertyHeap.CheckChain | src/gartham/c10ver/data/PropertyObject.java:279-281 | The walk throws if and only if `this` occurs on the chain before its unbound end. It never ends if and only if the chain is bound forever and avoids `this` |
| PropertyObjects.PropertyHeap.Bind | src/gartham/c10ver/data/PropertyObject.java:278-286 | A null binding throws NullPointerException, and a rejected or endless walk changes nothing. Otherwise `this` is added to the binding's dependents and takes the binding's value through `set` when the two differ. On completion the upstream is the binding and the two values are equal |
| PropertyObjects.PropertyHeap.Unbind | src/gartham/c10ver/data/PropertyObject.java:292-297 | The graph update of `unbind`, with nothing else changed |
| PropertyObjects.PropertyHeap.SetDefault | src/gartham/c10ver/data/PropertyObject.java:217-221 | The new default is stored; an enabled cache drops the key exactly when the current value equals the new default |
| PropertyObjects.PropertyHeap.SetTransient | src/gartham/c10ver/data/PropertyObject.java:252-254 | Only the transient flag changes |
| PropertyObjects.PropertyHeap.SetAttribute | src/gartham/c10ver/data/PropertyObject.java:260-263 | Only the attribute flag changes |
| PropertyObjects.PropertyHeap.ForceLoad | src/gartham/c10ver/data/PropertyObject.java:227-231 | A decoding error throws with nothing changed. Otherwise the decoded value is stored with no notification and no cascade, and the cache drops the key when the value equals the default |
| PropertyObjects.PropertyHeap.LoadProperty | src/gartham/c10ver/data/PropertyObject.java:227-236 | A transient property is left alone. Any other property, given a null snapshot, throws NullPointerException at `properties.get(key)` with nothing changed; given a snapshot, it is force-loaded |
| PropertyObjects.PropertyHeap.ToJson | src/gartham/c10ver/data/PropertyObject.java:344-353 | The loop over the property map builds exactly the snapshot, or throws exactly when the snapshot does |
| PropertyObjects.PropertyHeap.EnableCache | src/gartham/c10ver/data/PropertyObject.java:32-34 | The cache becomes the snapshot and mirrors `toJSON()`; when building the snapshot throws, nothing changes |
| PropertyObjects.PropertyHeap.DisableCache | src/gartham/c10ver/data/PropertyObject.java:36-38 | The cache becomes absent, with nothing else changed |
| PropertyObjects.PropertyHeap.Load | src/gartham/c10ver/data/PropertyObject.java:57-63 | `load(s)` throws exactly when some saved property cannot be decoded from `s`. Otherwise every non-transient registered property holds its decoding of `s`, the rest are untouched, and `s` becomes the cache. `load(null)` only disables the cache. Nothing is notified |
| PropertyObjects.PropertyHeap.LoadEach | src/gartham/c10ver/data/PropertyObject.java:58-61 | The loop of `load`: it throws exactly on an undecodable saved property; the properties it visited hold their decoding, the others are unchanged, and the cache only loses entries |
| Battles.Compare | src/gartham/c10ver/games/rpg/fighting/battles/Battle.java:42 | `Integer.compare` is negative, zero or positive exactly when the first argument is smaller, equal or larger |
| Battles.BinarySearch | src/gartham/c10ver/games/rpg/fighting/battles/Battle.java:81 | On a queue descending by rank, the result is the index of a fighter that ties with `f`. Otherwise no fighter ties, and the result encodes the insertion point that splits the queue into higher and lower ranks |
| Battles.InsertAt | src/gartham/c10ver/games/rpg/fighting/battles/Battle.java:80-82 | Inserting at that insertion point keeps the queue descending and adds exactly `f` |
| Battles.FoundTie | src/gartham/c10ver/games/rpg/fighting/battles/Battle.java:80-82 | A found index means the fighters seen so far, with `f`, contain a tie |
| Battles.Enqueue | src/gartham/c10ver/games/rpg/fighting/battles/Battle.java:79-82 | Inserting a team's members throws IndexOutOfBoundsException exactly when some rank ties. Otherwise the queue stays descending and gains exactly those members |
| Battles.Battle.FromTeams | src/gartham/c10ver/games/rpg/fighting/battles/Battle.java:74-84 | The varargs constructor throws exactly when two fighters tie. Otherwise it keeps the teams in argument order, with an empty tick map and a descending queue that is a permutation of all fighters |
| Battles.Battle.FromCollection | src/gartham/c10ver/games/rpg/fighting/battles/Battle.java:86-89 | The collection constructor copies the teams and leaves the queue empty |
| Battles.Battle.SetTTT | src/gartham/c10ver/games/rpg/fighting/battles/Battle.java:66-72 | Afterwards `getTTT(f)` (modelled by `Battles.Battle.GetTTT`, which unboxes a missing entry into NullPointerException) answers the new amount, and every other fighter's answer is unchanged |
| Battles.AssignStep | src/gartham/c10ver/games/rpg/fighting/battles/Battle.java:38-40 | One more `setTTT` extends the tick assignment by one more fighter |
| Battles.AssignedCovers | src/gartham/c10ver/games/rpg/fighting/battles/Battle.java:38-40 | After the loop every queued fighter has a tick entry |
| Battles.Battle.AssignTicks | src/gartham/c10ver/games/rpg/fighting/battles/Battle.java:38-40 | Every queued fighter gets its amount, and the last one wins for a fighter queued twice. Other entries are unchanged, and the queue is not touched |
| Battles.InsertSorted | src/gartham/c10ver/games/rpg/fighting/battles/Battle.java:42 | Placing `f` after the fighters with no more ticks and before those with more keeps tick order, and adds exactly `f` |
| Battles.InsertByTicks | src/gartham/c10ver/games/rpg/fighting/battles/Battle.java:42 | One insertion step of the sort keeps tick order and adds exactly `f` |
| Battles.SortByTicks | src/gartham/c10ver/games/rpg/fighting/battles/Battle.java:42 | The sort leaves the queue in non-decreasing tick order, as a permutation of its contents |
| Battles.Battle.Start | src/gartham/c10ver/games/rpg/fighting/battles/Battle.java:30-42 | An empty queue throws at `get(0)` with nothing changed. Otherwise every queued fighter gets its tick amount, and the queue ends as a permutation in tick order |

## Left out

- Observers: `Observable` is not part of this model. Its `change` calls are recorded in the ghost log `PropertyHeap.log`, in call order. Observers cannot react by calling back into the properties.
- JSON: the JSON library is replaced by a JSON datatype. Numbers are integers only, because the modelled converters write only `long`s. A `JSONObject` is a map, with `get`, `put` and `remove` as map operations.
- `Gateway` and `StringGateway`: these library types are not part of this model. For the converters that go through `StringGateway`, `from` is modelled as writing the enum constant's name or the value's canonical string, and as throwing NullPointerException on null.
- The parsers `BigDecimal::new`, `BigInteger::new`, `Instant::parse` and `Duration::parse` are foreign library calls. A parsed value is kept as its string, and a parse error on a malformed string is not modelled.
- `toObjectGateway` and `toObjectProperty` (lines 137-161): these nest one property object in another through an unseen generator function. They are not modelled.
- The typed factory methods (`intProperty`, `byteProperty`, `longProperty`, `stringProperty`, `enumProperty`, `enumStringProperty`, and `bigDecimalProperty` and its siblings) are not separate members. Each amounts to choosing one of the converters in `Gateways.Gateway` and a default for `NewProperty`.
- Caller-supplied converters are not modelled: the `Gateway<String, V>` or `StringGateway<V>` passed to `toStringProperty` (lines 163-169, 355-361) and the `Function<JSONNumber, N>` getter passed to `integralProperty` (lines 171-172, 363-365). `Gateways.Gateway` is a closed set holding only the converters this file builds itself. So converter errors other than NullPointerException, ClassCastException, IndexOutOfBoundsException and the IllegalArgumentException of `Enum.valueOf` are not modelled. In particular, the contract of `PropertyObjects.PropertyHeap.Set` that only a null reaching a dereferencing converter throws does not cover such converters. The message of the IllegalArgumentException from `Enum.valueOf` is modelled as "No enum constant " followed by the name looked up; Java's message also names the enum's canonical class name, which the model does not carry.
- `get`, `getDefault`, `isTransient`, `isAttribute`, `getPropertyMap` and `getPropertyMapView` are plain field reads of `props[p]` or `objects[o]`, so they are not separate members.
- Boxed integer caching: Java's `Integer.valueOf` shares boxes for small numbers, which makes some `==` comparisons true. The model gives each allocated value its own identity, except for enum constants.
- Iteration order: the order of `HashMap.values()` and `HashSet` iteration is an arbitrary choice (`:|`). Every contract holds for every order.
- Aliasing in `load`: the `JSONObject` passed to `load` becomes the cache by reference. A caller that later mutates it also changes the cache. The model copies it as a value.
- Re-loading: in `o.load(s); o.load(s)` the cache already is `s`, so the second call's `forceLoad` (lines 228-230) removes default-valued keys from `s` itself. The caller's object loses those keys. In the model, the cache ends equal to `s` and the caller's snapshot is unaffected.
- Stack overflow: the recursion of `set` is bounded by the number of properties, and running out of stack is not modelled.
- `PropertyObjects.PropertyHeap.Bind`: the walk that never stops in Java, on an upstream cycle avoiding `this`, is modelled as the outcome `Diverges`. The walk reports it after |props|+1 bound steps and changes nothing.
- `PropertyObjects.PropertyHeap.Bind`: `bind(null)` is modelled as the NullPointerException the code throws at line 279. The doc comment (lines 272-273) says it acts like `unbind`; the model follows the code.
- `PropertyObjects.PropertyHeap.Set`: it requires a value of the property's generic type, since a ClassCastException cannot happen in type-checked Java. `Bind` likewise requires the two properties to have the same Java type.
- `Cascade.CascadeReachesAll`: an unchanged dependent is not revisited, so "every downstream property holds `v`" needs bound properties to agree beforehand. The lemma states that assumption.
- Battle: `Fighter.compareTo` is not part of this model. A fighter's `rank` is what the natural order compares, and the `HashMap` key is the fighter value.
- `Battles.Battle.Start`: the random, speed-based tick amounts (line 39) are an input, `rolls`, one per queue position. The speed field, the embed (lines 44-62) and `channel.sendMessage` (line 63) are left out.
- `Battles.SortByTicks`: it does not state that `Collections.sort` is stable, although the insertion it uses keeps equal-tick fighters in their order.
- The `channel` field of `Battle` and the `debug` method are left out, since they are messaging only.

## Findings

| source | as written | input that shows it | evidently intended | confidence | as-written member | corrected member |
|---|---|---|---|---|---|---|
| src/gartham/c10ver/data/PropertyObject.java:279-281 | The cycle check tests `b.propertyBinding != null` before comparing `b` with `this`, so it never compares the unbound end of the chain | A bound to B, B bound to C, then `C.bind(A)`; or `A.bind(A)` on an unbound A | Reject `this` wherever it occurs on the chain, so bindings stay acyclic | not executed | Bindings.TriangleNotRejected | Bindings.IntendedCheckKeepsAcyclic |
| src/gartham/c10ver/data/PropertyObject.java:410-412 | `enumStringProperty` decodes with `Enum.valueOf(enumType, key)`, so it reads the property's key and not the stored name | Constants COMMON and RARE, key "rarity", stored value RARE | Parse the stored string | not executed | Gateways.EnumNameRoundTripFails | Gateways.EnumNameIntendedRoundTrip |
| src/gartham/c10ver/data/PropertyObject.java:227-231 | `forceLoad` decodes `properties.get(key)` even when `toJSON()` elided the key because the value was at its default; every converter dereferences the resulting null | An int property at its default 0, made non-transient, then `load(toJSON())` | A missing key means the default | not executed | Snapshots.OwnSnapshotFailsToLoad | Snapshots.IntendedLoadRoundTrip |

The heap operations follow the code as written. The corrected definitions stand beside them, with their intended properties proved.
