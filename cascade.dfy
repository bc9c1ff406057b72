/**
 * What one call `p.set(v)` does to the heap, stated over the properties and
 * objects before (`a`, `oa`) and after (`b`, `ob`) the call, and how the
 * effects of the recursive calls on the dependents compose into the effect of
 * the whole cascade.
 */
module Cascade {
  import opened Outcomes
  import opened Json
  import opened Values
  import opened Gateways
  import opened PropertyData
  import opened Bindings
  import opened Snapshots

  // ---------------------------------------------------------------------------
  // Values
  // ---------------------------------------------------------------------------

  /** `b` differs from `a` in values only. */
  ghost predicate SameShape(a: seq<Property>, b: seq<Property>) {
    |a| == |b| && forall q | 0 <= q < |a| :: b[q] == a[q].(value := b[q].value)
  }

  ghost predicate IsChanged(a: seq<Property>, b: seq<Property>, q: nat) {
    q < |a| && q < |b| && b[q].value != a[q].value
  }

  /** Every value that moved, moved to `v`, and only from a value not identical to `v`. */
  ghost predicate MovesTo(a: seq<Property>, b: seq<Property>, v: Value) {
    |a| == |b| &&
    forall q | 0 <= q < |a| :: b[q].value == a[q].value || (b[q].value == v && !Identical(a[q].value, v))
  }

  /** `q` is reached from `p` along dependents edges through changed properties only. */
  ghost predicate ChangedPath(a: seq<Property>, b: seq<Property>, p: nat, q: nat) {
    exists s :: IsPath(a, s) && s[0] == p && s[|s| - 1] == q && forall i | 0 <= i < |s| :: IsChanged(a, b, s[i])
  }

  /** The footprint of `p.set(v)` on values: changes to `v`, spreading from `p` through changed properties. */
  ghost predicate Cascaded(a: seq<Property>, b: seq<Property>, p: nat, v: Value) {
    && SameShape(a, b)
    && MovesTo(a, b, v)
    && forall q: nat | IsChanged(a, b, q) :: ChangedPath(a, b, p, q)
  }

  /** Every dependent of `x` holds `v` itself (or the same enum constant). */
  ghost predicate SettledBelow(a: seq<Property>, b: seq<Property>, x: nat, v: Value)
    requires x < |a|
  {
    forall y | y in a[x].dependents :: y < |b| && Identical(b[y].value, v)
  }

  ghost predicate SettledExcept(a: seq<Property>, b: seq<Property>, p: nat, v: Value) {
    forall x: nat | IsChanged(a, b, x) && x != p :: SettledBelow(a, b, x, v)
  }

  /**
   * A completed `p.set(v)`: `p` holds `v`, and every property whose value
   * changed passed `v` on to all of its dependents.
   */
  ghost predicate Settled(a: seq<Property>, b: seq<Property>, p: nat, v: Value) {
    && p < |b|
    && Identical(b[p].value, v)
    && forall x: nat | IsChanged(a, b, x) :: SettledBelow(a, b, x, v)
  }

  /** A value once `v` stays `v` (up to identity). */
  lemma StaysIdentical(b: seq<Property>, c: seq<Property>, x: nat, v: Value)
    requires MovesTo(b, c, v) && x < |b| && Identical(b[x].value, v)
    ensures Identical(c[x].value, v)
  {
  }

  /** A changed property is downstream of where the cascade started. */
  lemma ChangedIsDownstream(a: seq<Property>, b: seq<Property>, p: nat, q: nat)
    requires ChangedPath(a, b, p, q)
    ensures Downstream(a, p, q)
  {
    var s :| IsPath(a, s) && s[0] == p && s[|s| - 1] == q && forall i | 0 <= i < |s| :: IsChanged(a, b, s[i]);
  }

  /** Properties whose value is not yet `v`: the measure on which `set` terminates. */
  ghost function Pending(a: seq<Property>, v: Value): set<nat> {
    set q: nat | q < |a| && !Identical(a[q].value, v)
  }

  /** Once `p` has moved to `v`, fewer properties are pending. */
  lemma PendingShrinks(a: seq<Property>, b: seq<Property>, p: nat, v: Value)
    requires MovesTo(a, b, v) && p < |a|
    requires !Identical(a[p].value, v) && Identical(b[p].value, v)
    ensures |Pending(b, v)| < |Pending(a, v)|
  {
    assert Pending(b, v) <= Pending(a, v) - {p};
    SubsetCard(Pending(b, v), Pending(a, v) - {p});
  }

  /** Nothing becomes pending during a cascade to `v`. */
  lemma PendingKeeps(a: seq<Property>, b: seq<Property>, v: Value)
    requires MovesTo(a, b, v)
    ensures |Pending(b, v)| <= |Pending(a, v)|
  {
    assert Pending(b, v) <= Pending(a, v);
    SubsetCard(Pending(b, v), Pending(a, v));
  }

  /** The effect of `p` moving to `v` on its own. */
  lemma FirstStep(a: seq<Property>, b: seq<Property>, p: nat, v: Value)
    requires p < |a| && !Identical(a[p].value, v) && b == a[p := a[p].(value := v)]
    ensures Cascaded(a, b, p, v)
    ensures forall x: nat :: IsChanged(a, b, x) <==> x == p
    ensures Notified([Change(p, a[p].value, v)], a, b, v)
    ensures SettledExcept(a, b, p, v)
  {
    assert IsPath(a, [p]);
    assert forall x: nat | IsChanged(a, b, x) :: x == p;
    assert ChangedPath(a, b, p, p) by {
      assert IsChanged(a, b, [p][0]);
    }
  }

  /**
   * `p` changed and then `p.set` called `s.set(v)` on a dependent `s`: the
   * values moved by both calls together still form a cascade from `p`.
   */
  lemma ComposeCascade(a: seq<Property>, b: seq<Property>, c: seq<Property>, p: nat, s: nat, v: Value)
    requires Cascaded(a, b, p, v) && IsChanged(a, b, p)
    requires s < |a| && s in a[p].dependents
    requires Cascaded(b, c, s, v)
    ensures Cascaded(a, c, p, v)
    ensures forall x: nat :: IsChanged(a, c, x) <==> IsChanged(a, b, x) || IsChanged(b, c, x)
  {
    assert MovesTo(a, c, v) by {
      forall q | 0 <= q < |a|
        ensures c[q].value == a[q].value || (c[q].value == v && !Identical(a[q].value, v))
      {
        if c[q].value != b[q].value {
          assert b[q].value != v;
        }
      }
    }
    assert forall x: nat | IsChanged(b, c, x) :: b[x].value == a[x].value;
    forall x: nat | IsChanged(a, c, x) ensures ChangedPath(a, c, p, x) {
      if IsChanged(a, b, x) {
        KeepsPath(a, b, c, p, x, v);
      } else {
        assert IsChanged(b, c, x);
        ExtendsPath(a, b, c, p, s, x);
      }
    }
  }

  /** A path of properties changed by the first call stays changed after the second. */
  lemma KeepsPath(a: seq<Property>, b: seq<Property>, c: seq<Property>, p: nat, x: nat, v: Value)
    requires MovesTo(a, b, v) && MovesTo(b, c, v)
    requires ChangedPath(a, b, p, x)
    ensures ChangedPath(a, c, p, x)
  {
    var t :| IsPath(a, t) && t[0] == p && t[|t| - 1] == x && forall i | 0 <= i < |t| :: IsChanged(a, b, t[i]);
    assert forall i | 0 <= i < |t| :: IsChanged(a, c, t[i]);
  }

  /** A path of properties changed by `s.set(v)` extends, through `p`, to a path from `p`. */
  lemma ExtendsPath(a: seq<Property>, b: seq<Property>, c: seq<Property>, p: nat, s: nat, x: nat)
    requires SameShape(a, b) && IsChanged(a, b, p) && s in a[p].dependents
    requires forall y: nat | IsChanged(b, c, y) :: IsChanged(a, c, y)
    requires IsChanged(a, c, p)
    requires ChangedPath(b, c, s, x)
    ensures ChangedPath(a, c, p, x)
  {
    var t :| IsPath(b, t) && t[0] == s && t[|t| - 1] == x && forall i | 0 <= i < |t| :: IsChanged(b, c, t[i]);
    var u := [p] + t;
    assert forall i | 0 <= i < |u| - 1 :: u[i + 1] == t[i];
    assert IsPath(a, u);
    forall i | 0 <= i < |u| ensures IsChanged(a, c, u[i]) {
      if i > 0 { assert u[i] == t[i - 1]; }
    }
  }

  /** The dependents settled before `s.set(v)` stay settled, and those that it settled join them. */
  lemma ComposeSettled(a: seq<Property>, b: seq<Property>, c: seq<Property>, p: nat, s: nat, v: Value)
    requires SameShape(a, b) && MovesTo(b, c, v)
    requires SettledExcept(a, b, p, v) && Settled(b, c, s, v)
    requires forall x: nat :: IsChanged(a, c, x) <==> IsChanged(a, b, x) || IsChanged(b, c, x)
    ensures SettledExcept(a, c, p, v)
  {
    forall x: nat | IsChanged(a, c, x) && x != p ensures SettledBelow(a, c, x, v) {
      if IsChanged(a, b, x) {
        forall y | y in a[x].dependents ensures y < |c| && Identical(c[y].value, v) {
          StaysIdentical(b, c, y, v);
        }
      } else {
        assert b[x].dependents == a[x].dependents;
      }
    }
  }

  // ---------------------------------------------------------------------------
  // Notifications: the `change(before, after)` calls of the Observables
  // ---------------------------------------------------------------------------

  /**
   * `log` holds one notification per changed property, no other and none
   * twice, each from its old value to `v`.
   */
  ghost predicate Notified(log: seq<Change>, a: seq<Property>, b: seq<Property>, v: Value) {
    && (forall i | 0 <= i < |log| ::
          IsChanged(a, b, log[i].property) && log[i] == Change(log[i].property, a[log[i].property].value, v))
    && (forall i, j | 0 <= i < j < |log| :: log[i].property != log[j].property)
    && (forall q: nat | IsChanged(a, b, q) :: exists i | 0 <= i < |log| :: log[i].property == q)
  }

  lemma ComposeNotified(l1: seq<Change>, l2: seq<Change>, a: seq<Property>, b: seq<Property>, c: seq<Property>, v: Value)
    requires MovesTo(a, b, v) && MovesTo(b, c, v)
    requires Notified(l1, a, b, v) && Notified(l2, b, c, v)
    ensures Notified(l1 + l2, a, c, v)
  {
    var l := l1 + l2;
    forall i | 0 <= i < |l|
      ensures IsChanged(a, c, l[i].property) && l[i] == Change(l[i].property, a[l[i].property].value, v)
    {
      if i < |l1| {
        assert l[i] == l1[i];
      } else {
        assert l[i] == l2[i - |l1|];
      }
    }
    forall i, j | 0 <= i < j < |l| ensures l[i].property != l[j].property {
      if i < |l1| && j >= |l1| {
        assert l[i] == l1[i] && l[j] == l2[j - |l1|];
      } else if i < |l1| {
        assert l[i] == l1[i] && l[j] == l1[j];
      } else {
        assert l[i] == l2[i - |l1|] && l[j] == l2[j - |l1|];
      }
    }
    forall q: nat | IsChanged(a, c, q) ensures exists i | 0 <= i < |l| :: l[i].property == q {
      if IsChanged(a, b, q) {
        var i :| 0 <= i < |l1| && l1[i].property == q;
        assert l[i] == l1[i];
      } else {
        assert IsChanged(b, c, q);
        var i :| 0 <= i < |l2| && l2[i].property == q;
        assert l[|l1| + i] == l2[i];
      }
    }
  }

  // ---------------------------------------------------------------------------
  // Caches
  // ---------------------------------------------------------------------------

  /**
   * The entry at key `k` of object `o`'s cache was last written by the set of
   * a property `x` downstream of `p`, under `x`'s own owner and key, as `x`'s
   * entry for `v`, while `x` now holds `v`.
   */
  ghost predicate WrittenBy(ob: seq<PropertyObject>, a: seq<Property>, b: seq<Property>, p: nat, v: Value, o: nat, k: string)
    requires o < |ob|
  {
    exists x: nat ::
      && x < |a| && x < |b| && Downstream(a, p, x) && a[x].owner == o && a[x].key == k
      && Identical(b[x].value, v) && Entry(a[x], v) == Success(Lookup(ob[o].cache, k))
  }

  /**
   * What `p.set(v)` may do to the objects: no cache is enabled or disabled, no
   * property map changes, and each cache entry is untouched or was written by
   * the cascade.
   */
  ghost predicate CacheFrame(oa: seq<PropertyObject>, ob: seq<PropertyObject>, a: seq<Property>, b: seq<Property>, p: nat, v: Value) {
    |ob| == |oa| &&
    forall o | 0 <= o < |oa| ::
      && ob[o].propertyMap == oa[o].propertyMap
      && ob[o].cache.Some? == oa[o].cache.Some?
      && forall k :: Lookup(ob[o].cache, k) == Lookup(oa[o].cache, k) || WrittenBy(ob, a, b, p, v, o, k)
  }

  /** No other property shares `x`'s owner and key, so no other write lands on its cache entry. */
  ghost predicate UniqueSlot(a: seq<Property>, x: nat)
    requires x < |a|
  {
    forall y | 0 <= y < |a| && a[y].owner == a[x].owner && a[y].key == a[x].key :: y == x
  }

  /** The enabled cache of `x`'s owner holds `x`'s entry for `v` (nothing when `v` is the default). */
  ghost predicate Wrote(ob: seq<PropertyObject>, a: seq<Property>, x: nat, v: Value)
    requires x < |a|
  {
    && a[x].owner < |ob|
    && (ob[a[x].owner].cache.Some? ==>
          Entry(a[x], v).Success? && Lookup(ob[a[x].owner].cache, a[x].key) == Entry(a[x], v).value)
  }

  /** `p` and every changed property with a slot of its own left its entry for `v` in its owner's cache. */
  ghost predicate WroteAll(ob: seq<PropertyObject>, a: seq<Property>, b: seq<Property>, p: nat, v: Value)
    requires p < |a|
  {
    && (UniqueSlot(a, p) ==> Wrote(ob, a, p, v))
    && forall x: nat | IsChanged(a, b, x) && UniqueSlot(a, x) :: Wrote(ob, a, x, v)
  }

  /**
   * Every dependent of `x` with a slot of its own left its entry for `v` in its
   * owner's cache: `x.set(v)` calls `set(v)` on each of them, and each such call
   * writes its entry first, even when the dependent already holds `v`.
   */
  ghost predicate WroteBelow(ob: seq<PropertyObject>, a: seq<Property>, x: nat, v: Value)
    requires x < |a|
  {
    forall y | y in a[x].dependents && y < |a| && UniqueSlot(a, y) :: Wrote(ob, a, y, v)
  }

  /** Every changed property's dependents left their entries for `v`. */
  ghost predicate WroteBelowAll(ob: seq<PropertyObject>, a: seq<Property>, b: seq<Property>, v: Value) {
    forall x: nat | IsChanged(a, b, x) :: WroteBelow(ob, a, x, v)
  }

  ghost predicate WroteBelowExcept(ob: seq<PropertyObject>, a: seq<Property>, b: seq<Property>, p: nat, v: Value) {
    forall x: nat | IsChanged(a, b, x) && x != p :: WroteBelow(ob, a, x, v)
  }

  /** The dependents in `done` with a slot of their own left their entry for `v`. */
  ghost predicate WroteDone(ob: seq<PropertyObject>, a: seq<Property>, done: set<nat>, v: Value) {
    forall y | y in done && y < |a| && UniqueSlot(a, y) :: Wrote(ob, a, y, v)
  }

  /** The write `p.set(v)` does before anything else, seen from after the value moved. */
  lemma FirstWrite(oa: seq<PropertyObject>, ob: seq<PropertyObject>, a: seq<Property>, b: seq<Property>, p: nat, v: Value)
    requires p < |a| && a[p].owner < |oa| && |b| == |a| && Identical(b[p].value, v)
    requires oa[a[p].owner].cache.Some? ==> Entry(a[p], v).Success?
    requires ob == if oa[a[p].owner].cache.Some?
                   then oa[a[p].owner := oa[a[p].owner].(cache := Write(oa[a[p].owner].cache, a[p].key, Entry(a[p], v).value))]
                   else oa
    ensures CacheFrame(oa, ob, a, b, p, v)
    ensures Wrote(ob, a, p, v)
  {
    var o := a[p].owner;
    DownstreamSelf(a, p);
    forall o' | 0 <= o' < |oa|
      ensures forall k :: Lookup(ob[o'].cache, k) == Lookup(oa[o'].cache, k) || WrittenBy(ob, a, b, p, v, o', k)
    {
      forall k ensures Lookup(ob[o'].cache, k) == Lookup(oa[o'].cache, k) || WrittenBy(ob, a, b, p, v, o', k) {
        if o' == o && k == a[p].key && oa[o].cache.Some? {
          assert Entry(a[p], v) == Success(Lookup(ob[o].cache, k));
        }
      }
    }
  }

  lemma ComposeCache(oa: seq<PropertyObject>, ob: seq<PropertyObject>, oc: seq<PropertyObject>,
                     a: seq<Property>, b: seq<Property>, c: seq<Property>, p: nat, s: nat, v: Value)
    requires CacheFrame(oa, ob, a, b, p, v) && CacheFrame(ob, oc, b, c, s, v)
    requires SameShape(a, b) && MovesTo(b, c, v)
    requires p < |a| && s in a[p].dependents
    ensures CacheFrame(oa, oc, a, c, p, v)
  {
    forall o | 0 <= o < |oa|
      ensures forall k :: Lookup(oc[o].cache, k) == Lookup(oa[o].cache, k) || WrittenBy(oc, a, c, p, v, o, k)
    {
      forall k ensures Lookup(oc[o].cache, k) == Lookup(oa[o].cache, k) || WrittenBy(oc, a, c, p, v, o, k) {
        if Lookup(oc[o].cache, k) == Lookup(ob[o].cache, k) {
          if Lookup(ob[o].cache, k) != Lookup(oa[o].cache, k) {
            var x: nat :| && x < |a| && x < |b| && Downstream(a, p, x) && a[x].owner == o && a[x].key == k
                          && Identical(b[x].value, v) && Entry(a[x], v) == Success(Lookup(ob[o].cache, k));
            StaysIdentical(b, c, x, v);
          }
        } else {
          var x: nat :| && x < |b| && x < |c| && Downstream(b, s, x) && b[x].owner == o && b[x].key == k
                        && Identical(c[x].value, v) && Entry(b[x], v) == Success(Lookup(oc[o].cache, k));
          assert SameEdges(b, a);
          DownstreamSameEdges(b, a, s, x);
          DownstreamStep(a, p, s, x);
          assert Entry(b[x], v) == Entry(a[x], v);
        }
      }
    }
  }

  /** A write to a slot of its own survives a later cascade from `s`. */
  lemma KeepsWrite(ob: seq<PropertyObject>, oc: seq<PropertyObject>,
                   a: seq<Property>, b: seq<Property>, c: seq<Property>, s: nat, v: Value, x: nat)
    requires x < |a| && SameShape(a, b)
    requires UniqueSlot(a, x) && Wrote(ob, a, x, v)
    requires CacheFrame(ob, oc, b, c, s, v)
    ensures Wrote(oc, a, x, v)
  {
    var o, k := a[x].owner, a[x].key;
    if oc[o].cache.Some? && WrittenBy(oc, b, c, s, v, o, k) {
      var y: nat :| && y < |b| && y < |c| && Downstream(b, s, y) && b[y].owner == o && b[y].key == k
                    && Identical(c[y].value, v) && Entry(b[y], v) == Success(Lookup(oc[o].cache, k));
      assert a[y].owner == o && a[y].key == k;
      assert y == x;
      assert Entry(b[x], v) == Entry(a[x], v);
    }
  }

  lemma ComposeWroteAll(ob: seq<PropertyObject>, oc: seq<PropertyObject>,
                        a: seq<Property>, b: seq<Property>, c: seq<Property>, p: nat, s: nat, v: Value)
    requires p < |a| && s < |a|
    requires SameShape(a, b) && MovesTo(a, b, v) && MovesTo(b, c, v)
    requires WroteAll(ob, a, b, p, v) && WroteAll(oc, b, c, s, v)
    requires CacheFrame(ob, oc, b, c, s, v)
    requires forall x: nat :: IsChanged(a, c, x) <==> IsChanged(a, b, x) || IsChanged(b, c, x)
    ensures WroteAll(oc, a, c, p, v)
  {
    forall x: nat | x < |a| && UniqueSlot(a, x) && Wrote(ob, a, x, v) ensures Wrote(oc, a, x, v) {
      KeepsWrite(ob, oc, a, b, c, s, v, x);
    }
    forall x: nat | IsChanged(a, c, x) && UniqueSlot(a, x) ensures Wrote(oc, a, x, v) {
      if !IsChanged(a, b, x) {
        assert IsChanged(b, c, x);
        assert UniqueSlot(b, x);
        assert Wrote(oc, b, x, v);
        assert Entry(b[x], v) == Entry(a[x], v);
      }
    }
  }

  /** `x` and `y` have the same owner, key and converter in `a` and `b`, so they write the same entries. */
  lemma SameSlotsWrote(ob: seq<PropertyObject>, a: seq<Property>, b: seq<Property>, y: nat, v: Value)
    requires SameShape(a, b) && y < |a|
    ensures UniqueSlot(a, y) == UniqueSlot(b, y)
    ensures Wrote(ob, a, y, v) == Wrote(ob, b, y, v)
  {
  }

  /**
   * After the call on dependent `s`, the dependents written so far keep their
   * entries, `s` joins them, and the properties `s.set(v)` changed wrote their
   * dependents' entries.
   */
  lemma ComposeWroteBelow(ob: seq<PropertyObject>, oc: seq<PropertyObject>,
                          a: seq<Property>, b: seq<Property>, c: seq<Property>,
                          l2: seq<Change>, p: nat, s: nat, v: Value, done: set<nat>)
    requires p < |a| && s < |a| && Cascaded(a, b, p, v)
    requires WroteSoFar(ob, a, b, p, v, done)
    requires SetPost(ob, oc, b, c, l2, s, v, Pass)
    ensures WroteSoFar(oc, a, c, p, v, done + {s})
  {
    assert forall x: nat | IsChanged(a, b, x) :: IsChanged(a, c, x);
    forall y | y in done + {s} && y < |a| && UniqueSlot(a, y) ensures Wrote(oc, a, y, v) {
      SameSlotsWrote(oc, a, b, y, v);
      if y != s {
        KeepsWrite(ob, oc, a, b, c, s, v, y);
      }
    }
    forall x: nat | IsChanged(a, c, x) && x != p ensures WroteBelow(oc, a, x, v) {
      forall y | y in a[x].dependents && y < |a| && UniqueSlot(a, y) ensures Wrote(oc, a, y, v) {
        SameSlotsWrote(oc, a, b, y, v);
        if IsChanged(a, b, x) {
          KeepsWrite(ob, oc, a, b, c, s, v, y);
        } else {
          assert IsChanged(b, c, x) && WroteBelow(oc, b, x, v);
          assert b[x].dependents == a[x].dependents;
        }
      }
    }
  }

  // ---------------------------------------------------------------------------
  // The loop of `set` over the dependents
  // ---------------------------------------------------------------------------

  /**
   * `p.set(v)` partway through its loop: `p` moved to `v` and the calls on the
   * dependents in `done` completed. `l` is what was notified since the call began.
   */
  ghost predicate Midway(oa: seq<PropertyObject>, ob: seq<PropertyObject>, a: seq<Property>, b: seq<Property>,
                         l: seq<Change>, p: nat, v: Value, done: set<nat>)
  {
    && p < |a| && |b| == |a|
    && Cascaded(a, b, p, v) && IsChanged(a, b, p)
    && SettledExcept(a, b, p, v)
    && (forall y | y in done :: y < |b| && Identical(b[y].value, v))
    && CacheFrame(oa, ob, a, b, p, v)
    && WroteAll(ob, a, b, p, v)
    && Notified(l, a, b, v)
  }

  /**
   * The entries of dependents written so far in `p.set(v)`: those below every
   * changed property but `p`, and those of `p`'s dependents in `done`.
   */
  ghost predicate WroteSoFar(ob: seq<PropertyObject>, a: seq<Property>, b: seq<Property>, p: nat, v: Value, done: set<nat>) {
    WroteBelowExcept(ob, a, b, p, v) && WroteDone(ob, a, done, v)
  }

  /** The loop starts once `p` has moved to `v`, written its own entry and appended its notification to `l0`. */
  lemma MidwayStart(oa: seq<PropertyObject>, ob: seq<PropertyObject>, a: seq<Property>, b: seq<Property>,
                    l0: seq<Change>, l: seq<Change>, p: nat, v: Value)
    requires p < |a| && !Identical(a[p].value, v) && b == a[p := a[p].(value := v)]
    requires CacheFrame(oa, ob, a, b, p, v) && Wrote(ob, a, p, v)
    requires l == l0 + [Change(p, a[p].value, v)]
    ensures Extends(l, l0) && Midway(oa, ob, a, b, l[|l0|..], p, v, {})
    ensures WroteSoFar(ob, a, b, p, v, {})
    ensures |Pending(b, v)| < |Pending(a, v)|
  {
    FirstStep(a, b, p, v);
    assert l[|l0|..] == [Change(p, a[p].value, v)];
    PendingShrinks(a, b, p, v);
  }

  /** Whatever the call on dependent `s` did, values, caches and notifications still form a cascade from `p`. */
  lemma MidwayFrame(oa: seq<PropertyObject>, ob: seq<PropertyObject>, oc: seq<PropertyObject>,
                    a: seq<Property>, b: seq<Property>, c: seq<Property>,
                    l1: seq<Change>, l2: seq<Change>, p: nat, s: nat, v: Value, done: set<nat>)
    requires Midway(oa, ob, a, b, l1, p, v, done) && s < |a| && s in a[p].dependents
    requires Cascaded(b, c, s, v) && CacheFrame(ob, oc, b, c, s, v) && Notified(l2, b, c, v)
    ensures Cascaded(a, c, p, v) && CacheFrame(oa, oc, a, c, p, v) && Notified(l1 + l2, a, c, v)
    ensures forall x: nat :: IsChanged(a, c, x) <==> IsChanged(a, b, x) || IsChanged(b, c, x)
  {
    ComposeCascade(a, b, c, p, s, v);
    ComposeCache(oa, ob, oc, a, b, c, p, s, v);
    ComposeNotified(l1, l2, a, b, c, v);
  }

  /** A completed call on dependent `s` adds `s` to the settled dependents. */
  lemma MidwayStep(oa: seq<PropertyObject>, ob: seq<PropertyObject>, oc: seq<PropertyObject>,
                   a: seq<Property>, b: seq<Property>, c: seq<Property>,
                   l1: seq<Change>, l2: seq<Change>, p: nat, s: nat, v: Value, done: set<nat>)
    requires Midway(oa, ob, a, b, l1, p, v, done) && s < |a| && s in a[p].dependents
    requires SetPost(ob, oc, b, c, l2, s, v, Pass)
    ensures Midway(oa, oc, a, c, l1 + l2, p, v, done + {s})
  {
    MidwayFrame(oa, ob, oc, a, b, c, l1, l2, p, s, v, done);
    ComposeSettled(a, b, c, p, s, v);
    ComposeWroteAll(ob, oc, a, b, c, p, s, v);
    ComposeDone(b, c, s, v, done);
  }

  /** The dependents already done keep `v`, and `s` now holds it too. */
  lemma ComposeDone(b: seq<Property>, c: seq<Property>, s: nat, v: Value, done: set<nat>)
    requires MovesTo(b, c, v) && s < |c| && Identical(c[s].value, v)
    requires forall y | y in done :: y < |b| && Identical(b[y].value, v)
    ensures forall y | y in done + {s} :: y < |c| && Identical(c[y].value, v)
  {
    forall y | y in done + {s} ensures y < |c| && Identical(c[y].value, v) {
      if y != s {
        StaysIdentical(b, c, y, v);
      }
    }
  }

  /**
   * Everything `p.set(v)` promises, from values `a` and objects `oa` before the
   * call to `b` and `ob` after it, with `l` the notifications it made and `r`
   * how it ended: a cascade of changes to `v`, cache writes by the cascade
   * only, one notification per change; a throw only for a null reaching a
   * converter other than the string one; a completed call settles and leaves
   * every entry written, among them those of dependents that already held `v`;
   * a call with `v` already in place changes nothing.
   */
  ghost predicate SetPost(oa: seq<PropertyObject>, ob: seq<PropertyObject>, a: seq<Property>, b: seq<Property>,
                          l: seq<Change>, p: nat, v: Value, r: Outcome)
  {
    && p < |a|
    && Cascaded(a, b, p, v)
    && CacheFrame(oa, ob, a, b, p, v)
    && Notified(l, a, b, v)
    && (r.Pass? || r.Fail?)
    && (r.Fail? ==> v.Null? && r.error == NullPointer && !a[p].converter.StringGateway?)
    && (r.Pass? ==> Settled(a, b, p, v) && WroteAll(ob, a, b, p, v) && WroteBelowAll(ob, a, b, v))
    && (Identical(a[p].value, v) ==> b == a && l == [])
  }

  /** The converter refused `v` before anything changed. */
  lemma SetRefused(oa: seq<PropertyObject>, ob: seq<PropertyObject>, a: seq<Property>, b: seq<Property>,
                   l0: seq<Change>, l: seq<Change>, p: nat, v: Value, e: Exception)
    requires ob == oa && b == a && l == l0
    requires p < |a| && a[p].owner < |oa| && oa[a[p].owner].cache.Some?
    requires TypedFor(a[p].converter, v) && Entry(a[p], v) == Failure(e)
    ensures Extends(l, l0) && SetPost(oa, ob, a, b, l[|l0|..], p, v, Fail(e))
  {
    assert l[|l0|..] == [];
  }

  /** `v` was in place already: only `p`'s own entry was written. */
  lemma SetUnchanged(oa: seq<PropertyObject>, ob: seq<PropertyObject>, a: seq<Property>, b: seq<Property>,
                     l0: seq<Change>, l: seq<Change>, p: nat, v: Value)
    requires b == a && l == l0
    requires p < |a| && a[p].owner < |oa| && Identical(a[p].value, v)
    requires oa[a[p].owner].cache.Some? ==> Entry(a[p], v).Success?
    requires ob == if oa[a[p].owner].cache.Some?
                   then oa[a[p].owner := oa[a[p].owner].(cache := Write(oa[a[p].owner].cache, a[p].key, Entry(a[p], v).value))]
                   else oa
    ensures Extends(l, l0) && SetPost(oa, ob, a, b, l[|l0|..], p, v, Pass)
  {
    FirstWrite(oa, ob, a, a, p, v);
    assert l[|l0|..] == [];
  }

  /** A throw from the call on dependent `s` ends `p.set(v)` with the same exception. */
  lemma SetStopped(oa: seq<PropertyObject>, ob: seq<PropertyObject>, oc: seq<PropertyObject>,
                   a: seq<Property>, b: seq<Property>, c: seq<Property>,
                   l1: seq<Change>, l2: seq<Change>, p: nat, s: nat, v: Value, done: set<nat>, r: Outcome)
    requires Midway(oa, ob, a, b, l1, p, v, done) && s < |a| && s in a[p].dependents
    requires SetPost(ob, oc, b, c, l2, s, v, r) && r.Fail?
    requires TypeOf(b[s].converter) == TypeOf(b[p].converter)
    ensures SetPost(oa, oc, a, c, l1 + l2, p, v, r)
  {
    MidwayFrame(oa, ob, oc, a, b, c, l1, l2, p, s, v, done);
    assert b[p].converter == a[p].converter;
  }

  /** When every dependent is done, `p.set(v)` has completed. */
  lemma SetDone(oa: seq<PropertyObject>, ob: seq<PropertyObject>, a: seq<Property>, b: seq<Property>,
                l: seq<Change>, p: nat, v: Value, done: set<nat>)
    requires p < |a| && Midway(oa, ob, a, b, l, p, v, done) && WroteSoFar(ob, a, b, p, v, done)
    requires forall y | y in a[p].dependents :: y in done
    ensures SetPost(oa, ob, a, b, l, p, v, Pass)
  {
  }

  /**
   * The `set(v)` that `bind` makes when `p` does not equal `b` leaves, when it
   * completes, `p` holding `v` and `b` still holding `v`, with `p` among `b`'s
   * dependents.
   */
  lemma BindSettles(oa: seq<PropertyObject>, ob: seq<PropertyObject>, a: seq<Property>, b: seq<Property>,
                    l: seq<Change>, p: nat, x: nat, v: Value)
    requires p < |a| && x < |a| && a[x].value == v && p in a[x].dependents
    requires SetPost(oa, ob, a, b, l, p, v, Pass)
    ensures |b| == |a| && b[x].value == v && p in b[x].dependents && Equal(b[x].value, b[p].value)
  {
  }

  /** `z` continues `y`. */
  ghost predicate Extends<T>(z: seq<T>, y: seq<T>) {
    |y| <= |z| && z[..|y|] == y
  }

  /** What was appended after position `n` of `y`, then after `y`. */
  lemma SuffixSplit<T>(x: seq<T>, y: seq<T>, z: seq<T>)
    requires Extends(y, x) && Extends(z, y)
    ensures Extends(z, x)
    ensures z[|x|..] == y[|x|..] + z[|y|..]
  {
    assert z[..|x|] == z[..|y|][..|x|];
  }

  // ---------------------------------------------------------------------------
  // What a completed cascade guarantees
  // ---------------------------------------------------------------------------

  /** `y` is among the dependents of `x`. */
  ghost predicate Edge(a: seq<Property>, x: nat, y: nat) {
    x < |a| && y in a[x].dependents
  }

  /** Bound properties agree: each dependent holds a value equal to its upstream's. */
  ghost predicate Agree(a: seq<Property>) {
    forall x: nat, y: nat | Edge(a, x, y) :: y < |a| && Equal(a[y].value, a[x].value)
  }

  /** Every dependents edge is matched by the dependent's upstream reference (no stale edge). */
  ghost predicate Linked(a: seq<Property>) {
    forall x: nat, y: nat | Edge(a, x, y) :: y < |a| && a[y].upstream == Some(x)
  }

  lemma {:induction false} ReachesAlong(a: seq<Property>, b: seq<Property>, p: nat, v: Value, t: seq<nat>)
    requires Cascaded(a, b, p, v) && Settled(a, b, p, v) && Agree(a)
    requires IsPath(a, t) && t[0] == p
    ensures Equal(b[t[|t| - 1]].value, v)
    decreases |t|
  {
    if |t| == 1 {
      IdenticalIsEqual(b[p].value, v);
    } else {
      var t' := t[..|t| - 1];
      assert IsPath(a, t');
      ReachesAlong(a, b, p, v, t');
      var x, y := t[|t| - 2], t[|t| - 1];
      assert Edge(a, x, y);
      if IsChanged(a, b, x) {
        IdenticalIsEqual(b[y].value, v);
      } else {
        assert Equal(a[y].value, a[x].value);
      }
    }
  }

  /**
   * When bound properties agreed before `p.set(v)` completed, every property
   * downstream of `p` holds a value equal to `v` after it.
   */
  lemma CascadeReachesAll(a: seq<Property>, b: seq<Property>, p: nat, v: Value)
    requires Cascaded(a, b, p, v) && Settled(a, b, p, v) && Agree(a)
    ensures forall q: nat | q < |a| && Downstream(a, p, q) :: Equal(b[q].value, v)
  {
    forall q: nat | q < |a| && Downstream(a, p, q) ensures Equal(b[q].value, v) {
      var t :| IsPath(a, t) && t[0] == p && t[|t| - 1] == q;
      ReachesAlong(a, b, p, v, t);
    }
  }

  /**
   * Setting an unbound property keeps bound properties in agreement, provided
   * every dependents edge is matched by an upstream reference.
   */
  lemma SetKeepsAgreement(a: seq<Property>, b: seq<Property>, p: nat, v: Value)
    requires Cascaded(a, b, p, v) && Settled(a, b, p, v)
    requires Agree(a) && Linked(a) && a[p].upstream.None?
    ensures Agree(b)
  {
    forall x: nat, y: nat | Edge(b, x, y) ensures y < |b| && Equal(b[y].value, b[x].value) {
      assert b[x] == a[x].(value := b[x].value);
      assert Edge(a, x, y);
      if IsChanged(a, b, x) {
        assert b[x].value == v;
        IdenticalIsEqual(b[y].value, v);
      } else {
        ChangedThroughUpstream(a, b, p, v, x, y);
        assert Equal(a[y].value, a[x].value);
      }
    }
  }

  /** With no stale edge, a changed dependent was reached through its own upstream. */
  lemma ChangedThroughUpstream(a: seq<Property>, b: seq<Property>, p: nat, v: Value, x: nat, y: nat)
    requires Cascaded(a, b, p, v) && Linked(a) && p < |a| && a[p].upstream.None?
    requires Edge(a, x, y)
    ensures IsChanged(a, b, y) ==> IsChanged(a, b, x)
  {
    if IsChanged(a, b, y) {
      var t :| IsPath(a, t) && t[0] == p && t[|t| - 1] == y && forall i | 0 <= i < |t| :: IsChanged(a, b, t[i]);
      assert y != p;
      var z := t[|t| - 2];
      assert Edge(a, z, y);
    }
  }

  /** Object `o`'s cache, when enabled, is what `toJSON()` would build now. */
  ghost predicate Mirrors(oa: seq<PropertyObject>, a: seq<Property>, o: nat)
    requires o < |oa| && Registered(a, oa[o].propertyMap, o)
  {
    oa[o].cache.Some? ==>
      SnapshotOf(a, oa[o].propertyMap).Success? && oa[o].cache.value == SnapshotOf(a, oa[o].propertyMap).value
  }

  /** Every property of object `o` that a cascade from `p` can reach is registered, saved and alone in its slot. */
  ghost predicate VisitsOnlySaved(oa: seq<PropertyObject>, a: seq<Property>, p: nat, o: nat)
    requires o < |oa|
  {
    forall q: nat | q < |a| && Downstream(a, p, q) && a[q].owner == o ::
      && a[q].key in oa[o].propertyMap && oa[o].propertyMap[a[q].key] == q
      && !a[q].isTransient && UniqueSlot(a, q)
  }

  /**
   * The incremental cache update of `set` keeps a cache that mirrored the
   * object's snapshot mirroring it, when every property the cascade visits in
   * that object is registered, non-transient and alone in its slot.
   */
  lemma IncrementalMirror(oa: seq<PropertyObject>, ob: seq<PropertyObject>, a: seq<Property>, b: seq<Property>,
                          p: nat, v: Value, o: nat)
    requires o < |oa| && Registered(a, oa[o].propertyMap, o) && Mirrors(oa, a, o)
    requires Cascaded(a, b, p, v) && Settled(a, b, p, v)
    requires CacheFrame(oa, ob, a, b, p, v) && WroteAll(ob, a, b, p, v)
    requires VisitsOnlySaved(oa, a, p, o)
    ensures Registered(b, ob[o].propertyMap, o)
    ensures Mirrors(ob, b, o)
  {
    var pm := oa[o].propertyMap;
    assert ob[o].propertyMap == pm;
    assert Registered(b, pm, o);
    if oa[o].cache.Some? {
      forall k | Persistent(b, pm, k) ensures PropertyJson(b[pm[k]]) == Success(Lookup(ob[o].cache, k)) {
        MirrorAt(oa, ob, a, b, p, v, o, k);
      }
      assert SnapshotOf(b, pm).Success?;
      forall k ensures Get(ob[o].cache.value, k) == Get(SnapshotOf(b, pm).value, k) {
        SnapshotGet(b, pm, k);
        if !Persistent(b, pm, k) {
          NotWrittenOutside(oa, ob, a, b, p, v, o, k);
        }
      }
      GetExtensional(ob[o].cache.value, SnapshotOf(b, pm).value);
    }
  }

  /** The cache entry of a saved key equals the property's JSON form after the cascade. */
  lemma MirrorAt(oa: seq<PropertyObject>, ob: seq<PropertyObject>, a: seq<Property>, b: seq<Property>,
                 p: nat, v: Value, o: nat, k: string)
    requires o < |oa| && Registered(a, oa[o].propertyMap, o) && Mirrors(oa, a, o) && oa[o].cache.Some?
    requires Cascaded(a, b, p, v) && Settled(a, b, p, v)
    requires CacheFrame(oa, ob, a, b, p, v) && WroteAll(ob, a, b, p, v)
    requires VisitsOnlySaved(oa, a, p, o)
    requires Persistent(b, oa[o].propertyMap, k)
    ensures PropertyJson(b[oa[o].propertyMap[k]]) == Success(Lookup(ob[o].cache, k))
  {
    var pm := oa[o].propertyMap;
    var q := pm[k];
    assert Persistent(a, pm, k);
    SnapshotGet(a, pm, k);
    if IsChanged(a, b, q) {
      ChangedIsDownstream(a, b, p, q);
      assert Wrote(ob, a, q, v);
      assert b[q].value == v;
      assert Entry(b[q], v) == Entry(a[q], v);
    } else {
      assert b[q] == a[q];
      if Lookup(ob[o].cache, k) != Lookup(oa[o].cache, k) {
        var x: nat :| && x < |a| && x < |b| && Downstream(a, p, x) && a[x].owner == o && a[x].key == k
                      && Identical(b[x].value, v) && Entry(a[x], v) == Success(Lookup(ob[o].cache, k));
        assert x == q;
        EntryOfIdentical(a[q], v, b[q].value);
      }
    }
  }

  /** Keys that are not saved stay out of the cache. */
  lemma NotWrittenOutside(oa: seq<PropertyObject>, ob: seq<PropertyObject>, a: seq<Property>, b: seq<Property>,
                          p: nat, v: Value, o: nat, k: string)
    requires o < |oa| && Registered(a, oa[o].propertyMap, o) && Mirrors(oa, a, o) && oa[o].cache.Some?
    requires SameShape(a, b) && CacheFrame(oa, ob, a, b, p, v)
    requires VisitsOnlySaved(oa, a, p, o)
    requires !Persistent(b, oa[o].propertyMap, k)
    ensures Lookup(ob[o].cache, k) == None
  {
    assert !Persistent(a, oa[o].propertyMap, k);
    SnapshotGet(a, oa[o].propertyMap, k);
    forall x: nat | x < |a| && Downstream(a, p, x) && a[x].owner == o ensures a[x].key != k {
      assert Persistent(a, oa[o].propertyMap, a[x].key);
    }
    assert !WrittenBy(ob, a, b, p, v, o, k);
  }
}
