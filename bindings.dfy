/**
 * The binding graph: each property's upstream reference (`propertyBinding`)
 * and its set of dependents (`propertyBindings`), over a sequence of
 * properties indexed by id.
 */
module Bindings {
  import opened Outcomes
  import opened PropertyData

  /** Every id stored in an upstream or dependents field names a property. */
  predicate GraphIds(a: seq<Property>) {
    forall q | 0 <= q < |a| ::
      (a[q].upstream.Some? ==> a[q].upstream.value < |a|) &&
      (forall r | r in a[q].dependents :: r < |a|)
  }

  // ---------------------------------------------------------------------------
  // Downstream: paths along dependents edges (the direction `set` cascades)
  // ---------------------------------------------------------------------------

  /** `s` follows dependents edges: each element is a dependent of the one before. */
  ghost predicate IsPath(a: seq<Property>, s: seq<nat>) {
    && |s| > 0
    && (forall i | 0 <= i < |s| :: s[i] < |a|)
    && (forall i | 0 <= i < |s| - 1 :: s[i + 1] in a[s[i]].dependents)
  }

  /** `q` is reachable from `p` along dependents edges (`p` itself included). */
  ghost predicate Downstream(a: seq<Property>, p: nat, q: nat) {
    exists s :: IsPath(a, s) && s[0] == p && s[|s| - 1] == q
  }

  lemma DownstreamSelf(a: seq<Property>, p: nat)
    requires p < |a|
    ensures Downstream(a, p, p)
  {
    assert IsPath(a, [p]);
  }

  /** A path from a dependent of `p` extends to a path from `p`. */
  lemma DownstreamStep(a: seq<Property>, p: nat, r: nat, q: nat)
    requires p < |a| && r in a[p].dependents && Downstream(a, r, q)
    ensures Downstream(a, p, q)
  {
    var s :| IsPath(a, s) && s[0] == r && s[|s| - 1] == q;
    var t := [p] + s;
    assert forall i | 0 <= i < |t| - 1 :: t[i + 1] == s[i];
    assert IsPath(a, t);
  }

  /** Two sequences of properties with the same dependents sets. */
  ghost predicate SameEdges(a: seq<Property>, b: seq<Property>) {
    |a| == |b| && forall q | 0 <= q < |a| :: a[q].dependents == b[q].dependents
  }

  lemma DownstreamSameEdges(a: seq<Property>, b: seq<Property>, p: nat, q: nat)
    requires SameEdges(a, b) && Downstream(a, p, q)
    ensures Downstream(b, p, q)
  {
    var s :| IsPath(a, s) && s[0] == p && s[|s| - 1] == q;
    assert IsPath(b, s);
  }

  // ---------------------------------------------------------------------------
  // Upstream chains: what the cycle check in `bind` walks
  // ---------------------------------------------------------------------------

  predicate Bound(a: seq<Property>, q: nat)
    requires q < |a|
  {
    a[q].upstream.Some?
  }

  /** One step up the chain; an unbound property stays where it is. */
  ghost function Up(a: seq<Property>, q: nat): (r: nat)
    requires GraphIds(a) && q < |a|
    ensures r < |a|
  {
    if a[q].upstream.Some? then a[q].upstream.value else q
  }

  /** The `k`-th element of the upstream chain that starts at `b`. */
  ghost function Chain(a: seq<Property>, b: nat, k: nat): (c: nat)
    requires GraphIds(a) && b < |a|
    ensures c < |a|
  {
    if k == 0 then b else Up(a, Chain(a, b, k - 1))
  }

  /**
   * The check in `bind` throws: `self` (the property being bound) occurs on the chain from `b` at a
   * position k, and every element up to k is bound (the loop condition
   * `b.propertyBinding != null` is tested before the comparison).
   */
  ghost predicate WalkRejects(a: seq<Property>, self: nat, b: nat)
    requires GraphIds(a) && b < |a|
  {
    exists k: nat :: Chain(a, b, k) == self && forall j: nat | j <= k :: Bound(a, Chain(a, b, j))
  }

  /** The check in `bind` never ends: the chain is bound forever and never meets `self`. */
  ghost predicate WalkHangs(a: seq<Property>, self: nat, b: nat)
    requires GraphIds(a) && b < |a|
  {
    forall k: nat :: Bound(a, Chain(a, b, k)) && Chain(a, b, k) != self
  }

  lemma {:induction false} ChainAdd(a: seq<Property>, b: nat, x: nat, y: nat)
    requires GraphIds(a) && b < |a|
    ensures Chain(a, b, x + y) == Chain(a, Chain(a, b, x), y)
    decreases y
  {
    if y > 0 {
      ChainAdd(a, b, x, y - 1);
      assert Chain(a, b, x + y) == Up(a, Chain(a, b, x + y - 1));
    }
  }

  /** Once the chain revisits an element it repeats: every later element already occurred before `j`. */
  lemma {:induction false} ChainRecurs(a: seq<Property>, b: nat, i: nat, j: nat, k: nat)
    requires GraphIds(a) && b < |a|
    requires i < j && Chain(a, b, i) == Chain(a, b, j)
    ensures exists m: nat :: m < j && Chain(a, b, k) == Chain(a, b, m)
    decreases k
  {
    if k >= j {
      var d := j - i;
      ChainAdd(a, b, j, k - j);
      ChainAdd(a, b, i, k - j);
      assert Chain(a, b, k) == Chain(a, b, k - d);
      ChainRecurs(a, b, i, j, k - d);
    } else {
      assert Chain(a, b, k) == Chain(a, b, k);
    }
  }

  /** The numbers below `n`. */
  ghost function Below(n: nat): (r: set<nat>)
    ensures forall x: nat :: x in r <==> x < n
    ensures |r| == n
  {
    if n == 0 then {} else Below(n - 1) + {n - 1}
  }

  lemma SubsetCard<T>(x: set<T>, y: set<T>)
    requires x <= y
    ensures |x| <= |y|
  {
    assert y == x + (y - x);
  }

  lemma {:induction false} DistinctCard(s: seq<nat>)
    requires forall i, j | 0 <= i < j < |s| :: s[i] != s[j]
    ensures |set i | 0 <= i < |s| :: s[i]| == |s|
  {
    if |s| > 0 {
      var s' := s[..|s| - 1];
      DistinctCard(s');
      assert (set i | 0 <= i < |s| :: s[i]) == (set i | 0 <= i < |s'| :: s'[i]) + {s[|s| - 1]};
    }
  }

  /** More than `n` numbers below `n` contain a repetition. */
  lemma Pigeonhole(s: seq<nat>, n: nat)
    requires |s| > n && forall i | 0 <= i < |s| :: s[i] < n
    ensures exists i, j :: 0 <= i < j < |s| && s[i] == s[j]
  {
    if forall i, j | 0 <= i < j < |s| :: s[i] != s[j] {
      DistinctCard(s);
      SubsetCard(set i | 0 <= i < |s| :: s[i], Below(n));
      assert false;
    }
  }

  /**
   * A walk that has taken |a| + 1 bound steps without meeting `self` can never
   * stop: by the pigeonhole principle the chain has entered a loop.
   */
  lemma WalkHangsFromPrefix(a: seq<Property>, self: nat, b: nat)
    requires GraphIds(a) && b < |a|
    requires forall j: nat | j <= |a| :: Bound(a, Chain(a, b, j)) && Chain(a, b, j) != self
    ensures WalkHangs(a, self, b)
  {
    var s := seq(|a| + 1, j requires 0 <= j => Chain(a, b, j));
    Pigeonhole(s, |a|);
    var i, j :| 0 <= i < j < |s| && s[i] == s[j];
    forall k: nat ensures Bound(a, Chain(a, b, k)) && Chain(a, b, k) != self {
      ChainRecurs(a, b, i, j, k);
      var m: nat :| m < j && Chain(a, b, k) == Chain(a, b, m);
      assert s[m] == Chain(a, b, m);
    }
  }

  // ---------------------------------------------------------------------------
  // What the cycle check lets through, and the check it evidently intends
  // ---------------------------------------------------------------------------

  /** The chain from `q` reaches an unbound property. */
  ghost predicate ReachesEnd(a: seq<Property>, q: nat)
    requires GraphIds(a) && q < |a|
  {
    exists k: nat :: !Bound(a, Chain(a, q, k))
  }

  /** Every upstream chain ends at an unbound property: the bindings form no cycle. */
  ghost predicate Acyclic(a: seq<Property>)
    requires GraphIds(a)
  {
    forall q | 0 <= q < |a| :: ReachesEnd(a, q)
  }

  /** `self` occurs anywhere on the chain from `b`, its unbound last element included. */
  ghost predicate OnChain(a: seq<Property>, self: nat, b: nat)
    requires GraphIds(a) && b < |a|
  {
    exists k: nat :: Chain(a, b, k) == self
  }

  /** The graph after `propertyBinding = b` on property `p`. */
  function Rebind(a: seq<Property>, p: nat, b: nat): (a': seq<Property>)
    requires GraphIds(a) && p < |a| && b < |a|
    ensures GraphIds(a') && |a'| == |a|
  {
    a[p := a[p].(upstream := Some(b))]
  }

  /** Until a chain meets `p`, rebinding `p` does not change it. */
  lemma {:induction false} ChainBeforeRebind(a: seq<Property>, p: nat, b: nat, q: nat, n: nat)
    requires GraphIds(a) && p < |a| && b < |a| && q < |a|
    requires forall j: nat | j < n :: Chain(a, q, j) != p
    ensures Chain(Rebind(a, p, b), q, n) == Chain(a, q, n)
  {
    if n > 0 {
      ChainBeforeRebind(a, p, b, q, n - 1);
    }
  }

  /** The first position, up to `n`, where the chain from `q` meets `p` (or `n`). */
  lemma FirstMeet(a: seq<Property>, p: nat, q: nat, n: nat) returns (m: nat)
    requires GraphIds(a) && q < |a|
    ensures m <= n && (m < n ==> Chain(a, q, m) == p)
    ensures forall j: nat | j < m :: Chain(a, q, j) != p
  {
    m := 0;
    while m < n && Chain(a, q, m) != p
      invariant m <= n && forall j: nat | j < m :: Chain(a, q, j) != p
    {
      m := m + 1;
    }
  }

  /** After rebinding, the chain from `q` still ends, given that the chain from `b` ends at step `kb`. */
  lemma RebindReachesEnd(a: seq<Property>, p: nat, b: nat, q: nat, kb: nat)
    requires GraphIds(a) && p < |a| && b < |a| && q < |a|
    requires ReachesEnd(a, q)
    requires !Bound(Rebind(a, p, b), Chain(Rebind(a, p, b), b, kb))
    ensures ReachesEnd(Rebind(a, p, b), q)
  {
    var a' := Rebind(a, p, b);
    var kq: nat :| !Bound(a, Chain(a, q, kq));
    var m := FirstMeet(a, p, q, kq);
    ChainBeforeRebind(a, p, b, q, m);
    if m < kq || Chain(a, q, m) == p {
      ChainThroughRebind(a, p, b, q, m, kb);
    } else {
      assert !Bound(a', Chain(a', q, m));
    }
  }

  /** A chain that meets the rebound `p` at step `m` continues along `b`'s chain. */
  lemma ChainThroughRebind(a: seq<Property>, p: nat, b: nat, q: nat, m: nat, kb: nat)
    requires GraphIds(a) && p < |a| && b < |a| && q < |a|
    requires Chain(Rebind(a, p, b), q, m) == p
    ensures Chain(Rebind(a, p, b), q, m + 1 + kb) == Chain(Rebind(a, p, b), b, kb)
  {
    var a' := Rebind(a, p, b);
    ChainAdd(a', q, m, 1 + kb);
    ChainAdd(a', p, 1, kb);
  }

  /**
   * Binding `p` to `b` when `p` is nowhere on `b`'s chain keeps the graph
   * acyclic: the check that also compares the chain's last element is enough.
   */
  lemma IntendedCheckKeepsAcyclic(a: seq<Property>, p: nat, b: nat)
    requires GraphIds(a) && p < |a| && b < |a|
    requires Acyclic(a) && !OnChain(a, p, b)
    ensures Acyclic(Rebind(a, p, b))
  {
    var a' := Rebind(a, p, b);
    assert ReachesEnd(a, b);
    var kb: nat :| !Bound(a, Chain(a, b, kb));
    assert forall j: nat | j < kb :: Chain(a, b, j) != p;
    ChainBeforeRebind(a, p, b, b, kb);
    assert Chain(a, b, kb) != p;
    forall q | 0 <= q < |a'| ensures ReachesEnd(a', q) {
      RebindReachesEnd(a, p, b, q, kb);
    }
  }

  /** The chain from an unbound property stays there. */
  lemma {:induction false} ConstantChain(a: seq<Property>, q: nat, k: nat)
    requires GraphIds(a) && q < |a| && !Bound(a, q)
    ensures Chain(a, q, k) == q
  {
    if k > 0 {
      ConstantChain(a, q, k - 1);
    }
  }

  /** In a graph where every property is bound, no chain ever ends. */
  lemma AllBoundNoEnd(a: seq<Property>, q: nat)
    requires GraphIds(a) && q < |a| && forall r | 0 <= r < |a| :: Bound(a, r)
    ensures !ReachesEnd(a, q)
  {
  }

  // ---------------------------------------------------------------------------
  // The graph updates of `bind` and `unbind`
  // ---------------------------------------------------------------------------

  /** `b.propertyBindings.add(p)`. */
  function Attach(a: seq<Property>, b: nat, p: nat): (a': seq<Property>)
    requires b < |a|
    ensures |a'| == |a|
  {
    a[b := a[b].(dependents := a[b].dependents + {p})]
  }

  /**
   * `unbind()` on `p`: when bound, `p` leaves its upstream's dependents and
   * becomes unbound; otherwise nothing changes.
   */
  function Detach(a: seq<Property>, p: nat): (a': seq<Property>)
    requires GraphIds(a) && p < |a|
    ensures |a'| == |a|
  {
    if a[p].upstream.None? then a
    else
      var u := a[p].upstream.value;
      var a1 := a[u := a[u].(dependents := a[u].dependents - {p})];
      a1[p := a1[p].(upstream := None)]
  }

  /** The graph updates keep every id in range. */
  lemma GraphUpdatesKeepIds(a: seq<Property>, b: nat, p: nat)
    requires GraphIds(a) && b < |a| && p < |a|
    ensures GraphIds(Attach(a, b, p)) && GraphIds(Detach(a, p))
  {
  }

  /** After `unbind()`, `p` is unbound and no longer a dependent of its former upstream. */
  lemma DetachUnbinds(a: seq<Property>, p: nat)
    requires GraphIds(a) && p < |a|
    ensures Detach(a, p)[p].upstream.None?
    ensures a[p].upstream.Some? ==> p !in Detach(a, p)[a[p].upstream.value].dependents
    ensures forall q | 0 <= q < |a| && Some(q) != a[p].upstream :: Detach(a, p)[q].dependents == a[q].dependents
  {
  }

  /** A second `unbind()` does nothing. */
  lemma DetachIdempotent(a: seq<Property>, p: nat)
    requires GraphIds(a) && p < |a|
    ensures GraphIds(Detach(a, p)) && Detach(Detach(a, p), p) == Detach(a, p)
  {
    GraphUpdatesKeepIds(a, 0, p);
  }

  /**
   * `unbind()` undoes the graph updates of `bind(b)` on an unbound property
   * that was not a dependent of `b` already.
   */
  lemma DetachUndoesBind(a: seq<Property>, p: nat, b: nat)
    requires GraphIds(a) && p < |a| && b < |a|
    requires a[p].upstream.None? && p !in a[b].dependents
    ensures GraphIds(Attach(a, b, p)) && GraphIds(Rebind(Attach(a, b, p), p, b))
    ensures Detach(Rebind(Attach(a, b, p), p, b), p) == a
  {
    GraphUpdatesKeepIds(a, b, p);
    var a' := Detach(Rebind(Attach(a, b, p), p, b), p);
    assert a'[b].dependents == a[b].dependents;
    assert forall q | 0 <= q < |a| :: a'[q] == a[q];
  }

  /**
   * `bind(b)` on a property bound to some other `c` does not leave `c`'s
   * dependents: the old edge stays, so a later `c.set` still cascades into `p`.
   */
  lemma RebindKeepsStaleEdge(a: seq<Property>, p: nat, b: nat, c: nat)
    requires GraphIds(a) && p < |a| && b < |a| && c < |a| && c != b
    requires a[p].upstream == Some(c) && p in a[c].dependents
    ensures GraphIds(Attach(a, b, p))
    ensures Rebind(Attach(a, b, p), p, b)[p].upstream == Some(b)
    ensures p in Rebind(Attach(a, b, p), p, b)[c].dependents
    ensures p in Rebind(Attach(a, b, p), p, b)[b].dependents
  {
    GraphUpdatesKeepIds(a, b, p);
  }

  /** A placeholder property with the given binding fields. */
  function Node(upstream: Option<nat>, dependents: set<nat>): Property {
    Property(0, "", Values.Null, Values.Null, Gateways.StringGateway, true, true, upstream, dependents)
  }

  /** A (0) bound to B (1), B bound to C (2), C unbound. */
  function Triangle(): seq<Property> {
    [Node(Some(1), {}), Node(Some(2), {0}), Node(None, {1})]
  }

  /**
   * On `C.bind(A)` in Triangle(), the check walks A and B but never compares
   * C, the unbound end of the chain: it neither throws nor hangs, and the
   * binding it then makes closes the cycle A -> B -> C -> A.
   */
  lemma TriangleNotRejected()
    ensures GraphIds(Triangle()) && Acyclic(Triangle())
    ensures !WalkRejects(Triangle(), 2, 0) && !WalkHangs(Triangle(), 2, 0)
    ensures !Acyclic(Rebind(Triangle(), 2, 0))
  {
    TriangleAcyclic();
    TriangleWalk();
    AllBoundNoEnd(Rebind(Triangle(), 2, 0), 0);
  }

  lemma TriangleAcyclic()
    ensures GraphIds(Triangle()) && Acyclic(Triangle())
  {
    var a := Triangle();
    assert Chain(a, 0, 2) == 2;
    assert ReachesEnd(a, 0) by { assert !Bound(a, Chain(a, 0, 2)); }
    assert Chain(a, 1, 1) == 2;
    assert ReachesEnd(a, 1) by { assert !Bound(a, Chain(a, 1, 1)); }
    assert ReachesEnd(a, 2) by { assert !Bound(a, Chain(a, 2, 0)); }
  }

  /** The walk from A meets C only at the unbound end, and stops there. */
  lemma TriangleWalk()
    ensures GraphIds(Triangle())
    ensures !WalkRejects(Triangle(), 2, 0) && !WalkHangs(Triangle(), 2, 0)
  {
    var a := Triangle();
    assert Chain(a, 0, 1) == 1;
    assert Chain(a, 0, 2) == 2;
    assert !Bound(a, Chain(a, 0, 2));
    forall k: nat | Chain(a, 0, k) == 2 ensures !Bound(a, Chain(a, 0, 2)) && 2 <= k {
    }
  }

  /** `A.bind(A)` on an unbound A: the check never compares A, and A becomes its own upstream. */
  lemma SelfBindingNotRejected()
    ensures GraphIds([Node(None, {})]) && Acyclic([Node(None, {})])
    ensures !WalkRejects([Node(None, {})], 0, 0) && !WalkHangs([Node(None, {})], 0, 0)
    ensures !Acyclic(Rebind([Node(None, {})], 0, 0))
  {
    var a := [Node(None, {})];
    assert !Bound(a, Chain(a, 0, 0));
    assert ReachesEnd(a, 0);
    AllBoundNoEnd(Rebind(a, 0, 0), 0);
  }
}
