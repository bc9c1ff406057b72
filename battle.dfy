/**
 * Battle.java: the turn queue of a battle. The varargs constructor queues the
 * fighters of all teams by sorted insertion, in descending natural order;
 * `start` gives each queued fighter its ticks till turn and sorts the queue
 * by them, ascending.
 */
module Battles {
  import opened Outcomes

  /**
   * A fighter: `id` is its identity (the `HashMap` key), `rank` what its
   * natural order (`compareTo`) compares.
   */
  datatype Fighter = Fighter(id: nat, rank: int)

  /** A team, as the fighters its iterator yields. */
  datatype Team = Team(members: seq<Fighter>)

  /** The fighters of all teams, team by team, in iteration order. */
  function Flatten(ts: seq<Team>): seq<Fighter> {
    if |ts| == 0 then [] else Flatten(ts[..|ts| - 1]) + ts[|ts| - 1].members
  }

  /** Strictly descending natural order: how the varargs constructor leaves the queue. */
  ghost predicate Descending(q: seq<Fighter>) {
    forall i, j | 0 <= i < j < |q| :: q[i].rank > q[j].rank
  }

  /** No two fighters compare equal. */
  ghost predicate DistinctRanks(s: seq<Fighter>) {
    forall i, j | 0 <= i < j < |s| :: s[i].rank != s[j].rank
  }

  /** Every fighter of `q` has a tick entry, and the ticks do not decrease along `q`. */
  ghost predicate TickOrdered(q: seq<Fighter>, ticks: map<Fighter, int>) {
    && (forall i | 0 <= i < |q| :: q[i] in ticks)
    && forall i, j | 0 <= i < j < |q| :: ticks[q[i]] <= ticks[q[j]]
  }

  /** `Integer.compare(a, b)`. */
  function Compare(a: int, b: int): (c: int)
    ensures c < 0 <==> a < b
    ensures c == 0 <==> a == b
    ensures c > 0 <==> a > b
  {
    if a < b then -1 else if a == b then 0 else 1
  }

  /**
   * `Collections.binarySearch(q, f, Comparator.naturalOrder().reversed())`
   * on a queue sorted by that comparator: the index of a fighter that compares
   * equal to `f`, or `-(insertion point) - 1`.
   */
  method BinarySearch(q: seq<Fighter>, f: Fighter) returns (r: int)
    requires Descending(q)
    ensures r >= 0 ==> r < |q| && q[r].rank == f.rank
    ensures r < 0 ==> forall i | 0 <= i < |q| :: q[i].rank != f.rank
    ensures r < 0 ==> -r - 1 <= |q|
    ensures r < 0 ==> forall i | 0 <= i < |q| :: (i < -r - 1 <==> q[i].rank > f.rank)
  {
    var low, high := 0, |q| - 1;
    while low <= high
      invariant 0 <= low <= |q| && -1 <= high < |q| && low <= high + 1
      invariant forall i | 0 <= i < low :: q[i].rank > f.rank
      invariant forall i | high < i < |q| :: q[i].rank < f.rank
      decreases high - low
    {
      var mid := (low + high) / 2;
      // the reversed comparator: compare(q[mid], f) is f.compareTo(q[mid])
      var cmp := Compare(f.rank, q[mid].rank);
      if cmp < 0 {
        low := mid + 1;
      } else if cmp > 0 {
        high := mid - 1;
      } else {
        return mid;
      }
    }
    return -(low + 1);
  }

  /** A prefix of teams flattens to a prefix of all fighters. */
  lemma {:induction false} FlattenPrefix(ts: seq<Team>, i: nat)
    requires i <= |ts|
    ensures |Flatten(ts[..i])| <= |Flatten(ts)| && Flatten(ts)[..|Flatten(ts[..i])|] == Flatten(ts[..i])
    decreases |ts| - i
  {
    if i < |ts| {
      FlattenPrefix(ts, i + 1);
      assert ts[..i + 1][..i] == ts[..i];
      var n := |Flatten(ts[..i])|;
      assert Flatten(ts[..i + 1]) == Flatten(ts[..i]) + ts[i].members;
      assert Flatten(ts)[..n] == Flatten(ts)[..|Flatten(ts[..i + 1])|][..n];
    } else {
      assert ts[..i] == ts;
    }
  }

  /** A repetition in a prefix is a repetition in the whole. */
  lemma PrefixTie(s: seq<Fighter>, t: seq<Fighter>)
    requires |s| <= |t| && t[..|s|] == s && !DistinctRanks(s)
    ensures !DistinctRanks(t)
  {
    var i, j :| 0 <= i < j < |s| && s[i].rank == s[j].rank;
    assert t[i] == s[i] && t[j] == s[j];
  }

  /** Inserting `f` at its insertion point keeps the queue descending and adds `f` to its contents. */
  lemma InsertAt(q: seq<Fighter>, f: Fighter, k: nat)
    requires Descending(q) && k <= |q|
    requires forall i | 0 <= i < |q| :: (i < k <==> q[i].rank > f.rank)
    requires forall i | 0 <= i < |q| :: q[i].rank != f.rank
    ensures Descending(q[..k] + [f] + q[k..])
    ensures multiset(q[..k] + [f] + q[k..]) == multiset(q) + multiset{f}
  {
    InsertPlaces(q, f, k);
    InsertCount(q, f, k);
  }

  /** A fighter that ranks unlike every queued one ranks unlike every fighter seen so far. */
  lemma NewRank(q: seq<Fighter>, seen: seq<Fighter>, f: Fighter)
    requires multiset(q) == multiset(seen) && DistinctRanks(seen)
    requires forall i | 0 <= i < |q| :: q[i].rank != f.rank
    ensures DistinctRanks(seen + [f])
  {
    forall k | 0 <= k < |seen| ensures seen[k].rank != f.rank {
      assert seen[k] in multiset(q);
    }
  }

  /** A queued fighter that ranks like `f` makes the fighters seen so far, with `f`, tie. */
  lemma FoundTie(q: seq<Fighter>, seen: seq<Fighter>, f: Fighter, r: nat)
    requires multiset(q) == multiset(seen) && r < |q| && q[r].rank == f.rank
    ensures !DistinctRanks(seen + [f])
  {
    assert q[r] in multiset(seen);
    var k :| 0 <= k < |seen| && seen[k] == q[r];
    assert (seen + [f])[k] == q[r] && (seen + [f])[|seen|] == f;
  }

  class Battle {
    var ticksTillTurn: map<Fighter, int>
    var battleQueue: seq<Fighter>
    var teams: seq<Team>

    /** `Battle(channel, Collection<Team>)`: the teams are copied, the queue stays empty. */
    constructor FromCollection(ts: seq<Team>)
      ensures teams == ts && battleQueue == [] && ticksTillTurn == map[]
    {
      teams, battleQueue, ticksTillTurn := ts, [], map[];
    }

    /**
     * `Battle(channel, Team...)`: the teams in argument order, and every
     * fighter inserted into the queue at the insertion point the binary search
     * reports under the reversed natural order. A fighter that compares equal
     * to one already queued gets the index `-found - 1 < 0`, and the insertion
     * throws.
     */
    static method FromTeams(ts: seq<Team>) returns (r: Result<Battle>)
      ensures r.Failure? <==> !DistinctRanks(Flatten(ts))
      ensures r.Failure? ==> r.error == IndexOutOfBounds
      ensures r.Success? ==>
                && fresh(r.value) && r.value.teams == ts && r.value.ticksTillTurn == map[]
                && Descending(r.value.battleQueue)
                && multiset(r.value.battleQueue) == multiset(Flatten(ts))
    {
      var b := new Battle.FromCollection([]);
      var i := 0;
      while i < |ts|
        invariant 0 <= i <= |ts| && fresh(b)
        invariant b.teams == ts[..i] && b.ticksTillTurn == map[]
        invariant Descending(b.battleQueue) && DistinctRanks(Flatten(ts[..i]))
        invariant multiset(b.battleQueue) == multiset(Flatten(ts[..i]))
      {
        b.teams := b.teams + [ts[i]];
        assert ts[..i + 1][..i] == ts[..i];
        assert Flatten(ts[..i + 1]) == Flatten(ts[..i]) + ts[i].members;
        var e := Enqueue(b.battleQueue, Flatten(ts[..i]), ts[i].members);
        if e.Failure? {
          FlattenPrefix(ts, i + 1);
          PrefixTie(Flatten(ts[..i + 1]), Flatten(ts));
          return Failure(e.error);
        }
        b.battleQueue := e.value;
        i := i + 1;
      }
      assert ts[..i] == ts;
      return Success(b);
    }

    /** `getTTT(f)`: unboxing the entry of a fighter without one throws. */
    function GetTTT(f: Fighter): (r: Result<int>)
      reads this
      ensures r.Success? <==> f in ticksTillTurn
      ensures r.Success? ==> r.value == ticksTillTurn[f]
      ensures r.Failure? ==> r.error == NullPointer
    {
      if f in ticksTillTurn then Success(ticksTillTurn[f]) else Failure(NullPointer)
    }

    /** `setTTT(f, t)`: `f`'s entry becomes `t`; no other entry changes. */
    method SetTTT(f: Fighter, t: int)
      modifies this
      ensures ticksTillTurn == old(ticksTillTurn)[f := t]
      ensures GetTTT(f) == Success(t)
      ensures forall g | g != f :: GetTTT(g) == old(GetTTT(g))
      ensures battleQueue == old(battleQueue) && teams == old(teams)
    {
      ticksTillTurn := ticksTillTurn[f := t];
    }

    /**
     * `start()`, up to the message: `battleQueue.get(0)` throws on an empty
     * queue; otherwise fighter `i` of the queue gets tick amount `rolls[i]`
     * (the random computation is an input), and the queue is sorted by ticks.
     */
    method Start(rolls: seq<int>) returns (r: Outcome)
      requires |rolls| == |battleQueue|
      modifies this
      ensures teams == old(teams)
      ensures old(battleQueue) == [] ==> r == Fail(IndexOutOfBounds) && battleQueue == [] && ticksTillTurn == old(ticksTillTurn)
      ensures old(battleQueue) != [] ==>
                && r == Pass
                && Assigned(old(ticksTillTurn), ticksTillTurn, old(battleQueue), rolls)
                && TickOrdered(battleQueue, ticksTillTurn)
                && multiset(battleQueue) == multiset(old(battleQueue))
    {
      if |battleQueue| == 0 {
        return Fail(IndexOutOfBounds);
      }
      AssignTicks(rolls);
      AssignedCovers(old(ticksTillTurn), ticksTillTurn, battleQueue, rolls);
      battleQueue := SortByTicks(battleQueue, ticksTillTurn);
      return Pass;
    }

    /** The loop of `start`: `setTTT` for every queued fighter in queue order. */
    method AssignTicks(rolls: seq<int>)
      requires |rolls| == |battleQueue|
      modifies this
      ensures battleQueue == old(battleQueue) && teams == old(teams)
      ensures Assigned(old(ticksTillTurn), ticksTillTurn, battleQueue, rolls)
    {
      var q := battleQueue;
      var i := 0;
      while i < |q|
        invariant 0 <= i <= |q| && battleQueue == q && teams == old(teams)
        invariant Assigned(old(ticksTillTurn), ticksTillTurn, q[..i], rolls[..i])
      {
        AssignStep(old(ticksTillTurn), ticksTillTurn, q[..i], rolls[..i], q[i], rolls[i]);
        SetTTT(q[i], rolls[i]);
        assert q[..i + 1] == q[..i] + [q[i]] && rolls[..i + 1] == rolls[..i] + [rolls[i]];
        i := i + 1;
      }
      assert q[..i] == q && rolls[..i] == rolls;
    }
  }

  /**
   * `t` is what the tick map `t0` becomes when fighter `q[i]` is given
   * `rolls[i]`, one after the other: every queued fighter has an entry, the
   * others keep theirs, and a fighter queued twice keeps its last amount.
   */
  ghost predicate Assigned(t0: map<Fighter, int>, t: map<Fighter, int>, q: seq<Fighter>, rolls: seq<int>) {
    && |rolls| == |q|
    && t.Keys == t0.Keys + (set g | g in q)
    && (forall g | g in t0 && g !in q :: t[g] == t0[g])
    && forall i | 0 <= i < |q| && q[i] !in q[i + 1..] :: t[q[i]] == rolls[i]
  }

  /** One more `setTTT` extends the assignment by one fighter. */
  lemma AssignStep(t0: map<Fighter, int>, t: map<Fighter, int>, q: seq<Fighter>, rolls: seq<int>, f: Fighter, x: int)
    requires Assigned(t0, t, q, rolls)
    ensures Assigned(t0, t[f := x], q + [f], rolls + [x])
  {
    var q', t' := q + [f], t[f := x];
    assert (set g | g in q') == (set g | g in q) + {f};
    forall i | 0 <= i < |q'| && q'[i] !in q'[i + 1..] ensures t'[q'[i]] == (rolls + [x])[i] {
      if i < |q| {
        assert q'[i + 1..] == q[i + 1..] + [f];
        assert q'[i] == q[i] && q[i] != f;
      }
    }
  }

  /** After the assignment every queued fighter has an entry. */
  lemma AssignedCovers(t0: map<Fighter, int>, t: map<Fighter, int>, q: seq<Fighter>, rolls: seq<int>)
    requires Assigned(t0, t, q, rolls)
    ensures forall i | 0 <= i < |q| :: q[i] in t
  {
    forall i | 0 <= i < |q| ensures q[i] in t {
      assert q[i] in (set g | g in q);
    }
  }

  /**
   * The inner loop of the varargs constructor: each member in turn is
   * inserted at the insertion point `-found - 1` the binary search reports;
   * a member that compares equal to a queued fighter makes that index
   * negative and the insertion throws.
   */
  method Enqueue(q: seq<Fighter>, seen: seq<Fighter>, members: seq<Fighter>) returns (r: Result<seq<Fighter>>)
    requires Descending(q) && DistinctRanks(seen) && multiset(q) == multiset(seen)
    ensures r.Failure? <==> !DistinctRanks(seen + members)
    ensures r.Failure? ==> r.error == IndexOutOfBounds
    ensures r.Success? ==> Descending(r.value) && multiset(r.value) == multiset(seen + members)
  {
    var queue := q;
    var j := 0;
    while j < |members|
      invariant 0 <= j <= |members|
      invariant Descending(queue) && DistinctRanks(seen + members[..j])
      invariant multiset(queue) == multiset(seen + members[..j])
    {
      var f := members[j];
      var found := BinarySearch(queue, f);
      var k := -found - 1;
      assert seen + members[..j + 1] == seen + members[..j] + [f];
      if k < 0 {
        FoundTie(queue, seen + members[..j], f, found);
        PrefixTie(seen + members[..j + 1], seen + members);
        return Failure(IndexOutOfBounds);
      }
      NewRank(queue, seen + members[..j], f);
      InsertAt(queue, f, k);
      queue := queue[..k] + [f] + queue[k..];
      j := j + 1;
    }
    assert members[..j] == members;
    return Success(queue);
  }

  /**
   * `Collections.sort(battleQueue, by getTTT)`: the queue ordered by
   * non-decreasing ticks, as a permutation of what it held.
   */
  method SortByTicks(q: seq<Fighter>, ticks: map<Fighter, int>) returns (s: seq<Fighter>)
    requires forall i | 0 <= i < |q| :: q[i] in ticks
    ensures TickOrdered(s, ticks)
    ensures multiset(s) == multiset(q)
  {
    s := [];
    var i := 0;
    while i < |q|
      invariant 0 <= i <= |q|
      invariant TickOrdered(s, ticks)
      invariant multiset(s) == multiset(q[..i])
    {
      s := InsertByTicks(s, q[i], ticks);
      assert q[..i + 1] == q[..i] + [q[i]];
      i := i + 1;
    }
    assert q[..i] == q;
  }

  /** One step of the sort: `f` goes after every fighter with no more ticks than its own. */
  method InsertByTicks(s: seq<Fighter>, f: Fighter, ticks: map<Fighter, int>) returns (s': seq<Fighter>)
    requires TickOrdered(s, ticks) && f in ticks
    ensures TickOrdered(s', ticks)
    ensures multiset(s') == multiset(s) + multiset{f}
  {
    var k := |s|;
    while k > 0 && ticks[s[k - 1]] > ticks[f]
      invariant 0 <= k <= |s|
      invariant forall i | k <= i < |s| :: ticks[s[i]] > ticks[f]
      decreases k
    {
      k := k - 1;
    }
    InsertSorted(s, f, k, ticks);
    s' := s[..k] + [f] + s[k..];
  }

  /** `f` placed between the fighters with at most its ticks and those with more keeps the order. */
  lemma InsertSorted(s: seq<Fighter>, f: Fighter, k: nat, ticks: map<Fighter, int>)
    requires TickOrdered(s, ticks) && f in ticks && k <= |s|
    requires k > 0 ==> ticks[s[k - 1]] <= ticks[f]
    requires forall i | k <= i < |s| :: ticks[s[i]] > ticks[f]
    ensures TickOrdered(s[..k] + [f] + s[k..], ticks)
    ensures multiset(s[..k] + [f] + s[k..]) == multiset(s) + multiset{f}
  {
    var s' := s[..k] + [f] + s[k..];
    InsertPlaces(s, f, k);
    forall i | 0 <= i < |s'| ensures s'[i] in ticks {
      if i != k {
        assert s'[i] == s[if i < k then i else i - 1];
      }
    }
    forall i, j | 0 <= i < j < |s'| ensures ticks[s'[i]] <= ticks[s'[j]] {
      InsertPairOrdered(s, f, k, ticks, i, j);
    }
    InsertCount(s, f, k);
  }

  /** Inserting `f` anywhere adds one `f` to the contents. */
  lemma InsertCount(s: seq<Fighter>, f: Fighter, k: nat)
    requires k <= |s|
    ensures multiset(s[..k] + [f] + s[k..]) == multiset(s) + multiset{f}
  {
    assert s == s[..k] + s[k..];
  }

  /** Where each fighter of `s` lands when `f` is inserted at `k`. */
  lemma InsertPlaces(s: seq<Fighter>, f: Fighter, k: nat)
    requires k <= |s|
    ensures |s[..k] + [f] + s[k..]| == |s| + 1
    ensures forall i | 0 <= i < k :: (s[..k] + [f] + s[k..])[i] == s[i]
    ensures (s[..k] + [f] + s[k..])[k] == f
    ensures forall i | k < i <= |s| :: (s[..k] + [f] + s[k..])[i] == s[i - 1]
  {
  }

  /** One pair of the inserted sequence is in tick order. */
  lemma InsertPairOrdered(s: seq<Fighter>, f: Fighter, k: nat, ticks: map<Fighter, int>, i: nat, j: nat)
    requires TickOrdered(s, ticks) && f in ticks && k <= |s|
    requires k > 0 ==> ticks[s[k - 1]] <= ticks[f]
    requires forall i | k <= i < |s| :: ticks[s[i]] > ticks[f]
    requires i < j <= |s|
    ensures ticks[(s[..k] + [f] + s[k..])[i]] <= ticks[(s[..k] + [f] + s[k..])[j]]
  {
    InsertPlaces(s, f, k);
    if j < k {
      assert ticks[s[i]] <= ticks[s[j]];
    } else if j == k {
      assert i == k - 1 || ticks[s[i]] <= ticks[s[k - 1]];
    } else if i < k {
      assert ticks[s[i]] <= ticks[s[j - 1]];
    } else if i > k {
      assert ticks[s[i - 1]] <= ticks[s[j - 1]];
    }
  }
}
