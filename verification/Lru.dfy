/** Least-recently-used replacement as a function of the lookup history. */
module Lru {
  import opened AvlTree
  import opened Ordered

  /** One lookup that ends in the cache: the entry moves or comes to the front, the last one drops off
      when there is no room. */
  ghost function Touch(recent: seq<Payload>, p: Payload, capacity: nat): seq<Payload> {
    Take([p] + Without(recent, Rank(p)), capacity)
  }

  ghost function Take(q: seq<Payload>, n: nat): seq<Payload> {
    if |q| <= n then q else q[..n]
  }

  /** The cache after a history of lookups, oldest first. */
  ghost function Cached(history: seq<Payload>, capacity: nat): seq<Payload> {
    if history == [] then []
    else Touch(Cached(history[..|history| - 1], capacity), history[|history| - 1], capacity)
  }

  /** The distinct keys of a history, the most recently used first. */
  ghost function ByRecency(history: seq<Payload>): seq<Payload> {
    if history == [] then []
    else
      var p := history[|history| - 1];
      [p] + Without(ByRecency(history[..|history| - 1]), Rank(p))
  }

  ghost predicate UniqueKeys(q: seq<Payload>) {
    forall i, j :: 0 <= i < j < |q| ==> Rank(q[i]) != Rank(q[j])
  }

  lemma {:induction false} WithoutFacts(q: seq<Payload>, key: int)
    requires UniqueKeys(q)
    ensures UniqueKeys(Without(q, key)) && !HasKey(Without(q, key), key)
    ensures forall x :: x in Without(q, key) ==> x in q
    ensures |Without(q, key)| >= |q| - 1
  {
    if q != [] {
      assert q == [q[0]] + q[1..];
      assert UniqueKeys(q[1..]);
      WithoutFacts(q[1..], key);
      if Rank(q[0]) == key {
        assert forall i :: 0 <= i < |q[1..]| ==> q[1..][i] == q[i + 1];
        WithoutAbsent(q[1..], key);
      } else {
        var t := Without(q[1..], key);
        forall i | 0 <= i < |t| ensures Rank(q[0]) != Rank(t[i]) {
          assert t[i] in q[1..];
        }
      }
    }
  }

  /** Cutting a recency list to the capacity before or after a lookup makes no difference. */
  lemma TouchOfTaken(q: seq<Payload>, p: Payload, n: nat)
    requires UniqueKeys(q)
    ensures Touch(Take(q, n), p, n) == Take([p] + Without(q, Rank(p)), n)
  {
    if |q| > n {
      var a, b := q[..n], q[n..];
      assert q == a + b;
      WithoutAppend(a, b, Rank(p));
      assert UniqueKeys(a);
      WithoutFacts(a, Rank(p));
      WithoutFacts(q, Rank(p));
      var l := [p] + Without(a, Rank(p));
      assert [p] + Without(q, Rank(p)) == l + Without(b, Rank(p));
      assert |l| >= n;
    }
  }

  lemma {:induction false} RecencyUnique(history: seq<Payload>)
    ensures UniqueKeys(ByRecency(history))
  {
    if history != [] {
      var h, p := history[..|history| - 1], history[|history| - 1];
      RecencyUnique(h);
      WithoutFacts(ByRecency(h), Rank(p));
    }
  }

  /** Over every history the cache holds exactly the most recently used distinct keys, in order,
      as many of them as it has room for. */
  lemma {:induction false} CacheIsRecency(history: seq<Payload>, capacity: nat)
    ensures Cached(history, capacity) == Take(ByRecency(history), capacity)
  {
    if history != [] {
      var h, p := history[..|history| - 1], history[|history| - 1];
      CacheIsRecency(h, capacity);
      RecencyUnique(h);
      TouchOfTaken(ByRecency(h), p, capacity);
    }
  }

  lemma TouchNew(recent: seq<Payload>, p: Payload, capacity: nat)
    requires !HasKey(recent, Rank(p))
    ensures Touch(recent, p, capacity) == if capacity == 0 then [] else [p] + Take(recent, capacity - 1)
  {
    WithoutAbsent(recent, Rank(p));
  }
}
