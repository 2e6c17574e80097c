/** Sequences of payloads in key order, as the tree holds them. */
module Ordered {
  import opened AvlTree

  // ---------- Ordered sequences of payloads ----------

  ghost predicate Sorted(q: seq<Payload>) {
    forall i, j :: 0 <= i < j < |q| ==> Rank(q[i]) < Rank(q[j])
  }

  ghost predicate HasKey(q: seq<Payload>, key: int) {
    exists i :: 0 <= i < |q| && Rank(q[i]) == key
  }

  /** `p` put before the first larger key. */
  ghost function Inserted(q: seq<Payload>, p: Payload): seq<Payload> {
    if q == [] then [p]
    else if Rank(p) < Rank(q[0]) then [p] + q
    else [q[0]] + Inserted(q[1..], p)
  }

  /** The entries whose key is not `key`. */
  ghost function Without(q: seq<Payload>, key: int): seq<Payload> {
    if q == [] then []
    else (if Rank(q[0]) == key then [] else [q[0]]) + Without(q[1..], key)
  }

  lemma {:induction false} InsertedLeft(a: seq<Payload>, x: Payload, b: seq<Payload>, p: Payload)
    requires Rank(p) < Rank(x)
    ensures Inserted(a + [x] + b, p) == Inserted(a, p) + [x] + b
  {
    if a == [] {
      assert a + [x] + b == [x] + b;
      assert Inserted(a, p) + [x] + b == [p] + ([x] + b);
    } else {
      assert (a + [x] + b)[1..] == a[1..] + [x] + b;
      InsertedLeft(a[1..], x, b, p);
      assert [a[0]] + (Inserted(a[1..], p) + [x] + b) == ([a[0]] + Inserted(a[1..], p)) + [x] + b;
      assert [p] + (a + [x] + b) == ([p] + a) + [x] + b;
    }
  }

  lemma {:induction false} InsertedRight(a: seq<Payload>, x: Payload, b: seq<Payload>, p: Payload)
    requires Sorted(a + [x] + b) && Rank(x) < Rank(p)
    ensures Inserted(a + [x] + b, p) == a + [x] + Inserted(b, p)
  {
    var q := a + [x] + b;
    if a == [] {
      assert q == [x] + b && q[1..] == b;
      assert a + [x] + Inserted(b, p) == [x] + Inserted(b, p);
    } else {
      assert Rank(q[0]) < Rank(q[|a|]);
      assert q[1..] == a[1..] + [x] + b;
      assert Sorted(q[1..]);
      InsertedRight(a[1..], x, b, p);
      assert [a[0]] + (a[1..] + [x] + Inserted(b, p)) == a + [x] + Inserted(b, p);
    }
  }

  lemma {:induction false} WithoutAbsent(q: seq<Payload>, key: int)
    requires !HasKey(q, key)
    ensures Without(q, key) == q
  {
    if q != [] {
      assert forall i :: 0 <= i < |q[1..]| ==> q[1..][i] == q[i + 1];
      WithoutAbsent(q[1..], key);
      assert Rank(q[0]) != key;
      assert [q[0]] + q[1..] == q;
    }
  }

  lemma {:induction false} WithoutAppend(a: seq<Payload>, b: seq<Payload>, key: int)
    ensures Without(a + b, key) == Without(a, key) + Without(b, key)
  {
    if a == [] {
      assert a + b == b;
    } else {
      assert (a + b)[1..] == a[1..] + b;
      WithoutAppend(a[1..], b, key);
    }
  }

  /** Removing a key of a sorted tree sequence touches only the side the key lies on. */
  lemma WithoutSplit(a: seq<Payload>, x: Payload, b: seq<Payload>, key: int)
    requires Sorted(a + [x] + b)
    ensures key < Rank(x) ==> Without(a + [x] + b, key) == Without(a, key) + [x] + b
    ensures key > Rank(x) ==> Without(a + [x] + b, key) == a + [x] + Without(b, key)
    ensures key == Rank(x) ==> Without(a + [x] + b, key) == a + b
  {
    var q := a + [x] + b;
    SortedSplit(a, x, b);
    WithoutAppend(a + [x], b, key);
    WithoutAppend(a, [x], key);
    assert Without([x], key) == if Rank(x) == key then [] else [x];
    if key <= Rank(x) {
      WithoutAbsent(b, key);
    }
    if key >= Rank(x) {
      WithoutAbsent(a, key);
    }
  }

  lemma SortedSplit(a: seq<Payload>, x: Payload, b: seq<Payload>)
    requires Sorted(a + [x] + b)
    ensures Sorted(a) && Sorted(b)
    ensures forall i :: 0 <= i < |a| ==> Rank(a[i]) < Rank(x)
    ensures forall i :: 0 <= i < |b| ==> Rank(x) < Rank(b[i])
  {
    var q := a + [x] + b;
    assert forall i :: 0 <= i < |a| ==> a[i] == q[i];
    assert q[|a|] == x;
    assert forall i :: 0 <= i < |b| ==> b[i] == q[|a| + 1 + i];
  }

  lemma HasKeySplit(a: seq<Payload>, x: Payload, b: seq<Payload>, key: int)
    requires Sorted(a + [x] + b)
    ensures key < Rank(x) ==> (HasKey(a + [x] + b, key) <==> HasKey(a, key))
    ensures key > Rank(x) ==> (HasKey(a + [x] + b, key) <==> HasKey(b, key))
    ensures key == Rank(x) ==> HasKey(a + [x] + b, key)
  {
    var q := a + [x] + b;
    SortedSplit(a, x, b);
    assert q[|a|] == x;
    assert forall i :: 0 <= i < |a| ==> a[i] == q[i];
    assert forall i :: 0 <= i < |b| ==> b[i] == q[|a| + 1 + i];
  }

  ghost predicate AllAbove(key: int, q: seq<Payload>) {
    forall i :: 0 <= i < |q| ==> key < Rank(q[i])
  }

  lemma SortedCons(x: Payload, q: seq<Payload>)
    ensures Sorted([x] + q) <==> AllAbove(Rank(x), q) && Sorted(q)
  {
    var t := [x] + q;
    assert forall i :: 0 <= i < |q| ==> q[i] == t[i + 1];
    if Sorted(t) {
      assert forall i :: 0 < i < |t| ==> Rank(t[0]) < Rank(t[i]);
    }
  }

  lemma {:induction false} InsertedAbove(q: seq<Payload>, p: Payload, key: int)
    requires AllAbove(key, q) && key < Rank(p)
    ensures AllAbove(key, Inserted(q, p))
  {
    if q != [] && Rank(p) >= Rank(q[0]) {
      InsertedAbove(q[1..], p, key);
    }
  }

  /** Insertion of a new key keeps the order. */
  lemma {:induction false} InsertedSorted(q: seq<Payload>, p: Payload)
    requires Sorted(q) && !HasKey(q, Rank(p))
    ensures Sorted(Inserted(q, p))
  {
    if q != [] {
      assert q == [q[0]] + q[1..];
      SortedCons(q[0], q[1..]);
      if Rank(p) < Rank(q[0]) {
        SortedCons(p, q);
      } else {
        assert forall i :: 0 <= i < |q[1..]| ==> q[1..][i] == q[i + 1];
        InsertedSorted(q[1..], p);
        assert Rank(q[0]) != Rank(p);
        InsertedAbove(q[1..], p, Rank(q[0]));
        SortedCons(q[0], Inserted(q[1..], p));
      }
    }
  }

  /** Insertion adds exactly one entry. */
  lemma {:induction false} InsertedAdds(q: seq<Payload>, p: Payload)
    ensures multiset(Inserted(q, p)) == multiset(q) + multiset{p}
  {
    if q != [] {
      assert q == [q[0]] + q[1..];
      InsertedAdds(q[1..], p);
    }
  }

  lemma {:induction false} WithoutAbove(q: seq<Payload>, key: int, bound: int)
    requires AllAbove(bound, q)
    ensures AllAbove(bound, Without(q, key))
  {
    if q != [] {
      WithoutAbove(q[1..], key, bound);
    }
  }

  /** Removal keeps the order and drops exactly the entries with that key. */
  lemma {:induction false} WithoutSorted(q: seq<Payload>, key: int)
    requires Sorted(q)
    ensures Sorted(Without(q, key))
    ensures forall x :: x in Without(q, key) <==> x in q && Rank(x) != key
  {
    if q != [] {
      assert q == [q[0]] + q[1..];
      SortedCons(q[0], q[1..]);
      WithoutSorted(q[1..], key);
      WithoutAbove(q[1..], key, Rank(q[0]));
      SortedCons(q[0], Without(q[1..], key));
    }
  }

  lemma FrontAssoc(x: Payload, a: seq<Payload>, p: Payload, b: seq<Payload>)
    ensures ([x] + a) + [p] + b == [x] + (a + [p] + b)
  {
  }

  lemma BackAssoc(a: seq<Payload>, p: Payload, b: seq<Payload>, x: Payload)
    ensures a + [p] + (b + [x]) == (a + [p] + b) + [x]
  {
  }

  lemma {:induction false} InsertedFacts(q: seq<Payload>, p: Payload)
    ensures forall x :: x in Inserted(q, p) <==> x == p || x in q
  {
    if q != [] {
      assert q == [q[0]] + q[1..];
      InsertedFacts(q[1..], p);
    }
  }

  lemma WithoutKeepsAnswers(q: seq<Payload>, key: int, other: int)
    requires Sorted(q)
    ensures forall x :: x in Without(q, key) ==> x in q
    ensures !HasKey(q, other) ==> !HasKey(Without(q, key), other)
  {
    WithoutSorted(q, key);
    var r := Without(q, key);
    forall i | 0 <= i < |r| && !HasKey(q, other) ensures Rank(r[i]) != other {
      assert r[i] in q;
    }
  }
}
