/** The virtual-method cache over the AVL tree: lookups with least-recently-used eviction. */
module MethodCache {
  import opened Wrappers
  import opened AvlTree
  import opened Ordered
  import opened Lru
  import opened TypeSystem

  // ---------- Lists of entries ----------

  ghost function Elems(q: seq<Entry>): set<Entry> {
    set e | e in q
  }

  ghost predicate Distinct(q: seq<Entry>) {
    forall i, j :: 0 <= i < j < |q| ==> q[i] != q[j]
  }

  function IndexOf(q: seq<Entry>, e: Entry): (k: nat)
    requires e in q
    ensures k < |q| && q[k] == e && forall i :: 0 <= i < k ==> q[i] != e
  {
    if q[0] == e then 0 else 1 + IndexOf(q[1..], e)
  }

  function Unlink(q: seq<Entry>, e: Entry): seq<Entry> {
    if e in q then var k := IndexOf(q, e); q[..k] + q[k + 1..] else q
  }

  function InsertAfter(q: seq<Entry>, at: Entry, e: Entry): seq<Entry> {
    if at in q then var k := IndexOf(q, at); q[..k + 1] + [e] + q[k + 1..] else q
  }

  ghost function Values(q: seq<Entry>): (v: seq<Payload>)
    reads Elems(q)
    ensures |v| == |q| && forall i :: 0 <= i < |q| ==> v[i] == q[i].payload
  {
    seq(|q|, i requires 0 <= i < |q| reads Elems(q) => assert q[i] in Elems(q); q[i].payload)
  }

  /** The in-use list after a removal that found `target` and gave `freed` back to the pool. */
  ghost function Retired(q: seq<Entry>, target: Entry, freed: Entry): seq<Entry> {
    if target == freed then Unlink(q, target)
    else Unlink(InsertAfter(Unlink(q, target), freed, target), freed)
  }

  lemma DistinctCut(q: seq<Entry>, k: nat)
    requires Distinct(q) && k < |q|
    ensures Distinct(q[..k] + q[k + 1..])
  {
    var r := q[..k] + q[k + 1..];
    forall i, j | 0 <= i < j < |r| ensures r[i] != r[j] {
      assert r[i] == if i < k then q[i] else q[i + 1];
      assert r[j] == if j < k then q[j] else q[j + 1];
    }
  }

  lemma UnlinkFacts(q: seq<Entry>, e: Entry)
    requires Distinct(q)
    ensures Distinct(Unlink(q, e)) && Elems(Unlink(q, e)) == Elems(q) - {e}
    ensures |Unlink(q, e)| == if e in q then |q| - 1 else |q|
  {
    if e in q {
      var k := IndexOf(q, e);
      DistinctCut(q, k);
      var a, b := q[..k], q[k + 1..];
      assert q == a + [e] + b;
      assert e !in a && e !in b;
      assert Elems(q) == Elems(a) + {e} + Elems(b);
      assert Elems(a + b) == Elems(a) + Elems(b);
    }
  }

  lemma FirstAt(q: seq<Entry>, e: Entry, k: nat)
    requires k < |q| && q[k] == e && forall i :: 0 <= i < k ==> q[i] != e
    ensures e in q && IndexOf(q, e) == k
  {
  }

  lemma PutBehind<T>(u: seq<T>, k: nat, x: T)
    requires k < |u|
    ensures var v := u[..k + 1] + [x] + u[k + 1..];
            |v| == |u| + 1 && v[k] == u[k] && (forall i :: 0 <= i < k ==> v[i] == u[i]) && v[..k] + v[k + 1..] == u[k := x]
  {
    var v := u[..k + 1] + [x] + u[k + 1..];
    assert v[..k] == u[..k] && v[k + 1..] == [x] + u[k + 1..];
  }

  lemma MovedIn(u: seq<Entry>, target: Entry, freed: Entry)
    requires freed in u && target !in u && target != freed
    ensures Unlink(InsertAfter(u, freed, target), freed) == u[IndexOf(u, freed) := target]
  {
    hide IndexOf;
    var k := IndexOf(u, freed);
    PutBehind(u, k, target);
    FirstAt(u[..k + 1] + [target] + u[k + 1..], freed, k);
  }

  /** A removal drops one place from the in-use list and puts `target` where `freed` was. */
  lemma RetiredAt(q: seq<Entry>, target: Entry, freed: Entry)
    requires Distinct(q) && target in q && freed in q
    ensures var u := Unlink(q, target);
            (target != freed ==> freed in u) &&
            Retired(q, target, freed) == if target == freed then u else u[IndexOf(u, freed) := target]
  {
    UnlinkFacts(q, target);
    var u := Unlink(q, target);
    assert target !in Elems(u) && (target != freed ==> freed in Elems(u));
    if target != freed {
      MovedIn(u, target, freed);
    }
  }

  lemma DistinctUpdate(u: seq<Entry>, k: nat, e: Entry)
    requires Distinct(u) && k < |u| && e !in u
    ensures Distinct(u[k := e]) && Elems(u[k := e]) == Elems(u) - {u[k]} + {e}
  {
    var a, b := u[..k], u[k + 1..];
    assert u == a + [u[k]] + b && u[k := e] == a + [e] + b;
    assert u[k] !in a && u[k] !in b;
    assert Elems(u) == Elems(a) + {u[k]} + Elems(b);
    assert Elems(u[k := e]) == Elems(a) + {e} + Elems(b);
  }

  lemma RetiredLast(q: seq<Entry>, freed: Entry)
    requires Distinct(q) && freed in q
    ensures |Retired(q, q[|q| - 1], freed)| == |q| - 1
    ensures Distinct(Retired(q, q[|q| - 1], freed)) && Elems(Retired(q, q[|q| - 1], freed)) == Elems(q) - {freed}
    ensures forall i :: 0 <= i < |Retired(q, q[|q| - 1], freed)| ==>
              Retired(q, q[|q| - 1], freed)[i] == if q[i] == freed then q[|q| - 1] else q[i]
  {
    var n := |q| - 1;
    var u := q[..n];
    assert IndexOf(q, q[n]) == n;
    assert Unlink(q, q[n]) == u;
    RetiredAt(q, q[n], freed);
    assert q == u + [q[n]];
    assert Elems(q) == Elems(u) + {q[n]};
    if freed != q[n] {
      DistinctUpdate(u, IndexOf(u, freed), q[n]);
    }
  }

  lemma LastOnce(q: seq<Entry>)
    requires Distinct(q) && q != []
    ensures forall i :: 0 <= i < |q| - 1 ==> q[i] in Elems(q) && q[i] != q[|q| - 1]
  {
  }

  /** The payloads in a recency list whose last entry has gone, though its payload may have moved. */
  lemma RecentLeft(q: seq<Entry>, freed: Entry, v: seq<Payload>)
    requires Distinct(q) && freed in q && |v| == |q|
    requires forall i :: 0 <= i < |q| - 1 ==> (if q[i] == freed then q[|q| - 1] else q[i]).payload == v[i]
    ensures Values(Retired(q, q[|q| - 1], freed)) == v[..|q| - 1]
  {
    hide Retired, Distinct;
    RetiredLast(q, freed);
    ValuesAre(Retired(q, q[|q| - 1], freed), v[..|q| - 1]);
  }

  /** Both lists after the last entry's key has been removed. */
  lemma EvictedLists(q: seq<Entry>, fr: seq<Entry>, freed: Entry)
    requires Distinct(q) && Distinct(fr) && Elems(q) !! Elems(fr) && freed in Elems(q)
    ensures var r, f := Retired(q, q[|q| - 1], freed), fr + [freed];
            && Distinct(r) && Distinct(f) && |r| + |f| == |q| + |fr|
            && Elems(r) == Elems(q) - {freed} && Elems(f) == Elems(fr) + {freed}
  {
    RetiredLast(q, freed);
    assert freed !in Elems(fr);
  }

  /** Both lists after the first free entry has been put to use. */
  lemma UsedLists(q: seq<Entry>, fr: seq<Entry>)
    requires Distinct(q) && Distinct(fr) && Elems(q) !! Elems(fr) && fr != []
    ensures var r, f := [fr[0]] + q, fr[1..];
            && Distinct(r) && Distinct(f) && Elems(r) !! Elems(f) && |r| + |f| == |q| + |fr|
            && Elems(r) == Elems(q) + {fr[0]} && Elems(f) == Elems(fr) - {fr[0]}
  {
    assert fr == [fr[0]] + fr[1..];
    assert fr[0] in Elems(fr) && fr[0] !in fr[1..];
    assert Elems(fr) == {fr[0]} + Elems(fr[1..]);
    assert Elems([fr[0]] + q) == {fr[0]} + Elems(q);
  }

  // ---------- Nodes of a sorted tree ----------

  lemma {:induction false} NodePayload(n: Entry?, s: Shape, e: Entry)
    requires Linked(n, s) && e in Nodes(s)
    ensures e.payload in InOrder(s)
  {
    if e in Nodes(s.l) {
      NodePayload(s.node.left, s.l, e);
    } else if e in Nodes(s.r) {
      NodePayload(s.node.right, s.r, e);
    }
  }

  /** Node `e` of the shape holds `key`. */
  ghost predicate HoldsKey(s: Shape, e: Entry, key: int) {
    match s
    case Nil => false
    case Bin(l, n, _, p, r) => (e == n && Rank(p) == key) || HoldsKey(l, e, key) || HoldsKey(r, e, key)
  }

  lemma {:induction false} HeldIn(s: Shape, e: Entry, key: int)
    requires HoldsKey(s, e, key)
    ensures e in Nodes(s)
  {
    if HoldsKey(s.l, e, key) {
      HeldIn(s.l, e, key);
    } else if HoldsKey(s.r, e, key) {
      HeldIn(s.r, e, key);
    }
  }

  lemma {:induction false} HeldKey(n: Entry?, s: Shape, e: Entry, key: int)
    requires Linked(n, s) && HoldsKey(s, e, key)
    ensures e in Nodes(s) && Rank(e.payload) == key
  {
    if HoldsKey(s.l, e, key) {
      HeldKey(s.node.left, s.l, e, key);
    } else if HoldsKey(s.r, e, key) {
      HeldKey(s.node.right, s.r, e, key);
    }
  }

  /** A key sits in one node only. */
  lemma {:induction false} KeyOnce(n: Entry?, s: Shape, a: Entry, b: Entry)
    requires Linked(n, s) && Sorted(InOrder(s)) && a in Nodes(s) && b in Nodes(s)
    requires Rank(a.payload) == Rank(b.payload)
    ensures a == b
  {
    SortedSplit(InOrder(s.l), s.payload, InOrder(s.r));
    if a in Nodes(s.l) { NodePayload(s.node.left, s.l, a); }
    if b in Nodes(s.l) { NodePayload(s.node.left, s.l, b); }
    if a in Nodes(s.r) { NodePayload(s.node.right, s.r, a); }
    if b in Nodes(s.r) { NodePayload(s.node.right, s.r, b); }
    if a in Nodes(s.l) && b in Nodes(s.l) {
      KeyOnce(s.node.left, s.l, a, b);
    } else if a in Nodes(s.r) && b in Nodes(s.r) {
      KeyOnce(s.node.right, s.r, a, b);
    }
  }

  lemma HeldOnce(n: Entry?, s: Shape, a: Entry)
    requires Linked(n, s) && Sorted(InOrder(s)) && a in Nodes(s)
    ensures forall e :: e in Nodes(s) && HoldsKey(s, e, Rank(a.payload)) ==> e == a
  {
    forall e | e in Nodes(s) && HoldsKey(s, e, Rank(a.payload)) ensures e == a {
      HeldKey(n, s, e, Rank(a.payload));
      KeyOnce(n, s, e, a);
    }
  }

  ghost predicate OtherKeys(q: seq<Entry>, e: Entry)
    reads Elems(q), e
  {
    forall i :: 0 <= i < |q| && q[i] != e ==> (assert q[i] in Elems(q); Rank(q[i].payload) != Rank(e.payload))
  }

  lemma ValuesSplit(a: seq<Entry>, e: Entry, b: seq<Entry>)
    ensures Values(a + [e] + b) == Values(a) + [e.payload] + Values(b)
    ensures Values(a + b) == Values(a) + Values(b)
  {
  }

  lemma ValuesAre(q: seq<Entry>, v: seq<Payload>)
    requires |q| == |v| && forall i :: 0 <= i < |q| ==> (assert q[i] in Elems(q); q[i].payload == v[i])
    ensures Values(q) == v
  {
  }

  ghost predicate NoKey(q: seq<Payload>, key: int) {
    forall i :: 0 <= i < |q| ==> Rank(q[i]) != key
  }

  lemma WithoutMiddle(a: seq<Payload>, p: Payload, b: seq<Payload>)
    requires NoKey(a, Rank(p)) && NoKey(b, Rank(p))
    ensures Without(a + [p] + b, Rank(p)) == a + b
  {
    WithoutAppend(a + [p], b, Rank(p));
    WithoutAppend(a, [p], Rank(p));
    WithoutAbsent(a, Rank(p));
    WithoutAbsent(b, Rank(p));
    assert Without([p], Rank(p)) == [];
  }

  /** Unlinking an entry drops its key, and nothing else, from the recency list. */
  lemma ValuesUnlinked(q: seq<Entry>, e: Entry)
    requires Distinct(q) && e in q && OtherKeys(q, e)
    ensures Values(Unlink(q, e)) == Without(Values(q), Rank(e.payload))
  {
    var k := IndexOf(q, e);
    var a, b := q[..k], q[k + 1..];
    assert q == a + [e] + b;
    ValuesSplit(a, e, b);
    assert forall i :: 0 <= i < |a| ==> a[i] == q[i] && q[i] != e;
    assert forall i :: 0 <= i < |b| ==> b[i] == q[k + 1 + i] && q[k + 1 + i] != e;
    WithoutMiddle(Values(a), e.payload, Values(b));
  }

  // ---------- Grafting a changed subtree ----------

  lemma GraftLeft(s: Shape, u: Shape, e: Entry, p: Payload)
    requires s.Bin? && Proper(s) && Proper(u) && Nodes(u) == Nodes(s.l) + {e} && e !in Nodes(s)
    requires Sorted(InOrder(s)) && Rank(p) < Rank(s.payload) && InOrder(u) == Inserted(InOrder(s.l), p)
    ensures var t := s.(l := u);
            Proper(t) && Nodes(t) == Nodes(s) + {e} && InOrder(t) == Inserted(InOrder(s), p)
  {
    InsertedLeft(InOrder(s.l), s.payload, InOrder(s.r), p);
  }

  lemma GraftRight(s: Shape, u: Shape, e: Entry, p: Payload)
    requires s.Bin? && Proper(s) && Proper(u) && Nodes(u) == Nodes(s.r) + {e} && e !in Nodes(s)
    requires Sorted(InOrder(s)) && Rank(s.payload) < Rank(p) && InOrder(u) == Inserted(InOrder(s.r), p)
    ensures var t := s.(r := u);
            Proper(t) && Nodes(t) == Nodes(s) + {e} && InOrder(t) == Inserted(InOrder(s), p)
  {
    InsertedRight(InOrder(s.l), s.payload, InOrder(s.r), p);
  }

  lemma PruneLeft(s: Shape, u: Shape, e: Entry)
    requires s.Bin? && Proper(s) && Proper(u) && e in Nodes(s.l) && Nodes(u) == Nodes(s.l) - {e}
    ensures Proper(s.(l := u)) && Nodes(s.(l := u)) == Nodes(s) - {e}
  {
  }

  lemma PruneRight(s: Shape, u: Shape, e: Entry)
    requires s.Bin? && Proper(s) && Proper(u) && e in Nodes(s.r) && Nodes(u) == Nodes(s.r) - {e}
    ensures Proper(s.(r := u)) && Nodes(s.(r := u)) == Nodes(s) - {e}
  {
  }

  lemma RegrowLeftFacts(s: Shape, t: Shape)
    requires s.Bin? && Balanced(s) && t.Bin? && t == s.(l := t.l) && Balanced(t.l)
    ensures Balanced(t.r) && -1 <= t.skew <= 1
    ensures Height(t.l) == Height(s.l) + 1 ==> t.skew == Height(t.r) - (Height(t.l) - 1) && Height(s) == Above(Height(t.l) - 1, Height(t.r))
    ensures Height(t.l) == Height(s.l) ==> Balanced(t) && Height(t) == Height(s)
  {
    BinFacts(s);
    BinFacts(t);
    hide Balanced, Height;
  }

  /** Rebalances `t`, which is `s` with a changed left subtree, when that subtree has grown. */
  method RegrowLeft(n: Entry, r: Result, ghost s: Shape, ghost t: Shape) returns (m: Entry, res: Result, ghost u: Shape)
    requires s.Bin? && Balanced(s) && t.Bin? && t == s.(l := t.l) && Proper(t) && Linked(n, t) && Balanced(t.l)
    requires r == RES_BALANCE ==> Grown(t.l) && Height(t.l) == Height(s.l) + 1
    requires r != RES_BALANCE ==> Height(t.l) == Height(s.l)
    modifies Nodes(t)`left, Nodes(t)`right, Nodes(t)`skew
    ensures Proper(u) && Linked(m, u) && Balanced(u) && InOrder(u) == InOrder(t) && Nodes(u) == Nodes(t)
    ensures if r == RES_BALANCE then res == RES_OK || res == RES_BALANCE else res == r && u == t && m == n
    ensures res == RES_BALANCE ==> Grown(u)
    ensures Height(u) == Height(s) + if res == RES_BALANCE then 1 else 0
  {
    hide Balanced, Height, Proper, InOrder, Linked, Grown, Above;
    RegrowLeftFacts(s, t);
    m, res, u := n, r, t;
    if r == RES_BALANCE {
      m, res, u := LeftGrown(n, t);
    }
  }

  lemma RegrowRightFacts(s: Shape, t: Shape)
    requires s.Bin? && Balanced(s) && t.Bin? && t == s.(r := t.r) && Balanced(t.r)
    ensures Balanced(t.l) && -1 <= t.skew <= 1
    ensures Height(t.r) == Height(s.r) + 1 ==> t.skew == (Height(t.r) - 1) - Height(t.l) && Height(s) == Above(Height(t.l), Height(t.r) - 1)
    ensures Height(t.r) == Height(s.r) ==> Balanced(t) && Height(t) == Height(s)
  {
    BinFacts(s);
    BinFacts(t);
    hide Balanced, Height;
  }

  lemma BinFacts(s: Shape)
    requires s.Bin?
    ensures Balanced(s) <==> Balanced(s.l) && Balanced(s.r) && s.skew == Height(s.r) - Height(s.l) && -1 <= s.skew <= 1
    ensures Height(s) == Above(Height(s.l), Height(s.r))
  {
  }

  /** Rebalances `t`, which is `s` with a changed right subtree, when that subtree has grown. */
  method RegrowRight(n: Entry, r: Result, ghost s: Shape, ghost t: Shape) returns (m: Entry, res: Result, ghost u: Shape)
    requires s.Bin? && Balanced(s) && t.Bin? && t == s.(r := t.r) && Proper(t) && Linked(n, t) && Balanced(t.r)
    requires r == RES_BALANCE ==> Grown(t.r) && Height(t.r) == Height(s.r) + 1
    requires r != RES_BALANCE ==> Height(t.r) == Height(s.r)
    modifies Nodes(t)`left, Nodes(t)`right, Nodes(t)`skew
    ensures Proper(u) && Linked(m, u) && Balanced(u) && InOrder(u) == InOrder(t) && Nodes(u) == Nodes(t)
    ensures if r == RES_BALANCE then res == RES_OK || res == RES_BALANCE else res == r && u == t && m == n
    ensures res == RES_BALANCE ==> Grown(u)
    ensures Height(u) == Height(s) + if res == RES_BALANCE then 1 else 0
  {
    hide Balanced, Height, Proper, InOrder, Linked, Grown, Above;
    RegrowRightFacts(s, t);
    m, res, u := n, r, t;
    if r == RES_BALANCE {
      m, res, u := RightGrown(n, t);
    }
  }

  /** Rebalances `t`, which is `s` with a left subtree one level lower. */
  method ShrinkLeft(n: Entry, ghost s: Shape, ghost t: Shape) returns (m: Entry, res: Result, ghost u: Shape)
    requires s.Bin? && Balanced(s) && t.Bin? && t == s.(l := t.l) && Proper(t) && Linked(n, t) && Balanced(t.l)
    requires Height(t.l) == Height(s.l) - 1
    modifies Nodes(t)`left, Nodes(t)`right, Nodes(t)`skew
    ensures Proper(u) && Linked(m, u) && Balanced(u) && InOrder(u) == InOrder(t) && Nodes(u) == Nodes(t)
    ensures res == RES_OK || res == RES_BALANCE
    ensures Height(u) == Height(s) - if res == RES_BALANCE then 1 else 0
  {
    m, res, u := LeftShrunk(n, t);
  }

  /** Rebalances `t`, which is `s` with a right subtree one level lower. */
  method ShrinkRight(n: Entry, ghost s: Shape, ghost t: Shape) returns (m: Entry, res: Result, ghost u: Shape)
    requires s.Bin? && Balanced(s) && t.Bin? && t == s.(r := t.r) && Proper(t) && Linked(n, t) && Balanced(t.r)
    requires Height(t.r) == Height(s.r) - 1
    modifies Nodes(t)`left, Nodes(t)`right, Nodes(t)`skew
    ensures Proper(u) && Linked(m, u) && Balanced(u) && InOrder(u) == InOrder(t) && Nodes(u) == Nodes(t)
    ensures res == RES_OK || res == RES_BALANCE
    ensures Height(u) == Height(s) - if res == RES_BALANCE then 1 else 0
  {
    m, res, u := RightShrunk(n, t);
  }

  /** The answer is that of the slow search. */
  ghost predicate Right(types: Types, cls: uint32, mdVirtual: uint32, found: bool, md: uint32) {
    if found then types.Resolve(cls, mdVirtual) == Some(md) else types.Resolve(cls, mdVirtual) == None
  }

  /** What the shortcut relies on. */
  lemma Itself(types: Types, mdVirtual: uint32)
    requires mdVirtual in types.place
    ensures types.Resolve(types.place[mdVirtual].0, mdVirtual) == Some(mdVirtual) <==> types.ComesFirst(mdVirtual)
    ensures NoDuplicates(types) && types.IsCallable(mdVirtual) ==> types.ComesFirst(mdVirtual)
  {
    types.FindsItself(mdVirtual);
    if NoDuplicates(types) && types.IsCallable(mdVirtual) { AllFindThemselves(types, mdVirtual); }
  }

  class VirtualMethodTable {
    const types: Types
    var root: Entry?
    var freeItems: seq<Entry>
    var inUse: seq<Entry>
    ghost var shape: Shape
    ghost const pool: set<Entry>
    ghost const capacity: nat
    ghost var history: seq<Payload>  // the lookups that reached the cache and had an answer

    /** All the given entries start out free. */
    constructor (types: Types, entries: seq<Entry>)
      requires Distinct(entries)
      ensures Valid() && this.types == types && history == [] && capacity == |entries| && pool == Elems(entries)
      ensures inUse == [] && freeItems == entries
    {
      this.types := types;
      root, inUse, shape := null, [], Nil;
      pool, capacity, history := Elems(entries), |entries|, [];
      freeItems := [];
      new;
      for i := 0 to |entries|
        invariant freeItems == entries[..i] && inUse == [] && root == null && shape == Nil && history == []
      {
        freeItems := freeItems + [entries[i]];
      }
      assert freeItems == entries;
    }

    /** The cached entries, the most recently used first. */
    ghost function Recent(): seq<Payload>
      reads this, Elems(inUse)
    {
      Values(inUse)
    }

    ghost predicate Structure()
      reads this, pool
    {
      && Distinct(freeItems) && Distinct(inUse) && Elems(inUse) !! Elems(freeItems)
      && Elems(inUse) + Elems(freeItems) == pool && |inUse| + |freeItems| == capacity
      && Nodes(shape) == Elems(inUse)
      && Proper(shape) && Linked(root, shape) && Balanced(shape) && Sorted(InOrder(shape))
    }

    ghost predicate Valid()
      reads this, pool
    {
      && Structure()
      && (forall p :: p in InOrder(shape) ==> types.Resolve(p.cls, p.mdVirtual) == Some(p.md))
      && Recent() == Cached(history, capacity)
    }

    // ---------- Search ----------

    /** The node of a key.  A tree of `|InOrder(shape)|` nodes is not high enough for more steps than it takes. */
    method Find(key: Payload) returns (node: Entry?, ghost steps: nat)
      requires Structure()
      ensures steps <= Height(shape) && FewestNodes(steps) <= |InOrder(shape)|
      ensures node == null <==> !HasKey(InOrder(shape), Rank(key))
      ensures node != null ==> node in Nodes(shape) && Rank(node.payload) == Rank(key)
    {
      BalancedIsShallow(shape);
      node, steps := root, 0;
      ghost var s := shape;
      while node != null
        invariant steps + Height(s) <= Height(shape) && FewestNodes(steps) <= |InOrder(shape)|
        invariant Linked(node, s) && Nodes(s) <= Nodes(shape) && Sorted(InOrder(s))
        invariant HasKey(InOrder(s), Rank(key)) <==> HasKey(InOrder(shape), Rank(key))
        decreases s
      {
        steps := steps + 1;
        FewestNodesUp(steps, Height(shape));
        LinkedNode(node, s);
        CompareOrders(node.payload, key);
        HasKeySplit(InOrder(s.l), s.payload, InOrder(s.r), Rank(key));
        SortedSplit(InOrder(s.l), s.payload, InOrder(s.r));
        var cmp := Compare(node.payload, key);
        if cmp == 0 {
          return;
        }
        if cmp > 0 {
          node, s := node.left, s.l;
        } else {
          node, s := node.right, s.r;
        }
      }
    }

    // ---------- The recency list ----------

    /** In every reachable state the cache holds the most recently used distinct keys, as many as fit,
        each with the answer of the slow search. */
    lemma HoldsMostRecent()
      requires Valid()
      ensures Recent() == Take(ByRecency(history), capacity)
      ensures forall p :: p in Recent() ==> types.Resolve(p.cls, p.mdVirtual) == Some(p.md)
    {
      CacheIsRecency(history, capacity);
      forall i | 0 <= i < |inUse| ensures inUse[i].payload in InOrder(shape) {
        assert inUse[i] in Elems(inUse);
        NodePayload(root, shape, inUse[i]);
      }
    }

    lemma InUseKeys(e: Entry)
      requires Structure() && e in inUse
      ensures OtherKeys(inUse, e)
    {
      forall i | 0 <= i < |inUse| && inUse[i] != e ensures Rank(inUse[i].payload) != Rank(e.payload) {
        assert inUse[i] in Elems(inUse) && e in Elems(inUse);
        if Rank(inUse[i].payload) == Rank(e.payload) {
          KeyOnce(root, shape, inUse[i], e);
        }
      }
    }

    /** A key that is not in the tree is not in the recency list either. */
    lemma NotRecent(p: Payload)
      requires Structure() && !HasKey(InOrder(shape), Rank(p))
      ensures !HasKey(Recent(), Rank(p))
    {
      forall i | 0 <= i < |inUse| ensures Rank(inUse[i].payload) != Rank(p) {
        assert inUse[i] in Elems(inUse);
        NodePayload(root, shape, inUse[i]);
      }
    }

    method MoveToFront(en: Entry)
      requires Structure() && en in inUse
      modifies this`inUse
      ensures Structure()
      ensures Recent() == [en.payload] + Without(old(Recent()), Rank(en.payload))
    {
      InUseKeys(en);
      UnlinkFacts(inUse, en);
      ValuesUnlinked(inUse, en);
      ghost var u := Unlink(inUse, en);
      inUse := [en] + Unlink(inUse, en);
      assert Elems(inUse) == {en} + Elems(u);
      assert Values(inUse) == [en.payload] + Values(u);
      assert en !in Elems(u);
    }

    /** Removes the key of an entry from the tree; the node given back may be another one. */
    method RemoveEntry(en: Entry) returns (ghost freed: Entry)
      requires Structure() && en in inUse
      modifies this`root, this`freeItems, this`inUse, this`shape, pool
      ensures Proper(shape) && Linked(root, shape) && Balanced(shape)
      ensures freed in old(Nodes(shape)) && Nodes(shape) == old(Nodes(shape)) - {freed}
      ensures InOrder(shape) == Without(old(InOrder(shape)), Rank(old(en.payload)))
      ensures inUse == Retired(old(inUse), en, freed) && freeItems == old(freeItems) + [freed]
      ensures en.payload == freed.payload && forall e :: e in pool && e != en ==> e.payload == old(e.payload)
    {
      assert en in Elems(inUse);
      NodePayload(root, shape, en);
      HeldOnce(root, shape, en);
      ghost var key := Rank(en.payload);
      assert HasKey(InOrder(shape), key);
      var m, res;
      ghost var t, target, f;
      m, res, t, target, f := Remove(root, en.payload, shape);
      HeldIn(shape, target, key);
      assert target == en;
      root, shape, freed := m, t, f;
    }

    /** Makes room by removing the least recently used key. */
    method Evict()
      requires Structure() && inUse != []
      modifies this`root, this`freeItems, this`inUse, this`shape, pool
      ensures Structure() && freeItems != []
      ensures Recent() == old(Recent())[..|old(Recent())| - 1]
      ensures InOrder(shape) == Without(old(InOrder(shape)), Rank(old(Recent())[|old(Recent())| - 1]))
    {
      hide Proper, Balanced, Distinct, Retired, Without, Sorted;
      ghost var q := inUse;
      var en := inUse[|inUse| - 1];
      ghost var freed := RemoveEntry(en);
      EvictedLists(q, old(freeItems), freed);
      WithoutSorted(old(InOrder(shape)), Rank(old(en.payload)));
      LastOnce(q);
      RecentLeft(q, freed, old(Recent()));
    }

    /** Puts the first free entry to use for a new key. */
    method InsertEntry(p: Payload)
      requires Structure() && freeItems != [] && !HasKey(InOrder(shape), Rank(p))
      modifies this`root, this`freeItems, this`inUse, this`shape, pool
      ensures Proper(shape) && Linked(root, shape) && Balanced(shape)
      ensures Nodes(shape) == old(Nodes(shape)) + {old(freeItems[0])}
      ensures InOrder(shape) == Inserted(old(InOrder(shape)), p)
      ensures freeItems == old(freeItems)[1..] && inUse == [old(freeItems)[0]] + old(inUse)
      ensures old(freeItems)[0].payload == p
      ensures forall e :: e in old(Elems(inUse)) ==> e.payload == old(e.payload)
    {
      var m, res;
      ghost var t;
      m, res, t := Insert(root, p, shape);
      root, shape := m, t;
    }

    method Add(p: Payload)
      requires Structure() && freeItems != [] && !HasKey(InOrder(shape), Rank(p))
      modifies this`root, this`freeItems, this`inUse, this`shape, pool
      ensures Structure() && Recent() == [p] + old(Recent())
      ensures InOrder(shape) == Inserted(old(InOrder(shape)), p)
    {
      assert Sorted(Inserted(InOrder(shape), p)) by { InsertedSorted(InOrder(shape), p); }
      UsedLists(inUse, freeItems);
      ghost var q, v := inUse, Recent();
      InsertEntry(p);
      assert Values(q) == v by {
        forall i | 0 <= i < |q| ensures q[i].payload == v[i] {
          assert q[i] in old(Elems(inUse));
        }
        ValuesAre(q, v);
      }
      ValuesSplit([], inUse[0], q);
      assert inUse == [] + [inUse[0]] + q && [] + [p] + v == [p] + v;
    }

    // ---------- Lookup ----------

    /** The answer, from the cache or from the slow search, and the lookup recorded in the history. */
    method FindVirtualMethod(cls: uint32, mdVirtual: uint32) returns (found: bool, md: uint32)
      requires Valid()
      modifies this`root, this`freeItems, this`inUse, this`shape, this`history, pool
      ensures Valid()
      ensures Terminal(cls, mdVirtual) ==> found && md == mdVirtual && history == old(history)
      ensures !Terminal(cls, mdVirtual) ==>
                match types.Resolve(cls, mdVirtual)
                case None => !found && history == old(history)
                case Some(v) => found && md == v && history == old(history) + [Payload(mdVirtual, cls, v)]
      ensures Right(types, cls, mdVirtual, found, md) <==> !Terminal(cls, mdVirtual) || types.ComesFirst(mdVirtual)
      ensures NoDuplicates(types) && types.IsCallable(mdVirtual) ==> Right(types, cls, mdVirtual, found, md)
      ensures !Terminal(cls, mdVirtual) || (NoDuplicates(types) && types.IsCallable(mdVirtual)) ==>
                types.Dispatches(cls, mdVirtual, if found then Some(md) else None)
    {
      hide Metadata.Dispatches, Metadata.Resolve, Metadata.ComesFirst, NoDuplicates;
      types.ResolveDispatches(cls, mdVirtual);
      if types.Owner(mdVirtual) == Some(cls) { Itself(types, mdVirtual); }
      if types.Owner(mdVirtual) == Some(cls) && !types.IsAbstract(mdVirtual) {
        return true, mdVirtual;
      }
      var key := Payload(mdVirtual, cls, 0);
      var en, _ := Find(key);
      if en != null {
        md := Hit(en, cls, mdVirtual);
        return true, md;
      }
      var r := types.FindVirtualMethodDef(cls, mdVirtual);
      if r == None {
        return false, 0;
      }
      md := r.value;
      key := key.(md := md);
      Miss(key);
      return true, md;
    }

    ghost predicate Terminal(cls: uint32, mdVirtual: uint32) {
      types.Owner(mdVirtual) == Some(cls) && !types.IsAbstract(mdVirtual)
    }

    method Hit(en: Entry, cls: uint32, mdVirtual: uint32) returns (md: uint32)
      requires Valid() && en in Nodes(shape) && Rank(en.payload) == Rank(Payload(mdVirtual, cls, 0))
      modifies this`inUse, this`history
      ensures Valid() && types.Resolve(cls, mdVirtual) == Some(md)
      ensures history == old(history) + [Payload(mdVirtual, cls, md)]
    {
      NodePayload(root, shape, en);
      CompareOrders(en.payload, Payload(mdVirtual, cls, 0));
      md := en.payload.md;
      history := history + [en.payload];
      assert history[..|history| - 1] == old(history);
      MoveToFront(en);
    }

    method Miss(p: Payload)
      requires Valid() && !HasKey(InOrder(shape), Rank(p))
      requires types.Resolve(p.cls, p.mdVirtual) == Some(p.md)
      modifies this`root, this`freeItems, this`inUse, this`shape, this`history, pool
      ensures Valid() && history == old(history) + [p]
    {
      NotRecent(p);
      TouchNew(Recent(), p, capacity);
      history := history + [p];
      assert history[..|history| - 1] == old(history);
      var room := MakeRoom(p);
      if !room {
        assert capacity == 0;
        return;
      }
      InsertedFacts(InOrder(shape), p);
      Add(p);
    }

    lemma Sizes()
      requires Structure()
      ensures |inUse| + |freeItems| == capacity && Sorted(InOrder(shape)) && |Recent()| == |inUse|
      ensures capacity > 0 ==> Take(Recent(), capacity - 1) == if |inUse| < capacity then Recent() else Recent()[..capacity - 1]
    {
    }

    /** A free entry for a key that is not in the tree, unless the pool is empty. */
    method MakeRoom(ghost p: Payload) returns (room: bool)
      requires Structure() && !HasKey(InOrder(shape), Rank(p))
      modifies this`root, this`freeItems, this`inUse, this`shape, pool
      ensures Structure() && !HasKey(InOrder(shape), Rank(p))
      ensures room <==> capacity > 0
      ensures room ==> freeItems != [] && Recent() == Take(old(Recent()), capacity - 1)
      ensures !room ==> Recent() == old(Recent())
      ensures forall x :: x in InOrder(shape) ==> x in old(InOrder(shape))
    {
      hide Structure, HasKey, Without, Take, Sorted;
      Sizes();
      if freeItems == [] {
        if inUse == [] {
          return false;
        }
        Evict();
        WithoutKeepsAnswers(old(InOrder(shape)), old(Rank(inUse[|inUse| - 1].payload)), Rank(p));
      }
      return true;
    }

    // ---------- Callbacks of the tree ----------

    method NewNode(datum: Payload) returns (en: Entry?)
      modifies this`freeItems, this`inUse, Elems(freeItems)`payload
      ensures old(freeItems) == [] ==> en == null && freeItems == [] && inUse == old(inUse)
      ensures old(freeItems) != [] ==> en == old(freeItems)[0] && freeItems == old(freeItems)[1..] && inUse == [en] + old(inUse)
      ensures en != null ==> en.payload == datum
      ensures forall e :: e in old(Elems(freeItems)) && e != en ==> e.payload == old(e.payload)
    {
      if freeItems == [] {
        return null;
      }
      en := freeItems[0];
      assert en in Elems(freeItems);
      freeItems := freeItems[1..];
      en.payload := datum;
      inUse := [en] + inUse;
    }

    method FreeNode(node: Entry)
      modifies this`freeItems, this`inUse
      ensures inUse == Unlink(old(inUse), node) && freeItems == old(freeItems) + [node]
    {
      inUse := Unlink(inUse, node);
      freeItems := freeItems + [node];
    }

    method Reassign(from: Entry, to: Entry)
      modifies this`inUse, to`payload
      ensures inUse == InsertAfter(Unlink(old(inUse), to), from, to)
      ensures to.payload == old(from.payload)
    {
      inUse := InsertAfter(Unlink(inUse, to), from, to);
      to.payload := from.payload;
    }

    // ---------- Insertion ----------

    /** What an insertion into `s` did: a duplicate or an empty pool changes nothing, otherwise the
        first free entry now holds `datum`, heads the in-use list and sits in the tree at its place. */
    twostate predicate InsertDone(new s: Shape, datum: Payload, res: Result, new t: Shape)
      reads this
    {
      match res
      case RES_DUPLICATE => HasKey(InOrder(s), Rank(datum)) && t == s && freeItems == old(freeItems) && inUse == old(inUse)
      case RES_ERROR =>
        && !HasKey(InOrder(s), Rank(datum)) && old(freeItems) == []
        && t == s && freeItems == [] && inUse == old(inUse)
      case RES_NOTFOUND => false
      case _ =>
        && !HasKey(InOrder(s), Rank(datum)) && old(freeItems) != []
        && freeItems == old(freeItems)[1..] && inUse == [old(freeItems)[0]] + old(inUse)
        && InOrder(t) == Inserted(InOrder(s), datum)
        && Nodes(t) == Nodes(s) + {old(freeItems)[0]}
        && Height(t) == Height(s) + (if res == RES_BALANCE then 1 else 0)
        && (res == RES_BALANCE ==> Grown(t))
    }

    method InsertLeaf(datum: Payload) returns (m: Entry?, res: Result, ghost t: Shape)
      requires Distinct(freeItems)
      modifies this`freeItems, this`inUse, Elems(freeItems)
      ensures Proper(t) && Linked(m, t) && Balanced(t)
      ensures InsertDone(Nil, datum, res, t)
      ensures res == RES_OK || res == RES_BALANCE ==> old(freeItems)[0].payload == datum
    {
      m := NewNode(datum);
      if m == null {
        return m, RES_ERROR, Nil;
      }
      m.left, m.right, m.skew := null, null, SKEW_NONE;
      t := Bin(Nil, m, SKEW_NONE, datum, Nil);
      assert InOrder(t) == [datum];
      return m, RES_BALANCE, t;
    }

    method Insert(n: Entry?, datum: Payload, ghost s: Shape) returns (m: Entry?, res: Result, ghost t: Shape)
      requires Proper(s) && Linked(n, s) && Balanced(s) && Sorted(InOrder(s))
      requires Distinct(freeItems) && Elems(freeItems) !! Nodes(s)
      modifies this`freeItems, this`inUse, Nodes(s)`left, Nodes(s)`right, Nodes(s)`skew, Elems(freeItems)
      ensures Proper(t) && Linked(m, t) && Balanced(t)
      ensures InsertDone(s, datum, res, t)
      ensures res == RES_OK || res == RES_BALANCE ==> old(freeItems)[0].payload == datum
      decreases s, 2
    {
      if n == null {
        m, res, t := InsertLeaf(datum);
        return;
      }
      LinkedNode(n, s);
      var cmp := Compare(n.payload, datum);
      CompareOrders(n.payload, datum);
      if cmp > 0 {
        m, res, t := InsertLeft(n, datum, s);
      } else if cmp < 0 {
        m, res, t := InsertRight(n, datum, s);
      } else {
        HasKeySplit(InOrder(s.l), s.payload, InOrder(s.r), Rank(datum));
        m, res, t := n, RES_DUPLICATE, s;
      }
    }

    method InsertLeft(n: Entry, datum: Payload, ghost s: Shape) returns (m: Entry, res: Result, ghost t: Shape)
      requires s.Bin? && Proper(s) && Linked(n, s) && Balanced(s) && Sorted(InOrder(s))
      requires Distinct(freeItems) && Elems(freeItems) !! Nodes(s)
      requires Rank(datum) < Rank(n.payload)
      modifies this`freeItems, this`inUse, Nodes(s)`left, Nodes(s)`right, Nodes(s)`skew, Elems(freeItems)
      ensures Proper(t) && Linked(m, t) && Balanced(t)
      ensures InsertDone(s, datum, res, t)
      ensures res == RES_OK || res == RES_BALANCE ==> old(freeItems)[0].payload == datum
      decreases s, 1
    {
      HasKeySplit(InOrder(s.l), s.payload, InOrder(s.r), Rank(datum));
      res, t := InsertBelowLeft(n, datum, s);
      m, res, t := RegrowLeft(n, res, s, t);
    }

    /** The recursive insertion below the left child, linked back but not yet rebalanced. */
    method InsertBelowLeft(n: Entry, datum: Payload, ghost s: Shape) returns (res: Result, ghost t: Shape)
      requires s.Bin? && Proper(s) && Linked(n, s) && Balanced(s) && Sorted(InOrder(s))
      requires Distinct(freeItems) && Elems(freeItems) !! Nodes(s)
      requires Rank(datum) < Rank(n.payload)
      modifies this`freeItems, this`inUse, Nodes(s)`left, Nodes(s)`right, Nodes(s)`skew, Elems(freeItems)
      ensures t.Bin? && t == s.(l := t.l) && Proper(t) && Linked(n, t) && Balanced(t.l)
      ensures InsertDone(s.l, datum, res, t.l)
      ensures res == RES_OK || res == RES_BALANCE ==> old(freeItems)[0].payload == datum
      ensures res == RES_OK || res == RES_BALANCE ==>
                && Nodes(t) == Nodes(s) + {old(freeItems)[0]}
                && InOrder(t) == Inserted(InOrder(s), datum)
      decreases s, 0
    {
      LinkedNode(n, s);
      SortedSplit(InOrder(s.l), s.payload, InOrder(s.r));
      assert allocated(Nodes(s.r)) && allocated(Nodes(s.l));
      var c;
      ghost var u;
      c, res, u := Insert(n.left, datum, s.l);
      n.left := c;
      t := s.(l := u);
      assert Linked(n.right, s.r);
      if res == RES_OK || res == RES_BALANCE {
        GraftLeft(s, u, old(freeItems)[0], datum);
      }
    }

    method InsertRight(n: Entry, datum: Payload, ghost s: Shape) returns (m: Entry, res: Result, ghost t: Shape)
      requires s.Bin? && Proper(s) && Linked(n, s) && Balanced(s) && Sorted(InOrder(s))
      requires Distinct(freeItems) && Elems(freeItems) !! Nodes(s)
      requires Rank(n.payload) < Rank(datum)
      modifies this`freeItems, this`inUse, Nodes(s)`left, Nodes(s)`right, Nodes(s)`skew, Elems(freeItems)
      ensures Proper(t) && Linked(m, t) && Balanced(t)
      ensures InsertDone(s, datum, res, t)
      ensures res == RES_OK || res == RES_BALANCE ==> old(freeItems)[0].payload == datum
      decreases s, 1
    {
      HasKeySplit(InOrder(s.l), s.payload, InOrder(s.r), Rank(datum));
      res, t := InsertBelowRight(n, datum, s);
      m, res, t := RegrowRight(n, res, s, t);
    }

    /** The recursive insertion below the right child, linked back but not yet rebalanced. */
    method InsertBelowRight(n: Entry, datum: Payload, ghost s: Shape) returns (res: Result, ghost t: Shape)
      requires s.Bin? && Proper(s) && Linked(n, s) && Balanced(s) && Sorted(InOrder(s))
      requires Distinct(freeItems) && Elems(freeItems) !! Nodes(s)
      requires Rank(n.payload) < Rank(datum)
      modifies this`freeItems, this`inUse, Nodes(s)`left, Nodes(s)`right, Nodes(s)`skew, Elems(freeItems)
      ensures t.Bin? && t == s.(r := t.r) && Proper(t) && Linked(n, t) && Balanced(t.r)
      ensures InsertDone(s.r, datum, res, t.r)
      ensures res == RES_OK || res == RES_BALANCE ==> old(freeItems)[0].payload == datum
      ensures res == RES_OK || res == RES_BALANCE ==>
                && Nodes(t) == Nodes(s) + {old(freeItems)[0]}
                && InOrder(t) == Inserted(InOrder(s), datum)
      decreases s, 0
    {
      LinkedNode(n, s);
      SortedSplit(InOrder(s.l), s.payload, InOrder(s.r));
      assert allocated(Nodes(s.r)) && allocated(Nodes(s.l));
      var c;
      ghost var u;
      c, res, u := Insert(n.right, datum, s.r);
      n.right := c;
      t := s.(r := u);
      assert Linked(n.left, s.l);
      if res == RES_OK || res == RES_BALANCE {
        GraftRight(s, u, old(freeItems)[0], datum);
      }
    }

    // ---------- Taking the extreme node of a subtree ----------

    /** What replacing `target` by the extreme entry of `s` did: that entry's payload moved into
        `target`, which took its place in the in-use list, and its node went back to the pool. */
    twostate predicate TakeDone(new s: Shape, target: Entry, res: Result, new t: Shape, new freed: Entry)
      reads this, target, freed
    {
      && (res == RES_OK || res == RES_BALANCE)
      && freed in Nodes(s) && Nodes(t) == Nodes(s) - {freed}
      && target.payload == freed.payload
      && inUse == Retired(old(inUse), target, freed) && freeItems == old(freeItems) + [freed]
      && Height(t) == Height(s) - (if res == RES_BALANCE then 1 else 0)
    }

    method FindHighest(n: Entry?, target: Entry, ghost s: Shape)
      returns (found: bool, m: Entry?, res: Result, ghost t: Shape, ghost freed: Entry)
      requires Proper(s) && Linked(n, s) && Balanced(s) && target !in Nodes(s)
      modifies this`freeItems, this`inUse, Nodes(s)`left, Nodes(s)`right, Nodes(s)`skew, target`payload
      ensures found <==> n != null
      ensures !found ==> m == null && t == s && target.payload == old(target.payload) && inUse == old(inUse) && freeItems == old(freeItems)
      ensures found ==> Proper(t) && Linked(m, t) && Balanced(t) && TakeDone(s, target, res, t, freed)
      ensures found ==> InOrder(s) == InOrder(t) + [target.payload]
      decreases s, 1
    {
      res, freed := RES_BALANCE, target;
      if n == null {
        return false, null, res, s, freed;
      }
      LinkedNode(n, s);
      if n.right != null {
        res, t, freed := TakeBelowRight(n, target, s);
        m := n;
        if res == RES_BALANCE {
          m, res, t := ShrinkRight(n, s, t);
        }
        return true, m, res, t, freed;
      }
      assert s.r == Nil;
      Reassign(n, target);
      m := n.left;
      FreeNode(n);
      return true, m, RES_BALANCE, s.l, n;
    }

    /** The recursive step of the search for the extreme node, linked back but not yet rebalanced. */
    method TakeBelowRight(n: Entry, target: Entry, ghost s: Shape) returns (res: Result, ghost t: Shape, ghost freed: Entry)
      requires s.Bin? && Proper(s) && Linked(n, s) && Balanced(s) && target !in Nodes(s) && n.right != null
      modifies this`freeItems, this`inUse, Nodes(s)`left, Nodes(s)`right, Nodes(s)`skew, target`payload
      ensures t.Bin? && t == s.(r := t.r) && Proper(t) && Linked(n, t) && Balanced(t.r)
      ensures TakeDone(s.r, target, res, t.r, freed) && Nodes(t) == Nodes(s) - {freed}
      ensures InOrder(s) == InOrder(t) + [target.payload]
      decreases s, 0
    {
      LinkedNode(n, s);
      assert allocated(Nodes(s.r)) && allocated(Nodes(s.l));
      var found, c;
      ghost var u;
      found, c, res, u, freed := FindHighest(n.right, target, s.r);
      n.right := c;
      t := s.(r := u);
      PruneRight(s, u, freed);
      assert Linked(n.left, s.l);
      BackAssoc(InOrder(s.l), s.payload, InOrder(u), target.payload);
    }

    method FindLowest(n: Entry?, target: Entry, ghost s: Shape)
      returns (found: bool, m: Entry?, res: Result, ghost t: Shape, ghost freed: Entry)
      requires Proper(s) && Linked(n, s) && Balanced(s) && target !in Nodes(s)
      modifies this`freeItems, this`inUse, Nodes(s)`left, Nodes(s)`right, Nodes(s)`skew, target`payload
      ensures found <==> n != null
      ensures !found ==> m == null && t == s && target.payload == old(target.payload) && inUse == old(inUse) && freeItems == old(freeItems)
      ensures found ==> Proper(t) && Linked(m, t) && Balanced(t) && TakeDone(s, target, res, t, freed)
      ensures found ==> InOrder(s) == [target.payload] + InOrder(t)
      decreases s, 1
    {
      res, freed := RES_BALANCE, target;
      if n == null {
        return false, null, res, s, freed;
      }
      LinkedNode(n, s);
      if n.left != null {
        res, t, freed := TakeBelowLeft(n, target, s);
        m := n;
        if res == RES_BALANCE {
          m, res, t := ShrinkLeft(n, s, t);
        }
        return true, m, res, t, freed;
      }
      assert s.l == Nil;
      Reassign(n, target);
      m := n.right;
      FreeNode(n);
      return true, m, RES_BALANCE, s.r, n;
    }

    /** The recursive step of the search for the extreme node, linked back but not yet rebalanced. */
    method TakeBelowLeft(n: Entry, target: Entry, ghost s: Shape) returns (res: Result, ghost t: Shape, ghost freed: Entry)
      requires s.Bin? && Proper(s) && Linked(n, s) && Balanced(s) && target !in Nodes(s) && n.left != null
      modifies this`freeItems, this`inUse, Nodes(s)`left, Nodes(s)`right, Nodes(s)`skew, target`payload
      ensures t.Bin? && t == s.(l := t.l) && Proper(t) && Linked(n, t) && Balanced(t.l)
      ensures TakeDone(s.l, target, res, t.l, freed) && Nodes(t) == Nodes(s) - {freed}
      ensures InOrder(s) == [target.payload] + InOrder(t)
      decreases s, 0
    {
      LinkedNode(n, s);
      assert allocated(Nodes(s.r)) && allocated(Nodes(s.l));
      var found, c;
      ghost var u;
      found, c, res, u, freed := FindLowest(n.left, target, s.l);
      n.left := c;
      t := s.(l := u);
      PruneLeft(s, u, freed);
      assert Linked(n.right, s.r);
      FrontAssoc(target.payload, InOrder(u), s.payload, InOrder(s.r));
    }

    // ---------- Removal ----------

    /** What a removal from `s` did: an absent key changes nothing; otherwise the node `target` holding
        the key gave it up, taking over the payload of `freed`, the node that went back to the pool. */
    twostate predicate RemoveDone(new s: Shape, key: int, res: Result, new t: Shape, new target: Entry?, new freed: Entry?)
      reads this, target, freed
    {
      match res
      case RES_NOTFOUND => !HasKey(InOrder(s), key) && t == s && freeItems == old(freeItems) && inUse == old(inUse)
      case RES_DUPLICATE => false
      case RES_ERROR => false
      case _ =>
        && target != null && freed != null
        && HoldsKey(s, target, key) && freed in Nodes(s) && Nodes(t) == Nodes(s) - {freed}
        && target.payload == freed.payload
        && InOrder(t) == Without(InOrder(s), key)
        && inUse == Retired(old(inUse), target, freed) && freeItems == old(freeItems) + [freed]
        && Height(t) == Height(s) - (if res == RES_BALANCE then 1 else 0)
    }

    method Remove(n: Entry?, datum: Payload, ghost s: Shape)
      returns (m: Entry?, res: Result, ghost t: Shape, ghost target: Entry?, ghost freed: Entry?)
      requires Proper(s) && Linked(n, s) && Balanced(s) && Sorted(InOrder(s)) && Nodes(s) <= pool
      modifies this`freeItems, this`inUse, Nodes(s)
      ensures Proper(t) && Linked(m, t) && Balanced(t) && RemoveDone(s, Rank(datum), res, t, target, freed)
      ensures forall e :: e in pool && e != target ==> e.payload == old(e.payload)
      decreases s, 2
    {
      if n == null {
        return null, RES_NOTFOUND, s, null, null;
      }
      LinkedNode(n, s);
      var cmp := Compare(n.payload, datum);
      CompareOrders(n.payload, datum);
      if cmp > 0 {
        m, res, t, target, freed := RemoveLeft(n, datum, s);
      } else if cmp < 0 {
        m, res, t, target, freed := RemoveRight(n, datum, s);
      } else {
        m, res, t, freed := RemoveHere(n, s);
        target := n;
      }
    }

    method RemoveLeft(n: Entry, datum: Payload, ghost s: Shape)
      returns (m: Entry?, res: Result, ghost t: Shape, ghost target: Entry?, ghost freed: Entry?)
      requires s.Bin? && Proper(s) && Linked(n, s) && Balanced(s) && Sorted(InOrder(s)) && Nodes(s) <= pool
      requires Rank(datum) < Rank(n.payload)
      modifies this`freeItems, this`inUse, Nodes(s)
      ensures Proper(t) && Linked(m, t) && Balanced(t) && RemoveDone(s, Rank(datum), res, t, target, freed)
      ensures forall e :: e in pool && e != target ==> e.payload == old(e.payload)
      decreases s, 1
    {
      HasKeySplit(InOrder(s.l), s.payload, InOrder(s.r), Rank(datum));
      res, t, target, freed := RemoveBelowLeft(n, datum, s);
      m := n;
      if res == RES_BALANCE {
        m, res, t := ShrinkLeft(n, s, t);
      }
    }

    /** The recursive removal below the left child, linked back but not yet rebalanced. */
    method RemoveBelowLeft(n: Entry, datum: Payload, ghost s: Shape)
      returns (res: Result, ghost t: Shape, ghost target: Entry?, ghost freed: Entry?)
      requires s.Bin? && Proper(s) && Linked(n, s) && Balanced(s) && Sorted(InOrder(s)) && Nodes(s) <= pool
      requires Rank(datum) < Rank(n.payload)
      modifies this`freeItems, this`inUse, Nodes(s)
      ensures t.Bin? && t == s.(l := t.l) && Proper(t) && Linked(n, t) && Balanced(t.l)
      ensures RemoveDone(s.l, Rank(datum), res, t.l, target, freed)
      ensures res != RES_NOTFOUND ==> Nodes(t) == Nodes(s) - {freed} && InOrder(t) == Without(InOrder(s), Rank(datum))
      ensures forall e :: e in pool && e != target ==> e.payload == old(e.payload)
      decreases s, 0
    {
      LinkedNode(n, s);
      SortedSplit(InOrder(s.l), s.payload, InOrder(s.r));
      WithoutSplit(InOrder(s.l), s.payload, InOrder(s.r), Rank(datum));
      assert allocated(Nodes(s.r)) && allocated(Nodes(s.l));
      var c;
      ghost var u;
      c, res, u, target, freed := Remove(n.left, datum, s.l);
      n.left := c;
      t := s.(l := u);
      assert Linked(n.right, s.r);
      if res != RES_NOTFOUND {
        PruneLeft(s, u, freed);
      }
    }

    method RemoveRight(n: Entry, datum: Payload, ghost s: Shape)
      returns (m: Entry?, res: Result, ghost t: Shape, ghost target: Entry?, ghost freed: Entry?)
      requires s.Bin? && Proper(s) && Linked(n, s) && Balanced(s) && Sorted(InOrder(s)) && Nodes(s) <= pool
      requires Rank(n.payload) < Rank(datum)
      modifies this`freeItems, this`inUse, Nodes(s)
      ensures Proper(t) && Linked(m, t) && Balanced(t) && RemoveDone(s, Rank(datum), res, t, target, freed)
      ensures forall e :: e in pool && e != target ==> e.payload == old(e.payload)
      decreases s, 1
    {
      HasKeySplit(InOrder(s.l), s.payload, InOrder(s.r), Rank(datum));
      res, t, target, freed := RemoveBelowRight(n, datum, s);
      m := n;
      if res == RES_BALANCE {
        m, res, t := ShrinkRight(n, s, t);
      }
    }

    /** The recursive removal below the right child, linked back but not yet rebalanced. */
    method RemoveBelowRight(n: Entry, datum: Payload, ghost s: Shape)
      returns (res: Result, ghost t: Shape, ghost target: Entry?, ghost freed: Entry?)
      requires s.Bin? && Proper(s) && Linked(n, s) && Balanced(s) && Sorted(InOrder(s)) && Nodes(s) <= pool
      requires Rank(n.payload) < Rank(datum)
      modifies this`freeItems, this`inUse, Nodes(s)
      ensures t.Bin? && t == s.(r := t.r) && Proper(t) && Linked(n, t) && Balanced(t.r)
      ensures RemoveDone(s.r, Rank(datum), res, t.r, target, freed)
      ensures res != RES_NOTFOUND ==> Nodes(t) == Nodes(s) - {freed} && InOrder(t) == Without(InOrder(s), Rank(datum))
      ensures forall e :: e in pool && e != target ==> e.payload == old(e.payload)
      decreases s, 0
    {
      LinkedNode(n, s);
      SortedSplit(InOrder(s.l), s.payload, InOrder(s.r));
      WithoutSplit(InOrder(s.l), s.payload, InOrder(s.r), Rank(datum));
      assert allocated(Nodes(s.r)) && allocated(Nodes(s.l));
      var c;
      ghost var u;
      c, res, u, target, freed := Remove(n.right, datum, s.r);
      n.right := c;
      t := s.(r := u);
      assert Linked(n.left, s.l);
      if res != RES_NOTFOUND {
        PruneRight(s, u, freed);
      }
    }

    /** The key sits in `n` itself: its in-order neighbour moves in, or a leaf goes away. */
    method RemoveHere(n: Entry, ghost s: Shape) returns (m: Entry?, res: Result, ghost t: Shape, ghost freed: Entry)
      requires s.Bin? && Proper(s) && Linked(n, s) && Balanced(s) && Sorted(InOrder(s))
      modifies this`freeItems, this`inUse, Nodes(s)`left, Nodes(s)`right, Nodes(s)`skew, n`payload
      ensures Proper(t) && Linked(m, t) && Balanced(t) && RemoveDone(s, Rank(s.payload), res, t, n, freed)
    {
      LinkedNode(n, s);
      WithoutSplit(InOrder(s.l), s.payload, InOrder(s.r), Rank(s.payload));
      HasKeySplit(InOrder(s.l), s.payload, InOrder(s.r), Rank(s.payload));
      if n.left != null {
        m, res, t, freed := ReplaceFromLeft(n, s);
      } else if n.right != null {
        m, res, t, freed := ReplaceFromRight(n, s);
      } else {
        FreeNode(n);
        m, res, t, freed := null, RES_BALANCE, Nil, n;
        assert InOrder(s.l) + InOrder(s.r) == [];
      }
    }

    method ReplaceFromLeft(n: Entry, ghost s: Shape) returns (m: Entry?, res: Result, ghost t: Shape, ghost freed: Entry)
      requires s.Bin? && Proper(s) && Linked(n, s) && Balanced(s) && n.left != null
      modifies this`freeItems, this`inUse, Nodes(s)`left, Nodes(s)`right, Nodes(s)`skew, n`payload
      ensures Proper(t) && Linked(m, t) && Balanced(t) && TakeDone(s, n, res, t, freed) && freed != n
      ensures InOrder(t) == InOrder(s.l) + InOrder(s.r)
    {
      ghost var u;
      res, u, freed := TakeFromLeft(n, s);
      m, t := n, u;
      if res == RES_BALANCE {
        m, res, t := ShrinkLeft(n, s.(payload := n.payload), u);
      }
    }

    method TakeFromLeft(n: Entry, ghost s: Shape) returns (res: Result, ghost t: Shape, ghost freed: Entry)
      requires s.Bin? && Proper(s) && Linked(n, s) && Balanced(s) && n.left != null
      modifies this`freeItems, this`inUse, Nodes(s.l)`left, Nodes(s.l)`right, Nodes(s.l)`skew, n`payload, n`left
      ensures t.Bin? && t == s.(payload := n.payload, l := t.l) && Proper(t) && Linked(n, t) && Balanced(t.l)
      ensures TakeDone(s.l, n, res, t.l, freed) && Nodes(t) == Nodes(s) - {freed} && freed != n
      ensures InOrder(t) == InOrder(s.l) + InOrder(s.r)
    {
      LinkedNode(n, s);
      assert allocated(Nodes(s.r)) && allocated(Nodes(s.l));
      var found, c;
      ghost var u;
      found, c, res, u, freed := FindHighest(n.left, n, s.l);
      n.left := c;
      t := s.(payload := n.payload, l := u);
      PruneLeft(s, u, freed);
      assert Linked(n.right, s.r);
    }

    method ReplaceFromRight(n: Entry, ghost s: Shape) returns (m: Entry?, res: Result, ghost t: Shape, ghost freed: Entry)
      requires s.Bin? && Proper(s) && Linked(n, s) && Balanced(s) && n.right != null && n.left == null
      modifies this`freeItems, this`inUse, Nodes(s)`left, Nodes(s)`right, Nodes(s)`skew, n`payload
      ensures Proper(t) && Linked(m, t) && Balanced(t) && TakeDone(s, n, res, t, freed) && freed != n
      ensures InOrder(t) == InOrder(s.l) + InOrder(s.r)
    {
      ghost var u;
      res, u, freed := TakeFromRight(n, s);
      m, t := n, u;
      if res == RES_BALANCE {
        m, res, t := ShrinkRight(n, s.(payload := n.payload), u);
      }
    }

    method TakeFromRight(n: Entry, ghost s: Shape) returns (res: Result, ghost t: Shape, ghost freed: Entry)
      requires s.Bin? && Proper(s) && Linked(n, s) && Balanced(s) && n.right != null && n.left == null
      modifies this`freeItems, this`inUse, Nodes(s.r)`left, Nodes(s.r)`right, Nodes(s.r)`skew, n`payload, n`right
      ensures t.Bin? && t == s.(payload := n.payload, r := t.r) && Proper(t) && Linked(n, t) && Balanced(t.r)
      ensures TakeDone(s.r, n, res, t.r, freed) && Nodes(t) == Nodes(s) - {freed} && freed != n
      ensures InOrder(t) == InOrder(s.l) + InOrder(s.r)
    {
      LinkedNode(n, s);
      assert allocated(Nodes(s.r)) && allocated(Nodes(s.l));
      var found, c;
      ghost var u;
      found, c, res, u, freed := FindLowest(n.right, n, s.r);
      n.right := c;
      t := s.(payload := n.payload, r := u);
      PruneRight(s, u, freed);
      assert Linked(n.left, s.l);
    }
  }
}
