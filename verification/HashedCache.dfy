/** The other virtual-method cache: a hash table of rings in one array of links, and a ring of all entries in the
    order of their last use. */
module HashedCache {
  import opened Wrappers
  import opened AvlTree
  import opened Ordered
  import opened Lru
  import opened Rings
  import opened TypeSystem
  import MethodCache

  /** The bucket of a key, by a checksum of it. */
  function Slot(crc: (uint32, uint32) -> nat, hashSize: nat, p: Payload): (b: nat)
    requires hashSize > 0
    ensures b < hashSize
  {
    crc(p.mdVirtual, p.cls) % hashSize
  }

  /** Each entry in use lies in the bucket of its key, no two have the same, and each holds what the search answers. */
  ghost predicate KeysOk(types: Types, crc: (uint32, uint32) -> nat, hashSize: nat, payloads: seq<Payload>, home: seq<int>) {
    && hashSize > 0 && |home| == |payloads|
    && (forall e :: 0 <= e < |home| && home[e] >= 0 ==>
          home[e] == Slot(crc, hashSize, payloads[e]) &&
          types.Resolve(payloads[e].cls, payloads[e].mdVirtual) == Some(payloads[e].md))
    && (forall e, f :: 0 <= e < f < |home| && home[e] >= 0 && home[f] >= 0 ==> Rank(payloads[e]) != Rank(payloads[f]))
  }

  /** The entries in the order of their last use; the first `filled` of them are in use. */
  ghost predicate OrderOk(mru: seq<nat>, filled: nat, home: seq<int>) {
    && filled <= |mru| == |home|
    && (forall i :: 0 <= i < |mru| ==> mru[i] < |home| && (home[mru[i]] >= 0 <==> i < filled))
    && (forall i, j :: 0 <= i < j < |mru| ==> mru[i] != mru[j])
    && (forall e :: 0 <= e < |home| ==> e in mru)
  }

  ghost function RecentOf(payloads: seq<Payload>, mru: seq<nat>, filled: nat): (r: seq<Payload>)
    requires filled <= |mru| && forall i :: 0 <= i < |mru| ==> mru[i] < |payloads|
    ensures |r| == filled
  {
    seq(filled, i requires 0 <= i < filled => payloads[mru[i]])
  }

  /** All entries are in one ring. */
  ghost function OneRing(n: nat): (r: seq<int>)
    ensures |r| == n
  {
    seq(n, i => 0)
  }

  /** The order after entry `e`, which comes at place `j`, has been brought to the front. */
  function ToFront(mru: seq<nat>, j: nat): (r: seq<nat>)
    requires j < |mru|
    ensures |r| == |mru|
  {
    [mru[j]] + mru[..j] + mru[j + 1..]
  }

  lemma {:induction false} WhereIs(q: seq<nat>, j: nat)
    requires j < |q| && forall a, b :: 0 <= a < b < |q| ==> q[a] != q[b]
    ensures q[j] in q && IndexOf(q, q[j]) == j
  {
  }

  /** Bringing an entry to the front of the ring of all entries. */
  lemma MovedIsFront(mru: seq<nat>, j: nat, n: nat)
    requires j < |mru| && mru[j] < n && forall a, b :: 0 <= a < b < |mru| ==> mru[a] != mru[b]
    ensures Moved([mru], OneRing(n), mru[j], 0) == [ToFront(mru, j)] && OneRing(n)[mru[j] := 0] == OneRing(n)
  {
    WhereIs(mru, j);
    var e := mru[j];
    assert Taken([mru], OneRing(n), e) == [Cut(mru, j)];
    assert [e] + Cut(mru, j) == ToFront(mru, j);
  }

  lemma FrontOrder(mru: seq<nat>, j: nat, filled: nat, home: seq<int>, b: int)
    requires OrderOk(mru, filled, home) && j < |mru| && j <= filled && b >= 0
    ensures OrderOk(ToFront(mru, j), if j < filled then filled else filled + 1, home[mru[j] := b])
  {
    var r, h := ToFront(mru, j), home[mru[j] := b];
    forall e | 0 <= e < |home| ensures e in r {
      assert e in mru;
      var i :| 0 <= i < |mru| && mru[i] == e;
      assert r[if i == j then 0 else if i < j then i + 1 else i] == e;
    }
  }

  /** A lookup that finds its key. */
  lemma HitRecent(payloads: seq<Payload>, mru: seq<nat>, filled: nat, j: nat)
    requires j < filled <= |mru| && forall i :: 0 <= i < |mru| ==> mru[i] < |payloads|
    requires forall a, b :: 0 <= a < b < filled ==> Rank(payloads[mru[a]]) != Rank(payloads[mru[b]])
    ensures var p := payloads[mru[j]];
            RecentOf(payloads, ToFront(mru, j), filled) == [p] + Without(RecentOf(payloads, mru, filled), Rank(p))
  {
    var p, q := payloads[mru[j]], RecentOf(payloads, mru, filled);
    MethodCache.WithoutMiddle(q[..j], p, q[j + 1..]);
    assert q == q[..j] + [p] + q[j + 1..];
    assert RecentOf(payloads, ToFront(mru, j), filled) == [p] + (q[..j] + q[j + 1..]);
  }

  /** A lookup that puts its key into entry `mru[j]`, the last, or the first that is not in use. */
  lemma MissRecent(payloads: seq<Payload>, mru: seq<nat>, filled: nat, p: Payload, now: nat)
    requires filled <= |mru| && mru != [] && now == (if filled == |mru| then filled else filled + 1)
    requires forall i :: 0 <= i < |mru| ==> mru[i] < |payloads|
    requires forall i, j :: 0 <= i < j < |mru| ==> mru[i] != mru[j]
    ensures var j := |mru| - 1;
            RecentOf(payloads[mru[j] := p], ToFront(mru, j), now) == [p] + Take(RecentOf(payloads, mru, filled), |mru| - 1)
  {
    var j := |mru| - 1;
    var f, q := ToFront(mru, j), RecentOf(payloads, mru, filled);
    FrontOfLast(mru);
    var a, t := RecentOf(payloads[mru[j] := p], f, now), Take(q, j);
    assert |t| == now - 1;
    hide ToFront;
    forall i | 0 <= i < now ensures a[i] == ([p] + t)[i] {
      assert a[i] == payloads[mru[j] := p][f[i]];
      if i > 0 { assert t[i - 1] == q[i - 1] == payloads[mru[i - 1]]; }
    }
    assert a == [p] + t;
  }

  lemma FrontOfLast(mru: seq<nat>)
    requires mru != []
    ensures var f := ToFront(mru, |mru| - 1); f[0] == mru[|mru| - 1] && forall i :: 0 < i < |mru| ==> f[i] == mru[i - 1]
  {
  }

  /** When the last entry is not in use, it is brought to the front of those that are. */
  lemma LastToFront(mru: seq<nat>, filled: nat, home: seq<int>, b: int)
    requires OrderOk(mru, filled, home) && mru != [] && b >= 0
    ensures var j := |mru| - 1; OrderOk(ToFront(mru, j), if filled == |mru| then filled else filled + 1, home[mru[j] := b])
  {
    var j := |mru| - 1;
    var r := ToFront(mru, j);
    forall e | 0 <= e < |home| ensures e in r {
      assert e in mru;
      var i :| 0 <= i < |mru| && mru[i] == e;
      assert r[if i == j then 0 else i + 1] == e;
    }
  }

  class VirtualMethodTable {
    const types: Types
    const crc: (uint32, uint32) -> nat
    const capacity: nat
    const hashSize: nat
    const next: array<nat>
    const prev: array<nat>
    const mruNext: array<nat>
    const mruPrev: array<nat>
    const payloads: array<Payload>
    ghost var buckets: seq<seq<nat>>
    ghost var home: seq<int>
    ghost var mru: seq<nat>
    ghost var filled: nat
    ghost var history: seq<Payload>

    ghost predicate Shape() {
      && capacity > 0 && hashSize > 0 && payloads.Length == capacity
      && next.Length == prev.Length == capacity + hashSize && mruNext.Length == mruPrev.Length == capacity + 1
      && next != prev && next != mruNext && next != mruPrev && prev != mruNext && prev != mruPrev && mruNext != mruPrev
    }

    /** The rings of the buckets and the ring of all entries. */
    ghost predicate Linked()
      reads this, next, prev, mruNext, mruPrev
    {
      && Shape() && |buckets| == hashSize && |mru| == |home| == capacity
      && Table(next[..], prev[..], capacity, buckets, home)
      && Table(mruNext[..], mruPrev[..], capacity, [mru], OneRing(capacity))
      && OrderOk(mru, filled, home)
    }

    ghost function Recent(): seq<Payload>
      reads this, next, prev, mruNext, mruPrev, payloads
      requires Linked()
    {
      RecentOf(payloads[..], mru, filled)
    }

    /** The entries in use are the most recent lookups, as many as there is room for. */
    ghost predicate Valid()
      reads this, next, prev, mruNext, mruPrev, payloads
    {
      && Linked() && KeysOk(types, crc, hashSize, payloads[..], home)
      && Recent() == Cached(history, capacity)
    }

    constructor (types: Types, crc: (uint32, uint32) -> nat, capacity: nat, hashSize: nat)
      requires capacity > 0 && hashSize > 0
      ensures Valid() && this.types == types && this.crc == crc && this.capacity == capacity && history == []
    {
      this.types, this.crc, this.capacity, this.hashSize := types, crc, capacity, hashSize;
      next := new nat[capacity + hashSize](i => i);
      prev := new nat[capacity + hashSize](i => i);
      mruNext := new nat[capacity + 1](i => if i == capacity then 0 else i + 1);
      mruPrev := new nat[capacity + 1](i => if i == 0 then capacity else i - 1);
      payloads := new Payload[capacity](_ => Payload(0, 0, 0));
      buckets := seq(hashSize, b => []);
      home := seq(capacity, e => -1);
      mru := seq(capacity, e => e);
      filled, history := 0, [];
      new;
      StartRings(next[..], prev[..], capacity, hashSize);
      StartOrder(mruNext[..], mruPrev[..], capacity);
    }

    /** The entry of a key in the ring of its bucket, or the head of the ring. */
    method Probe(mdVirtual: uint32, cls: uint32, idxHead: nat) returns (idx: nat)
      requires Valid() && idxHead == Slot(crc, hashSize, Payload(mdVirtual, cls, 0)) + capacity
      ensures idx == idxHead ==> forall e :: 0 <= e < capacity && home[e] >= 0 ==> Rank(payloads[e]) != Rank(Payload(mdVirtual, cls, 0))
      ensures idx != idxHead ==> idx < capacity && home[idx] == idxHead - capacity && Rank(payloads[idx]) == Rank(Payload(mdVirtual, cls, 0))
    {
      hide Table, KeysOk, OrderOk, Ring, Nd;
      ghost var b, k := idxHead - capacity, 0;
      BucketNode(next[..], prev[..], capacity, buckets, home, b, 0);
      HeadNd(capacity + b, buckets[b]);
      idx := next[idxHead];
      while idx != idxHead
        invariant k <= |buckets[b]| && idx == Nd(capacity + b, buckets[b], k + 1)
        invariant forall i :: 0 <= i < k ==> buckets[b][i] < capacity && Rank(payloads[buckets[b][i]]) != Rank(Payload(mdVirtual, cls, 0))
        decreases |buckets[b]| - k
      {
        BucketNode(next[..], prev[..], capacity, buckets, home, b, k);
        assert k < |buckets[b]|;
        CompareOrders(payloads[idx], Payload(mdVirtual, cls, 0));
        if payloads[idx].mdVirtual == mdVirtual && payloads[idx].cls == cls {
          InBucket(next[..], prev[..], capacity, buckets, home, b, k);
          return;
        }
        k := k + 1;
        BucketNode(next[..], prev[..], capacity, buckets, home, b, k);
        idx := next[idx];
      }
      BucketNode(next[..], prev[..], capacity, buckets, home, b, k);
      assert k == |buckets[b]|;
      NotFound(types, crc, hashSize, payloads[..], home, next[..], prev[..], buckets, Payload(mdVirtual, cls, 0));
    }

    /** An entry comes to the front of a bucket and of all entries. */
    method Promote(idx: nat, idxHead: nat, ghost j: nat)
      requires Linked() && j < capacity && mru[j] == idx && capacity <= idxHead < capacity + hashSize
      modifies this`buckets, this`home, this`mru, next, prev, mruNext, mruPrev
      ensures Shape() && |buckets| == hashSize && |mru| == |home| == capacity
      ensures Table(next[..], prev[..], capacity, buckets, home) && Table(mruNext[..], mruPrev[..], capacity, [mru], OneRing(capacity))
      ensures home == old(home)[idx := idxHead - capacity] && mru == ToFront(old(mru), j)
    {
      hide Table, Moved, ToFront, OneRing;
      MovedIsFront(mru, j, capacity);
      hide OrderOk;
      MoveEntryToTop(next, prev, idxHead, idx, capacity, buckets, home);
      MovedSize(buckets, home, idx, idxHead - capacity);
      buckets := Moved(buckets, home, idx, idxHead - capacity);
      home := home[idx := idxHead - capacity];
      MoveEntryToTop(mruNext, mruPrev, capacity, idx, capacity, [mru], OneRing(capacity));
      mru := ToFront(mru, j);
    }

    /** An entry that holds its key comes to the front of its bucket and of all entries. */
    method Hit(idx: nat, idxHead: nat)
      requires Valid() && idx < capacity <= idxHead && home[idx] == idxHead - capacity
      modifies this`buckets, this`home, this`mru, this`history, next, prev, mruNext, mruPrev
      ensures Valid() && history == old(history) + [payloads[idx]]
    {
      hide Table, KeysOk, OrderOk, Cached, RecentOf, ToFront, OneRing, Slot;
      ghost var ps, p, was := payloads[..], payloads[idx], home;
      ghost var j := HitAll(types, crc, hashSize, ps, home, mru, filled, history, idx);
      Promote(idx, idxHead, j);
      assert home == was && payloads[..] == ps;
      history := history + [p];
    }

    /** A key that is not in the table takes the entry that was used least recently. */
    method Miss(p: Payload, idxHead: nat)
      requires Valid() && idxHead == Slot(crc, hashSize, p) + capacity
      requires forall e :: 0 <= e < capacity && home[e] >= 0 ==> Rank(payloads[e]) != Rank(p)
      requires types.Resolve(p.cls, p.mdVirtual) == Some(p.md)
      modifies this`buckets, this`home, this`mru, this`filled, this`history, next, prev, mruNext, mruPrev, payloads
      ensures Valid() && history == old(history) + [p]
    {
      hide Table, KeysOk, OrderOk, Cached, RecentOf, ToFront, OneRing, Slot;
      ghost var ps, n := payloads[..], if filled == capacity then filled else filled + 1;
      BucketNode(mruNext[..], mruPrev[..], capacity, [mru], OneRing(capacity), 0, 0);
      var idx := mruPrev[capacity];
      MissAll(types, crc, hashSize, ps, home, mru, filled, history, p);
      payloads[idx] := p;
      assert payloads[..] == ps[idx := p];
      Promote(idx, idxHead, capacity - 1);
      filled := n;
      history := history + [p];
    }

    /** The answer, from the table or from the slow search, and the lookup recorded in the history. */
    method FindVirtualMethod(cls: uint32, mdVirtual: uint32) returns (found: bool, md: uint32)
      requires Valid()
      modifies this`buckets, this`home, this`mru, this`filled, this`history, next, prev, mruNext, mruPrev, payloads
      ensures Valid()
      ensures types.Owner(mdVirtual) == Some(cls) ==> found && md == mdVirtual && history == old(history)
      ensures types.Owner(mdVirtual) != Some(cls) ==>
                match types.Resolve(cls, mdVirtual)
                case None => !found && history == old(history)
                case Some(v) => found && md == v && history == old(history) + [Payload(mdVirtual, cls, v)]
      ensures MethodCache.Right(types, cls, mdVirtual, found, md) <==> types.Owner(mdVirtual) != Some(cls) || types.ComesFirst(mdVirtual)
      ensures NoDuplicates(types) && types.IsCallable(mdVirtual) ==> MethodCache.Right(types, cls, mdVirtual, found, md)
      ensures types.Owner(mdVirtual) != Some(cls) || (NoDuplicates(types) && types.IsCallable(mdVirtual)) ==>
                types.Dispatches(cls, mdVirtual, if found then Some(md) else None)
    {
      hide Metadata.Dispatches, Metadata.Resolve, Metadata.ComesFirst, NoDuplicates;
      types.ResolveDispatches(cls, mdVirtual);
      if types.Owner(mdVirtual) == Some(cls) {
        MethodCache.Itself(types, mdVirtual);
        return true, mdVirtual;
      }
      hide Table, OrderOk, Cached, RecentOf, Without;
      var idxHead := Slot(crc, hashSize, Payload(mdVirtual, cls, 0)) + capacity;
      var idx := Probe(mdVirtual, cls, idxHead);
      if idx != idxHead {
        CompareOrders(payloads[idx], Payload(mdVirtual, cls, 0));
        md := payloads[idx].md;
        Hit(idx, idxHead);
        return true, md;
      }
      var r := types.FindVirtualMethodDef(cls, mdVirtual);
      if r == None { return false, 0; }
      md := r.value;
      SameRank(mdVirtual, cls, md);
      Miss(Payload(mdVirtual, cls, md), idxHead);
      return true, md;
    }
  }

  lemma SameRank(mdVirtual: uint32, cls: uint32, md: uint32)
    ensures Rank(Payload(mdVirtual, cls, md)) == Rank(Payload(mdVirtual, cls, 0))
  {
  }

  /** Everything but the links, after a lookup that finds its key. */
  lemma HitAll(types: Types, crc: (uint32, uint32) -> nat, hashSize: nat, payloads: seq<Payload>, home: seq<int>,
               mru: seq<nat>, filled: nat, history: seq<Payload>, idx: nat) returns (j: nat)
    requires KeysOk(types, crc, hashSize, payloads, home) && OrderOk(mru, filled, home) && idx < |home| && home[idx] >= 0
    requires RecentOf(payloads, mru, filled) == Cached(history, |mru|)
    ensures j < |mru| && mru[j] == idx && OrderOk(ToFront(mru, j), filled, home) && home[idx] < hashSize
    ensures RecentOf(payloads, ToFront(mru, j), filled) == Cached(history + [payloads[idx]], |mru|)
  {
    hide Cached, RecentOf, ToFront;
    assert home[idx] < hashSize;
    assert idx in mru;
    j := IndexOf(mru, idx);
    HitFacts(types, crc, hashSize, payloads, home, mru, filled, j);
    hide OrderOk, KeysOk;
    HitRecent(payloads, mru, filled, j);
    FrontOrder(mru, j, filled, home, home[idx]);
    assert home[idx := home[idx]] == home;
    TouchedHistory(history, payloads[idx], |mru|, RecentOf(payloads, mru, filled));
    FrontSize(payloads, mru, j, filled);
  }

  lemma FrontSize(payloads: seq<Payload>, mru: seq<nat>, j: nat, filled: nat)
    requires j < |mru| && filled <= |mru| && forall i :: 0 <= i < |mru| ==> mru[i] < |payloads|
    ensures |RecentOf(payloads, ToFront(mru, j), filled)| <= |mru|
  {
  }

  /** Everything but the links, after a lookup that replaces the last entry. */
  lemma MissAll(types: Types, crc: (uint32, uint32) -> nat, hashSize: nat, payloads: seq<Payload>, home: seq<int>,
                mru: seq<nat>, filled: nat, history: seq<Payload>, p: Payload)
    requires KeysOk(types, crc, hashSize, payloads, home) && OrderOk(mru, filled, home) && mru != []
    requires RecentOf(payloads, mru, filled) == Cached(history, |mru|)
    requires forall e :: 0 <= e < |home| && home[e] >= 0 ==> Rank(payloads[e]) != Rank(p)
    requires types.Resolve(p.cls, p.mdVirtual) == Some(p.md)
    ensures var j, n := |mru| - 1, if filled == |mru| then filled else filled + 1;
            && mru[j] < |home| && var h := home[mru[j] := Slot(crc, hashSize, p)];
            && OrderOk(ToFront(mru, j), n, h) && KeysOk(types, crc, hashSize, payloads[mru[j] := p], h)
            && RecentOf(payloads[mru[j] := p], ToFront(mru, j), n) == Cached(history + [p], |mru|)
  {
    hide Cached, RecentOf, ToFront;
    var j, n := |mru| - 1, if filled == |mru| then filled else filled + 1;
    MissRecent(payloads, mru, filled, p, n);
    LastToFront(mru, filled, home, Slot(crc, hashSize, p));
    KeysReplaced(types, crc, hashSize, payloads, home, mru[j], p);
    NoRecent(payloads, mru, filled, home, p);
    TouchNew(RecentOf(payloads, mru, filled), p, |mru|);
    TouchedHistory(history, p, |mru|, RecentOf(payloads, mru, filled));
  }

  lemma MovedSize(buckets: seq<seq<nat>>, home: seq<int>, e: nat, b: nat)
    requires e < |home| && b < |buckets|
    ensures |Moved(buckets, home, e, b)| == |buckets|
  {
  }

  lemma KeysReplaced(types: Types, crc: (uint32, uint32) -> nat, hashSize: nat, payloads: seq<Payload>, home: seq<int>, idx: nat, p: Payload)
    requires KeysOk(types, crc, hashSize, payloads, home) && idx < |home| && types.Resolve(p.cls, p.mdVirtual) == Some(p.md)
    requires forall e :: 0 <= e < |home| && home[e] >= 0 ==> Rank(payloads[e]) != Rank(p)
    ensures KeysOk(types, crc, hashSize, payloads[idx := p], home[idx := Slot(crc, hashSize, p)])
  {
  }

  lemma NoRecent(payloads: seq<Payload>, mru: seq<nat>, filled: nat, home: seq<int>, p: Payload)
    requires OrderOk(mru, filled, home) && |payloads| == |home|
    requires forall e :: 0 <= e < |home| && home[e] >= 0 ==> Rank(payloads[e]) != Rank(p)
    ensures !HasKey(RecentOf(payloads, mru, filled), Rank(p))
  {
  }

  lemma HeadNd(h: nat, q: seq<nat>)
    ensures Nd(h, q, 0) == h && Nd(h, q, |q| + 1) == h
  {
  }

  lemma InBucket(next: seq<nat>, prev: seq<nat>, size: nat, buckets: seq<seq<nat>>, home: seq<int>, b: nat, k: nat)
    requires Table(next, prev, size, buckets, home) && b < |buckets| && k < |buckets[b]|
    ensures buckets[b][k] < size == |home| && home[buckets[b][k]] == b
  {
  }

  /** A key that is not in its bucket is nowhere. */
  lemma NotFound(types: Types, crc: (uint32, uint32) -> nat, hashSize: nat, payloads: seq<Payload>, home: seq<int>,
                 next: seq<nat>, prev: seq<nat>, buckets: seq<seq<nat>>, p: Payload)
    requires KeysOk(types, crc, hashSize, payloads, home) && Table(next, prev, |payloads|, buckets, home) && |buckets| == hashSize
    requires var q := buckets[Slot(crc, hashSize, p)];
             forall i :: 0 <= i < |q| ==> q[i] < |payloads| && Rank(payloads[q[i]]) != Rank(p)
    ensures forall e :: 0 <= e < |home| && home[e] >= 0 ==> Rank(payloads[e]) != Rank(p)
  {
    hide Ring;
    forall e | 0 <= e < |home| && home[e] >= 0 ensures Rank(payloads[e]) != Rank(p) {
      CompareOrders(payloads[e], p);
      assert e in buckets[home[e]];
      if home[e] == Slot(crc, hashSize, p) {
        var i :| 0 <= i < |buckets[home[e]]| && buckets[home[e]][i] == e;
      }
    }
  }

  lemma HitFacts(types: Types, crc: (uint32, uint32) -> nat, hashSize: nat, payloads: seq<Payload>, home: seq<int>,
                 mru: seq<nat>, filled: nat, j: nat)
    requires KeysOk(types, crc, hashSize, payloads, home) && OrderOk(mru, filled, home) && j < |mru| && home[mru[j]] >= 0
    ensures j < filled && forall a, b :: 0 <= a < b < filled ==> Rank(payloads[mru[a]]) != Rank(payloads[mru[b]])
  {
  }

  /** The cache after one lookup more. */
  lemma TouchedHistory(history: seq<Payload>, p: Payload, capacity: nat, recent: seq<Payload>)
    requires recent == Cached(history, capacity)
    ensures Cached(history + [p], capacity) == Take([p] + Without(recent, Rank(p)), capacity)
  {
    assert (history + [p])[..|history|] == history;
  }

  lemma StartRings(next: seq<nat>, prev: seq<nat>, size: nat, hashSize: nat)
    requires |next| == |prev| == size + hashSize && forall i :: 0 <= i < |next| ==> next[i] == i && prev[i] == i
    ensures Table(next, prev, size, seq(hashSize, b => []), seq(size, e => -1))
  {
    var none: seq<seq<nat>> := seq(hashSize, b => []);
    forall b | 0 <= b < hashSize ensures Ring(next, prev, size + b, none[b]) {
      assert Rings.Linked(next, prev, size + b, none[b], 0);
    }
  }

  lemma StartOrder(next: seq<nat>, prev: seq<nat>, size: nat)
    requires |next| == |prev| == size + 1
    requires forall i :: 0 <= i <= size ==> next[i] == (if i == size then 0 else i + 1) && prev[i] == (if i == 0 then size else i - 1)
    ensures Table(next, prev, size, [seq(size, e => e)], OneRing(size)) && OrderOk(seq(size, e => e), 0, seq(size, e => -1))
  {
    var q: seq<nat> := seq(size, e => e);
    assert Ring(next, prev, size + 0, [q][0]);
    forall e | 0 <= e < size ensures e in q { assert q[e] == e; }
  }
}
