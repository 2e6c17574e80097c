/** Rings in an array of links: doubly linked cycles, each with a head, disjoint from one another. */
module Rings {

  /** Node `k` of the ring: the head, then the entries in order, then the head again. */
  function Nd(h: nat, q: seq<nat>, k: nat): nat
    requires k <= |q| + 1
  {
    if k == 0 || k == |q| + 1 then h else q[k - 1]
  }

  ghost predicate Ring(next: seq<nat>, prev: seq<nat>, h: nat, q: seq<nat>) {
    && h < |next| == |prev|
    && (forall i :: 0 <= i < |q| ==> q[i] < |next| && q[i] != h)
    && (forall i, j :: 0 <= i < j < |q| ==> q[i] != q[j])
    && forall k :: 0 <= k <= |q| ==> Linked(next, prev, h, q, k)
  }

  /** Node `k` and the one behind it. */
  ghost predicate Linked(next: seq<nat>, prev: seq<nat>, h: nat, q: seq<nat>, k: nat)
    requires k <= |q| && h < |next| == |prev| && forall i :: 0 <= i < |q| ==> q[i] < |next|
  {
    next[Nd(h, q, k)] == Nd(h, q, k + 1) && prev[Nd(h, q, k + 1)] == Nd(h, q, k)
  }

  /** The neighbours of a node are nodes of the ring. */
  lemma RingNode(next: seq<nat>, prev: seq<nat>, h: nat, q: seq<nat>, k: nat)
    requires Ring(next, prev, h, q) && k <= |q|
    ensures Nd(h, q, k) < |next| && Nd(h, q, k + 1) < |next|
    ensures next[Nd(h, q, k)] == Nd(h, q, k + 1) && prev[Nd(h, q, k + 1)] == Nd(h, q, k)
  {
    assert Linked(next, prev, h, q, k);
  }

  function Cut(q: seq<nat>, j: nat): seq<nat>
    requires j < |q|
  {
    q[..j] + q[j + 1..]
  }

  lemma CutNd(h: nat, q: seq<nat>, j: nat, k: nat)
    requires j < |q| && k <= |q|
    ensures Nd(h, Cut(q, j), k) == if k <= j then Nd(h, q, k) else Nd(h, q, k + 1)
  {
  }

  /** A ring in which links of other nodes have changed. */
  lemma RingApart(next: seq<nat>, prev: seq<nat>, next': seq<nat>, prev': seq<nat>, h: nat, q: seq<nat>)
    requires Ring(next, prev, h, q) && |next'| == |next| == |prev'|
    requires next'[h] == next[h] && prev'[h] == prev[h]
    requires forall i :: 0 <= i < |q| ==> next'[q[i]] == next[q[i]] && prev'[q[i]] == prev[q[i]]
    ensures Ring(next', prev', h, q)
  {
    forall k | 0 <= k <= |q| ensures Linked(next', prev', h, q, k) { RingNode(next, prev, h, q, k); }
  }

  /** Node `j` is unlinked. */
  lemma RingUnlink(next: seq<nat>, prev: seq<nat>, h: nat, q: seq<nat>, j: nat)
    requires Ring(next, prev, h, q) && j < |q|
    ensures next[q[j]] == Nd(h, q, j + 2) < |next| && prev[q[j]] == Nd(h, q, j) < |next|
    ensures Ring(next[prev[q[j]] := next[q[j]]], prev[next[q[j]] := prev[q[j]]], h, Cut(q, j))
  {
    RingNode(next, prev, h, q, j);
    RingNode(next, prev, h, q, j + 1);
    var c := Cut(q, j);
    var next', prev' := next[prev[q[j]] := next[q[j]]], prev[next[q[j]] := prev[q[j]]];
    forall k | 0 <= k <= |c| ensures Linked(next', prev', h, c, k) {
      CutNd(h, q, j, k);
      CutNd(h, q, j, k + 1);
      RingNode(next, prev, h, q, k);
      if k > j { RingNode(next, prev, h, q, k + 1); }
    }
  }

  /** Node `e` is linked behind the head. */
  lemma RingInsert(next: seq<nat>, prev: seq<nat>, h: nat, q: seq<nat>, e: nat)
    requires Ring(next, prev, h, q) && e < |next| && e != h && e !in q
    ensures next[h] < |next|
    ensures Ring(next[e := next[h]][h := e], prev[e := h][next[h] := e], h, [e] + q)
  {
    RingNode(next, prev, h, q, 0);
    var c := [e] + q;
    var next', prev' := next[e := next[h]][h := e], prev[e := h][next[h] := e];
    forall k | 0 <= k <= |c| ensures Linked(next', prev', h, c, k) {
      if k >= 1 {
        RingNode(next, prev, h, q, k - 1);
        assert Nd(h, c, k + 1) == Nd(h, q, k);
        if k >= 2 { assert Nd(h, c, k) == Nd(h, q, k - 1); }
      }
    }
  }

  // ---------- A table of rings ----------

  /** Entries `0..size` are in one ring each: that of a bucket, whose head is `size` plus its number, or their own.
      `home` says which bucket, if any. */
  ghost predicate Table(next: seq<nat>, prev: seq<nat>, size: nat, buckets: seq<seq<nat>>, home: seq<int>) {
    && |next| == |prev| == size + |buckets| && |home| == size
    && (forall b :: 0 <= b < |buckets| ==> Ring(next, prev, size + b, buckets[b]))
    && (forall b, i :: 0 <= b < |buckets| && 0 <= i < |buckets[b]| ==> buckets[b][i] < size && home[buckets[b][i]] == b)
    && (forall e :: 0 <= e < size ==>
          if home[e] < 0 then next[e] == e && prev[e] == e
          else home[e] < |buckets| && e in buckets[home[e]])
  }

  function IndexOf(q: seq<nat>, e: nat): (i: nat)
    requires e in q
    ensures i < |q| && q[i] == e
  {
    if q[0] == e then 0 else 1 + IndexOf(q[1..], e)
  }

  function Removed(q: seq<nat>, e: nat): seq<nat> {
    if e in q then Cut(q, IndexOf(q, e)) else q
  }

  /** The buckets when entry `e` is in none. */
  function Taken(buckets: seq<seq<nat>>, home: seq<int>, e: nat): (r: seq<seq<nat>>)
    requires e < |home|
    ensures |r| == |buckets|
  {
    if 0 <= home[e] < |buckets| then buckets[home[e] := Removed(buckets[home[e]], e)] else buckets
  }

  lemma NotIn(q: seq<nat>, e: nat)
    requires forall i, j :: 0 <= i < j < |q| ==> q[i] != q[j]
    ensures e !in Removed(q, e) && forall x :: x != e ==> (x in Removed(q, e) <==> x in q)
  {
    if e in q {
      var k := IndexOf(q, e);
      var c := Cut(q, k);
      forall x | x != e ensures x in c <==> x in q {
        if x in q {
          var i :| 0 <= i < |q| && q[i] == x;
          assert c[if i < k then i else i - 1] == x;
        }
      }
    }
  }

  /** The neighbours of an entry: itself, or nodes of its bucket. */
  lemma Neighbours(next: seq<nat>, prev: seq<nat>, size: nat, buckets: seq<seq<nat>>, home: seq<int>, e: nat)
    requires Table(next, prev, size, buckets, home) && e < size
    ensures if home[e] < 0 then next[e] == e == prev[e]
            else
              var h := home[e]; var j := IndexOf(buckets[h], e);
              next[e] == Nd(size + h, buckets[h], j + 2) < |next| && prev[e] == Nd(size + h, buckets[h], j) < |next|
  {
    hide IndexOf, Nd;
    if home[e] >= 0 {
      RingUnlink(next, prev, size + home[e], buckets[home[e]], IndexOf(buckets[home[e]], e));
    }
  }

  /** The links after entry `e` has been unlinked from whatever ring it was in, or from its own. */
  lemma TableUnlink(next: seq<nat>, prev: seq<nat>, size: nat, buckets: seq<seq<nat>>, home: seq<int>, e: nat)
    requires Table(next, prev, size, buckets, home) && e < size
    ensures next[e] < |next| && prev[e] < |next|
    ensures var next', prev', t := next[prev[e] := next[e]], prev[next[e] := prev[e]], Taken(buckets, home, e);
            && (forall b :: 0 <= b < |t| ==> Ring(next', prev', size + b, t[b]) && e !in t[b])
            && (forall x :: 0 <= x < size && x != e && home[x] < 0 ==> next'[x] == x && prev'[x] == x)
  {
    hide Ring, Nd, IndexOf, Removed;
    Neighbours(next, prev, size, buckets, home, e);
    var t := Taken(buckets, home, e);
    if home[e] < 0 {
      assert next[prev[e] := next[e]] == next && prev[next[e] := prev[e]] == prev;
    } else {
      forall b | 0 <= b < |t| ensures Ring(next[prev[e] := next[e]], prev[next[e] := prev[e]], size + b, t[b]) && e !in t[b] {
        UnlinkBucket(next, prev, size, buckets, home, e, b);
      }
      Untouched(next, prev, size, buckets, home, home[e], IndexOf(buckets[home[e]], e));
    }
  }

  lemma UnlinkBucket(next: seq<nat>, prev: seq<nat>, size: nat, buckets: seq<seq<nat>>, home: seq<int>, e: nat, b: nat)
    requires Table(next, prev, size, buckets, home) && e < size && home[e] >= 0 && b < |buckets|
    ensures next[e] < |next| && prev[e] < |next|
    ensures Ring(next[prev[e] := next[e]], prev[next[e] := prev[e]], size + b, Taken(buckets, home, e)[b]) && e !in Taken(buckets, home, e)[b]
  {
    hide Nd, IndexOf, Ring, Removed;
    Neighbours(next, prev, size, buckets, home, e);
    if b == home[e] {
      UnlinkOwn(next, prev, size + b, buckets[b], e);
    } else {
      OtherBucket(next, prev, size, buckets, home, home[e], b, IndexOf(buckets[home[e]], e));
      RingApart(next, prev, next[prev[e] := next[e]], prev[next[e] := prev[e]], size + b, buckets[b]);
    }
  }

  lemma UnlinkOwn(next: seq<nat>, prev: seq<nat>, h: nat, q: seq<nat>, e: nat)
    requires Ring(next, prev, h, q) && e in q
    ensures e < |next| && next[e] < |next| && prev[e] < |next|
    ensures Ring(next[prev[e] := next[e]], prev[next[e] := prev[e]], h, Removed(q, e)) && e !in Removed(q, e)
  {
    hide Nd, IndexOf, Ring, Cut;
    RingUnlink(next, prev, h, q, IndexOf(q, e));
    RingOnce(next, prev, h, q);
    NotIn(q, e);
  }

  lemma RingOnce(next: seq<nat>, prev: seq<nat>, h: nat, q: seq<nat>)
    requires Ring(next, prev, h, q)
    ensures |next| == |prev| && forall i, j :: 0 <= i < j < |q| ==> q[i] != q[j]
    ensures forall i :: 0 <= i < |q| ==> q[i] < |next|
  {
  }

  /** The neighbours of node `j + 1` of bucket `h` are not nodes of bucket `b`. */
  lemma OtherBucket(next: seq<nat>, prev: seq<nat>, size: nat, buckets: seq<seq<nat>>, home: seq<int>, h: nat, b: nat, j: nat)
    requires Table(next, prev, size, buckets, home) && h < |buckets| && b < |buckets| && b != h && j < |buckets[h]|
    ensures var x, y := Nd(size + h, buckets[h], j), Nd(size + h, buckets[h], j + 2);
            x != size + b && y != size + b && x !in buckets[b] && y !in buckets[b] && buckets[h][j] !in buckets[b]
  {
  }

  lemma Untouched(next: seq<nat>, prev: seq<nat>, size: nat, buckets: seq<seq<nat>>, home: seq<int>, h: nat, j: nat)
    requires Table(next, prev, size, buckets, home) && h < |buckets| && j < |buckets[h]|
    ensures var x, y := Nd(size + h, buckets[h], j), Nd(size + h, buckets[h], j + 2);
            forall e :: 0 <= e < size && home[e] < 0 ==> e != x && e != y
  {
  }

  /** Entry `e` moved to the front of bucket `b`. */
  function Moved(buckets: seq<seq<nat>>, home: seq<int>, e: nat, b: nat): (r: seq<seq<nat>>)
    requires e < |home| && b < |buckets|
  {
    var t := Taken(buckets, home, e);
    t[b := [e] + t[b]]
  }

  /** The links after entry `e` has been unlinked and linked behind head `slot`. */
  lemma TableMove(next: seq<nat>, prev: seq<nat>, size: nat, buckets: seq<seq<nat>>, home: seq<int>, e: nat, b: nat)
    requires Table(next, prev, size, buckets, home) && e < size && b < |buckets|
    ensures next[e] < |next| && prev[e] < |next|
    ensures var n, p, slot := next[prev[e] := next[e]], prev[next[e] := prev[e]], size + b;
            n[slot] < |next| && Table(n[e := n[slot]][slot := e], p[e := slot][n[slot] := e], size, Moved(buckets, home, e, b), home[e := b])
  {
    hide Taken, Nd, IndexOf, Ring;
    TableUnlink(next, prev, size, buckets, home, e);
    TakenHome(next, prev, size, buckets, home, e);
    var n, p, slot, t := next[prev[e] := next[e]], prev[next[e] := prev[e]], size + b, Taken(buckets, home, e);
    FirstOf(n, p, slot, t[b]);
    var m := Moved(buckets, home, e, b);
    forall a | 0 <= a < |m| ensures Ring(n[e := n[slot]][slot := e], p[e := slot][n[slot] := e], size + a, m[a]) {
      InsertBucket(n, p, size, t, e, a, b);
    }
  }

  lemma InsertBucket(n: seq<nat>, p: seq<nat>, size: nat, t: seq<seq<nat>>, e: nat, a: nat, b: nat)
    requires a < |t| && b < |t| && e < size && size + |t| == |n| && e !in t[b] && e !in t[a]
    requires Ring(n, p, size + a, t[a]) && Ring(n, p, size + b, t[b])
    requires forall i :: 0 <= i < |t[a]| ==> t[a][i] < size && (a != b ==> t[a][i] !in t[b])
    requires forall i :: 0 <= i < |t[b]| ==> t[b][i] < size
    ensures n[size + b] < |n|
    ensures Ring(n[e := n[size + b]][size + b := e], p[e := size + b][n[size + b] := e], size + a, if a == b then [e] + t[b] else t[a])
  {
    hide Nd, Ring;
    FirstOf(n, p, size + b, t[b]);
    if a == b {
      RingInsert(n, p, size + b, t[b], e);
    } else {
      RingApart(n, p, n[e := n[size + b]][size + b := e], p[e := size + b][n[size + b] := e], size + a, t[a]);
    }
  }

  lemma FirstOf(next: seq<nat>, prev: seq<nat>, h: nat, q: seq<nat>)
    requires Ring(next, prev, h, q)
    ensures h < |next| && |prev| == |next| && next[h] < |next| && (next[h] == h || next[h] in q)
  {
    RingNode(next, prev, h, q, 0);
  }

  /** Without entry `e` the buckets hold the other entries, where they were. */
  lemma TakenHome(next: seq<nat>, prev: seq<nat>, size: nat, buckets: seq<seq<nat>>, home: seq<int>, e: nat)
    requires Table(next, prev, size, buckets, home) && e < size
    ensures var t := Taken(buckets, home, e);
            && (forall b, i :: 0 <= b < |t| && 0 <= i < |t[b]| ==> t[b][i] < size && t[b][i] != e && home[t[b][i]] == b)
            && (forall x :: 0 <= x < size && x != e && home[x] >= 0 ==> home[x] < |t| && x in t[home[x]])
  {
    var t := Taken(buckets, home, e);
    if home[e] >= 0 { NotIn(buckets[home[e]], e); }
    hide Removed;
    forall b, i | 0 <= b < |t| && 0 <= i < |t[b]| ensures t[b][i] < size && t[b][i] != e && home[t[b][i]] == b {
      assert t[b][i] in t[b];
      assert t[b][i] in buckets[b];
    }
  }

  /** Entry `e` is the first of bucket `b` if the head says so, and then moving it there changes nothing. */
  lemma AlreadyFirst(next: seq<nat>, prev: seq<nat>, size: nat, buckets: seq<seq<nat>>, home: seq<int>, e: nat, b: nat)
    requires Table(next, prev, size, buckets, home) && e < size && b < |buckets| && next[size + b] == e
    ensures home[e] == b && Moved(buckets, home, e, b) == buckets && home[e := b] == home
  {
    assert Ring(next, prev, size + b, buckets[b]);
    RingNode(next, prev, size + b, buckets[b], 0);
    assert buckets[b][0] == e;
    hide Ring;
    assert [e] + Cut(buckets[b], 0) == buckets[b];
  }

  /** A node of a bucket, on the way along the ring. */
  lemma BucketNode(next: seq<nat>, prev: seq<nat>, size: nat, buckets: seq<seq<nat>>, home: seq<int>, b: nat, k: nat)
    requires Table(next, prev, size, buckets, home) && b < |buckets| && k <= |buckets[b]|
    ensures var q := buckets[b]; Nd(size + b, q, k) < |next| && next[Nd(size + b, q, k)] == Nd(size + b, q, k + 1)
    ensures var q := buckets[b]; k < |q| ==> Nd(size + b, q, k + 1) == q[k] < size
    ensures var q := buckets[b]; k == |q| ==> Nd(size + b, q, k + 1) == size + b
    ensures var q := buckets[b]; q != [] ==> prev[size + b] == q[|q| - 1] < size
  {
    assert Ring(next, prev, size + b, buckets[b]);
    RingNode(next, prev, size + b, buckets[b], k);
    RingNode(next, prev, size + b, buckets[b], |buckets[b]|);
  }

  /** The runtime's way to bring an entry to the front of a ring. */
  method MoveEntryToTop(next: array<nat>, prev: array<nat>, slot: nat, idx: nat, ghost size: nat, ghost buckets: seq<seq<nat>>, ghost home: seq<int>)
    requires next != prev && Table(next[..], prev[..], size, buckets, home) && idx < size <= slot < size + |buckets|
    modifies next, prev
    ensures Table(next[..], prev[..], size, Moved(buckets, home, idx, slot - size), home[idx := slot - size])
  {
    ghost var n0, p0 := next[..], prev[..];
    hide Table, Moved;
    TableSize(n0, p0, size, buckets, home, idx);
    if next[slot] != idx {
      TableMove(n0, p0, size, buckets, home, idx, slot - size);
      var nx, pv := next[idx], prev[idx];
      prev[nx] := pv;
      next[pv] := nx;
      ghost var n: seq<nat>, p: seq<nat> := next[..], prev[..];
      assert n == n0[p0[idx] := n0[idx]] && p == p0[n0[idx] := p0[idx]];
      nx := next[slot];
      next[idx] := nx;
      prev[idx] := slot;
      next[slot] := idx;
      prev[nx] := idx;
      assert next[..] == n[idx := n[slot]][slot := idx] && prev[..] == p[idx := slot][n[slot] := idx];
    } else {
      AlreadyFirst(n0, p0, size, buckets, home, idx, slot - size);
    }
  }

  lemma TableSize(next: seq<nat>, prev: seq<nat>, size: nat, buckets: seq<seq<nat>>, home: seq<int>, e: nat)
    requires Table(next, prev, size, buckets, home) && e < size
    ensures |next| == |prev| == size + |buckets| && |home| == size && next[e] < |next| && prev[e] < |next|
  {
    Neighbours(next, prev, size, buckets, home, e);
  }
}
