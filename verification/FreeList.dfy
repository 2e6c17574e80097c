/** The doubly linked free list: two link arrays with a node for each address and two end nodes. */
module FreeList {

  /** Node `k` of the list `s`: the head, the elements, the tail. */
  function Node(s: seq<nat>, n: nat, k: nat): int {
    if k == 0 then n else if k <= |s| then s[k - 1] else n + 1
  }

  ghost predicate Increasing(s: seq<nat>, n: nat) {
    (forall i, j :: 0 <= i < j < |s| ==> s[i] < s[j]) && (forall i :: 0 <= i < |s| ==> s[i] < n)
  }

  /** The links run through head, `s` and tail, forward and back, and end in null at both ends. */
  ghost predicate Chain(next: seq<int>, prev: seq<int>, s: seq<nat>, n: nat) {
    && |next| == |prev| == n + 2 && Increasing(s, n)
    && next[n + 1] == -1 && prev[n] == -1
    && forall k: nat :: k <= |s| ==> next[Node(s, n, k)] == Node(s, n, k + 1) && prev[Node(s, n, k + 1)] == Node(s, n, k)
  }

  /** Nodes are distinct. */
  lemma NodesDiffer(s: seq<nat>, n: nat, j: nat, k: nat)
    requires Increasing(s, n) && j <= |s| + 1 && k <= |s| + 1
    ensures Node(s, n, j) == Node(s, n, k) <==> j == k
    ensures 0 <= Node(s, n, j) < n + 2
  {
  }

  /** Element `k` is taken out. */
  lemma ChainRemove(next: seq<int>, prev: seq<int>, s: seq<nat>, n: nat, k: nat)
    requires Chain(next, prev, s, n) && k < |s|
    ensures var p, q := Node(s, n, k), Node(s, n, k + 2);
            && prev[s[k]] == p && next[s[k]] == q && 0 <= p < n + 2 && 0 <= q < n + 2
            && Chain(next[p := q], prev[q := p], s[..k] + s[k + 1..], n)
  {
    var p, q := Node(s, n, k), Node(s, n, k + 2);
    var t := s[..k] + s[k + 1..];
    assert Node(s, n, k + 1) == s[k];
    NodesDiffer(s, n, k, k + 2);
    forall j: nat | j <= |t|
      ensures next[p := q][Node(t, n, j)] == Node(t, n, j + 1) && prev[q := p][Node(t, n, j + 1)] == Node(t, n, j)
    {
      var i := if j <= k then j else j + 1;
      var i' := if j + 1 <= k then j + 1 else j + 2;
      assert Node(t, n, j) == Node(s, n, i) && Node(t, n, j + 1) == Node(s, n, i');
      NodesDiffer(s, n, i, k);
      NodesDiffer(s, n, i', k + 2);
    }
  }

  /** The link of `t` after node `j` is a link of `s`. */
  ghost predicate LinkOf(s: seq<nat>, t: seq<nat>, n: nat, j: nat) {
    exists i: nat :: i <= |s| && Node(s, n, i) == Node(t, n, j) && Node(s, n, i + 1) == Node(t, n, j + 1)
  }

  lemma SpliceLink(next: seq<int>, prev: seq<int>, s: seq<nat>, t: seq<nat>, n: nat, k: nat, a: nat, j: nat)
    requires Chain(next, prev, s, n) && Increasing(t, n) && a < n && k < |t| && t[k] == a && j <= |t|
    requires j == k || j == k + 1 || LinkOf(s, t, n, j)
    ensures var p, q := Node(t, n, k), Node(t, n, k + 2);
            && 0 <= p < n + 2 && 0 <= q < n + 2
            && 0 <= Node(t, n, j) < n + 2 && 0 <= Node(t, n, j + 1) < n + 2
            && next[a := q][p := a][Node(t, n, j)] == Node(t, n, j + 1)
            && prev[a := p][q := a][Node(t, n, j + 1)] == Node(t, n, j)
  {
    assert Node(t, n, k + 1) == a;
    hide Node;
    NodesDiffer(t, n, k, k + 2);
    NodesDiffer(t, n, k, k + 1);
    NodesDiffer(t, n, k + 1, k + 2);
    NodesDiffer(t, n, j, k);
    NodesDiffer(t, n, j, k + 1);
    NodesDiffer(t, n, j + 1, k + 1);
    NodesDiffer(t, n, j + 1, k + 2);
    if j != k && j != k + 1 {
      var i: nat :| i <= |s| && Node(s, n, i) == Node(t, n, j) && Node(s, n, i + 1) == Node(t, n, j + 1);
    }
  }

  /** List `t` has `a` between nodes `p` and `q`; all its other links are links of `s`. */
  lemma ChainSplice(next: seq<int>, prev: seq<int>, s: seq<nat>, t: seq<nat>, n: nat, k: nat, a: nat)
    requires Chain(next, prev, s, n) && Increasing(t, n) && a < n && k < |t| && t[k] == a
    requires forall j: nat :: j <= |t| && j != k && j != k + 1 ==> LinkOf(s, t, n, j)
    ensures var p, q := Node(t, n, k), Node(t, n, k + 2);
            0 <= p < n + 2 && 0 <= q < n + 2 && Chain(next[a := q][p := a], prev[a := p][q := a], t, n)
  {
    var p, q := Node(t, n, k), Node(t, n, k + 2);
    NodesDiffer(t, n, |t| + 1, k);
    NodesDiffer(t, n, 0, k + 2);
    assert Node(t, n, 0) == n && Node(t, n, |t| + 1) == n + 1;
    hide Node, LinkOf, Increasing;
    NodesDiffer(t, n, k, k + 2);
    var next', prev' := next[a := q][p := a], prev[a := p][q := a];
    forall j: nat | j <= |t| ensures next'[Node(t, n, j)] == Node(t, n, j + 1) && prev'[Node(t, n, j + 1)] == Node(t, n, j) {
      SpliceLink(next, prev, s, t, n, k, a, j);
    }
  }

  /** Element `k` moves to address `a`, between the same neighbours. */
  lemma ChainReplace(next: seq<int>, prev: seq<int>, s: seq<nat>, n: nat, k: nat, a: nat)
    requires Chain(next, prev, s, n) && k < |s| && a < n && Increasing(s[k := a], n)
    ensures var p, q := Node(s, n, k), Node(s, n, k + 2);
            && prev[s[k]] == p && next[s[k]] == q && 0 <= p < n + 2 && 0 <= q < n + 2
            && Chain(next[a := q][p := a], prev[a := p][q := a], s[k := a], n)
  {
    var t := s[k := a];
    assert Node(s, n, k + 1) == s[k] && Node(t, n, k) == Node(s, n, k) && Node(t, n, k + 2) == Node(s, n, k + 2);
    forall j: nat | j <= |t| && j != k && j != k + 1
      ensures LinkOf(s, t, n, j) {
      assert Node(s, n, j) == Node(t, n, j) && Node(s, n, j + 1) == Node(t, n, j + 1);
    }
    ChainSplice(next, prev, s, t, n, k, a);
  }

  /** Address `a` is linked in before element `k`, or at the end. */
  lemma ChainInsert(next: seq<int>, prev: seq<int>, s: seq<nat>, n: nat, k: nat, a: nat)
    requires Chain(next, prev, s, n) && k <= |s| && a < n && Increasing(s[..k] + [a] + s[k..], n)
    ensures var p, q := Node(s, n, k), Node(s, n, k + 1);
            && prev[q] == p && next[p] == q && 0 <= p < n + 2 && 0 <= q < n + 2
            && Chain(next[a := q][p := a], prev[a := p][q := a], s[..k] + [a] + s[k..], n)
  {
    var t := s[..k] + [a] + s[k..];
    assert Node(t, n, k) == Node(s, n, k) && Node(t, n, k + 2) == Node(s, n, k + 1);
    forall j: nat | j <= |t| && j != k && j != k + 1
      ensures LinkOf(s, t, n, j) {
      var i := if j < k then j else j - 1;
      assert Node(s, n, i) == Node(t, n, j) && Node(s, n, i + 1) == Node(t, n, j + 1);
    }
    ChainSplice(next, prev, s, t, n, k, a);
  }

  // ---------- Walking the list ----------

  lemma WalkStart(next: seq<int>, prev: seq<int>, s: seq<nat>, n: nat)
    requires Chain(next, prev, s, n)
    ensures next[n] == Node(s, n, 1) && prev[n + 1] == Node(s, n, |s|)
  {
    assert Node(s, n, 0) == n && Node(s, n, |s| + 1) == n + 1;
  }

  /** A walk forward is at node `k + 1`: element `k`, or the tail if there are no more. */
  lemma WalkForward(next: seq<int>, prev: seq<int>, s: seq<nat>, n: nat, k: nat)
    requires Chain(next, prev, s, n) && k <= |s|
    ensures var p := Node(s, n, k + 1);
            && 0 <= p < n + 2 && (next[p] == -1 <==> k == |s|)
            && if k < |s| then p == s[k] < n && next[p] == Node(s, n, k + 2) else p == n + 1
  {
    var i := k + 1;
    if i <= |s| { assert next[Node(s, n, i)] == Node(s, n, i + 1); }
  }

  /** A walk back is at node `k`: element `k - 1`, or the head if there are no more. */
  lemma WalkBack(next: seq<int>, prev: seq<int>, s: seq<nat>, n: nat, k: nat)
    requires Chain(next, prev, s, n) && k <= |s|
    ensures var p := Node(s, n, k);
            && 0 <= p < n + 2 && (prev[p] == -1 <==> k == 0)
            && if k > 0 then p == s[k - 1] < n && prev[p] == Node(s, n, k - 1) else p == n
  {
    if k > 0 { assert prev[Node(s, n, (k - 1) + 1)] == Node(s, n, k - 1); }
  }

  /** The links of a node outside the list do not matter. */
  lemma ChainIgnores(next: seq<int>, prev: seq<int>, s: seq<nat>, n: nat, a: nat, x: int, y: int)
    requires Chain(next, prev, s, n) && a < n && a !in s
    ensures Chain(next[a := x], prev[a := y], s, n)
  {
  }

  // ---------- Building the list ----------

  /** The list from its head to the last element so far. */
  ghost predicate OpenChain(next: seq<int>, prev: seq<int>, s: seq<nat>, n: nat) {
    && |next| == |prev| == n + 2 && Increasing(s, n) && prev[n] == -1
    && forall k: nat :: k < |s| ==> next[Node(s, n, k)] == Node(s, n, k + 1) && prev[Node(s, n, k + 1)] == Node(s, n, k)
  }

  lemma OpenAppend(next: seq<int>, prev: seq<int>, s: seq<nat>, n: nat, a: nat)
    requires OpenChain(next, prev, s, n) && a < n && Increasing(s + [a], n)
    ensures var p := Node(s, n, |s|);
            0 <= p < n + 2 && OpenChain(next[p := a], prev[a := p], s + [a], n) && Node(s + [a], n, |s| + 1) == a
  {
    var t, p := s + [a], Node(s, n, |s|);
    forall k: nat | k < |t| ensures next[p := a][Node(t, n, k)] == Node(t, n, k + 1) && prev[a := p][Node(t, n, k + 1)] == Node(t, n, k) {
      NodesDiffer(t, n, k, |s|);
      NodesDiffer(t, n, k + 1, |s| + 1);
      assert Node(t, n, k) == Node(s, n, k);
      if k < |s| { assert Node(t, n, k + 1) == Node(s, n, k + 1); }
    }
  }

  lemma OpenClose(next: seq<int>, prev: seq<int>, s: seq<nat>, n: nat)
    requires OpenChain(next, prev, s, n)
    ensures var p := Node(s, n, |s|);
            0 <= p < n + 2 && Chain(next[p := n + 1][n + 1 := -1], prev[n + 1 := p], s, n)
  {
    var p := Node(s, n, |s|);
    forall k: nat | k <= |s|
      ensures next[p := n + 1][n + 1 := -1][Node(s, n, k)] == Node(s, n, k + 1) && prev[n + 1 := p][Node(s, n, k + 1)] == Node(s, n, k) {
      NodesDiffer(s, n, k, |s|);
      NodesDiffer(s, n, k, |s| + 1);
      NodesDiffer(s, n, k + 1, |s| + 1);
    }
  }
}
