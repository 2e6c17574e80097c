/** What compaction is for: where everything can move, what is free comes together at the end of every cluster. */
module Packing {
  import opened HeapLayout
  import opened Compaction
  import opened Relocation
  import opened ObjectGraph

  // ---------- A heap cell by cell ----------

  /** The block that each cell belongs to. */
  ghost function Cells(l: seq<Block>): seq<Block> {
    if l == [] then [] else Cells(l[..|l| - 1]) + Copies(l[|l| - 1])
  }

  ghost function Copies(b: Block): (r: seq<Block>)
    ensures |r| == b.size && forall x :: 0 <= x < |r| ==> r[x] == b
  {
    seq(b.size, _ => b)
  }

  ghost predicate Vacant(l: seq<Block>, x: int) {
    0 <= x < |Cells(l)| && Cells(l)[x].free
  }

  /** In use, and unable to move. */
  ghost predicate Stuck(l: seq<Block>, x: int) {
    0 <= x < |Cells(l)| && !Cells(l)[x].free && Unmovable(Cells(l)[x])
  }

  lemma {:induction false} CellsConcat(a: seq<Block>, b: seq<Block>)
    ensures Cells(a + b) == Cells(a) + Cells(b)
  {
    hide Copies;
    if b == [] {
      assert a + b == a;
    } else {
      CellsConcat(a, b[..|b| - 1]);
      assert (a + b)[..|a + b| - 1] == a + b[..|b| - 1];
    }
  }

  lemma {:induction false} CellsSize(l: seq<Block>)
    ensures |Cells(l)| == Size(l)
  {
    if l != [] {
      CellsSize(l[..|l| - 1]);
      AtPrefix(l, |l| - 1, |l| - 1);
    }
  }

  lemma CellsSlice(l: seq<Block>, i: nat, j: nat)
    requires i <= j <= |l|
    ensures At(l, i) <= At(l, j) <= |Cells(l)| == Size(l) && Cells(l[i..j]) == Cells(l)[At(l, i)..At(l, j)]
    ensures |Cells(l[i..j])| == At(l, j) - At(l, i)
  {
    hide At, Cells;
    CellsConcat(l[..i], l[i..j]);
    CellsConcat(l[..i] + l[i..j], l[j..]);
    assert l[..i] + l[i..j] + l[j..] == l && l[..i] + l[i..j] == l[..j];
    CellsSize(l[..i]);
    CellsSize(l[..j]);
    CellsSize(l);
    AtPrefix(l, i, i);
    AtPrefix(l, j, j);
    hide Size;
    assert Size(l[..i]) == At(l, i) && Size(l[..j]) == At(l, j);
  }

  lemma CellsOne(b: Block)
    ensures Cells([b]) == Copies(b)
  {
    hide Copies;
    assert [b][..0] == [] && Cells([b]) == [] + Copies(b);
  }

  /** The cells of block `i`. */
  lemma CellsBlock(l: seq<Block>, i: nat)
    requires i < |l|
    ensures At(l, i) + l[i].size == At(l, i + 1) <= |Cells(l)|
    ensures forall x :: At(l, i) <= x < At(l, i + 1) ==> Cells(l)[x] == l[i]
  {
    hide At, Cells;
    CellsSlice(l, i, i + 1);
    AtNext(l, i);
    assert l[i..i + 1] == [l[i]];
    CellsOne(l[i]);
    forall x | At(l, i) <= x < At(l, i + 1) ensures Cells(l)[x] == l[i] {
      assert Cells(l)[x] == Cells(l)[At(l, i)..At(l, i + 1)][x - At(l, i)];
    }
  }

  lemma {:induction false} BlockOf(l: seq<Block>, x: nat) returns (i: nat)
    requires x < |Cells(l)|
    ensures i < |l| && At(l, i) <= x < At(l, i + 1) && Cells(l)[x] == l[i]
  {
    var n := |l| - 1;
    CellsSize(l[..n]);
    AtPrefix(l, n, n);
    if x < |Cells(l[..n])| {
      i := BlockOf(l[..n], x);
      AtPrefix(l, n, i);
      AtPrefix(l, n, i + 1);
    } else {
      i := n;
    }
  }

  // ---------- A move, cell by cell ----------

  /** What a move of `mv` cells from `s` to `a`, the start of a free block that ends at `b`, does to every cell. */
  ghost predicate MovesCells(l: seq<Block>, m: seq<Block>, a: nat, b: nat, s: nat, mv: nat) {
    && |Cells(m)| == |Cells(l)|
    && forall x :: 0 <= x < |Cells(l)| ==>
         if a <= x < a + mv then !Vacant(m, x) && !Stuck(m, x)
         else if a <= x < b || s <= x < s + mv then Vacant(m, x)
         else Vacant(m, x) == Vacant(l, x) && Stuck(m, x) == Stuck(l, x)
  }

  /** The space of block `h` and of its free neighbours is free; nothing else changes. */
  lemma InsertedCells(l: seq<Block>, h: nat)
    requires Tiled(l) && h < |l| && At(l, h) <= At(l, h + 1) && At(l, Low(l, h)) <= At(l, High(l, h + 1))
    ensures var t := Inserted(l, h, h + 1);
            && |Cells(t)| == |Cells(l)|
            && forall x :: 0 <= x < |Cells(l)| ==>
                 if At(l, h) <= x < At(l, h + 1) then Vacant(t, x) else Vacant(t, x) == Vacant(l, x) && Stuck(t, x) == Stuck(l, x)
  {
    hide At, Cells, Low, High;
    var lo, hi := Low(l, h), High(l, h + 1);
    var b := FreeBlock(At(l, hi) - At(l, lo));
    CellsSlice(l, 0, lo);
    CellsSlice(l, hi, |l|);
    AtZero(l);
    assert l[0..lo] == l[..lo] && l[hi..|l|] == l[hi..];
    CellsOne(b);
    CellsConcat(l[..lo], [b]);
    CellsConcat(l[..lo] + [b], l[hi..]);
    NeighbourCells(l, h);
  }

  lemma NeighbourCells(l: seq<Block>, h: nat)
    requires h < |l|
    ensures At(l, Low(l, h)) <= At(l, h) <= At(l, h + 1) <= At(l, High(l, h + 1)) <= |Cells(l)|
    ensures forall x :: At(l, Low(l, h)) <= x < At(l, h) || At(l, h + 1) <= x < At(l, High(l, h + 1)) ==> Cells(l)[x].free
  {
    hide At, Cells;
    CellsBlock(l, h);
    if Low(l, h) < h { CellsBlock(l, h - 1); }
    if High(l, h + 1) > h + 1 { CellsBlock(l, h + 1); }
  }

  /** The cells before the hole is given back. */
  lemma OpenedCells(l: seq<Block>, f: nat, s: nat, e: nat)
    requires Tiled(l) && NoAdjacentFree(l) && CanMove(l, f, s, e) && Ranges(l, f, s, e)
    ensures var t, c, a, mv := Opened(l, f, s, e), Cells(l), At(l, f), At(l, e) - At(l, s); var n := |RestCells(l, f, s, e)|;
            && a + mv + n <= |c| && At(l, f + 1) <= At(l, s) && At(l, e) <= |c|
            && Cells(t) == c[..a] + c[At(l, s)..At(l, e)] + RestCells(l, f, s, e) + c[At(l, f + 1)..At(l, s)]
                           + Cells([Hole(HoleSize(l, f, s, e))]) + c[At(l, e)..]
  {
    hide At, Cells, RestOf, HoleSize;
    var moved, rest, between, hole := l[s..e], RestOf(l, f, s, e), l[f + 1..s], [Hole(HoleSize(l, f, s, e))];
    CellsSlice(l, 0, f);
    AtZero(l);
    assert l[0..f] == l[..f] && l[e..|l|] == l[e..];
    CellsSlice(l, s, e);
    CellsSlice(l, f + 1, s);
    CellsSlice(l, e, |l|);
    CellsConcat(l[..f], moved + rest + between + hole);
    CellsConcat(l[..f] + (moved + rest + between + hole), l[e..]);
    CellsConcat(moved, rest);
    CellsConcat(moved + rest, between);
    CellsConcat(moved + rest + between, hole);
    RestSizes(l, f, s, e);
  }

  ghost function RestCells(l: seq<Block>, f: nat, s: nat, e: nat): seq<Block>
    requires Ranges(l, f, s, e)
  {
    Cells(RestOf(l, f, s, e))
  }

  /** What is left of the free block. */
  lemma RestSizes(l: seq<Block>, f: nat, s: nat, e: nat)
    requires Sized(l) && Ranges(l, f, s, e)
    ensures At(l, f + 1) == At(l, f) + l[f].size <= At(l, s)
    ensures var n := |RestCells(l, f, s, e)|;
            && n == (if s == f + 1 then 0 else l[f].size - (At(l, e) - At(l, s)))
            && (forall x :: 0 <= x < n ==> RestCells(l, f, s, e)[x].free)
    ensures |Cells([Hole(HoleSize(l, f, s, e))])| == HoleSize(l, f, s, e)
  {
    hide At;
    AtNext(l, f);
    AtGrows(l, f + 1, s);
    CellsOne(Hole(HoleSize(l, f, s, e)));
    if RestOf(l, f, s, e) != [] { CellsOne(RestOf(l, f, s, e)[0]); }
  }

  /** Which cells they are. */
  lemma OpenedCell(l: seq<Block>, f: nat, s: nat, e: nat, x: nat)
    requires Tiled(l) && NoAdjacentFree(l) && CanMove(l, f, s, e) && Ranges(l, f, s, e) && x < |Cells(l)|
    ensures var a, b, s0, e0 := At(l, f), At(l, f + 1), At(l, s), At(l, e); var mv, c := e0 - s0, Cells(Opened(l, f, s, e));
            && a < b <= s0 && |c| == |Cells(l)|
            && (x < a || x >= e0 ==> c[x] == Cells(l)[x])
            && (a <= x < a + mv ==> s0 + (x - a) < e0 <= |Cells(l)| && c[x] == Cells(l)[s0 + (x - a)])
            && (a + mv <= x < b ==> s == f + 1 || c[x].free)
            && (s != f + 1 && b <= x < s0 ==> c[x] == Cells(l)[x])
  {
    hide At, Cells, Opened, RestOf, HoleSize, NoAdjacentFree, RestCells;
    OpenedCells(l, f, s, e);
    RestSizes(l, f, s, e);
    HoleIs(l, f, s, e);
    var c, a, b, s0, e0 := Cells(l), At(l, f), At(l, f + 1), At(l, s), At(l, e);
    Six(c[..a], c[s0..e0], RestCells(l, f, s, e), c[b..s0], Cells([Hole(HoleSize(l, f, s, e))]), c[e0..], x);
  }

  lemma HoleIs(l: seq<Block>, f: nat, s: nat, e: nat)
    requires Ranges(l, f, s, e)
    ensures HoleSize(l, f, s, e) == if s == f + 1 then l[f].size else At(l, e) - At(l, s)
  {
  }

  lemma Six<T>(p: seq<T>, q: seq<T>, r: seq<T>, s: seq<T>, t: seq<T>, u: seq<T>, x: nat)
    requires x < |p| + |q| + |r| + |s| + |t| + |u|
    ensures var i, j, k, n := |p|, |p| + |q|, |p| + |q| + |r|, |p| + |q| + |r| + |s|;
            (p + q + r + s + t + u)[x] ==
              if x < i then p[x] else if x < j then q[x - i] else if x < k then r[x - j] else if x < n then s[x - k]
              else if x < n + |t| then t[x - n] else u[x - n - |t|]
  {
  }

  lemma MovableCells(l: seq<Block>, s: nat, e: nat, x: nat)
    requires s <= e <= |l| && (forall i :: s <= i < e ==> Movable(l[i])) && At(l, s) <= x < At(l, e) <= |Cells(l)| && Sized(l)
    ensures !Vacant(l, x) && !Stuck(l, x)
  {
    hide At, Cells;
    var i := BlockOf(l, x);
    AtOrder(l, i, e);
    AtOrder(l, s, i + 1);
  }

  lemma MovedMeans(l: seq<Block>, f: nat, s: nat, e: nat)
    requires Tiled(l) && NoAdjacentFree(l) && CanMove(l, f, s, e)
    ensures At(l, f) < At(l, f + 1) <= At(l, s) < At(l, e) <= |Cells(l)|
    ensures MovesCells(l, Moved(l, f, s, e), At(l, f), At(l, f + 1), At(l, s), At(l, e) - At(l, s))
  {
    hide At, Cells, Opened, NoAdjacentFree, Low, High, Inserted;
    OpenedOk(l, f, s, e);
    var t, h := Opened(l, f, s, e), HoleAt(l, f, s, e);
    InsertedOk(t, h, h + 1);
    InsertedCells(t, h);
    RestSizes(l, f, s, e);
    HoleIs(l, f, s, e);
    CellsBlock(l, f);
    CellsSlice(l, s, e);
    CellsSize(l);
    CellsSize(t);
    AtNext(l, f);
    hide HoleAt, HoleSize, RestCells, Spread;
    var m, a, b, s0, e0 := Moved(l, f, s, e), At(l, f), At(l, f + 1), At(l, s), At(l, e);
    forall x | 0 <= x < |Cells(l)|
      ensures if a <= x < a + (e0 - s0) then !Vacant(m, x) && !Stuck(m, x)
              else if a <= x < b || s0 <= x < e0 then Vacant(m, x)
              else Vacant(m, x) == Vacant(l, x) && Stuck(m, x) == Stuck(l, x) {
      OpenedCell(l, f, s, e, x);
      if a <= x < a + (e0 - s0) { MovableCells(l, s, e, s0 + (x - a)); }
    }
  }

  // ---------- Clusters ----------

  /** The payload of a cluster, from one address to another. */
  datatype Cluster = Cluster(start: nat, end: nat)

  ghost predicate Ascending(clusters: seq<Cluster>) {
    && (forall i :: 0 <= i < |clusters| ==> clusters[i].start <= clusters[i].end)
    && forall i, j :: 0 <= i < j < |clusters| ==> clusters[i].end <= clusters[j].start
  }

  /** Whatever is in use in the clusters can move. */
  ghost predicate NoneStuck(l: seq<Block>, clusters: seq<Cluster>) {
    forall i, x :: 0 <= i < |clusters| && clusters[i].start <= x < clusters[i].end ==> !Stuck(l, x)
  }

  /** What is free in the cluster is at its end. */
  ghost predicate Packed(l: seq<Block>, c: Cluster) {
    forall x, y :: c.start <= x <= y < c.end && Vacant(l, x) ==> Vacant(l, y)
  }

  ghost predicate NoneVacant(l: seq<Block>, c: Cluster, end: nat) {
    forall x :: c.start <= x < c.end && x < end ==> !Vacant(l, x)
  }

  /** Of the cluster nothing is free before address `a`, and everything from there up to `cur`. */
  ghost predicate Cleared(l: seq<Block>, c: Cluster, a: nat, cur: nat) {
    NoneVacant(l, c, a) && forall x :: c.start <= x < c.end && a <= x < cur ==> Vacant(l, x)
  }

  /** The cursor has come to `cur` in cluster `k`, and the free region to `a`, there or in an earlier one. */
  ghost predicate Underway(l: seq<Block>, clusters: seq<Cluster>, k: nat, a: nat, cur: nat) {
    && Ascending(clusters) && NoneStuck(l, clusters) && k < |clusters| && clusters[k].start <= cur <= clusters[k].end
    && (forall i :: 0 <= i < k ==> Packed(l, clusters[i])) && Cleared(l, clusters[k], a, cur)
  }

  /** All of a free block. */
  ghost predicate FreeRun(l: seq<Block>, a: nat, b: nat) {
    a < b <= |Cells(l)| && (forall x :: a <= x < b ==> Vacant(l, x)) && !Vacant(l, a - 1) && !Vacant(l, b)
  }

  /** Nothing between these addresses can move. */
  ghost predicate NothingLoose(l: seq<Block>, from: nat, to: nat) {
    forall x :: from <= x < to ==> Vacant(l, x) || Stuck(l, x)
  }

  /** The free region and the cursor are in the same cluster: what is behind the region slides. */
  lemma Adjacent(l: seq<Block>, clusters: seq<Cluster>, k: nat, a: nat, b: nat, s: nat)
    requires Underway(l, clusters, k, a, s) && FreeRun(l, a, b) && b <= s < clusters[k].end && clusters[k].start <= a
    ensures b == s
  {
    assert b < s ==> Vacant(l, b);
  }

  /** In an earlier cluster the free region is all that is free, up to the end. */
  lemma LastRun(l: seq<Block>, c: Cluster, a: nat, b: nat)
    requires Packed(l, c) && FreeRun(l, a, b) && c.start <= a && b <= c.end
    ensures b == c.end && NoneVacant(l, c, a)
  {
    assert Vacant(l, a);
    assert b < c.end ==> Vacant(l, b);
    forall x | c.start <= x < a ensures !Vacant(l, x) {
      assert Vacant(l, x) ==> Vacant(l, a - 1);
    }
  }

  lemma Slid(l: seq<Block>, m: seq<Block>, clusters: seq<Cluster>, k: nat, a: nat, b: nat, s: nat, mv: nat, source: nat)
    requires Underway(l, clusters, k, a, s) && clusters[k].start <= a < b == s < clusters[k].end && s + mv <= source <= clusters[k].end
    requires MovesCells(l, m, a, b, s, mv) && NothingLoose(l, s + mv, source) && |Cells(l)| >= clusters[k].end
    ensures Underway(m, clusters, k, a + mv, source)
  {
    hide Cells, Vacant, Stuck;
    StillLoose(l, m, clusters, a, b, s, mv);
    forall i | 0 <= i < k ensures Packed(m, clusters[i]) { Elsewhere(l, m, clusters[i], a, b, s, mv); }
    forall x | clusters[k].start <= x < clusters[k].end && a + mv <= x < source ensures Vacant(m, x) {
      if x >= s + mv { assert Vacant(l, x) || Stuck(l, x); }
    }
  }

  lemma StillLoose(l: seq<Block>, m: seq<Block>, clusters: seq<Cluster>, a: nat, b: nat, s: nat, mv: nat)
    requires NoneStuck(l, clusters) && MovesCells(l, m, a, b, s, mv)
    ensures NoneStuck(m, clusters)
  {
    forall i, x | 0 <= i < |clusters| && clusters[i].start <= x < clusters[i].end ensures !Stuck(m, x) {
      assert !Stuck(l, x);
      if 0 <= x < |Cells(l)| { assert Vacant(m, x) ==> !Stuck(m, x); }
    }
  }

  /** A cluster that is not touched. */
  lemma Elsewhere(l: seq<Block>, m: seq<Block>, c: Cluster, a: nat, b: nat, s: nat, mv: nat)
    requires Packed(l, c) && MovesCells(l, m, a, b, s, mv) && (c.end <= a || b <= c.start) && (c.end <= s || s + mv <= c.start) && a < b
    requires s == b || a + mv <= b
    ensures Packed(m, c)
  {
    hide Cells;
    assert |Cells(m)| == |Cells(l)|;
    forall x, y | c.start <= x <= y < c.end && Vacant(m, x) ensures Vacant(m, y) {
      SameCell(l, m, a, b, s, mv, x);
      SameCell(l, m, a, b, s, mv, y);
      assert Vacant(l, x) ==> Vacant(l, y);
    }
  }

  lemma SameCell(l: seq<Block>, m: seq<Block>, a: nat, b: nat, s: nat, mv: nat, x: nat)
    requires MovesCells(l, m, a, b, s, mv) && !(a <= x < a + mv) && !(a <= x < b) && !(s <= x < s + mv)
    ensures Vacant(m, x) == Vacant(l, x)
  {
  }

  /** Blocks have been taken to an earlier cluster. */
  lemma Delivered(l: seq<Block>, m: seq<Block>, clusters: seq<Cluster>, j: nat, k: nat, a: nat, b: nat, s: nat, mv: nat, source: nat, next: nat)
    requires Underway(l, clusters, k, a, s) && j < k && FreeRun(l, a, b) && clusters[j].start <= a && b <= clusters[j].end && mv <= b - a
    requires s + mv <= source <= clusters[k].end <= |Cells(l)| && MovesCells(l, m, a, b, s, mv) && NothingLoose(l, s + mv, source)
    requires next <= clusters[k].start
    ensures Underway(m, clusters, k, next, source)
  {
    hide Cells, Vacant, Stuck;
    StillLoose(l, m, clusters, a, b, s, mv);
    LastRun(l, clusters[j], a, b);
    forall i | 0 <= i < k ensures Packed(m, clusters[i]) {
      if i == j { Filled(l, m, clusters[j], a, b, s, mv); } else { Elsewhere(l, m, clusters[i], a, b, s, mv); }
    }
    forall x | clusters[k].start <= x < clusters[k].end && next <= x < source ensures Vacant(m, x) {
      if x >= s + mv { assert Vacant(l, x) || Stuck(l, x); }
    }
  }

  lemma Filled(l: seq<Block>, m: seq<Block>, c: Cluster, a: nat, b: nat, s: nat, mv: nat)
    requires MovesCells(l, m, a, b, s, mv) && NoneVacant(l, c, a) && b == c.end <= s && c.start <= a && a + mv <= b <= |Cells(l)|
    ensures Packed(m, c)
  {
    hide Cells, Stuck, Vacant;
    forall x, y | c.start <= x <= y < c.end && Vacant(m, x) ensures Vacant(m, y) {
      assert x >= a + mv;
    }
  }

  /** The cursor passes what cannot move. */
  lemma Skipped(l: seq<Block>, clusters: seq<Cluster>, k: nat, a: nat, cur: nat, next: nat)
    requires Underway(l, clusters, k, a, cur) && cur <= next <= clusters[k].end && NothingLoose(l, cur, next) && (a <= cur || next == a)
    ensures Underway(l, clusters, k, a, next)
  {
    hide Vacant, Stuck;
    forall x | clusters[k].start <= x < clusters[k].end && a <= x < next ensures Vacant(l, x) {
      if x >= cur { assert Vacant(l, x) || Stuck(l, x); }
    }
  }

  /** The cursor goes up to the free region. */
  lemma Jumped(l: seq<Block>, clusters: seq<Cluster>, k: nat, a: nat, cur: nat)
    requires Underway(l, clusters, k, a, cur) && cur <= a <= clusters[k].end
    ensures Underway(l, clusters, k, a, a)
  {
  }

  /** At the end of the cluster. */
  lemma Through(l: seq<Block>, clusters: seq<Cluster>, k: nat, a: nat)
    requires k < |clusters| && Underway(l, clusters, k, a, clusters[k].end)
    ensures forall i :: 0 <= i <= k ==> Packed(l, clusters[i])
  {
    hide Vacant, Stuck;
    var c := clusters[k];
    forall x, y | c.start <= x <= y < c.end && Vacant(l, x) ensures Vacant(l, y) {
      assert x >= a;
    }
  }

  /** The next free region: in an earlier cluster, in that of the cursor, or in a later one. */
  lemma NextRegion(l: seq<Block>, clusters: seq<Cluster>, j: nat, k: nat, a: nat, cur: nat, h: nat, next: nat)
    requires Underway(l, clusters, k, a, cur) && j < k && a <= clusters[k].start && j < h < |clusters|
    requires forall i :: j < i < h ==> NoneVacant(l, clusters[i], clusters[i].end)
    requires clusters[h].start <= next < clusters[h].end && NoneVacant(l, clusters[h], next)
    ensures Underway(l, clusters, if h > k then h else k, next, if h > k then clusters[h].start else cur)
  {
    hide Vacant, Stuck;
  }

  /** There is none any more. */
  lemma NoRegion(l: seq<Block>, clusters: seq<Cluster>, j: nat, k: nat, a: nat, cur: nat)
    requires Underway(l, clusters, k, a, cur) && j < k
    requires forall i :: j < i < |clusters| ==> NoneVacant(l, clusters[i], clusters[i].end)
    ensures forall i :: 0 <= i <= k ==> Packed(l, clusters[i])
  {
    hide Vacant, Stuck;
  }

  /** A round begins at cluster `k`, with a free region in cluster `h`. */
  lemma RoundStarts(l: seq<Block>, clusters: seq<Cluster>, k: nat, h: nat, a: nat)
    requires Ascending(clusters) && NoneStuck(l, clusters) && k < |clusters| && h < |clusters| && clusters[h].start <= a < clusters[h].end
    requires forall i :: 0 <= i < k ==> Packed(l, clusters[i])
    requires h >= k ==> NoneVacant(l, clusters[h], a) && forall i :: k <= i < h ==> NoneVacant(l, clusters[i], clusters[i].end)
    ensures Underway(l, clusters, if h > k then h else k, a, clusters[if h > k then h else k].start)
  {
    hide Vacant, Stuck;
  }

  // ---------- Blocks and cells ----------

  /** Before address `a` no block that begins in the cluster is free. */
  lemma NoneFreeCells(l: seq<Block>, c: Cluster, a: nat, p: nat)
    requires Sized(l) && p <= |l| && At(l, p) == c.start
    requires forall k: nat :: k < |l| && c.start <= At(l, k) < c.end && l[k].free ==> a <= At(l, k)
    ensures NoneVacant(l, c, a)
  {
    hide At, Cells;
    forall x | c.start <= x < c.end && x < a ensures !Vacant(l, x) {
      if Vacant(l, x) {
        var i := BlockOf(l, x);
        AtOrder(l, p, i + 1);
        AtOrder(l, p, i);
      }
    }
  }

  lemma FreeCells(l: seq<Block>, f: nat)
    requires Tiled(l) && NoAdjacentFree(l) && f < |l| && l[f].free
    ensures FreeRun(l, At(l, f), At(l, f + 1))
  {
    hide At, Cells;
    AtNext(l, f);
    CellsBlock(l, f);
    CellsSize(l);
    if Vacant(l, At(l, f) - 1) {
      var i := BlockOf(l, At(l, f) - 1);
      AtOrder(l, i, f);
      AtOrder(l, f, i + 1);
    }
    if Vacant(l, At(l, f + 1)) {
      var i := BlockOf(l, At(l, f + 1));
      AtOrder(l, i, f + 1);
      AtOrder(l, f + 1, i + 1);
    }
  }

  lemma UnmovableCells(l: seq<Block>, i: nat, j: nat)
    requires Sized(l) && i <= j <= |l| && forall k :: i <= k < j ==> Unmovable(l[k])
    ensures NothingLoose(l, At(l, i), At(l, j))
  {
    hide At, Cells;
    CellsSlice(l, i, j);
    forall x | At(l, i) <= x < At(l, j) ensures Vacant(l, x) || Stuck(l, x) {
      var k := BlockOf(l, x);
      AtOrder(l, i, k + 1);
      AtOrder(l, k, j);
    }
  }

  /** A cluster in which whatever is in use can move. */
  lemma LooseCells(l: seq<Block>, c: Cluster, p: nat)
    requires Sized(l) && p <= |l| && At(l, p) == c.start
    requires forall k: nat :: k < |l| && c.start <= At(l, k) < c.end && !l[k].free ==> !l[k].pinned && !l[k].event
    ensures forall x :: c.start <= x < c.end ==> !Stuck(l, x)
  {
    hide At, Cells;
    forall x | c.start <= x < c.end ensures !Stuck(l, x) {
      if Stuck(l, x) {
        var k := BlockOf(l, x);
        AtOrder(l, p, k + 1);
        AtOrder(l, p, k);
      }
    }
  }

  /** A packed cluster: a free block in it ends with it. */
  lemma PackedBlocks(l: seq<Block>, c: Cluster, q: nat)
    requires Tiled(l) && NoAdjacentFree(l) && Packed(l, c) && q <= |l| && At(l, q) == c.end
    ensures forall i: nat :: i < |l| && c.start <= At(l, i) < c.end && l[i].free ==> At(l, i + 1) == c.end
  {
    hide At, Cells;
    forall i: nat | i < |l| && c.start <= At(l, i) < c.end && l[i].free ensures At(l, i + 1) == c.end {
      var next := At(l, i + 1);
      AtOrder(l, i, q);
      FreeCells(l, i);
      AtOrder(l, i + 1, q);
      assert Vacant(l, At(l, i));
      assert next < c.end ==> Vacant(l, next);
    }
  }

  /** Updating references changes none of this. */
  lemma {:induction false} UpdatedCells(table: seq<Region>, l: seq<Block>)
    ensures |Cells(UpdatedAll(table, l))| == |Cells(l)|
    ensures forall x :: Vacant(UpdatedAll(table, l), x) == Vacant(l, x) && Stuck(UpdatedAll(table, l), x) == Stuck(l, x)
  {
    if l != [] {
      var n, u := |l| - 1, UpdatedAll(table, l);
      UpdatedCells(table, l[..n]);
      assert u[..n] == UpdatedAll(table, l[..n]);
      forall x ensures Vacant(u, x) == Vacant(l, x) && Stuck(u, x) == Stuck(l, x) {
        assert Vacant(u[..n], x) == Vacant(l[..n], x) && Stuck(u[..n], x) == Stuck(l[..n], x);
      }
    }
  }

  lemma UpdatedUnderway(table: seq<Region>, l: seq<Block>, clusters: seq<Cluster>, k: nat, a: nat, cur: nat)
    requires Underway(l, clusters, k, a, cur)
    ensures Underway(UpdatedAll(table, l), clusters, k, a, cur)
  {
    hide Vacant, Stuck, UpdatedAll;
    UpdatedCells(table, l);
    var u := UpdatedAll(table, l);
    forall i | 0 <= i < k ensures Packed(u, clusters[i]) { UpdatedPacked(table, l, clusters[i]); }
  }

  lemma UpdatedPacked(table: seq<Region>, l: seq<Block>, c: Cluster)
    requires Packed(l, c)
    ensures Packed(UpdatedAll(table, l), c)
  {
    hide Vacant, Stuck, UpdatedAll;
    UpdatedCells(table, l);
    var u := UpdatedAll(table, l);
    forall x, y | c.start <= x <= y < c.end && Vacant(u, x) ensures Vacant(u, y) {
      assert Vacant(l, x);
    }
  }
}
