/** The compactor: blocks move down into the free regions, and references follow through the relocation table. */
module Compactor {
  import opened HeapLayout
  import opened Compaction
  import opened Relocation
  import opened ObjectGraph
  import opened Packing

  /** A node of a free list, or its end, or none. */
  datatype FreeRegion = Null | Tail | Node(address: nat)

  const MINIMUM_SPACE_FOR_COMPACT := 128

  // ---------- Addresses of blocks ----------

  function IndexOf(l: seq<Block>, a: nat): (i: nat)
    ensures i <= |l|
  {
    if a < Size(l) then Holder(l, a) else |l|
  }

  lemma IndexIs(l: seq<Block>, i: nat)
    requires Sized(l) && i <= |l|
    ensures IndexOf(l, At(l, i)) == i
    ensures i < |l| ==> At(l, i) < Size(l)
  {
    if i < |l| {
      AtNext(l, i);
      HolderIs(l, At(l, i), i);
    }
  }

  /** The first free block from block `i` on that begins before `end`. */
  function FreeFrom(l: seq<Block>, i: nat, end: nat): FreeRegion
    requires i <= |l|
    decreases |l| - i
  {
    if i == |l| || At(l, i) >= end then Tail
    else if l[i].free then Node(At(l, i))
    else FreeFrom(l, i + 1, end)
  }

  ghost predicate IsFreeAt(l: seq<Block>, a: nat) {
    exists k :: 0 <= k < |l| && l[k].free && At(l, k) == a
  }

  lemma {:induction false} FreeFromOk(l: seq<Block>, i: nat, end: nat)
    requires Sized(l) && i <= |l|
    ensures FreeFrom(l, i, end) != Null
    ensures var r := FreeFrom(l, i, end); r.Node? ==> IsFreeAt(l, r.address) && At(l, i) <= r.address < end
    decreases |l| - i
  {
    if i < |l| {
      AtNext(l, i);
      FreeFromOk(l, i + 1, end);
    }
  }

  /** No free block is passed over. */
  lemma {:induction false} FreeFromFirst(l: seq<Block>, i: nat, end: nat, k: nat)
    requires Sized(l) && i <= k < |l| && l[k].free && At(l, k) < end
    ensures var r := FreeFrom(l, i, end); r.Node? && r.address <= At(l, k)
    decreases |l| - i
  {
    AtOrder(l, i, k);
    if i < k && !l[i].free { FreeFromFirst(l, i + 1, end, k); }
  }

  lemma NoneBefore(l: seq<Block>, c: Cluster)
    requires Sized(l)
    ensures var r := FreeFrom(l, IndexOf(l, c.start), c.end);
            forall k: nat :: k < |l| && l[k].free && c.start <= At(l, k) < c.end ==> r.Node? && r.address <= At(l, k)
  {
    hide At, FreeFrom;
    forall k: nat | k < |l| && l[k].free && c.start <= At(l, k) < c.end
      ensures var r := FreeFrom(l, IndexOf(l, c.start), c.end); r.Node? && r.address <= At(l, k) {
      if c.start < Size(l) { HolderOk(l, c.start); } else { AtGrows(l, k, |l|); }
      AtOrder(l, IndexOf(l, c.start), k);
      FreeFromFirst(l, IndexOf(l, c.start), c.end, k);
    }
  }

  // ---------- The clusters ----------

  /** A block that stays where it is: the fields of a cluster itself lie before its payload. */
  ghost predicate Fence(l: seq<Block>, p: nat) {
    p < |l| && !l[p].free && Unmovable(l[p])
  }

  ghost predicate ClusterOk(l: seq<Block>, c: Cluster) {
    && c.start <= c.end
    && (exists p: nat :: Fence(l, p) && At(l, p + 1) == c.start)
    && (c.end == Size(l) || exists q: nat :: Fence(l, q) && At(l, q) == c.end)
  }

  ghost predicate ClustersOk(l: seq<Block>, clusters: seq<Cluster>) {
    && (forall i :: 0 <= i < |clusters| ==> ClusterOk(l, clusters[i]))
    && (forall i, j :: 0 <= i < j < |clusters| ==> clusters[i].end <= clusters[j].start)
  }

  /** A fence stays. */
  lemma FenceStays(t: Trail, heap: seq<Block>, s: nat, s0: nat, p: nat)
    requires Tracked(t, heap, s, s0) && Fence(t.was, p)
    ensures Fence(heap, t.place[p]) && At(heap, t.place[p]) == At(t.was, p) && At(heap, t.place[p] + 1) == At(t.was, p + 1)
  {
    Placed(t, heap, s, s0, p);
    SoFar(t, heap, s, s0, p);
    hide At, Tracked;
    var b, c := heap[t.place[p]], t.was[p];
    assert Plain(b).size == b.size && Plain(c).size == c.size && Plain(b).pinned == b.pinned && Plain(c).pinned == c.pinned;
    assert Plain(b).event == b.event && Plain(c).event == c.event;
    AtNext(heap, t.place[p]);
    AtNext(t.was, p);
  }

  /** The payload is the blocks `p..q`. */
  lemma Payload(t: Trail, heap: seq<Block>, s: nat, s0: nat, c: Cluster) returns (p: nat, q: nat)
    requires Tracked(t, heap, s, s0) && ClusterOk(t.was, c)
    ensures p <= q <= |heap| && At(heap, p) == c.start && At(heap, q) == c.end && (q < |heap| ==> Fence(heap, q))
  {
    hide At, Tracked, Fence, ClusterOk;
    TrackedSound(t, heap, s, s0);
    p := PayloadStart(t, heap, s, s0, c);
    q := PayloadEnd(t, heap, s, s0, c);
    AtOrder(heap, q, p);
    assert c.start <= c.end by { EndsLater(t.was, c); }
  }

  lemma EndsLater(l: seq<Block>, c: Cluster)
    requires ClusterOk(l, c)
    ensures c.start <= c.end
  {
  }

  lemma TrackedSound(t: Trail, heap: seq<Block>, s: nat, s0: nat)
    requires Tracked(t, heap, s, s0)
    ensures Sound(t.was, heap) && s <= |heap|
  {
  }

  lemma PayloadStart(t: Trail, heap: seq<Block>, s: nat, s0: nat, c: Cluster) returns (p: nat)
    requires Tracked(t, heap, s, s0) && ClusterOk(t.was, c)
    ensures p <= |heap| && At(heap, p) == c.start
  {
    hide At, Passed, Ahead, Untouched, Distinct, NoAdjacentFree, FreeSize;
    var p0: nat :| Fence(t.was, p0) && At(t.was, p0 + 1) == c.start;
    FenceStays(t, heap, s, s0, p0);
    p := t.place[p0] + 1;
  }

  lemma PayloadEnd(t: Trail, heap: seq<Block>, s: nat, s0: nat, c: Cluster) returns (q: nat)
    requires Tracked(t, heap, s, s0) && ClusterOk(t.was, c)
    ensures q <= |heap| && At(heap, q) == c.end && (q < |heap| ==> Fence(heap, q))
  {
    hide At, Passed, Ahead, Untouched, Distinct, NoAdjacentFree, FreeSize;
    if c.end == Size(t.was) {
      q := |heap|;
      TrackedSound(t, heap, s, s0);
    } else {
      var q0: nat :| Fence(t.was, q0) && At(t.was, q0) == c.end;
      FenceStays(t, heap, s, s0, q0);
      q := t.place[q0];
    }
  }

  // ---------- What the compactor keeps ----------

  /** Between moves: the cursor is at block `s`, and the regions take references from where they were last
      brought up to date to where the blocks are now. */
  ghost predicate Going(t: Trail, heap: seq<Block>, s: nat, s0: nat, regions: seq<Region>, refs: seq<int>, roots: seq<int>) {
    && Tracked(t, heap, s, s0) && Carries(t, heap) && Faithful(t, regions) && EndsBy(regions, At(heap, s))
    && roots == ForwardedAll(t.was, t.before, refs)
  }

  lemma GoingStart(l: seq<Block>, refs: seq<int>)
    requires Tiled(l) && NoAdjacentFree(l)
    ensures Going(Start(l), l, 0, 0, [], refs, refs)
  {
    StartOk(l);
    hide At, Tracked, Carries, FreeSize, Tiled, NoAdjacentFree, Relocated;
    assert forall v: int :: Relocated([], Forwarded(l, Addresses(l), v)) == Forwarded(l, Addresses(l), v);
    forall k | 0 <= k < |refs| ensures Forwarded(l, Addresses(l), refs[k]) == refs[k] {
      if Owned(l, refs[k]) { HolderOk(l, refs[k]); }
    }
  }

  lemma GoingOn(t: Trail, heap: seq<Block>, s: nat, s0: nat, d: nat, regions: seq<Region>, refs: seq<int>, roots: seq<int>)
    requires Going(t, heap, s, s0, regions, refs, roots) && s + d <= |heap|
    ensures Going(t, heap, s + d, s0 + d, regions, refs, roots)
  {
    hide Tracked, Carries, Faithful, At;
    TrackedSound(t, heap, s, s0);
    Advance(t, heap, s, s0, d);
    AtGrows(heap, s, s + d);
  }

  lemma GoingMoved(t: Trail, heap: seq<Block>, s: nat, s0: nat, f: nat, e: nat, c: nat, d: nat, regions: seq<Region>, refs: seq<int>, roots: seq<int>)
    requires Going(t, heap, s, s0, regions, refs, roots) && Jumps(t, heap, s, s0, f, e, c, d)
    ensures Going(Stepped(t, heap, f, s, e), Moved(heap, f, s, e), d, s0 + (c - s), regions + [MoveRegion(heap, f, s, e)], refs, roots)
    ensures MoveRegion(heap, f, s, e).start < MoveRegion(heap, f, s, e).end
  {
    StepTracked(t, heap, s, s0, f, e, c, d);
    StepCarries(t, heap, s, s0, f, e, c, d);
    StepFaithful(t, heap, s, s0, f, e, c, d, regions);
    hide Tracked, Carries, Faithful, At, Moved, CanMove, Beyond, Stepped, ForwardedAll;
  }

  lemma GoingFlushed(t: Trail, heap: seq<Block>, s: nat, s0: nat, regions: seq<Region>, refs: seq<int>, roots: seq<int>)
    requires Going(t, heap, s, s0, regions, refs, roots)
    ensures Going(Flushed(t), UpdatedAll(regions, heap), s, s0, [], refs, RelocatedAll(regions, roots))
  {
    hide Tracked, Carries, Faithful, At, RelocatedAll, ForwardedAll, UpdatedAll;
    assert Shape(t) by { TrackedShape(t, heap, s, s0); }
    FlushTracked(t, heap, s, s0, regions);
    FlushCarries(t, heap, regions);
    UpdatedRefs(t, regions, refs);
  }

  lemma TrackedShape(t: Trail, heap: seq<Block>, s: nat, s0: nat)
    requires Tracked(t, heap, s, s0)
    ensures Shape(t)
  {
  }

  lemma NothingToUpdate(heap: seq<Block>, roots: seq<int>)
    ensures UpdatedAll([], heap) == heap && RelocatedAll([], roots) == roots
  {
    forall i | 0 <= i < |heap| ensures Updated([], heap[i]) == heap[i] {
      assert RelocatedAll([], heap[i].refs) == heap[i].refs;
    }
  }

  lemma GoingDone(t: Trail, heap: seq<Block>, s: nat, s0: nat, regions: seq<Region>, refs: seq<int>, roots: seq<int>)
    requires Going(t, heap, s, s0, regions, refs, roots) && t.now == t.before
    ensures Compacted(t, heap, refs, roots)
  {
    hide At, Carries, Faithful, FreeSize, Tiled, NoAdjacentFree, Distinct, Settled, ForwardedAll, Untouched;
    forall j: nat | j < |t.was| && !t.was[j].free ensures Settled(t, heap, j) {
      TrackedSettled(t, heap, s, s0, j);
    }
  }

  // ---------- A move, step by step ----------

  /** A slide leaves a hole with the whole size of the free region behind the blocks. */
  lemma SlideHole(l: seq<Block>, f: nat, s: nat, e: nat)
    requires Tiled(l) && NoAdjacentFree(l) && CanMove(l, f, s, e) && s == f + 1
    ensures Ranges(l, f, s, e) && Copied(l, f, s, e) == Opened(l, f, s, e)
    ensures var t, h := Opened(l, f, s, e), HoleAt(l, f, s, e);
            && h == f + (e - s) < |t| && t[h] == Hole(l[f].size) && At(t, h) == At(l, f) + (At(l, e) - At(l, s)) < At(l, e)
            && At(t, Low(t, h)) == At(t, h) && At(t, h) <= At(t, h + 1) && At(t, Low(t, h)) <= At(t, High(t, h + 1))
            && Inserted(t, h, h + 1) == Moved(l, f, s, e) && IsFreeAt(Moved(l, f, s, e), At(t, h))
  {
    hide At, NoAdjacentFree;
    OpenedOk(l, f, s, e);
    CopiedRest(l, f, s, e);
    AtNext(l, f);
    var t, h := Opened(l, f, s, e), HoleAt(l, f, s, e);
    InsertedOk(t, h, h + 1);
    assert t[h - 1] == l[e - 1];
    HoleFree(t, h);
  }

  /** A hole that is given back is a free block, which begins where the free block before it does, if there is one. */
  lemma HoleFree(u: seq<Block>, h: nat)
    requires Tiled(u) && h < |u|
    ensures At(u, h) <= At(u, h + 1) && At(u, Low(u, h)) <= At(u, High(u, h + 1))
    ensures var m, k := Inserted(u, h, h + 1), Low(u, h); k < |m| && m[k].free && At(m, k) == At(u, k) && IsFreeAt(m, At(u, k))
  {
    hide At;
    AtGrows(u, h, h + 1);
    AtGrows(u, Low(u, h), High(u, h + 1));
    var b := [FreeBlock(At(u, High(u, h + 1)) - At(u, Low(u, h)))];
    SizeOne(b[0]);
    Replaced(u, Low(u, h), High(u, h + 1), b, Low(u, h));
  }

  /** A free block is still there, or the block that was given back has joined it from below. */
  lemma StillFree(u: seq<Block>, h: nat, a: nat)
    requires Tiled(u) && h < |u| && !u[h].free && IsFreeAt(u, a)
    ensures At(u, h) <= At(u, h + 1) && At(u, Low(u, h)) <= At(u, High(u, h + 1))
    ensures var m, k := Inserted(u, h, h + 1), Low(u, h);
            k < |m| && m[k].free && At(m, k) == At(u, k) && IsFreeAt(m, At(u, k))
            && (IsFreeAt(m, a) || At(u, k) < a < At(u, k) + m[k].size)
  {
    hide At, Low, High;
    HoleFree(u, h);
    var g: nat :| g < |u| && u[g].free && At(u, g) == a;
    var k := InsertedFree(u, h, g);
  }

  /** What is left of a free region that is being filled. */
  lemma FillRest(l: seq<Block>, f: nat, s: nat, e: nat)
    requires Tiled(l) && NoAdjacentFree(l) && CanMove(l, f, s, e) && Ranges(l, f, s, e) && s != f + 1 && RestOf(l, f, s, e) != []
    ensures IsFreeAt(Opened(l, f, s, e), At(l, f) + (At(l, e) - At(l, s)))
  {
    OpenedRest(l, f, s, e);
    assert Opened(l, f, s, e)[f + (e - s)].free;
  }

  lemma LaterFree(l: seq<Block>, f: nat, s: nat, e: nat, a: nat)
    requires Tiled(l) && CanMove(l, f, s, e) && Ranges(l, f, s, e) && IsFreeAt(l, a) && At(l, f) < a
    ensures IsFreeAt(Opened(l, f, s, e), a)
  {
    hide At, Opened, NewIndex;
    var g: nat :| g < |l| && l[g].free && At(l, g) == a;
    AtOrder(l, f, g);
    OpenedLater(l, f, s, e, g);
  }

  lemma AfterFree(l: seq<Block>, f: nat, end: nat)
    requires Sized(l) && f < |l|
    ensures var r := FreeFrom(l, f + 1, end); r != Null && (r.Node? ==> IsFreeAt(l, r.address) && At(l, f) < r.address < end)
  {
    FreeFromOk(l, f + 1, end);
    AtNext(l, f);
  }

  lemma CopiedTiled(l: seq<Block>, f: nat, s: nat, e: nat)
    requires Tiled(l) && CanMove(l, f, s, e) && Ranges(l, f, s, e)
    ensures Tiled(Copied(l, f, s, e))
  {
    hide At;
    var m := Copied(l, f, s, e);
    forall j | 0 <= j < |m| ensures m[j].size > 0 && (m[j].free ==> IsFree(m[j])) {
      if f <= j < f + (e - s) { assert m[j] == l[s + (j - f)]; }
    }
  }

  /** Updating references changes no block's place. */
  lemma UpdatedPlaces(regions: seq<Region>, heap: seq<Block>, s: nat, a: nat)
    requires s <= |heap| && IsFreeAt(heap, a)
    ensures var u := UpdatedAll(regions, heap);
            At(u, s) == At(heap, s) && IsFreeAt(u, a) && (s < |heap| && Movable(heap[s]) ==> Movable(u[s]))
  {
    hide At;
    UpdatedAt(regions, heap, s);
    var g: nat :| g < |heap| && heap[g].free && At(heap, g) == a;
    UpdatedAt(regions, heap, g);
    assert UpdatedAll(regions, heap)[g].free;
  }

  /** A turn, cell by cell: `mv` cells from `s` on have gone to `a`, the start of a free block that ends at `b`, and what
      follows them up to `source` cannot move.  If the blocks are just behind the free one they slide. */
  ghost predicate Turned(l: seq<Block>, m: seq<Block>, a: nat, b: nat, s: nat, mv: nat, source: nat, region: FreeRegion) {
    && MovesCells(l, m, a, b, s, mv) && s + mv <= source && NothingLoose(l, s + mv, source)
    && (if b == s then mv > 0 && region == Node(a + mv) else mv <= b - a)
  }

  lemma NotMoved(l: seq<Block>, f: nat, s: nat)
    requires f < s < |l| && l[f].free && Sized(l)
    ensures MovesCells(l, l, At(l, f), At(l, f + 1), At(l, s), 0) && NothingLoose(l, At(l, s), At(l, s))
    ensures At(l, f + 1) == At(l, s) <==> s == f + 1
  {
    hide At, Cells;
    CellsBlock(l, f);
    AtOrder(l, f + 1, s);
  }

  /** The space that the blocks have left lies above the free region. */
  lemma HoleAbove(l: seq<Block>, f: nat, s: nat, e: nat)
    requires Tiled(l) && NoAdjacentFree(l) && CanMove(l, f, s, e) && Ranges(l, f, s, e)
    ensures var u, h := Opened(l, f, s, e), HoleAt(l, f, s, e); h < |u| && Low(u, h) <= |u| && At(l, f) <= At(u, Low(u, h))
  {
    hide At, Opened, HoleAt, Spread;
    OpenedOk(l, f, s, e);
    var u, h := Opened(l, f, s, e), HoleAt(l, f, s, e);
    OpenedFront(l, f, s, e);
    AtOrder(u, f, Low(u, h));
  }

  lemma OpenedFront(l: seq<Block>, f: nat, s: nat, e: nat)
    requires Sized(l) && Ranges(l, f, s, e) && Sized(Opened(l, f, s, e))
    ensures var u, h := Opened(l, f, s, e), HoleAt(l, f, s, e); f < h < |u| && At(u, f) == At(l, f)
  {
    hide At, RestOf, HoleSize;
    SpreadAt(l, f, s, e, 0);
    Replaced(l, f, e, Spread(l, f, s, e), f);
  }

  ghost predicate EndsAt(l: seq<Block>, c: Cluster) {
    exists q: nat :: q <= |l| && At(l, q) == c.end
  }

  lemma EndsPacked(l: seq<Block>, c: Cluster)
    requires Tiled(l) && NoAdjacentFree(l) && Packed(l, c) && EndsAt(l, c)
    ensures forall i: nat :: i < |l| && c.start <= At(l, i) < c.end && l[i].free ==> At(l, i + 1) == c.end
  {
    hide At, Tiled, NoAdjacentFree, Packed;
    var q: nat :| q <= |l| && At(l, q) == c.end;
    PackedBlocks(l, c, q);
  }

  /** Nothing in use in the clusters is pinned or an event. */
  lemma AllLoose(l: seq<Block>, clusters: seq<Cluster>)
    requires Tiled(l) && ClustersOk(l, clusters)
    requires forall c: Cluster, k: nat :: c in clusters && k < |l| && c.start <= At(l, k) < c.end && !l[k].free ==> !l[k].pinned && !l[k].event
    ensures NoneStuck(l, clusters)
  {
    hide At, Tiled, Stuck, Fence;
    forall i | 0 <= i < |clusters| ensures forall x :: clusters[i].start <= x < clusters[i].end ==> !Stuck(l, x) {
      assert ClusterOk(l, clusters[i]);
      ClusterLoose(l, clusters[i]);
    }
  }

  lemma ClusterLoose(l: seq<Block>, c: Cluster)
    requires Tiled(l) && ClusterOk(l, c)
    requires forall k: nat :: k < |l| && c.start <= At(l, k) < c.end && !l[k].free ==> !l[k].pinned && !l[k].event
    ensures forall x :: c.start <= x < c.end ==> !Stuck(l, x)
  {
    hide At, Stuck;
    var p: nat :| Fence(l, p) && At(l, p + 1) == c.start;
    LooseCells(l, c, p + 1);
  }

  lemma FlushPacked(regions: seq<Region>, l: seq<Block>, clusters: seq<Cluster>)
    requires forall i :: 0 <= i < |clusters| ==> Packed(l, clusters[i])
    ensures forall i :: 0 <= i < |clusters| ==> Packed(UpdatedAll(regions, l), clusters[i])
  {
    hide Packed, UpdatedAll;
    forall i | 0 <= i < |clusters| ensures Packed(UpdatedAll(regions, l), clusters[i]) { UpdatedPacked(regions, l, clusters[i]); }
  }

  class GarbageCollector {
    const clusters: seq<Cluster>
    const table: RelocationTable
    var heap: seq<Block>
    var roots: seq<int>
    ghost var trail: Trail
    ghost var cursor: nat
    ghost var cursor0: nat

    constructor (clusters: seq<Cluster>, heap: seq<Block>, roots: seq<int>)
      ensures this.clusters == clusters && this.heap == heap && this.roots == roots && fresh(table) && fresh(table.blocks)
      ensures table.blocks.Length == MINIMUM_SPACE_FOR_COMPACT
    {
      this.clusters, this.heap, this.roots := clusters, heap, roots;
      table := new RelocationTable(MINIMUM_SPACE_FOR_COMPACT);
      trail := Trail([], [], [], [], []);
    }

    ghost predicate Running(refs: seq<int>)
      reads this, table, table.blocks
    {
      && table.Valid() && table.blocks.Length == MINIMUM_SPACE_FOR_COMPACT
      && Going(trail, heap, cursor, cursor0, table.Table(), refs, roots) && ClustersOk(trail.was, clusters)
    }

    /** Every reference of every block, and every root. */
    method RelocatePass()
      requires table.Valid() && table.Bounded()
      modifies this`heap, this`roots
      ensures heap == UpdatedAll(table.Table(), old(heap)) && roots == RelocatedAll(table.Table(), old(roots))
    {
      hide RelocatedAll;
      ghost var was, regions := heap, table.Table();
      var k := 0;
      while k < |heap|
        invariant k <= |heap| == |was| && roots == old(roots)
        invariant forall i :: 0 <= i < k ==> heap[i] == Updated(regions, was[i])
        invariant forall i :: k <= i < |heap| ==> heap[i] == was[i]
      {
        var refs := table.RelocateAll(heap[k].refs);
        heap := heap[k := heap[k].(refs := refs)];
        k := k + 1;
      }
      roots := table.RelocateAll(roots);
    }

    /** The table is put to use and emptied. */
    method Relocate(ghost refs: seq<int>)
      requires Running(refs)
      modifies this`heap, this`roots, this`trail, table
      ensures Running(refs) && table.Table() == [] && trail == Flushed(old(trail))
      ensures heap == UpdatedAll(old(table.Table()), old(heap))
    {
      hide Going, ClustersOk, UpdatedAll, RelocatedAll, Sorted;
      ghost var regions := table.Table();
      GoingFlushed(trail, heap, cursor, cursor0, regions, refs, roots);
      if table.count > 0 {
        table.FindBounds();
        RelocatePass();
        table.Clear();
      } else {
        assert regions == [];
        NothingToUpdate(heap, roots);
      }
      trail := Flushed(trail);
    }

    /** The hole at `a` joins the free list of its cluster. */
    method InsertInOrder(a: nat, size: nat, ghost h: nat) returns (dst: nat)
      requires Tiled(heap) && h < |heap| && heap[h] == Hole(size) && At(heap, h) == a
      modifies this`heap
      ensures var was := old(heap); At(was, h) <= At(was, h + 1) && At(was, Low(was, h)) <= At(was, High(was, h + 1))
      ensures var was := old(heap); heap == Inserted(was, h, h + 1) && dst == At(was, Low(was, h))
    {
      hide At;
      HoleFree(heap, h);
      IndexIs(heap, h);
      var i := IndexOf(heap, a);
      dst := At(heap, Low(heap, i));
      heap := Inserted(heap, i, i + 1);
    }

    /** The free region is taken off its list, the blocks are copied to its start, and what is left of it, or for
        a slide all of its size, is given back behind them. */
    method TakeFree(hc: nat, freeRegion: nat, start: nat, move: nat, left: nat, slide: bool, ghost f: nat, ghost s: nat, ghost e: nat)
        returns (region: FreeRegion)
      requires hc < |clusters| && Tiled(heap) && NoAdjacentFree(heap) && CanMove(heap, f, s, e)
      requires freeRegion == At(heap, f) && start == At(heap, s) && start + move == At(heap, e) && (slide <==> s == f + 1)
      requires left == (if slide then heap[f].size else heap[f].size - move)
      requires At(heap, f + 1) <= clusters[hc].end && (slide ==> At(heap, e) <= clusters[hc].end)
      modifies this`heap
      ensures var was := old(heap); Ranges(was, f, s, e) && heap == if slide then Moved(was, f, s, e) else Opened(was, f, s, e)
      ensures region.Tail? || (region.Node? && IsFreeAt(heap, region.address) && freeRegion <= region.address < clusters[hc].end)
      ensures slide ==> region == Node(freeRegion + move)
    {
      hide At, Moved, Opened, NoAdjacentFree, FreeFrom, IsFreeAt, IndexOf, Copied, Low, High;
      OpenedOk(heap, f, s, e);
      IndexIs(heap, f);
      IndexIs(heap, s);
      IndexIs(heap, e);
      AtNext(heap, f);
      AfterFree(heap, f, clusters[hc].end);
      CopiedRest(heap, f, s, e);
      if slide { SlideHole(heap, f, s, e); }
      ghost var was := heap;
      region := FreeFrom(heap, IndexOf(heap, freeRegion) + 1, clusters[hc].end);
      heap := Copied(heap, IndexOf(heap, freeRegion), IndexOf(heap, start), IndexOf(heap, start + move));
      if left > 0 {
        CopiedTiled(was, f, s, e);
        var a := InsertInOrder(freeRegion + move, left, f + (e - s));
        region := Node(a);
        if !slide { FillRest(was, f, s, e); }
      } else if region.Node? {
        LaterFree(was, f, s, e, region.address);
      }
    }

    /** The space that the blocks have left is given back, and is the next free region if it has joined it. */
    method GiveBack(hc: nat, start: nat, move: nat, next: FreeRegion, ghost l: seq<Block>, ghost f: nat, ghost s: nat, ghost e: nat)
        returns (region: FreeRegion)
      requires hc < |clusters| && Tiled(l) && NoAdjacentFree(l) && CanMove(l, f, s, e) && s != f + 1 && Ranges(l, f, s, e)
      requires heap == Opened(l, f, s, e) && start == At(l, s) && start + move == At(l, e)
      requires next.Tail? || (next.Node? && IsFreeAt(heap, next.address) && At(l, f) <= next.address < clusters[hc].end)
      modifies this`heap
      ensures heap == Moved(l, f, s, e)
      ensures region.Tail? || (region.Node? && IsFreeAt(heap, region.address) && At(l, f) <= region.address < clusters[hc].end)
    {
      hide At, Opened, NoAdjacentFree, IsFreeAt, IndexOf, Low, High, Spread;
      OpenedOk(l, f, s, e);
      ghost var h := HoleAt(l, f, s, e);
      HoleFree(heap, h);
      if next.Node? { StillFree(heap, h, next.address); }
      ghost var k := Low(heap, h);
      var dst := InsertInOrder(start, move, h);
      assert heap == Moved(l, f, s, e);
      MovedOk(l, f, s, e);
      IndexIs(heap, k);
      HoleAbove(l, f, s, e);
      region := next;
      if region.Node? && dst < region.address < dst + heap[IndexOf(heap, dst)].size {
        region := Node(dst);
      }
    }

    /** Past the blocks that cannot move. */
    method SkipUnmovable(a: nat, end: nat, ghost s: nat, ghost q: nat) returns (b: nat, ghost c: nat)
      requires Tiled(heap) && s <= q <= |heap| && At(heap, s) == a && At(heap, q) == end
      ensures s <= c <= q && At(heap, c) == b && (c < q ==> Movable(heap[c]))
      ensures forall i :: s <= i < c ==> Unmovable(heap[i])
    {
      hide At, IndexOf;
      b, c := a, s;
      AtOrder(heap, c, q);
      IndexIs(heap, c);
      while b < end && Unmovable(heap[IndexOf(heap, b)])
        invariant s <= c <= q && At(heap, c) == b && IndexOf(heap, b) == c && (b < end <==> c < q)
        invariant forall i :: s <= i < c ==> Unmovable(heap[i])
        decreases q - c
      {
        AtNext(heap, c);
        b := b + heap[IndexOf(heap, b)].size;
        c := c + 1;
        AtOrder(heap, c, q);
        IndexIs(heap, c);
      }
    }

    /** Which blocks from `start` on go into the free region: all that follow, if they can slide, or as many as fit. */
    method Gather(freeRegion: nat, start: nat, end: nat, ghost f: nat, ghost s: nat, ghost q: nat)
        returns (slide: bool, move: nat, left: nat, ghost e: nat)
      requires Tiled(heap) && f < s < q <= |heap| && heap[f].free && Movable(heap[s])
      requires At(heap, f) == freeRegion && At(heap, s) == start && At(heap, q) == end
      ensures s <= e <= q && At(heap, e) == start + move && (slide <==> s == f + 1) && (e < q && slide ==> !Movable(heap[e]))
      ensures left == (if slide then heap[f].size else heap[f].size - move) && (slide ==> s < e)
      ensures s < e ==> CanMove(heap, f, s, e)
      ensures !slide && e < q && Movable(heap[e]) ==> left < heap[e].size
    {
      hide At, IndexOf;
      IndexIs(heap, f);
      IndexIs(heap, s);
      AtNext(heap, f);
      AtOrder(heap, f + 1, s);
      var source := start;
      move, left, e := 0, heap[IndexOf(heap, freeRegion)].size, s;
      slide := start == freeRegion + left;
      AtOrder(heap, e, q);
      if slide {
        while source < end && !Unmovable(heap[IndexOf(heap, source)])
          invariant s <= e <= q && At(heap, e) == source == start + move && IndexOf(heap, source) == e && (source < end <==> e < q)
          invariant forall i :: s <= i < e ==> Movable(heap[i])
          decreases q - e
        {
          AtNext(heap, e);
          var len := heap[IndexOf(heap, source)].size;
          source, move := source + len, move + len;
          e := e + 1;
          AtOrder(heap, e, q);
          IndexIs(heap, e);
        }
      } else {
        while left > 0 && source < end && !Unmovable(heap[IndexOf(heap, source)])
          invariant s <= e <= q && At(heap, e) == source == start + move && IndexOf(heap, source) == e && (source < end <==> e < q)
          invariant left + move == heap[f].size
          invariant forall i :: s <= i < e ==> Movable(heap[i])
          decreases q - e
        {
          var len := heap[IndexOf(heap, source)].size;
          if left < len { break; }
          AtNext(heap, e);
          source, move, left := source + len, move + len, left - len;
          e := e + 1;
          AtOrder(heap, e, q);
          IndexIs(heap, e);
        }
      }
    }

    /** The blocks from the cursor on move into the free region, if they can; the cursor passes them and what
        cannot move behind them. */
    method MoveBlocks(hc: nat, freeRegion: nat, start: nat, move: nat, left: nat, slide: bool, source: nat,
            ghost refs: seq<int>, ghost f: nat, ghost e: nat, ghost c: nat)
        returns (region: FreeRegion)
      requires Running(refs) && table.count < MINIMUM_SPACE_FOR_COMPACT && hc < |clusters|
      requires CanMove(heap, f, cursor, e) && Beyond(heap, e, c) && At(heap, c) == source
      requires freeRegion == At(heap, f) && start == At(heap, cursor) && start + move == At(heap, e) && (slide <==> cursor == f + 1)
      requires left == (if slide then heap[f].size else heap[f].size - move)
      requires At(heap, f + 1) <= clusters[hc].end && (slide ==> At(heap, e) <= clusters[hc].end)
      modifies this`heap, this`trail, this`cursor, this`cursor0, table, table.blocks
      ensures Running(refs) && cursor <= |heap| && At(heap, cursor) == source && trail.was == old(trail.was)
      ensures heap[cursor..] == old(heap)[c..] && (slide ==> region == Node(freeRegion + move))
      ensures Tiled(old(heap)) && NoAdjacentFree(old(heap)) && heap == Moved(old(heap), f, old(cursor), e)
      ensures region.Tail? || (region.Node? && IsFreeAt(heap, region.address) && freeRegion <= region.address < clusters[hc].end)
    {
      hide At, Moved, Opened, Stepped, Tracked, Carries, Faithful, ClusterOk, NoAdjacentFree, FreeSize, IsFreeAt, ForwardedAll, Spread, Sorted;
      TrackedSound(trail, heap, cursor, cursor0);
      TrackedShape(trail, heap, cursor, cursor0);
      ghost var l, s := heap, cursor;
      ghost var d := MovedSuffix(l, f, s, e, c);
      GoingMoved(trail, l, s, cursor0, f, e, c, d, table.Table(), refs, roots);
      table.Add(Region(start, start + move, freeRegion - start));
      region := TakeFree(hc, freeRegion, start, move, left, slide, f, s, e);
      if !slide {
        region := GiveBack(hc, start, move, region, l, f, s, e);
      }
      trail, cursor, cursor0 := Stepped(trail, l, f, s, e), d, cursor0 + (c - s);
    }

    /** The cursor goes up to block `k`. */
    ghost method CursorTo(refs: seq<int>, k: nat)
      requires Running(refs) && cursor <= k <= |heap|
      modifies this`cursor, this`cursor0
      ensures Running(refs) && cursor == k
    {
      hide Going, ClustersOk;
      GoingOn(trail, heap, cursor, cursor0, k - cursor, table.Table(), refs, roots);
      cursor, cursor0 := k, cursor0 + (k - cursor);
    }

    /** The blocks at the cursor, which is at a block that can move, go into the free region, or the next free
        region is looked at. */
    method Turn(hc: nat, freeRegion: nat, start: nat, end: nat, ghost refs: seq<int>, ghost f: nat, ghost q: nat)
        returns (source: nat, region: FreeRegion, ghost mv: nat)
      requires Running(refs) && table.count < MINIMUM_SPACE_FOR_COMPACT && hc < |clusters|
      requires f < cursor < q <= |heap| && heap[f].free && Movable(heap[cursor]) && (q < |heap| ==> Fence(heap, q))
      requires At(heap, f) == freeRegion < clusters[hc].end && At(heap, cursor) == start && At(heap, q) == end
      modifies this`heap, this`trail, this`cursor, this`cursor0, table, table.blocks
      ensures Running(refs) && cursor <= |heap| && start <= source == At(heap, cursor) <= end && trail.was == old(trail.was)
      ensures region.Tail? || (region.Node? && IsFreeAt(heap, region.address) && freeRegion <= region.address < clusters[hc].end)
      ensures source > start || region.Tail? || (region.Node? && region.address > freeRegion)
      ensures Turned(old(heap), heap, freeRegion, At(old(heap), f + 1), start, mv, source, region)
    {
      hide At, Tracked, Carries, Faithful, ClusterOk, NoAdjacentFree, FreeSize, IsFreeAt, ForwardedAll, Sorted, FreeFrom, IndexOf, Moved;
      hide MovesCells, NothingLoose, Cells;
      TrackedSound(trail, heap, cursor, cursor0);
      AtOrder(heap, cursor, q);
      var slide, move, left;
      ghost var e;
      slide, move, left, e := Gather(freeRegion, start, end, f, cursor, q);
      AtOrder(heap, cursor, e);
      AtNext(heap, f);
      AtOrder(heap, f + 1, cursor);
      mv := move;
      if move > 0 {
        ghost var c;
        source, c := SkipUnmovable(start + move, end, e, q);
        InCluster(hc, f, e, slide);
        AtOrder(heap, c, q);
        AtOrder(heap, e, c);
        ghost var l, s := heap, cursor;
        UnmovableCells(l, e, c);
        MovedMeans(l, f, s, e);
        region := MoveBlocks(hc, freeRegion, start, move, left, slide, source, refs, f, e, c);
      } else {
        source := start;
        IndexIs(heap, f);
        AfterFree(heap, f, clusters[hc].end);
        NotMoved(heap, f, cursor);
        region := FreeFrom(heap, IndexOf(heap, freeRegion) + 1, clusters[hc].end);
      }
    }

    /** What slides into a free region is in the cluster of the region. */
    lemma InCluster(hc: nat, f: nat, e: nat, slide: bool)
      requires Tracked(trail, heap, cursor, cursor0) && ClustersOk(trail.was, clusters) && hc < |clusters|
      requires CanMove(heap, f, cursor, e) && At(heap, f) < clusters[hc].end && (slide <==> cursor == f + 1)
      ensures At(heap, f + 1) <= clusters[hc].end && (slide ==> At(heap, e) <= clusters[hc].end)
    {
      hide At, Tracked, ClusterOk;
      TrackedSound(trail, heap, cursor, cursor0);
      var p, q := Payload(trail, heap, cursor, cursor0, clusters[hc]);
      AtOrder(heap, f, q);
      AtGrows(heap, f + 1, q);
      if slide {
        assert e <= q;
        AtGrows(heap, e, q);
      }
    }

    /** The cursor goes up to the start of a cluster. */
    ghost method StartCluster(refs: seq<int>, hc: nat)
      requires Running(refs) && cursor <= |heap| && hc < |clusters| && At(heap, cursor) <= clusters[hc].start
      modifies this`cursor, this`cursor0
      ensures Running(refs) && old(cursor) <= cursor <= |heap| && At(heap, cursor) == clusters[hc].start <= clusters[hc].end
    {
      hide At, Tracked, Carries, Faithful, ClusterOk, ForwardedAll;
      TrackedSound(trail, heap, cursor, cursor0);
      var p, q := Payload(trail, heap, cursor, cursor0, clusters[hc]);
      EndsLater(trail.was, clusters[hc]);
      AtOrder(heap, p, cursor);
      CursorTo(refs, p);
    }

    /** The cursor goes up to a free block. */
    ghost method Jump(refs: seq<int>, a: nat)
      requires Running(refs) && cursor <= |heap| && At(heap, cursor) < a && IsFreeAt(heap, a)
      modifies this`cursor, this`cursor0
      ensures Running(refs) && cursor <= |heap| && At(heap, cursor) == a
    {
      hide At, Tracked, Carries, Faithful, ClustersOk, ForwardedAll;
      TrackedSound(trail, heap, cursor, cursor0);
      var g: nat :| g < |heap| && heap[g].free && At(heap, g) == a;
      AtOrder(heap, g, cursor);
      CursorTo(refs, g);
    }

    /** The cursor goes up to the next block of the cluster that can move, or to the end of the cluster. */
    method FindMovable(hc: nat, from: nat, ghost refs: seq<int>) returns (source: nat, stop: bool)
      requires Running(refs) && cursor <= |heap| && hc < |clusters| && At(heap, cursor) == from <= clusters[hc].end
      modifies this`cursor, this`cursor0
      ensures Running(refs) && cursor <= |heap| && from <= source == At(heap, cursor) <= clusters[hc].end
      ensures stop <==> source == clusters[hc].end
      ensures !stop ==> cursor < |heap| && Movable(heap[cursor])
      ensures NothingLoose(heap, from, source)
    {
      hide At, Tracked, Carries, Faithful, ClusterOk, ForwardedAll, NothingLoose;
      TrackedSound(trail, heap, cursor, cursor0);
      ghost var p, q := Payload(trail, heap, cursor, cursor0, clusters[hc]);
      AtOrder(heap, q, cursor);
      ghost var c;
      source, c := SkipUnmovable(from, clusters[hc].end, cursor, q);
      AtOrder(heap, cursor, c);
      AtOrder(heap, c, q);
      UnmovableCells(heap, cursor, c);
      CursorTo(refs, c);
      stop := source == clusters[hc].end;
    }

    /** `Turn`, for the free block at `freeRegion` and the cluster of the cursor. */
    method TurnAt(sourceHc: nat, freeHc: nat, freeRegion: nat, start: nat, ghost refs: seq<int>)
        returns (source: nat, region: FreeRegion, ghost b: nat, ghost mv: nat)
      requires Running(refs) && table.count < MINIMUM_SPACE_FOR_COMPACT && sourceHc < |clusters| && freeHc < |clusters|
      requires cursor < |heap| && Movable(heap[cursor]) && freeRegion <= At(heap, cursor) == start < clusters[sourceHc].end
      requires IsFreeAt(heap, freeRegion) && freeRegion < clusters[freeHc].end
      modifies this`heap, this`trail, this`cursor, this`cursor0, table, table.blocks
      ensures Running(refs) && cursor <= |heap| && trail.was == old(trail.was)
      ensures start <= source == At(heap, cursor) <= clusters[sourceHc].end <= |Cells(old(heap))|
      ensures region.Tail? || (region.Node? && IsFreeAt(heap, region.address) && freeRegion <= region.address < clusters[freeHc].end)
      ensures source > start || region.Tail? || (region.Node? && region.address > freeRegion)
      ensures FreeRun(old(heap), freeRegion, b) && b <= start && b <= clusters[freeHc].end
      ensures Turned(old(heap), heap, freeRegion, b, start, mv, source, region)
    {
      hide At, Tracked, Carries, Faithful, ClusterOk, ForwardedAll, FreeRun, Turned, Cells;
      TrackedSound(trail, heap, cursor, cursor0);
      ghost var p, q := Payload(trail, heap, cursor, cursor0, clusters[sourceHc]);
      AtOrder(heap, cursor, q);
      ghost var f: nat :| f < |heap| && heap[f].free && At(heap, f) == freeRegion;
      AtOrder(heap, cursor, f);
      AtOrder(heap, f + 1, cursor);
      hide IsFreeAt;
      b := At(heap, f + 1);
      FreeCells(heap, f);
      InPayload(freeHc, f);
      CellsSlice(heap, 0, q);
      source, region, mv := Turn(freeHc, freeRegion, start, clusters[sourceHc].end, refs, f, q);
    }

    /** A free block that begins in a cluster ends in it. */
    lemma InPayload(hc: nat, f: nat)
      requires Tracked(trail, heap, cursor, cursor0) && ClustersOk(trail.was, clusters) && hc < |clusters|
      requires f < |heap| && At(heap, f) < clusters[hc].end
      ensures At(heap, f + 1) <= clusters[hc].end
    {
      hide At, Tracked, ClusterOk;
      TrackedSound(trail, heap, cursor, cursor0);
      var p, q := Payload(trail, heap, cursor, cursor0, clusters[hc]);
      AtOrder(heap, f, q);
      AtGrows(heap, f + 1, q);
    }

    /** A full table is put to use. */
    method MakeRoom(ghost refs: seq<int>, ghost a: nat, ghost k: nat)
      requires Running(refs) && cursor < |heap| && Movable(heap[cursor]) && IsFreeAt(heap, a)
      modifies this`heap, this`roots, this`trail, table
      ensures Running(refs) && table.count < MINIMUM_SPACE_FOR_COMPACT && trail.was == old(trail.was)
      ensures cursor < |heap| && At(heap, cursor) == At(old(heap), old(cursor)) && Movable(heap[cursor]) && IsFreeAt(heap, a)
      ensures var cur := At(old(heap), old(cursor)); Underway(old(heap), clusters, k, a, cur) ==> Underway(heap, clusters, k, a, cur)
    {
      hide At, Going, ClustersOk, IsFreeAt, UpdatedAll, Sorted, Underway;
      if table.count >= MINIMUM_SPACE_FOR_COMPACT {
        if Underway(heap, clusters, k, a, At(heap, cursor)) { UpdatedUnderway(table.Table(), heap, clusters, k, a, At(heap, cursor)); }
        UpdatedPlaces(table.Table(), heap, cursor, a);
        Relocate(refs);
      }
    }

    lemma InOrder(refs: seq<int>)
      requires Running(refs)
      ensures Ascending(clusters) && Sized(heap) && Size(heap) == Size(trail.was) && forall i, j :: 0 <= i < j < |clusters| ==> clusters[i].end <= clusters[j].start
    {
      hide At, Tracked, Carries, Faithful, ClusterOk, ForwardedAll;
      TrackedSound(trail, heap, cursor, cursor0);
      forall i | 0 <= i < |clusters| ensures clusters[i].start <= clusters[i].end { EndsLater(trail.was, clusters[i]); }
    }

    /** The first free region of the clusters from `from` on. */
    method FindFree(from: nat, ghost refs: seq<int>) returns (hc: nat, region: FreeRegion)
      requires Running(refs)
      ensures from <= hc
      ensures region.Null? || (region.Node? && hc < |clusters| && IsFreeAt(heap, region.address) && region.address < clusters[hc].end)
      ensures region.Node? ==> clusters[hc].start <= region.address && NoneVacant(heap, clusters[hc], region.address)
      ensures forall i :: from <= i < |clusters| && (region.Null? || i < hc) ==> NoneVacant(heap, clusters[i], clusters[i].end)
    {
      hide IsFreeAt, FreeFrom, IndexOf, At, Going, ClustersOk, NoneVacant;
      InOrder(refs);
      hc, region := from, Null;
      while hc < |clusters|
        invariant from <= hc && region.Null?
        invariant forall i :: from <= i < hc && i < |clusters| ==> NoneVacant(heap, clusters[i], clusters[i].end)
      {
        var c := clusters[hc];
        NoneBefore(heap, c);
        StartOf(refs, hc);
        NoneCells(refs, hc);
        FreeFromOk(heap, IndexOf(heap, c.start), c.end);
        region := FreeFrom(heap, IndexOf(heap, c.start), c.end);
        if !region.Tail? { break; }
        region := Null;
        hc := hc + 1;
      }
    }

    lemma StartOf(refs: seq<int>, hc: nat)
      requires Running(refs) && hc < |clusters|
      ensures At(heap, IndexOf(heap, clusters[hc].start)) == clusters[hc].start
    {
      hide At, Tracked, Carries, Faithful, ClusterOk, ForwardedAll, IndexOf;
      TrackedSound(trail, heap, cursor, cursor0);
      var p, q := Payload(trail, heap, cursor, cursor0, clusters[hc]);
      IndexIs(heap, p);
    }

    /** Before the first free region of a cluster no cell of it is free. */
    lemma NoneCells(refs: seq<int>, hc: nat)
      requires Running(refs) && hc < |clusters|
      ensures var r := FreeFrom(heap, IndexOf(heap, clusters[hc].start), clusters[hc].end);
              NoneVacant(heap, clusters[hc], if r.Node? then r.address else clusters[hc].end)
    {
      hide At, Tracked, Carries, Faithful, ClusterOk, ForwardedAll, IndexOf, FreeFrom, NoneVacant;
      TrackedSound(trail, heap, cursor, cursor0);
      var p, q := Payload(trail, heap, cursor, cursor0, clusters[hc]);
      NoneBefore(heap, clusters[hc]);
      var r := FreeFrom(heap, IndexOf(heap, clusters[hc].start), clusters[hc].end);
      NoneFreeCells(heap, clusters[hc], if r.Node? then r.address else clusters[hc].end, p);
    }

    lemma Inside(refs: seq<int>, a: nat)
      requires Running(refs) && cursor <= |heap| && IsFreeAt(heap, a)
      ensures At(heap, cursor) <= Size(trail.was) && a <= Size(trail.was) && Sized(heap)
    {
      hide At, Tracked, Carries, Faithful, ClustersOk, ForwardedAll;
      TrackedSound(trail, heap, cursor, cursor0);
      AtGrows(heap, cursor, |heap|);
      var g: nat :| g < |heap| && heap[g].free && At(heap, g) == a;
      AtGrows(heap, g, |heap|);
    }

    /** The cursor is in cluster `k` at `cur` and the free region in cluster `h` at `a`, or the cursor is about to go there. */
    ghost predicate Ahead(l: seq<Block>, k: nat, h: nat, a: nat, cur: nat)
      requires k < |clusters| && h < |clusters|
    {
      Underway(l, clusters, if h > k then h else k, a, if h > k then clusters[h].start else cur)
    }

    ghost predicate Ready(k: nat, h: nat, region: FreeRegion)
      reads this
      requires k < |clusters| && h < |clusters|
    {
      region.Node? && Ahead(heap, k, h, region.address, clusters[k].start)
    }

    /** The cursor is where it is about to go; or it is at the end of a cluster where the next one begins. */
    lemma HopTo(l: seq<Block>, k: nat, h: nat, a: nat, cur: nat)
      requires k < |clusters| && h < |clusters| && clusters[h].start <= a < clusters[h].end
      requires clusters[k].start <= cur <= clusters[k].end && Ahead(l, k, h, a, cur)
      ensures if cur < a then k <= h && Underway(l, clusters, h, a, a)
              else if h <= k then Underway(l, clusters, k, a, cur)
              else cur == clusters[k].end && NoneStuck(l, clusters) && forall i :: 0 <= i <= k ==> Packed(l, clusters[i])
    {
      hide NoneStuck, Packed, Cleared;
      assert Ascending(clusters);
      if cur < a { Jumped(l, clusters, h, a, if h > k then clusters[h].start else cur); }
    }

    /** The cursor has come to the end of the cluster. */
    lemma EndOfCluster(l: seq<Block>, k: nat, a: nat)
      requires k < |clusters| && Underway(l, clusters, k, a, clusters[k].end)
      ensures NoneStuck(l, clusters) && forall i :: 0 <= i <= k ==> Packed(l, clusters[i])
    {
      Through(l, clusters, k, a);
    }

    lemma AfterTurn(l: seq<Block>, m: seq<Block>, k: nat, h: nat, a: nat, b: nat, s: nat, mv: nat, source: nat, region: FreeRegion)
      requires k < |clusters| && h <= k && Underway(l, clusters, k, a, s) && s < clusters[k].end <= |Cells(l)| && source <= clusters[k].end
      requires clusters[h].start <= a < clusters[h].end && FreeRun(l, a, b) && b <= s && b <= clusters[h].end
      requires Turned(l, m, a, b, s, mv, source, region) && !region.Null? && (region.Node? ==> region.address < clusters[h].end)
      ensures region.Node? ==> Ahead(m, k, h, region.address, source)
      ensures region.Tail? ==> h < k && a <= clusters[k].start && Underway(m, clusters, k, a, source)
    {
      hide Cells, NoneStuck, Packed, Cleared, NothingLoose, MovesCells, FreeRun;
      RunSize(l, a, b);
      assert Ascending(clusters);
      if h == k {
        Adjacent(l, clusters, k, a, b, s);
        Slid(l, m, clusters, k, a, b, s, mv, source);
      } else {
        Delivered(l, m, clusters, h, k, a, b, s, mv, source, if region.Node? then region.address else a);
      }
    }

    lemma RunSize(l: seq<Block>, a: nat, b: nat)
      requires FreeRun(l, a, b)
      ensures a < b
    {
    }

    lemma AfterTail(l: seq<Block>, k: nat, j: nat, a: nat, cur: nat, h: nat, region: FreeRegion)
      requires k < |clusters| && j < k && a <= clusters[k].start && Underway(l, clusters, k, a, cur) && j < h && !region.Tail?
      requires region.Node? ==> h < |clusters| && clusters[h].start <= region.address < clusters[h].end && NoneVacant(l, clusters[h], region.address)
      requires forall i :: j < i < |clusters| && (region.Null? || i < h) ==> NoneVacant(l, clusters[i], clusters[i].end)
      ensures region.Node? ==> Ahead(l, k, h, region.address, cur)
      ensures region.Null? ==> NoneStuck(l, clusters) && forall i :: 0 <= i <= k ==> Packed(l, clusters[i])
    {
      hide NoneStuck, Packed, Cleared, NoneVacant;
      if region.Node? { NextRegion(l, clusters, j, k, a, cur, h, region.address); } else { NoRegion(l, clusters, j, k, a, cur); }
    }

    /** The blocks at the cursor move, or the next free region is found. */
    method TakeTurn(sourceHc: nat, fromHc: nat, a: nat, start: nat, ghost refs: seq<int>, ghost loose: bool)
        returns (source: nat, freeHc: nat, region: FreeRegion)
      requires Running(refs) && cursor < |heap| && Movable(heap[cursor]) && sourceHc < |clusters| && fromHc < |clusters|
      requires a <= At(heap, cursor) == start < clusters[sourceHc].end && IsFreeAt(heap, a) && clusters[fromHc].start <= a < clusters[fromHc].end
      requires loose ==> fromHc <= sourceHc && Underway(heap, clusters, sourceHc, a, start)
      modifies this`heap, this`roots, this`trail, this`cursor, this`cursor0, table, table.blocks
      ensures Running(refs) && cursor <= |heap| && trail.was == old(trail.was)
      ensures start <= source == At(heap, cursor) <= clusters[sourceHc].end
      ensures region.Null? || (region.Node? && fromHc <= freeHc < |clusters| && IsFreeAt(heap, region.address)
                               && clusters[freeHc].start <= region.address < clusters[freeHc].end)
      ensures source > start || region.Null? || freeHc > fromHc || region.address > a
      ensures loose ==> if region.Null? then NoneStuck(heap, clusters) && forall i :: 0 <= i <= sourceHc ==> Packed(heap, clusters[i])
                        else Ahead(heap, sourceHc, freeHc, region.address, source)
    {
      hide At, Running, IsFreeAt, Underway, Packed, NoneStuck, NoneVacant, FreeRun, Turned, Ahead;
      freeHc := fromHc;
      MakeRoom(refs, a, sourceHc);
      ghost var l := heap;
      ghost var b, mv;
      source, region, b, mv := TurnAt(sourceHc, freeHc, a, start, refs);
      if loose { AfterTurn(l, heap, sourceHc, freeHc, a, b, start, mv, source, region); }
      if region.Tail? {
        freeHc, region := FindFree(freeHc + 1, refs);
        if loose { AfterTail(heap, sourceHc, fromHc, a, source, freeHc, region); }
      }
    }

    /** One round: the cursor goes through a cluster, or jumps ahead to the cluster of the free region.  If all that is in
        use in the clusters can move, the clusters that it has come through are packed. */
    method CompactCluster(from: nat, fromHc: nat, fromRegion: FreeRegion, ghost refs: seq<int>)
        returns (sourceHc: nat, freeHc: nat, region: FreeRegion)
      requires Running(refs) && cursor <= |heap| && from < |clusters| && At(heap, cursor) <= clusters[from].start
      requires fromRegion.Node? && fromHc < |clusters| && IsFreeAt(heap, fromRegion.address)
      requires clusters[fromHc].start <= fromRegion.address < clusters[fromHc].end
      modifies this`heap, this`roots, this`trail, this`cursor, this`cursor0, table, table.blocks
      ensures Running(refs) && cursor <= |heap| && trail.was == old(trail.was) && from <= sourceHc < |clusters|
      ensures At(old(heap), old(cursor)) <= At(heap, cursor) <= clusters[sourceHc].end
      ensures At(old(heap), old(cursor)) < At(heap, cursor) || sourceHc == from
      ensures region.Null? || (region.Node? && freeHc < |clusters| && IsFreeAt(heap, region.address)
                               && clusters[freeHc].start <= region.address < clusters[freeHc].end && region.address <= clusters[sourceHc].end)
      ensures old(Ready(from, fromHc, fromRegion)) ==> NoneStuck(heap, clusters) && forall i :: 0 <= i <= sourceHc ==> Packed(heap, clusters[i])
    {
      hide At, Running, IsFreeAt, Underway, Packed, NoneStuck, NothingLoose, Ahead;
      sourceHc, freeHc, region := from, fromHc, fromRegion;
      var source := clusters[sourceHc].start;
      ghost var loose, ready := Ready(from, fromHc, fromRegion), At(heap, cursor);
      StartCluster(refs, from);
      while true
        invariant Running(refs) && cursor <= |heap| && trail.was == old(trail.was) && from <= sourceHc < |clusters|
        invariant ready <= At(heap, cursor) == source && clusters[sourceHc].start <= source <= clusters[sourceHc].end
        invariant ready < At(heap, cursor) || sourceHc == from
        invariant region.Node? && freeHc < |clusters| && IsFreeAt(heap, region.address)
        invariant clusters[freeHc].start <= region.address < clusters[freeHc].end
        invariant loose ==> Ahead(heap, sourceHc, freeHc, region.address, source)
        decreases Size(trail.was) - source, |clusters| - freeHc, Size(trail.was) - region.address
      {
        Inside(refs, region.address);
        InOrder(refs);
        if loose { HopTo(heap, sourceHc, freeHc, region.address, source); }
        if source < region.address {
          sourceHc, source := freeHc, region.address;
          Jump(refs, source);
        }
        ghost var cur, there := source, loose && freeHc <= sourceHc;
        var stop;
        source, stop := FindMovable(sourceHc, source, refs);
        if there { Skipped(heap, clusters, sourceHc, region.address, cur, source); }
        if stop {
          if there { EndOfCluster(heap, sourceHc, region.address); }
          break;
        }
        source, freeHc, region := TakeTurn(sourceHc, freeHc, region.address, source, refs, loose);
        if region.Null? { break; }
      }
    }

    /** No cell of any cluster is free. */
    lemma AllFull(l: seq<Block>)
      requires forall i :: 0 <= i < |clusters| ==> NoneVacant(l, clusters[i], clusters[i].end)
      ensures forall i :: 0 <= i < |clusters| ==> Packed(l, clusters[i])
    {
      hide Vacant;
    }

    /** The free region lies before the cluster of the next round, or where that begins. */
    lemma StillReady(l: seq<Block>, k: nat, h: nat, a: nat)
      requires Ascending(clusters) && NoneStuck(l, clusters) && 0 < k < |clusters| && h < |clusters|
      requires clusters[h].start <= a < clusters[h].end && a <= clusters[k - 1].end && forall i :: 0 <= i < k ==> Packed(l, clusters[i])
      ensures Ahead(l, k, h, a, clusters[k].start)
    {
      hide NoneStuck, Packed, Vacant;
      RoundStarts(l, clusters, k, h, a);
    }

    /** Every payload ends where a block does. */
    lemma Payloads(refs: seq<int>)
      requires Running(refs)
      ensures Tiled(heap) && NoAdjacentFree(heap) && forall i :: 0 <= i < |clusters| ==> EndsAt(heap, clusters[i])
    {
      hide At, Tracked, Carries, Faithful, ClusterOk, ForwardedAll, Tiled, NoAdjacentFree;
      TrackedSound(trail, heap, cursor, cursor0);
      forall i | 0 <= i < |clusters| ensures EndsAt(heap, clusters[i]) {
        var p, q := Payload(trail, heap, cursor, cursor0, clusters[i]);
      }
    }

    /** The rounds of compaction, one cluster after the other. */
    method CompactClusters()
      requires Tiled(heap) && NoAdjacentFree(heap) && ClustersOk(heap, clusters) && table.blocks.Length == MINIMUM_SPACE_FOR_COMPACT
      modifies this`heap, this`roots, this`trail, this`cursor, this`cursor0, table, table.blocks
      ensures trail.was == old(heap) && Compacted(trail, heap, old(roots), roots)
      ensures NoneStuck(old(heap), clusters) ==> forall i :: 0 <= i < |clusters| ==> Packed(heap, clusters[i])
      ensures Tiled(heap) && NoAdjacentFree(heap) && forall i :: 0 <= i < |clusters| ==> EndsAt(heap, clusters[i])
    {
      hide At, Going, ClustersOk, IsFreeAt, Tiled, NoAdjacentFree, Compacted, NoneStuck, Packed, NoneVacant, EndsAt, UpdatedAll;
      ghost var refs := roots;
      table.Clear();
      trail, cursor, cursor0 := Start(heap), 0, 0;
      GoingStart(heap, roots);
      ghost var total := Size(heap);
      AtZero(heap);
      ghost var loose := NoneStuck(heap, clusters);
      var sourceHc: nat, freeHc: nat, region := 0, 0, Null;
      while sourceHc < |clusters|
        invariant Running(refs) && cursor <= |heap| && trail.was == old(heap) && At(heap, cursor) <= total
        invariant sourceHc < |clusters| ==> At(heap, cursor) <= clusters[sourceHc].start
        invariant region.Null? || (region.Node? && freeHc < |clusters| && IsFreeAt(heap, region.address) && 0 < sourceHc <= |clusters|
                                   && clusters[freeHc].start <= region.address < clusters[freeHc].end
                                   && region.address <= clusters[sourceHc - 1].end)
        invariant loose ==> NoneStuck(heap, clusters) && forall i :: 0 <= i < sourceHc && i < |clusters| ==> Packed(heap, clusters[i])
        decreases total - At(heap, cursor), |clusters| - sourceHc
      {
        InOrder(refs);
        if region.Null? {
          freeHc, region := FindFree(0, refs);
          if region.Null? {
            if loose { AllFull(heap); }
            break;
          }
          if loose { RoundStarts(heap, clusters, sourceHc, freeHc, region.address); }
        } else if loose {
          StillReady(heap, sourceHc, freeHc, region.address);
        }
        sourceHc, freeHc, region := CompactCluster(sourceHc, freeHc, region, refs);
        sourceHc := sourceHc + 1;
        InOrder(refs);
        AtGrows(heap, cursor, |heap|);
      }
      if loose { FlushPacked(table.Table(), heap, clusters); }
      Relocate(refs);
      Payloads(refs);
      GoingDone(trail, heap, cursor, cursor0, table.Table(), refs, roots);
    }

    /** Compaction: every block in use moves down at most once, and the graph of the objects stays the same.  In a
        heap in which everything can move, all that is free ends up in one piece at the end of every cluster. */
    method Compact()
      requires Tiled(heap) && NoAdjacentFree(heap) && ClustersOk(heap, clusters) && table.blocks.Length == MINIMUM_SPACE_FOR_COMPACT
      modifies this`heap, this`roots, this`trail, this`cursor, this`cursor0, table, table.blocks
      ensures trail.was == old(heap) && Compacted(trail, heap, old(roots), roots)
      ensures |trail.now| == |trail.moves| == |trail.was|
      ensures forall j: nat :: j < |trail.was| && !trail.was[j].free && (trail.was[j].pinned || trail.was[j].event) ==>
                trail.moves[j] == 0 && trail.now[j] == At(trail.was, j)
      ensures (forall c: Cluster, k: nat ::
                 c in clusters && k < |old(heap)| && c.start <= At(old(heap), k) < c.end && !old(heap)[k].free ==> !old(heap)[k].pinned && !old(heap)[k].event)
              ==> forall c: Cluster, i: nat :: c in clusters && i < |heap| && c.start <= At(heap, i) < c.end && heap[i].free ==> At(heap, i + 1) == c.end
    {
      hide At, Tiled, NoAdjacentFree, ClustersOk, Compacted, NoneStuck, Packed, EndsAt;
      ghost var was := heap;
      CompactClusters();
      FixedStay(trail, heap, old(roots), roots);
      if forall c: Cluster, k: nat :: c in clusters && k < |was| && c.start <= At(was, k) < c.end && !was[k].free ==> !was[k].pinned && !was[k].event {
        AllLoose(was, clusters);
        forall c: Cluster, i: nat | c in clusters && i < |heap| && c.start <= At(heap, i) < c.end && heap[i].free ensures At(heap, i + 1) == c.end {
          EndsPacked(heap, c);
        }
      }
    }
  }
}
