/** The cache of event blocks: given back blocks wait in lists by size to be used again. */
module EventCache {
  import opened Wrappers

  /** A block of event memory, from an address on. */
  datatype Block = Block(address: nat, size: nat)

  const MAX_FAST_LISTS := 40

  predicate Holds(b: Block, a: nat) {
    b.address <= a < b.address + b.size
  }

  predicate Apart(b: Block, c: Block) {
    b.address + b.size <= c.address || c.address + c.size <= b.address
  }

  /** The list for blocks of a size; the first list takes all that are too large for the others. */
  function ListOf(size: nat): (k: nat)
    ensures k < MAX_FAST_LISTS
  {
    if size < MAX_FAST_LISTS then size else 0
  }

  /** Each list holds blocks of its own size, the first one blocks of all larger sizes. */
  ghost predicate Sorted(events: seq<seq<Block>>) {
    && |events| == MAX_FAST_LISTS
    && forall k, i :: 0 <= k < |events| && 0 <= i < |events[k]| ==> events[k][i].size > 0 && ListOf(events[k][i].size) == k
  }

  /** No cell is in two blocks. */
  ghost predicate Disjoint(events: seq<seq<Block>>) {
    && (forall k, i, j :: 0 <= k < |events| && 0 <= i < j < |events[k]| ==> Apart(events[k][i], events[k][j]))
    && (forall k, l, i, j :: 0 <= k < l < |events| && 0 <= i < |events[k]| && 0 <= j < |events[l]| ==> Apart(events[k][i], events[l][j]))
  }

  ghost predicate Covers(events: seq<seq<Block>>, a: nat) {
    exists k, i :: 0 <= k < |events| && 0 <= i < |events[k]| && Holds(events[k][i], a)
  }

  /** The block shares no cell with those of the cache. */
  ghost predicate Fresh(events: seq<seq<Block>>, b: Block) {
    forall k, i :: 0 <= k < |events| && 0 <= i < |events[k]| ==> Apart(events[k][i], b)
  }

  function Appended(events: seq<seq<Block>>, b: Block): seq<seq<Block>>
    requires |events| == MAX_FAST_LISTS
  {
    events[ListOf(b.size) := events[ListOf(b.size)] + [b]]
  }

  function Extracted(events: seq<seq<Block>>, k: nat, i: nat): seq<seq<Block>>
    requires k < |events| && i < |events[k]|
  {
    events[k := events[k][..i] + events[k][i + 1..]]
  }

  lemma AppendedOk(events: seq<seq<Block>>, b: Block)
    requires Sorted(events) && Disjoint(events) && Fresh(events, b) && b.size > 0
    ensures Sorted(Appended(events, b)) && Disjoint(Appended(events, b))
  {
    AppendedSorted(events, b);
    hide Apart, ListOf, Sorted;
    var n := Appended(events, b);
    forall l, j, m | 0 <= l < |n| && 0 <= j < m < |n[l]| ensures Apart(n[l][j], n[l][m]) {
      AppendedAt(events, b, l, j);
      AppendedAt(events, b, l, m);
    }
    forall l, o, j, m | 0 <= l < o < |n| && 0 <= j < |n[l]| && 0 <= m < |n[o]| ensures Apart(n[l][j], n[o][m]) {
      AppendedAt(events, b, l, j);
      AppendedAt(events, b, o, m);
      ApartEither(n[l][j], n[o][m]);
    }
  }

  lemma AppendedSorted(events: seq<seq<Block>>, b: Block)
    requires Sorted(events) && b.size > 0
    ensures Sorted(Appended(events, b))
  {
  }

  lemma AppendedAt(events: seq<seq<Block>>, b: Block, l: nat, j: nat)
    requires |events| == MAX_FAST_LISTS && l < MAX_FAST_LISTS && j < |Appended(events, b)[l]|
    ensures if l == ListOf(b.size) && j == |events[l]| then Appended(events, b)[l][j] == b
            else j < |events[l]| && Appended(events, b)[l][j] == events[l][j]
  {
  }

  /** The two parts of a block hold what it holds. */
  lemma Parts(events: seq<seq<Block>>, b: Block, blocks: nat)
    requires Fresh(events, b) && blocks <= b.size
    ensures var x, y := Block(b.address, blocks), Block(b.address + blocks, b.size - blocks);
            && (forall a :: Holds(b, a) <==> Holds(x, a) || Holds(y, a)) && Apart(y, x)
            && (b.size == blocks ==> x == b) && Fresh(events, y) && Fresh(events, x)
  {
  }

  lemma StillFresh(events: seq<seq<Block>>, more: Block, b: Block)
    requires |events| == MAX_FAST_LISTS && Fresh(events, b) && Apart(more, b)
    ensures Fresh(Appended(events, more), b)
  {
  }

  lemma AppendedCovers(events: seq<seq<Block>>, b: Block, a: nat)
    requires |events| == MAX_FAST_LISTS
    ensures Covers(Appended(events, b), a) <==> Covers(events, a) || Holds(b, a)
  {
    var n, l := Appended(events, b), ListOf(b.size);
    if Covers(events, a) {
      var k, i :| 0 <= k < |events| && 0 <= i < |events[k]| && Holds(events[k][i], a);
      assert n[k][i] == events[k][i];
    }
    if Holds(b, a) { assert n[l][|events[l]|] == b; }
  }

  /** Where a block was before block `i` of list `k` was taken out. */
  function Before(k: nat, i: nat, l: nat, j: nat): nat {
    if l == k && j >= i then j + 1 else j
  }

  lemma ExtractedAt(events: seq<seq<Block>>, k: nat, i: nat, l: nat, j: nat)
    requires k < |events| && i < |events[k]| && l < |events| && j < |Extracted(events, k, i)[l]|
    ensures Before(k, i, l, j) < |events[l]| && Extracted(events, k, i)[l][j] == events[l][Before(k, i, l, j)]
    ensures !(l == k && Before(k, i, l, j) == i)
  {
  }

  lemma ExtractedOk(events: seq<seq<Block>>, k: nat, i: nat)
    requires Sorted(events) && Disjoint(events) && k < |events| && i < |events[k]|
    ensures Sorted(Extracted(events, k, i)) && Disjoint(Extracted(events, k, i)) && Fresh(Extracted(events, k, i), events[k][i])
  {
    hide Apart, ListOf;
    var n: seq<seq<Block>> := Extracted(events, k, i);
    forall l, j | 0 <= l < |n| && 0 <= j < |n[l]|
      ensures n[l][j].size > 0 && ListOf(n[l][j].size) == l && Apart(n[l][j], events[k][i]) {
      ExtractedAt(events, k, i, l, j);
      ApartEither(events[k][i], events[l][Before(k, i, l, j)]);
    }
    forall l, j, m | 0 <= l < |n| && 0 <= j < m < |n[l]| ensures Apart(n[l][j], n[l][m]) {
      ExtractedAt(events, k, i, l, j);
      ExtractedAt(events, k, i, l, m);
    }
    forall l, o, j, m | 0 <= l < o < |n| && 0 <= j < |n[l]| && 0 <= m < |n[o]| ensures Apart(n[l][j], n[o][m]) {
      ExtractedAt(events, k, i, l, j);
      ExtractedAt(events, k, i, o, m);
    }
  }

  lemma ApartEither(b: Block, c: Block)
    ensures Apart(b, c) == Apart(c, b)
  {
  }

  lemma ExtractedCovers(events: seq<seq<Block>>, k: nat, i: nat, a: nat)
    requires k < |events| && i < |events[k]|
    ensures Covers(events, a) <==> Covers(Extracted(events, k, i), a) || Holds(events[k][i], a)
  {
    var n: seq<seq<Block>> := Extracted(events, k, i);
    if Covers(events, a) {
      var l, j :| 0 <= l < |events| && 0 <= j < |events[l]| && Holds(events[l][j], a);
      if l != k || j != i { assert n[l][if l == k && j > i then j - 1 else j] == events[l][j]; }
    }
    if Covers(n, a) {
      var l, j :| 0 <= l < |n| && 0 <= j < |n[l]| && Holds(n[l][j], a);
      ExtractedAt(events, k, i, l, j);
    }
  }

  // ---------- The best fit ----------

  /** The most that is accepted for a request: a quarter more. */
  function Limit(blocks: nat): nat {
    blocks * 20 / 16
  }

  /** The smallest block that is large enough, and the first of these. */
  ghost predicate Smallest(list: seq<Block>, blocks: nat, k: nat) {
    && k < |list| && list[k].size >= blocks
    && (forall j :: 0 <= j < |list| && list[j].size >= blocks ==> list[k].size <= list[j].size)
    && (forall j :: 0 <= j < k && list[j].size >= blocks ==> list[k].size < list[j].size)
  }

  /** Block `b` is the smallest of the first `i` that fit, if any fits closely enough. */
  ghost predicate SoFar(list: seq<Block>, blocks: nat, i: nat, b: nat)
    requires i <= |list|
  {
    if b < i then Smallest(list[..i], blocks, b) && blocks < list[b].size <= Limit(blocks)
    else b == |list| && forall j :: 0 <= j < i && list[j].size >= blocks ==> list[j].size > Limit(blocks)
  }

  /** Block `k` has left the first list, and what it has more than `blocks` cells has gone to the back of a list. */
  ghost predicate Shortened(was: seq<seq<Block>>, k: nat, blocks: nat, now: seq<seq<Block>>) {
    && |was| == MAX_FAST_LISTS && k < |was[0]| && was[0][k].size >= blocks
    && var without := was[0 := was[0][..k] + was[0][k + 1..]]; var more := Block(was[0][k].address + blocks, was[0][k].size - blocks);
    && var l := if more.size < 40 then more.size else 0;
    now == if more.size == 0 then without else without[l := without[l] + [more]]
  }

  lemma SoFarNext(list: seq<Block>, blocks: nat, i: nat, b: nat)
    requires i < |list| && SoFar(list, blocks, i, b) && list[i].size != blocks
    ensures SoFar(list, blocks, i + 1,
              if list[i].size >= blocks && (if b < i then list[i].size < list[b].size else list[i].size <= Limit(blocks)) then i else b)
  {
    assert list[..i + 1] == list[..i] + [list[i]];
  }

  class EventBlocks {
    var events: seq<seq<Block>>

    ghost predicate Valid()
      reads this
    {
      Sorted(events) && Disjoint(events)
    }

    constructor ()
      ensures Valid() && forall a :: !Covers(events, a)
    {
      events := seq(MAX_FAST_LISTS, k => []);
    }

    method AppendNode(b: Block)
      requires Valid() && Fresh(events, b) && b.size > 0
      modifies this
      ensures Valid() && events == Appended(old(events), b)
      ensures events == old(events)[(if b.size < 40 then b.size else 0) := old(events)[if b.size < 40 then b.size else 0] + [b]]
      ensures forall a :: Covers(events, a) <==> Covers(old(events), a) || Holds(b, a)
    {
      AppendedOk(events, b);
      forall a ensures Covers(Appended(events, b), a) <==> Covers(events, a) || Holds(b, a) { AppendedCovers(events, b, a); }
      events := events[ListOf(b.size) := events[ListOf(b.size)] + [b]];
    }

    /** One pass through the list of large blocks finds the smallest that fits, exactly if it is close enough. */
    method FindBest(blocks: nat) returns (best: Option<nat>)
      requires |events| == MAX_FAST_LISTS
      ensures best.Some? ==> Smallest(events[0], blocks, best.value) && events[0][best.value].size <= Limit(blocks)
      ensures best.None? ==> forall j :: 0 <= j < |events[0]| && events[0][j].size >= blocks ==> events[0][j].size > Limit(blocks)
    {
      var list := events[0];
      var b: nat, bestSize: nat, i: nat := |list|, 0, 0;
      while i < |list|
        invariant i <= |list| && SoFar(list, blocks, i, b) && (b < i ==> bestSize == list[b].size)
      {
        var size := list[i].size;
        if size == blocks {
          FirstExact(list, blocks, i, b);
          return Some(i);
        }
        SoFarNext(list, blocks, i, b);
        if size >= blocks && ((b < |list| && size < bestSize) || (b == |list| && size <= blocks * 20 / 16)) {
          b, bestSize := i, size;
        }
        i := i + 1;
      }
      assert list[..i] == list;
      return if b < |list| then Some(b) else None;
    }

    /** A block that is used again is exactly as large as asked for; what it has more goes back to its list. */
    method ExtractNodeSlow(blocks: nat) returns (node: Option<Block>)
      requires Valid() && (blocks == 0 || blocks >= MAX_FAST_LISTS)
      modifies this
      ensures Valid() && (node.Some? ==> node.value.size == blocks && Fresh(events, node.value))
      ensures node.None? <==> forall j :: 0 <= j < |old(events)[0]| && old(events)[0][j].size >= blocks ==> old(events)[0][j].size > blocks * 20 / 16
      ensures node.None? ==> events == old(events)
      ensures node.Some? ==> exists k: nat ::
                Smallest(old(events)[0], blocks, k) && node.value.address == old(events)[0][k].address && Shortened(old(events), k, blocks, events)
      ensures forall a :: Covers(old(events), a) <==> Covers(events, a) || (node.Some? && Holds(node.value, a))
    {
      var best := FindBest(blocks);
      if best.None? { return None; }
      var b := TakeBlock(best.value, blocks);
      node := Some(b);
    }

    /** What a block has more than asked for goes back to its list. */
    method TakeBlock(k: nat, blocks: nat) returns (node: Block)
      requires Valid() && k < |events[0]| && events[0][k].size >= blocks
      modifies this
      ensures Valid() && node == Block(old(events)[0][k].address, blocks) && Fresh(events, node) && Shortened(old(events), k, blocks, events)
      ensures forall a :: Covers(old(events), a) <==> Covers(events, a) || Holds(node, a)
    {
      ghost var was, x := events, Extracted(events, 0, k);
      var b := events[0][k];
      ExtractedOk(events, 0, k);
      forall a ensures Covers(was, a) <==> Covers(x, a) || Holds(b, a) { ExtractedCovers(was, 0, k, a); }
      events := events[0 := events[0][..k] + events[0][k + 1..]];
      node := Block(b.address, blocks);
      ghost var more := Block(b.address + blocks, b.size - blocks);
      Parts(x, b, blocks);
      hide Sorted, Disjoint, Covers, Fresh, Extracted, Appended;
      if b.size > blocks {
        AppendNode(Block(b.address + blocks, b.size - blocks));
        StillFresh(x, more, node);
      }
    }

    /** The block that has waited longest. */
    method ExtractNodeFast(blocks: nat) returns (node: Option<Block>)
      requires Valid() && 0 < blocks < MAX_FAST_LISTS
      modifies this
      ensures Valid() && (node.Some? ==> node.value.size == blocks && Fresh(events, node.value))
      ensures if old(events)[blocks] == [] then node == None && events == old(events)
              else node == Some(old(events)[blocks][0]) && events == old(events)[blocks := old(events)[blocks][1..]]
      ensures forall a :: Covers(old(events), a) <==> Covers(events, a) || (node.Some? && Holds(node.value, a))
    {
      if events[blocks] == [] { return None; }
      ExtractedOk(events, blocks, 0);
      ghost var x := Extracted(events, blocks, 0);
      forall a ensures Covers(events, a) <==> Covers(x, a) || Holds(events[blocks][0], a) { ExtractedCovers(events, blocks, 0, a); }
      node := Some(events[blocks][0]);
      assert events[blocks][..0] + events[blocks][1..] == events[blocks][1..];
      events := events[blocks := events[blocks][1..]];
      assert events == Extracted(old(events), blocks, 0);
    }

    /** No cell is lost or used twice, and the block is as large as asked for. */
    method ExtractNode(blocks: nat) returns (node: Option<Block>)
      requires Valid()
      modifies this
      ensures Valid() && (node.Some? ==> node.value.size == blocks && Fresh(events, node.value))
      ensures forall a :: Covers(old(events), a) <==> Covers(events, a) || (node.Some? && Holds(node.value, a))
    {
      if 0 < blocks < MAX_FAST_LISTS {
        node := ExtractNodeFast(blocks);
      } else {
        node := ExtractNodeSlow(blocks);
      }
    }
  }

  lemma FirstExact(list: seq<Block>, blocks: nat, i: nat, b: nat)
    requires i < |list| && SoFar(list, blocks, i, b) && list[i].size == blocks
    ensures Smallest(list, blocks, i) && list[i].size <= Limit(blocks)
  {
    forall j | 0 <= j < i && list[j].size >= blocks ensures list[i].size < list[j].size {
      if b < i { assert list[..i][j] == list[j] && list[..i][b] == list[b]; }
    }
  }
}
