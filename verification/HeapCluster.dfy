/** One cluster of the managed heap: blocks in place, and the linked list of the free ones. */
module HeapCluster {
  import opened HeapLayout
  import opened FreeList

  /** The size field of a header has sixteen bits. */
  function RawId(b: Block): Block {
    b.(size := b.size % 0x1_0000)
  }

  class HeapCluster {
    const payload: nat
    const cells: array<Block> // a block's header is at its address
    const next: array<int> // links of free blocks; the last two nodes are the ends of the list
    const prev: array<int>
    ghost var layout: seq<Block>

    ghost predicate Shape() {
      payload <= MAX_SIZE && cells.Length == payload && next.Length == prev.Length == payload + 2 && next != prev
    }

    /** The payload is exactly tiled, free blocks are never side by side, and the free list is the free blocks
        in the order of their addresses. */
    ghost predicate Valid()
      reads this, cells, next, prev
    {
      && Shape() && Tiled(layout) && NoAdjacentFree(layout) && Represents(cells[..], layout)
      && Chain(next[..], prev[..], FreeAt(layout), payload)
    }

    function Head(): int { payload }

    function Tail(): int { payload + 1 }

    /** The first free block of at least `length` in list order. */
    method FirstFit(length: nat) returns (res: int, ghost i: nat)
      requires Valid()
      ensures if res == -1 then forall j :: 0 <= j < |layout| ==> !Fits(layout, j, length)
              else i < |layout| && Fits(layout, i, length) && res == At(layout, i) && forall j :: 0 <= j < i ==> !Fits(layout, j, length)
    {
      hide FreeAt, At, Represents, Tiled, NoAdjacentFree, Chain, Node, Fits;
      ghost var s, k := FreeAt(layout), 0;
      i := 0;
      WalkStart(next[..], prev[..], s, payload);
      var ptr := next[Head()];
      WalkForward(next[..], prev[..], s, payload, k);
      while next[ptr] != -1
        invariant k <= |s| && ptr == Node(s, payload, k + 1) && 0 <= ptr < payload + 2
        invariant forall j :: 0 <= j < k ==> s[j] < payload && cells[s[j]].size < length
        decreases |s| - k
      {
        WalkForward(next[..], prev[..], s, payload, k);
        if cells[ptr].size >= length {
          i := FreeIndex(layout, k);
          FirstOfList(layout, cells[..], k, i, length);
          return ptr, i;
        }
        ptr := next[ptr];
        k := k + 1;
        WalkForward(next[..], prev[..], s, payload, k);
      }
      WalkForward(next[..], prev[..], s, payload, k);
      NoneOfList(layout, cells[..], length);
      res := -1;
    }

    /** The last free block of at least `length` in list order. */
    method LastFit(length: nat) returns (res: int, ghost i: nat)
      requires Valid()
      ensures if res == -1 then forall j :: 0 <= j < |layout| ==> !Fits(layout, j, length)
              else i < |layout| && Fits(layout, i, length) && res == At(layout, i) && forall j :: i < j < |layout| ==> !Fits(layout, j, length)
    {
      hide FreeAt, At, Represents, Tiled, NoAdjacentFree, Chain, Node, Fits;
      ghost var s := FreeAt(layout);
      ghost var k: nat := |s|;
      i := 0;
      WalkStart(next[..], prev[..], s, payload);
      var ptr := prev[Tail()];
      WalkBack(next[..], prev[..], s, payload, k);
      while prev[ptr] != -1
        invariant k <= |s| && ptr == Node(s, payload, k) && 0 <= ptr < payload + 2
        invariant forall j :: k <= j < |s| ==> s[j] < payload && cells[s[j]].size < length
        decreases k
      {
        WalkBack(next[..], prev[..], s, payload, k);
        if cells[ptr].size >= length {
          i := FreeIndex(layout, k - 1);
          LastOfList(layout, cells[..], k - 1, i, length);
          return ptr, i;
        }
        ptr := prev[ptr];
        k := k - 1;
        WalkBack(next[..], prev[..], s, payload, k);
      }
      WalkBack(next[..], prev[..], s, payload, k);
      NoneOfList(layout, cells[..], length);
      res := -1;
    }

    /** Free block `i` at address `res` gives up `b.size` cells. */
    method Carve(res: nat, b: Block, ghost i: nat) returns (at: nat)
      requires Valid() && i < |layout| && Fits(layout, i, b.size) && res == At(layout, i) && b.size > 0 && !b.free
      modifies cells, next, prev
      ensures at == AllocatedAt(layout, i, b) && layout == old(layout) && Shape()
      ensures CarvedCells(old(cells[..]), cells[..], layout, i, b)
      ensures Chain(next[..], prev[..], FreeAt(Allocated(layout, i, b)), payload)
    {
      hide FreeAt, At, Represents, Tiled, NoAdjacentFree, Chain, Node, Allocated, Increasing;
      CarveBounds(layout, cells[..], i, b);
      ghost var s, k := FreeAt(layout), |FreeAt(layout[..i])|;
      AllocatedFree(layout, i, b);
      ChainRemove(next[..], prev[..], s, payload, k);
      at := res;
      var q, p := next[res], prev[res];
      var available := cells[res].size - b.size;
      if available != 0 {
        if b.event {
          cells[res] := RawId(FreeBlock(available));
          at := res + available;
        } else {
          var ptr := res + b.size;
          AllocatedIncreasing(layout, i, b);
          ChainReplace(next[..], prev[..], s, payload, k, ptr);
          cells[ptr] := RawId(FreeBlock(available));
          next[ptr] := q;
          prev[ptr] := p;
          next[p] := ptr;
          prev[q] := ptr;
        }
      } else {
        next[p] := q;
        prev[q] := p;
      }
      cells[at] := RawId(b);
    }

    /** A new cluster is one free block, whatever size the blocks are that its memory is first cut into. */
    constructor (size: nat, blockSize: nat)
      requires size <= MAX_SIZE && blockSize > 0
      ensures Valid() && payload == size && layout == if size == 0 then [] else [FreeBlock(size)]
    {
      payload := size;
      cells := new Block[size](_ => FreeBlock(0));
      next := new int[size + 2](_ => -1);
      prev := new int[size + 2](_ => -1);
      layout := [];
      new;
      CutUp(blockSize);
      ghost var l := layout;
      RecoverFromGC();
      AllDead(l);
    }

    /** Memory cut into dead blocks of `blockSize`, the last one to fit. */
    method CutUp(blockSize: nat)
      requires Shape() && blockSize > 0
      modifies this`layout, cells
      ensures Sized(layout) && Represents(cells[..], layout) && forall i :: 0 <= i < |layout| ==> !layout[i].alive
    {
      hide At, CutSoFar;
      var ptr, length := 0, blockSize;
      layout := [];
      CutNone(cells[..]);
      while ptr < payload
        invariant ptr == Size(layout) <= payload && length > 0 && CutSoFar(cells[..], layout)
        decreases payload - ptr
      {
        if ptr + length > payload { length := payload - ptr; }
        ghost var was := cells[..];
        var b := Block(true, false, false, false, length, 0, []);
        cells[ptr] := RawId(b);
        CutOne(was, cells[..], layout, b);
        layout := layout + [b];
        ptr := ptr + length;
      }
      CutAll(cells[..], layout);
    }

    /** Allocates block `b`: an event from the back of the last free block that is big enough, an object from
        the front of the first; fails exactly if there is none. */
    method ExtractBlocks(b: Block) returns (at: int, ghost i: nat)
      requires Valid() && b.size > 0 && !b.free
      modifies this`layout, cells, next, prev
      ensures Valid()
      ensures at == -1 ==> layout == old(layout) && cells[..] == old(cells[..]) && forall j :: 0 <= j < |layout| ==> !Fits(layout, j, b.size)
      ensures at == -1 ==> forall j :: 0 <= j < |layout| ==> !(layout[j].free && layout[j].size >= b.size)
      ensures at != -1 ==> AllocatesTo(old(layout), layout, i, b, at)
      ensures at != -1 ==> forall j :: 0 <= j < |old(layout)| && old(layout)[j].free && old(layout)[j].size >= b.size ==> if b.event then j <= i else i <= j
      ensures at != -1 ==>
                && i < |old(layout)| && Fits(old(layout), i, b.size)
                && layout == Allocated(old(layout), i, b) && at == AllocatedAt(old(layout), i, b)
                && (if b.event then forall j :: i < j < |old(layout)| ==> !Fits(old(layout), j, b.size)
                    else forall j :: 0 <= j < i ==> !Fits(old(layout), j, b.size))
    {
      FitsAre(layout, b.size);
      hide FreeAt, At, Represents, Tiled, NoAdjacentFree, Chain, Node, Allocated, AllocatedAt, Fits, AllocatesTo;
      at, i := -1, 0;
      if b.event { at, i := LastFit(b.size); } else { at, i := FirstFit(b.size); }
      if at != -1 {
        AllocatedMeans(layout, i, b);
        ghost var was := cells[..];
        at := Carve(at, b, i);
        CarvedRepresents(was, cells[..], layout, i, b);
        AllocatedOk(layout, i, b);
        layout := Allocated(layout, i, b);
      }
    }

    /** Everything but the list being free of neighbours: while blocks `i..k` have no owner. */
    ghost predicate Loose(i: nat, k: nat)
      reads this, cells, next, prev
    {
      && Shape() && Tiled(layout) && Represents(cells[..], layout) && i < k <= |layout|
      && (forall j :: i <= j < k ==> !layout[j].free)
      && (forall j :: 0 <= j < i - 1 || k <= j < |layout| - 1 ==> !(layout[j].free && layout[j + 1].free))
      && Chain(next[..], prev[..], FreeAt(layout), payload)
    }

    /** The first free block after address `node`, or the tail. */
    method After(node: nat, ghost i: nat, ghost k: nat) returns (ptr: int)
      requires Loose(i, k) && node == At(layout, i)
      ensures ptr == Node(FreeAt(layout), payload, |FreeAt(layout[..i])| + 1) && |FreeAt(layout[..i])| <= |FreeAt(layout)|
    {
      hide At, FreeAt, Represents, Tiled, Chain, Node;
      ghost var s, e := FreeAt(layout), 0;
      ghost var q := AroundNode(layout, i, k);
      WalkStart(next[..], prev[..], s, payload);
      ptr := next[Head()];
      WalkForward(next[..], prev[..], s, payload, e);
      while next[ptr] != -1
        invariant e <= q && ptr == Node(s, payload, e + 1) && 0 <= ptr < payload + 2
        invariant next[ptr] == -1 <==> e == |s|
        invariant e < |s| ==> ptr == s[e]
        decreases |s| - e
      {
        if ptr > node { break; }
        WalkForward(next[..], prev[..], s, payload, e);
        ptr := next[ptr];
        e := e + 1;
        WalkForward(next[..], prev[..], s, payload, e);
      }
    }

    /** Links `node` in between element `q - 1` of the list and `ptr`. */
    method InsertBeforeNode(ptr: int, node: nat, ghost s: seq<nat>, ghost q: nat)
      requires Shape() && Chain(next[..], prev[..], s, payload) && q <= |s| && ptr == Node(s, payload, q + 1) && node < payload
      requires Increasing(s[..q] + [node] + s[q..], payload)
      modifies next, prev
      ensures Chain(next[..], prev[..], s[..q] + [node] + s[q..], payload)
    {
      ChainInsert(next[..], prev[..], s, payload, q, node);
      hide Chain, Node, Increasing;
      var before := prev[ptr];
      next[node] := ptr;
      prev[node] := before;
      prev[ptr] := node;
      next[before] := node;
      assert next[..] == old(next[..])[node := ptr][before := node];
    }

    /** Takes element `q` out of the list and clears its links. */
    method Unlink(node: nat, ghost s: seq<nat>, ghost q: nat)
      requires Shape() && Chain(next[..], prev[..], s, payload) && q < |s| && s[q] == node
      modifies next, prev
      ensures Chain(next[..], prev[..], s[..q] + s[q + 1..], payload)
    {
      assert node < payload && node !in s[..q] + s[q + 1..];
      ChainRemove(next[..], prev[..], s, payload, q);
      hide Chain, Node;
      var p, n := prev[node], next[node];
      next[p] := n;
      prev[n] := p;
      assert next[..] == old(next[..])[p := n] && prev[..] == old(prev[..])[n := p];
      ChainIgnores(next[..], prev[..], s[..q] + s[q + 1..], payload, node, -1, -1);
      prev[node] := -1;
      next[node] := -1;
    }

    /** Joins the block at `node`, element `q` of list `s`, with the free block that follows it, if any. */
    method JoinNext(node: nat, size: nat, ghost s: seq<nat>, ghost q: nat, ghost joins: bool) returns (total: nat)
      requires Shape() && Chain(next[..], prev[..], s, payload) && q < |s| && s[q] == node
      requires if q + 1 < |s| then joins == (node + size == s[q + 1]) else !joins
      modifies next, prev
      ensures if joins then q + 1 < |s| && s[q + 1] < payload && total == size + cells[s[q + 1]].size && Chain(next[..], prev[..], s[..q + 1] + s[q + 2..], payload)
              else total == size && Chain(next[..], prev[..], s, payload)
    {
      hide Chain, Node;
      total := size;
      WalkForward(next[..], prev[..], s, payload, q);
      WalkForward(next[..], prev[..], s, payload, q + 1);
      var ptr := next[node];
      if next[ptr] != -1 && node + size == ptr {
        total := size + cells[ptr].size;
        Unlink(ptr, s, q + 1);
      }
    }

    /** Joins it with the free block before it, if any. */
    method JoinPrev(node: nat, size: nat, ghost s: seq<nat>, ghost q: nat, ghost joins: bool) returns (at: nat, total: nat)
      requires Shape() && Chain(next[..], prev[..], s, payload) && q < |s| && s[q] == node
      requires if q > 0 then s[q - 1] < payload && joins == (s[q - 1] + cells[s[q - 1]].size == node) else !joins
      modifies next, prev
      ensures if joins then q > 0 && at == s[q - 1] < payload && total == size + cells[at].size && Chain(next[..], prev[..], s[..q] + s[q + 1..], payload)
              else at == node && total == size && Chain(next[..], prev[..], s, payload)
    {
      hide Chain, Node;
      at, total := node, size;
      WalkBack(next[..], prev[..], s, payload, q + 1);
      WalkBack(next[..], prev[..], s, payload, q);
      var ptr := prev[node];
      if prev[ptr] != -1 && ptr + cells[ptr].size == node {
        total := size + cells[ptr].size;
        Unlink(node, s, q);
        at := ptr;
      }
    }

    /** Links the block at `node` in at its place and joins it with its free neighbours. */
    method Relink(node: nat, size: nat, ghost i: nat, ghost k: nat) returns (at: nat, total: nat)
      requires Loose(i, k) && node == At(layout, i) && node + size == At(layout, k)
      modifies next, prev
      ensures var l := layout;
              && At(l, i) < At(l, k) && At(l, Low(l, i)) < At(l, High(l, k)) <= payload
              && at == At(l, Low(l, i)) && at + total == At(l, High(l, k))
              && Chain(next[..], prev[..], FreeAt(Inserted(l, i, k)), payload)
    {
      hide At, FreeAt, Represents, Tiled, NoAdjacentFree, Chain, Node, Inserted, Low, High, Increasing;
      ghost var l := layout;
      InsertedOk(l, i, k);
      ghost var s := FreeAt(l);
      ghost var q := InsertedList(l, i, k);
      ghost var lo, hi := Low(l, i), High(l, k);
      CellsAre(cells[..], l);
      InsertedNeighbours(l, cells[..], i, k, q);
      NextNeighbour(l, cells[..], i, k, q);
      PrevNeighbour(l, cells[..], i, k, q);
      LowSize(l, cells[..], i);
      var ptr := After(node, i, k);
      InsertBeforeNode(ptr, node, s, q);
      total := JoinNext(node, size, s[..q] + [node] + s[q..], q, k < hi);
      JoinedNext(s, node, q, hi - k);
      at, total := JoinPrev(node, total, s[..q] + [node] + s[q + (hi - k)..], q, lo < i);
      JoinedPrev(s, node, q, hi - k);
    }

    /** The block at `node`, unlinked, becomes a free block of `size` cells and joins its free neighbours. */
    method InsertInOrder(node: nat, size: nat, ghost i: nat, ghost k: nat) returns (at: nat)
      requires Loose(i, k) && node == At(layout, i) && node + size == At(layout, k)
      modifies this`layout, cells, next, prev
      ensures At(old(layout), i) <= At(old(layout), k) && At(old(layout), Low(old(layout), i)) <= At(old(layout), High(old(layout), k))
      ensures Valid() && layout == Inserted(old(layout), i, k) && at == At(old(layout), Low(old(layout), i))
    {
      hide At, FreeAt, Represents, Tiled, NoAdjacentFree, Chain, Node, Inserted, Low, High;
      ghost var was := cells[..];
      InsertedOk(layout, i, k);
      CellsAre(was, layout);
      var total;
      at, total := Relink(node, size, i, k);
      cells[at] := RawId(FreeBlock(total));
      InsertedRepresents(was, cells[..], layout, i, k);
      layout := Inserted(layout, i, k);
    }

    /** What holds while the heap is swept: blocks `a..` of the old heap `l` are still there, `done` has taken the
        place of those before. */
    ghost predicate Recovering(l: seq<Block>, a: nat, done: seq<Block>)
      reads cells, next, prev
    {
      && Shape() && Sized(done) && Sweeping(l, a, done) && CellsSwept(cells[..], l, a, done)
      && OpenChain(next[..], prev[..], FreeAt(done), payload)
    }

    lemma StartRecovery(l: seq<Block>)
      requires Shape() && Represents(cells[..], l) && prev[payload] == -1
      ensures Recovering(l, 0, []) && At(l, 0) == 0 && Node(FreeAt([]), payload, 0) == payload && |FreeAt([])| == 0
    {
      SweepStart(l);
    }

    lemma AllSwept(l: seq<Block>, a: nat, done: seq<Block>)
      requires Recovering(l, a, done) && Sized(l) && a <= |l| && At(l, a) >= payload
      ensures done == Swept(l) && Represents(cells[..], done)
    {
      AtGrows(l, a, |l|);
      assert l[a..] == [];
    }

    /** Blocks `a..` of heap `l` are where they were. */
    ghost predicate Still(l: seq<Block>, a: nat)
      reads cells
    {
      && cells.Length == payload == Size(l)
      && forall i :: a <= i < |l| ==> At(l, i) < payload && cells[At(l, i)] == l[i]
    }

    lemma StillThere(l: seq<Block>, a: nat, done: seq<Block>)
      requires Recovering(l, a, done)
      ensures Still(l, a)
    {
      hide At, FreeAt, Swept, Sweeping, OpenChain, Sized;
    }

    lemma BlockHere(l: seq<Block>, a: nat, b: nat)
      requires Still(l, a) && a <= b <= |l|
      ensures if b < |l| then At(l, b) < payload && cells[At(l, b)] == l[b] else At(l, b) == payload
    {
      hide At;
    }

    /** The length of the run of dead blocks that begins at `ptr`. */
    method DeadLength(ptr: nat, ghost l: seq<Block>, ghost a: nat) returns (lenTot: nat, ghost b: nat)
      requires cells.Length == payload && Still(l, a) && a < |l| && ptr == At(l, a) && !l[a].alive
      requires forall i :: 0 <= i < |l| ==> l[i].size > 0
      ensures a < b <= |l| && ptr + lenTot == At(l, b) && (forall i :: a <= i < b ==> !l[i].alive) && (b < |l| ==> l[b].alive)
    {
      hide At, Still;
      BlockHere(l, a, a);
      var len := cells[ptr].size;
      var next := ptr + len;
      lenTot := len;
      b := a + 1;
      AtNext(l, a);
      BlockHere(l, a, b);
      while next < payload && !cells[next].alive
        invariant a < b <= |l| && next == ptr + lenTot == At(l, b) && forall i :: a <= i < b ==> !l[i].alive
        decreases |l| - b
      {
        BlockHere(l, a, b);
        AtNext(l, b);
        len := cells[next].size;
        next := next + len;
        lenTot := lenTot + len;
        b := b + 1;
        BlockHere(l, a, b);
      }
      BlockHere(l, a, b);
    }

    /** The run becomes one free block at the end of the list. */
    method FreeRun(ptr: nat, len: nat, last: int, ghost l: seq<Block>, ghost a: nat, ghost b: nat, ghost done: seq<Block>) returns (last': int)
      requires Recovering(l, a, done) && Sized(l) && a < b <= |l| && ptr == At(l, a) && ptr + len == At(l, b)
      requires (forall i :: a <= i < b ==> !l[i].alive) && (b < |l| ==> l[b].alive)
      requires last == Node(FreeAt(done), payload, |FreeAt(done)|) && 0 <= last < payload + 2
      modifies cells, next, prev
      ensures var d := done + [FreeBlock(len)];
              Recovering(l, b, d) && last' == Node(FreeAt(d), payload, |FreeAt(d)|) && 0 <= last' < payload + 2
    {
      hide At, FreeAt, Swept, OpenChain, Node, CellsSwept, Sweeping, Increasing;
      ghost var was := cells[..];
      SweptBounds(was, l, a, b, done);
      FreeAtMore(done, FreeBlock(len));
      RunIncreasing(done, payload);
      OpenAppend(next[..], prev[..], FreeAt(done), payload, ptr);
      cells[ptr] := RawId(FreeBlock(len));
      next[last] := ptr;
      prev[ptr] := last;
      last' := ptr;
      CellsSweptOne(was, cells[..], l, a, b, done, FreeBlock(len));
      SweepOne(l, a, b, done);
    }

    method KeepBlock(ptr: nat, ghost l: seq<Block>, ghost a: nat, ghost done: seq<Block>)
      requires Recovering(l, a, done) && Sized(l) && a < |l| && ptr == At(l, a) && l[a].alive && !l[a].free
      modifies cells
      ensures Recovering(l, a + 1, done + [Survivor(l[a])]) && FreeAt(done + [Survivor(l[a])]) == FreeAt(done)
    {
      hide At, FreeAt, Swept, OpenChain, Node, CellsSwept, Sweeping;
      ghost var was := cells[..];
      SweptBounds(was, l, a, a + 1, done);
      FreeAtMore(done, Survivor(l[a]));
      if !cells[ptr].event { cells[ptr] := cells[ptr].(alive := false); }
      AtNext(l, a);
      assert cells[..] == was[ptr := Survivor(l[a])];
      CellsSweptOne(was, cells[..], l, a, a + 1, done, Survivor(l[a]));
      SweepOne(l, a, a + 1, done);
      assert FreeAt(done) + [] == FreeAt(done);
    }

    method CloseList(last: int, ghost l: seq<Block>, ghost a: nat, ghost done: seq<Block>)
      requires Recovering(l, a, done) && last == Node(FreeAt(done), payload, |FreeAt(done)|) && 0 <= last < payload + 2
      modifies next, prev
      ensures Chain(next[..], prev[..], FreeAt(done), payload)
    {
      hide At, FreeAt, Swept, OpenChain, Node, Sweeping, Chain;
      OpenClose(next[..], prev[..], FreeAt(done), payload);
      next[last] := Tail();
      prev[Tail()] := last;
      next[Tail()] := -1;
    }

    /** Every maximal run of dead blocks becomes one free block, and the free list is built anew. */
    method RecoverFromGC()
      requires Shape() && Sized(layout) && Represents(cells[..], layout) && forall i :: 0 <= i < |layout| && layout[i].alive ==> !layout[i].free
      modifies this`layout, cells, next, prev
      ensures Valid() && layout == Swept(old(layout))
      ensures SweepsTo(old(layout), layout)
    {
      hide SweepsTo, At, FreeAt, Swept, OpenChain, Recovering, Node, Chain, Tiled, NoAdjacentFree, Represents;
      SweepMeans(layout);
      ghost var l, a, done: seq<Block> := layout, 0, [];
      var ptr, last := 0, Head();
      prev[Head()] := -1;
      StartRecovery(l);
      while ptr < payload
        invariant a <= |l| && ptr == At(l, a) && Recovering(l, a, done)
        invariant last == Node(FreeAt(done), payload, |FreeAt(done)|) && 0 <= last < payload + 2
        decreases |l| - a
      {
        StillThere(l, a, done);
        BlockHere(l, a, a);
        ghost var b := a + 1;
        if !cells[ptr].alive {
          var len;
          len, b := DeadLength(ptr, l, a);
          last := FreeRun(ptr, len, last, l, a, b, done);
          done := done + [FreeBlock(len)];
          ptr := ptr + len;
        } else {
          var size := cells[ptr].size;
          KeepBlock(ptr, l, a, done);
          done := done + [Survivor(l[a])];
          AtNext(l, a);
          ptr := ptr + size;
        }
        a := b;
      }
      AllSwept(l, a, done);
      SweptOk(l);
      CloseList(last, l, a, done);
      layout := done;
    }
  }

  lemma FitsAre(l: seq<Block>, size: nat)
    ensures forall j :: 0 <= j < |l| ==> (Fits(l, j, size) <==> l[j].free && l[j].size >= size)
  {
  }

  /** Dead blocks stand in memory up to the size of `l`. */
  ghost predicate CutSoFar(cells: seq<Block>, l: seq<Block>) {
    && Size(l) <= |cells| && Sized(l)
    && forall i :: 0 <= i < |l| ==> !l[i].alive && At(l, i) < Size(l) && cells[At(l, i)] == l[i]
  }

  lemma CutNone(cells: seq<Block>)
    ensures CutSoFar(cells, []) && Size([]) == 0
  {
  }

  lemma CutOne(was: seq<Block>, now: seq<Block>, l: seq<Block>, b: Block)
    requires CutSoFar(was, l) && b.size > 0 && !b.alive && Size(l) + b.size <= |was| && now == was[Size(l) := b]
    ensures CutSoFar(now, l + [b]) && Size(l + [b]) == Size(l) + b.size
  {
    hide At;
    var t := l + [b];
    SizeConcat(l, [b]);
    SizeOne(b);
    forall i | 0 <= i < |t| ensures !t[i].alive && At(t, i) < Size(t) && now[At(t, i)] == t[i] { AtFront(l, [b], i); }
  }

  lemma CutAll(cells: seq<Block>, l: seq<Block>)
    requires CutSoFar(cells, l) && Size(l) == |cells|
    ensures Sized(l) && Represents(cells, l) && forall i :: 0 <= i < |l| ==> !l[i].alive
  {
    hide At;
  }

  lemma AllDead(l: seq<Block>)
    requires Sized(l) && forall i :: 0 <= i < |l| ==> !l[i].alive
    ensures Swept(l) == if Size(l) == 0 then [] else [FreeBlock(Size(l))]
  {
    AtGrows(l, 0, |l|);
    DeadRunIs(l, |l|);
    assert l[|l|..] == [];
  }

  /** In memory, blocks `a..` of the old heap follow the blocks that are done. */
  ghost predicate CellsSwept(cells: seq<Block>, l: seq<Block>, a: nat, done: seq<Block>) {
    && |cells| == Size(l) && Size(done) <= |cells|
    && (forall i :: a <= i < |l| ==> At(l, i) < |cells| && cells[At(l, i)] == l[i])
    && (forall j :: 0 <= j < |done| ==> At(done, j) < Size(done) && cells[At(done, j)] == done[j])
  }

  lemma SweptBounds(cells: seq<Block>, l: seq<Block>, a: nat, b: nat, done: seq<Block>)
    requires CellsSwept(cells, l, a, done) && Sweeping(l, a, done) && Sized(l) && a < b <= |l|
    ensures At(l, a) == Size(done) < At(l, b) <= |cells| && cells[At(l, a)] == l[a]
  {
    AtGrows(l, a, b);
    AtGrows(l, b, |l|);
  }

  /** The block at the front of the old heap has given way to `n`. */
  lemma CellsSweptOne(was: seq<Block>, now: seq<Block>, l: seq<Block>, a: nat, b: nat, done: seq<Block>, n: Block)
    requires CellsSwept(was, l, a, done) && Sized(l) && a < b <= |l| && Size(done) == At(l, a) < At(l, b) <= |was|
    requires now == was[At(l, a) := n] && n.size == At(l, b) - At(l, a)
    ensures CellsSwept(now, l, b, done + [n])
  {
    hide At;
    SizeOne(n);
    SizeConcat(done, [n]);
    var d := done + [n];
    forall i | b <= i < |l| ensures At(l, i) < |now| && now[At(l, i)] == l[i] { AtGrows(l, b, i); }
    forall j | 0 <= j < |d| ensures At(d, j) < Size(d) && now[At(d, j)] == d[j] {
      AtFront(done, [n], j);
    }
  }

  lemma RunIncreasing(done: seq<Block>, n: nat)
    requires Sized(done) && Size(done) < n
    ensures Increasing(FreeAt(done) + [Size(done)], n)
  {
    hide At, FreeAt;
    FreeIncreasing(done);
  }

  lemma JoinedNext(s: seq<nat>, node: nat, q: nat, d: nat)
    requires q + d <= |s| && d <= 1
    ensures var t := s[..q] + [node] + s[q..];
            (if d == 1 then t[..q + 1] + t[q + 2..] else t) == s[..q] + [node] + s[q + d..]
  {
  }

  lemma JoinedPrev(s: seq<nat>, node: nat, q: nat, d: nat)
    requires q + d <= |s|
    ensures var t := s[..q] + [node] + s[q + d..];
            && t[q] == node && (q > 0 ==> t[q - 1] == s[q - 1] && t[..q] + t[q + 1..] == s[..q - 1] + [s[q - 1]] + s[q + d..])
  {
  }

  lemma CellsAre(cells: seq<Block>, l: seq<Block>)
    requires Represents(cells, l)
    ensures |cells| == Size(l)
  {
  }

  lemma LowSize(l: seq<Block>, cells: seq<Block>, i: nat)
    requires Represents(cells, l) && i <= |l|
    ensures var lo := Low(l, i);
            lo < i ==> At(l, lo) < |cells| && At(l, i) == At(l, lo) + cells[At(l, lo)].size
  {
  }

  /** The next free block in the list is the next block in memory exactly if that one is free. */
  lemma NextNeighbour(l: seq<Block>, cells: seq<Block>, i: nat, k: nat, q: nat)
    requires Tiled(l) && Represents(cells, l) && i < k <= |l| && (forall j :: i <= j < k ==> !l[j].free) && q == |FreeAt(l[..i])|
    ensures var s, hi := FreeAt(l), High(l, k);
            && q <= |s| && At(l, hi) <= |cells|
            && (if q < |s| then s[q] < |cells| && (s[q] == At(l, k) <==> k < hi) else hi == k)
            && (k < hi ==> At(l, k) < |cells| && At(l, hi) == At(l, k) + cells[At(l, k)].size)
  {
    hide At, FreeAt;
    var s := FreeAt(l);
    FreeAtParts(l, i, k);
    NoFree(l[i..k]);
    HighList(l, k);
    FreeIncreasing(l);
    AtGrows(l, High(l, k), |l|);
    if q < |s| {
      var j := FreeIndex(l, q);
      AtOrder(l, j, k);
    }
    if k < |l| { AtNext(l, k); }
  }

  /** And likewise for the one before. */
  lemma PrevNeighbour(l: seq<Block>, cells: seq<Block>, i: nat, k: nat, q: nat)
    requires Tiled(l) && Represents(cells, l) && i < k <= |l| && (forall j :: i <= j < k ==> !l[j].free) && q == |FreeAt(l[..i])|
    ensures var s, lo := FreeAt(l), Low(l, i);
            && q <= |s|
            && (if q > 0 then s[q - 1] < |cells| && (s[q - 1] + cells[s[q - 1]].size == At(l, i) <==> lo < i) else lo == i)
            && (lo < i ==> q > 0 && s[q - 1] == At(l, lo))
  {
    hide At, FreeAt;
    var s, lo := FreeAt(l), Low(l, i);
    FreeAtParts(l, i, k);
    LowList(l, i);
    FreeIncreasing(l);
    assert lo < i ==> q > 0 && s[q - 1] == At(l, lo);
    if q > 0 {
      var j := FreeIndex(l, q - 1);
      AtNext(l, j);
      AtOrder(l, j + 1, i);
      if lo < i { AtOrder(l, j, lo); }
    }
  }

  lemma InsertedNeighbours(l: seq<Block>, cells: seq<Block>, i: nat, k: nat, q: nat)
    requires Tiled(l) && Represents(cells, l) && i < k <= |l| && (forall j :: i <= j < k ==> !l[j].free) && q == |FreeAt(l[..i])|
    ensures q <= |FreeAt(l)| && At(l, i) < |cells| && Increasing(FreeAt(l)[..q] + [At(l, i)] + FreeAt(l)[q..], |cells|)
  {
    hide At, FreeAt;
    var _ := AroundNode(l, i, k);
    FreeIncreasing(l);
    AtGrows(l, i, k);
    AtGrows(l, k, |l|);
  }

  /** The header of the joined block stands for the whole. */
  lemma InsertedRepresents(was: seq<Block>, now: seq<Block>, l: seq<Block>, i: nat, k: nat)
    requires Tiled(l) && Represents(was, l) && i < k <= |l| && At(l, i) <= At(l, k) && At(l, Low(l, i)) < At(l, High(l, k))
    requires At(l, Low(l, i)) < |was| && now == was[At(l, Low(l, i)) := FreeBlock(At(l, High(l, k)) - At(l, Low(l, i)))]
    ensures Represents(now, Inserted(l, i, k))
  {
    hide At, Represents;
    var lo, hi := Low(l, i), High(l, k);
    var m := [FreeBlock(At(l, hi) - At(l, lo))];
    SizeOne(m[0]);
    AtZero(m);
    RepresentsReplaced(was, now, l, lo, hi, m);
  }

  lemma AtZero(l: seq<Block>)
    ensures At(l, 0) == 0
  {
  }

  /** The free blocks before blocks `i..k` come first in the list, those after them follow. */
  lemma AroundNode(l: seq<Block>, i: nat, k: nat) returns (q: nat)
    requires Tiled(l) && i < k <= |l| && forall j :: i <= j < k ==> !l[j].free
    ensures q == |FreeAt(l[..i])| <= |FreeAt(l)|
    ensures forall e :: 0 <= e < q ==> FreeAt(l)[e] < At(l, i)
    ensures forall e :: q <= e < |FreeAt(l)| ==> FreeAt(l)[e] >= At(l, k) > At(l, i)
  {
    hide At, FreeAt;
    q := |FreeAt(l[..i])|;
    FreeAtParts(l, i, k);
    NoFree(l[i..k]);
    AtPrefix(l, i, i);
    AtGrows(l, i, k);
    FreeIncreasing(l[..i]);
  }

  /** The headers written by an allocation. */
  ghost predicate CarvedCells(was: seq<Block>, now: seq<Block>, l: seq<Block>, i: nat, b: Block)
    requires i < |l| && Fits(l, i, b.size)
  {
    var rest, a := l[i].size - b.size, At(l, i);
    && a + l[i].size <= |was| && b.size > 0
    && now == if rest == 0 then was[a := b]
              else if b.event then was[a := FreeBlock(rest)][a + rest := b]
              else was[a + b.size := FreeBlock(rest)][a := b]
  }

  lemma CarvedRepresents(was: seq<Block>, now: seq<Block>, l: seq<Block>, i: nat, b: Block)
    requires Tiled(l) && Represents(was, l) && i < |l| && Fits(l, i, b.size) && !b.free && CarvedCells(was, now, l, i, b)
    ensures Represents(now, Allocated(l, i, b))
  {
    CarvedRewritten(was, now, l, i, b);
    hide At, Represents, Rewritten;
    CarvedOk(l, i, b);
    RepresentsReplaced(was, now, l, i, i + 1, Carved(l, i, b));
  }

  lemma CarvedRewritten(was: seq<Block>, now: seq<Block>, l: seq<Block>, i: nat, b: Block)
    requires i < |l| && Fits(l, i, b.size) && !b.free && CarvedCells(was, now, l, i, b)
    ensures Rewritten(was, now, l, i, i + 1, Carved(l, i, b))
  {
    CarvedOk(l, i, b);
    var m := Carved(l, i, b);
    assert |m| == 2 ==> At(m, 1) == m[0].size;
  }

  lemma CarveBounds(l: seq<Block>, cells: seq<Block>, i: nat, b: Block)
    requires Tiled(l) && Represents(cells, l) && |cells| <= MAX_SIZE && i < |l| && Fits(l, i, b.size)
    ensures At(l, i) + l[i].size <= |cells| == Size(l) && cells[At(l, i)] == l[i] && l[i].size <= MAX_SIZE
  {
    hide At;
    AtNext(l, i);
    AtGrows(l, i + 1, |l|);
  }

  lemma AllocatedIncreasing(l: seq<Block>, i: nat, b: Block)
    requires Tiled(l) && NoAdjacentFree(l) && i < |l| && Fits(l, i, b.size) && b.size > 0 && !b.free
    ensures Increasing(FreeAt(Allocated(l, i, b)), Size(l))
  {
    AllocatedOk(l, i, b);
    FreeIncreasing(Allocated(l, i, b));
  }

  /** A free block before another comes before it in the list. */
  lemma ListOrder(l: seq<Block>, i: nat, j: nat, k: nat)
    requires Tiled(l) && i < |l| && j < |l| && l[j].free && k < |FreeAt(l)| && At(l, i) == FreeAt(l)[k]
    ensures var k' := |FreeAt(l[..j])|; k' < |FreeAt(l)| && FreeAt(l)[k'] == At(l, j) && (j < i ==> k' < k) && (j > i ==> k' > k)
  {
    FreeSplit(l, j);
    var k' := |FreeAt(l[..j])|;
    AtOrder(l, j, i);
    if k' > k { FreeAtBelow(l, k'); }
    if k' < k { FreeAtBelow(l, k); }
  }

  /** Free block `i` is element `k` of the list and fits, and no element before it does. */
  lemma FirstOfList(l: seq<Block>, cells: seq<Block>, k: nat, i: nat, length: nat)
    requires Tiled(l) && Represents(cells, l) && k < |FreeAt(l)| && i < |l| && l[i].free && At(l, i) == FreeAt(l)[k]
    requires FreeAt(l)[k] < |cells| && cells[FreeAt(l)[k]].size >= length
    requires forall j :: 0 <= j < k ==> FreeAt(l)[j] < |cells| && cells[FreeAt(l)[j]].size < length
    ensures Fits(l, i, length) && forall j :: 0 <= j < i ==> !Fits(l, j, length)
  {
    forall j | 0 <= j < i ensures !Fits(l, j, length) {
      if l[j].free { ListOrder(l, i, j, k); }
    }
  }

  lemma LastOfList(l: seq<Block>, cells: seq<Block>, k: nat, i: nat, length: nat)
    requires Tiled(l) && Represents(cells, l) && k < |FreeAt(l)| && i < |l| && l[i].free && At(l, i) == FreeAt(l)[k]
    requires FreeAt(l)[k] < |cells| && cells[FreeAt(l)[k]].size >= length
    requires forall j :: k < j < |FreeAt(l)| ==> FreeAt(l)[j] < |cells| && cells[FreeAt(l)[j]].size < length
    ensures Fits(l, i, length) && forall j :: i < j < |l| ==> !Fits(l, j, length)
  {
    forall j | i < j < |l| ensures !Fits(l, j, length) {
      if l[j].free { ListOrder(l, i, j, k); }
    }
  }

  lemma NoneOfList(l: seq<Block>, cells: seq<Block>, length: nat)
    requires Represents(cells, l)
    requires forall j :: 0 <= j < |FreeAt(l)| ==> FreeAt(l)[j] < |cells| && cells[FreeAt(l)[j]].size < length
    ensures forall j :: 0 <= j < |l| ==> !Fits(l, j, length)
  {
    forall j | 0 <= j < |l| ensures !Fits(l, j, length) {
      if l[j].free { FreeSplit(l, j); }
    }
  }

  const HEAP_BLOCK := 12 // bytes of a block
  const CLUSTER_HEADER := 32 // bytes of a cluster's own fields

  const CLUSTER_SIZE := HEAP_BLOCK * MAX_SIZE

  /** The size of `n` clusters that are as large as can be. */
  function Whole(n: int): int {
    n * CLUSTER_SIZE
  }

  lemma WholeNext(n: int)
    ensures Whole(n) == Whole(n - 1) + CLUSTER_SIZE && Whole(0) == 0
  {
  }

  /** Memory cut into clusters, none too long for the size field of a block that spans it: all but the last are as
      large as that allows, and what is left over is too little for another. */
  method AllocateHeaps(heapSize: nat) returns (heap: seq<HeapCluster>, ghost last: nat, ghost left: nat)
    ensures forall k :: 0 <= k < |heap| ==> heap[k].Valid() && Size(heap[k].layout) == heap[k].payload <= MAX_SIZE
    ensures forall k :: 0 <= k < |heap| - 1 ==> heap[k].payload == (CLUSTER_SIZE - CLUSTER_HEADER) / HEAP_BLOCK
    ensures heap == [] <==> heapSize <= CLUSTER_HEADER
    ensures heap != [] ==> heap[|heap| - 1].payload == (last - CLUSTER_HEADER) / HEAP_BLOCK
    ensures heap != [] ==> CLUSTER_HEADER < last <= CLUSTER_SIZE && left <= CLUSTER_HEADER && (last == CLUSTER_SIZE || left == 0)
    ensures heap != [] ==> heapSize == Whole(|heap| - 1) + last + left
  {
    hide Whole, Tiled, NoAdjacentFree, Represents, Chain;
    WholeNext(0);
    heap, last := [], 0;
    var heapFree, i, blockSize := heapSize, 0, 1;
    while heapFree > CLUSTER_HEADER
      invariant forall k :: 0 <= k < |heap| ==> heap[k].Valid() && Size(heap[k].layout) == heap[k].payload
      invariant forall k :: 0 <= k < |heap| - 1 ==> heap[k].payload == (CLUSTER_SIZE - CLUSTER_HEADER) / HEAP_BLOCK
      invariant blockSize > 0 && heapFree >= 0 && (heap == [] ==> heapFree == heapSize) && (heap != [] ==> heapSize > CLUSTER_HEADER)
      invariant heap != [] ==> heap[|heap| - 1].payload == (last - CLUSTER_HEADER) / HEAP_BLOCK
      invariant heap != [] ==> CLUSTER_HEADER < last <= CLUSTER_SIZE && (last == CLUSTER_SIZE || heapFree == 0)
      invariant heap != [] ==> heapSize == Whole(|heap| - 1) + last + heapFree
    {
      var size := if heapFree < CLUSTER_SIZE then heapFree else CLUSTER_SIZE;
      if i > 100 * 1024 * 1024 { blockSize := MAX_SIZE; }
      else if i > 10 * 1024 * 1024 { blockSize := 10 * 1024; }
      else if i > 1024 * 1024 { blockSize := 1024; }
      var hc := new HeapCluster((size - CLUSTER_HEADER) / HEAP_BLOCK, blockSize);
      WholeNext(|heap|);
      assert forall k :: 0 <= k < |heap| ==> heap[k].payload == (CLUSTER_SIZE - CLUSTER_HEADER) / HEAP_BLOCK by {
        if heap != [] { assert last == CLUSTER_SIZE; }
      }
      heap, last := heap + [hc], size;
      heapFree := heapFree - size;
      i := i + size;
    }
    left := heapFree;
  }
}
