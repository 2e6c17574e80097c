/** A stretch of heap as the sequence of its blocks; a block's address follows from the sizes before it. */
module HeapLayout {

  /** A block: `data` stands for its type and its plain contents, `refs` are the references it holds. */
  datatype Block = Block(free: bool, alive: bool, event: bool, pinned: bool, size: nat, data: int, refs: seq<int>)

  const MAX_SIZE := 0xFFFF

  /** A free block is pinned, so that compaction leaves it alone. */
  function FreeBlock(size: nat): Block {
    Block(true, false, false, true, size, 0, [])
  }

  predicate IsFree(b: Block) {
    b == FreeBlock(b.size)
  }

  predicate Unmovable(b: Block) {
    b.pinned || b.event
  }

  /** The address of block `i`, counted from the start of the payload. */
  function At(l: seq<Block>, i: nat): nat
    requires i <= |l|
  {
    if i == 0 then 0 else At(l, i - 1) + l[i - 1].size
  }

  function Size(l: seq<Block>): nat {
    At(l, |l|)
  }

  /** Blocks of positive size, each either in use or a proper free block. */
  ghost predicate Tiled(l: seq<Block>) {
    Sized(l) && forall i :: 0 <= i < |l| && l[i].free ==> IsFree(l[i])
  }

  ghost predicate Sized(l: seq<Block>) {
    forall i :: 0 <= i < |l| ==> l[i].size > 0
  }

  ghost predicate NoAdjacentFree(l: seq<Block>) {
    forall i :: 0 <= i < |l| - 1 ==> !(l[i].free && l[i + 1].free)
  }

  function FreeSize(l: seq<Block>): nat {
    if l == [] then 0 else FreeSize(l[..|l| - 1]) + if l[|l| - 1].free then l[|l| - 1].size else 0
  }

  /** The addresses of the free blocks, in order. */
  function FreeAt(l: seq<Block>): seq<nat> {
    if l == [] then [] else FreeAt(l[..|l| - 1]) + if l[|l| - 1].free then [At(l, |l| - 1)] else []
  }

  // ---------- Addresses ----------

  lemma AtNext(l: seq<Block>, i: nat)
    requires i < |l|
    ensures At(l, i + 1) == At(l, i) + l[i].size
  {
  }

  lemma {:induction false} AtPrefix(l: seq<Block>, k: nat, i: nat)
    requires i <= k <= |l|
    ensures At(l[..k], i) == At(l, i)
  {
    if i > 0 { AtPrefix(l, k, i - 1); }
  }

  lemma {:induction false} AtConcat(l: seq<Block>, m: seq<Block>, i: nat)
    requires i <= |m|
    ensures At(l + m, |l| + i) == Size(l) + At(m, i)
  {
    if i == 0 { AtPrefix(l + m, |l|, |l|); assert (l + m)[..|l|] == l; }
    else { AtConcat(l, m, i - 1); assert (l + m)[|l| + i - 1] == m[i - 1]; }
  }

  lemma AtFront(l: seq<Block>, m: seq<Block>, i: nat)
    requires i <= |l|
    ensures At(l + m, i) == At(l, i)
  {
    AtPrefix(l + m, |l|, i);
    assert (l + m)[..|l|] == l;
  }

  lemma SizeConcat(l: seq<Block>, m: seq<Block>)
    ensures Size(l + m) == Size(l) + Size(m)
  {
    AtConcat(l, m, |m|);
  }

  lemma {:induction false} AtGrows(l: seq<Block>, i: nat, j: nat)
    requires Sized(l) && i <= j <= |l|
    ensures At(l, i) + (j - i) <= At(l, j)
  {
    if i < j { AtGrows(l, i, j - 1); }
  }

  /** Different blocks have different addresses, in the same order. */
  lemma AtOrder(l: seq<Block>, i: nat, j: nat)
    requires Sized(l) && i <= |l| && j <= |l|
    ensures i < j <==> At(l, i) < At(l, j)
    ensures i == j <==> At(l, i) == At(l, j)
  {
    if i < j { AtGrows(l, i, j); } else { AtGrows(l, j, i); }
  }

  lemma SizeOne(b: Block)
    ensures Size([b]) == At([b], 1) == b.size
  {
  }

  // ---------- Free blocks ----------

  lemma {:induction false} FreeSizeConcat(l: seq<Block>, m: seq<Block>)
    ensures FreeSize(l + m) == FreeSize(l) + FreeSize(m)
  {
    if m == [] { assert l + m == l; }
    else {
      FreeSizeConcat(l, m[..|m| - 1]);
      assert (l + m)[..|l + m| - 1] == l + m[..|m| - 1];
    }
  }

  /** Addresses moved up by `d`. */
  function Shifted(s: seq<nat>, d: nat): (r: seq<nat>)
    ensures |r| == |s|
  {
    seq(|s|, i requires 0 <= i < |s| => s[i] + d)
  }

  lemma {:induction false} FreeAtConcat(l: seq<Block>, m: seq<Block>)
    ensures FreeAt(l + m) == FreeAt(l) + Shifted(FreeAt(m), Size(l))
  {
    hide At;
    if m == [] { assert l + m == l; }
    else {
      FreeAtConcat(l, m[..|m| - 1]);
      assert (l + m)[..|l + m| - 1] == l + m[..|m| - 1];
      AtConcat(l, m, |m| - 1);
      var a, b := FreeAt(m[..|m| - 1]), if m[|m| - 1].free then [At(m, |m| - 1)] else [];
      assert Shifted(a + b, Size(l)) == Shifted(a, Size(l)) + Shifted(b, Size(l));
    }
  }

  /** A free address is the address of a free block. */
  lemma {:induction false} FreeIndex(l: seq<Block>, k: nat) returns (i: nat)
    requires k < |FreeAt(l)|
    ensures i < |l| && l[i].free && At(l, i) == FreeAt(l)[k]
  {
    var n := |l| - 1;
    if k < |FreeAt(l[..n])| {
      i := FreeIndex(l[..n], k);
      AtPrefix(l, n, i);
    } else {
      i := n;
    }
  }

  /** The list of free addresses, split at free block `i`. */
  lemma FreeSplit(l: seq<Block>, i: nat)
    requires i < |l| && l[i].free
    ensures FreeAt(l) == FreeAt(l[..i]) + [At(l, i)] + Shifted(FreeAt(l[i + 1..]), At(l, i + 1))
    ensures |FreeAt(l[..i])| < |FreeAt(l)| && FreeAt(l)[|FreeAt(l[..i])|] == At(l, i)
  {
    assert l == l[..i + 1] + l[i + 1..];
    FreeAtConcat(l[..i + 1], l[i + 1..]);
    AtPrefix(l, i + 1, i + 1);
    AtPrefix(l, i + 1, i);
    assert l[..i + 1][..i] == l[..i];
  }

  lemma {:induction false} FreeAtBelow(l: seq<Block>, k: nat)
    requires Sized(l) && k < |FreeAt(l)|
    ensures FreeAt(l)[k] < Size(l)
    ensures forall j :: 0 <= j < k ==> FreeAt(l)[j] < FreeAt(l)[k]
  {
    var n := |l| - 1;
    var front := FreeAt(l[..n]);
    AtPrefix(l, n, n);
    forall j | 0 <= j < |front| ensures front[j] < At(l, n) && (forall i :: 0 <= i < j ==> front[i] < front[j]) {
      FreeAtBelow(l[..n], j);
    }
  }

  // ---------- Allocation ----------

  predicate Fits(l: seq<Block>, i: nat, length: nat)
    requires i < |l|
  {
    l[i].free && l[i].size >= length
  }

  /** Free block `i` gives its front, or for an event its back, to block `b`. */
  function Allocated(l: seq<Block>, i: nat, b: Block): seq<Block>
    requires i < |l| && Fits(l, i, b.size)
  {
    var rest := l[i].size - b.size;
    l[..i] + (if rest == 0 then [b] else if b.event then [FreeBlock(rest), b] else [b, FreeBlock(rest)]) + l[i + 1..]
  }

  /** Where the new block comes to lie. */
  function AllocatedAt(l: seq<Block>, i: nat, b: Block): nat
    requires i < |l| && Fits(l, i, b.size)
  {
    At(l, i) + if b.event then l[i].size - b.size else 0
  }

  /** Replacing blocks `i..k` by others of the same total size moves nothing else. */
  lemma Replaced(l: seq<Block>, i: nat, k: nat, m: seq<Block>, j: nat)
    requires i <= k <= |l| && At(l, k) - At(l, i) == Size(m)
    ensures Size(l[..i] + m + l[k..]) == Size(l)
    ensures j <= i ==> At(l[..i] + m + l[k..], j) == At(l, j)
    ensures j <= |m| ==> At(l[..i] + m + l[k..], i + j) == At(l, i) + At(m, j)
    ensures k <= j <= |l| ==> At(l[..i] + m + l[k..], i + |m| + (j - k)) == At(l, j)
  {
    hide At;
    AtPrefix(l, i, i);
    SizeConcat(l[..i], m);
    SizeConcat(l[..i] + m, l[k..]);
    AtSuffix(l, k, |l| - k);
    if j <= i {
      AtFront(l[..i] + m, l[k..], j);
      AtFront(l[..i], m, j);
      AtPrefix(l, i, j);
    }
    if j <= |m| {
      AtFront(l[..i] + m, l[k..], i + j);
      AtConcat(l[..i], m, j);
    }
    if k <= j <= |l| {
      AtConcat(l[..i] + m, l[k..], j - k);
      AtSuffix(l, k, j - k);
    }
  }

  // ---------- Ordered insertion with coalescing ----------

  function Low(l: seq<Block>, i: nat): (lo: nat)
    requires i <= |l|
    ensures lo <= i <= lo + 1
  {
    if i > 0 && l[i - 1].free then i - 1 else i
  }

  function High(l: seq<Block>, k: nat): (hi: nat)
    requires k <= |l|
    ensures k <= hi <= |l| && hi <= k + 1
  {
    if k < |l| && l[k].free then k + 1 else k
  }

  /** Blocks `i..k` become free and join the free blocks next to them. */
  function Inserted(l: seq<Block>, i: nat, k: nat): seq<Block>
    requires i <= k <= |l| && At(l, i) <= At(l, k)
    requires At(l, Low(l, i)) <= At(l, High(l, k))
  {
    l[..Low(l, i)] + [FreeBlock(At(l, High(l, k)) - At(l, Low(l, i)))] + l[High(l, k)..]
  }

  lemma InsertedOk(l: seq<Block>, i: nat, k: nat)
    requires Tiled(l) && i < k <= |l| && (forall j :: 0 <= j < i - 1 || k <= j < |l| - 1 ==> !(l[j].free && l[j + 1].free))
    ensures At(l, i) < At(l, k) && At(l, Low(l, i)) < At(l, High(l, k))
    ensures Tiled(Inserted(l, i, k)) && NoAdjacentFree(Inserted(l, i, k)) && Size(Inserted(l, i, k)) == Size(l)
  {
    hide At;
    AtGrows(l, i, k);
    AtGrows(l, Low(l, i), High(l, k));
    var lo, hi := Low(l, i), High(l, k);
    var m := [FreeBlock(At(l, hi) - At(l, lo))];
    SizeOne(m[0]);
    Replaced(l, lo, hi, m, 0);
    InsertedApart(l, i, k);
  }

  lemma InsertedApart(l: seq<Block>, i: nat, k: nat)
    requires i < k <= |l| && (forall j :: 0 <= j < i - 1 || k <= j < |l| - 1 ==> !(l[j].free && l[j + 1].free))
    requires At(l, i) <= At(l, k) && At(l, Low(l, i)) <= At(l, High(l, k))
    ensures NoAdjacentFree(Inserted(l, i, k))
  {
    hide At;
    var lo, hi, s := Low(l, i), High(l, k), Inserted(l, i, k);
    forall j | 0 <= j < |s| - 1 ensures !(s[j].free && s[j + 1].free) {
      if j + 1 < lo { assert s[j] == l[j] && s[j + 1] == l[j + 1]; }
      if j > lo { assert s[j] == l[j - lo - 1 + hi] && s[j + 1] == l[j - lo + hi]; }
    }
  }

  lemma FreeSizeTo(l: seq<Block>, a: nat, b: nat)
    requires a <= b <= |l|
    ensures FreeSize(l[..b]) == FreeSize(l[..a]) + FreeSize(l[a..b])
  {
    assert l[..b] == l[..a] + l[a..b];
    FreeSizeConcat(l[..a], l[a..b]);
  }

  lemma FreeSizeOne(b: Block)
    ensures FreeSize([b]) == if b.free then b.size else 0
  {
    assert [b][..0] == [];
  }

  /** The free neighbours that join. */
  lemma NeighboursFree(l: seq<Block>, i: nat, k: nat)
    requires i <= k <= |l|
    ensures FreeSize(l[Low(l, i)..i]) == At(l, i) - At(l, Low(l, i))
    ensures FreeSize(l[k..High(l, k)]) == At(l, High(l, k)) - At(l, k)
  {
    var lo, hi := Low(l, i), High(l, k);
    if lo < i { assert l[lo..i] == [l[lo]]; FreeSizeOne(l[lo]); } else { assert l[lo..i] == []; }
    if k < hi { assert l[k..hi] == [l[k]]; FreeSizeOne(l[k]); } else { assert l[k..hi] == []; }
  }

  /** What becomes free is what was inserted. */
  lemma InsertedFrees(l: seq<Block>, i: nat, k: nat)
    requires i < k <= |l| && At(l, i) <= At(l, k) && At(l, Low(l, i)) <= At(l, High(l, k))
    requires forall j :: i <= j < k ==> !l[j].free
    ensures FreeSize(Inserted(l, i, k)) == FreeSize(l) + At(l, k) - At(l, i)
  {
    hide FreeSize, At, Low, High;
    var lo, hi := Low(l, i), High(l, k);
    var m := [FreeBlock(At(l, hi) - At(l, lo))];
    NeighboursFree(l, i, k);
    NoFree(l[i..k]);
    FreeSizeOne(m[0]);
    FreeSizeTo(l, lo, i);
    FreeSizeTo(l, i, k);
    FreeSizeTo(l, k, hi);
    FreeSizeTo(l, hi, |l|);
    assert l[..|l|] == l;
    FreeSizeConcat(l[..lo] + m, l[hi..]);
    FreeSizeConcat(l[..lo], m);
  }

  lemma {:induction false} NoFree(l: seq<Block>)
    requires forall j :: 0 <= j < |l| ==> !l[j].free
    ensures FreeSize(l) == 0 && FreeAt(l) == []
  {
    if l != [] { NoFree(l[..|l| - 1]); }
  }

  // ---------- Sweeping ----------

  /** How many blocks at the front are dead. */
  function DeadRun(l: seq<Block>): (k: nat)
    ensures k <= |l| && (forall i :: 0 <= i < k ==> !l[i].alive) && (k < |l| ==> l[k].alive)
  {
    if l == [] || l[0].alive then 0 else 1 + DeadRun(l[1..])
  }

  /** Events stay alive by their own flag; other survivors lose the mark. */
  function Survivor(b: Block): Block {
    if b.event then b else b.(alive := false)
  }

  /** A block and what it is after the sweep: alive exactly if it is an event, and otherwise the same. */
  ghost predicate Survives(was: Block, now: Block) {
    && now.free == was.free && now.event == was.event && now.pinned == was.pinned && now.size == was.size
    && now.data == was.data && now.refs == was.refs && (now.alive <==> was.event)
  }

  /** Each maximal run of dead blocks becomes one free block. */
  function Swept(l: seq<Block>): seq<Block>
    decreases |l|
  {
    if l == [] then []
    else if l[0].alive then [Survivor(l[0])] + Swept(l[1..])
    else [FreeBlock(At(l, DeadRun(l)))] + Swept(l[DeadRun(l)..])
  }

  /** The first step of `Swept`: how many blocks it takes. */
  function Taken(l: seq<Block>): (k: nat)
    requires l != []
    ensures 1 <= k <= |l|
  {
    if l[0].alive then 1 else DeadRun(l)
  }

  lemma AtSuffix(l: seq<Block>, k: nat, i: nat)
    requires k + i <= |l|
    ensures At(l, k + i) == At(l, k) + At(l[k..], i)
  {
    assert l == l[..k] + l[k..];
    AtConcat(l[..k], l[k..], i);
    AtPrefix(l, k, k);
  }

  /** What the first step of `Swept` makes. */
  function First(l: seq<Block>): Block
    requires l != []
  {
    if l[0].alive then Survivor(l[0]) else FreeBlock(At(l, DeadRun(l)))
  }

  lemma SweptStep(l: seq<Block>)
    requires l != []
    ensures Swept(l) == [First(l)] + Swept(l[Taken(l)..]) && First(l).size == At(l, Taken(l))
    ensures forall j :: 0 <= j <= |Swept(l[Taken(l)..])| ==>
              At(Swept(l), j + 1) == At(l, Taken(l)) + At(Swept(l[Taken(l)..]), j)
  {
    var s := Swept(l[Taken(l)..]);
    assert At(l, 1) == l[0].size;
    SizeOne(First(l));
    forall j | 0 <= j <= |s| ensures At([First(l)] + s, j + 1) == At(l, Taken(l)) + At(s, j) {
      AtConcat([First(l)], s, j);
    }
  }

  lemma {:induction false} SweptSize(l: seq<Block>)
    ensures Size(Swept(l)) == Size(l)
    decreases |l|
  {
    if l != [] {
      SweptStep(l);
      SweptSize(l[Taken(l)..]);
      AtSuffix(l, Taken(l), |l| - Taken(l));
    }
  }

  /** Blocks `a..b` became one block of the swept heap: a survivor in its old place, or a maximal run of dead
      blocks that is now free. */
  ghost predicate Became(l: seq<Block>, a: nat, b: nat, s: seq<Block>, j: nat)
    requires a < b <= |l| && j < |s|
  {
    && At(s, j) == At(l, a) && At(s, j + 1) == At(l, b)
    && if l[a].alive then b == a + 1 && s[j] == Survivor(l[a])
       else
         && s[j] == FreeBlock(At(l, b) - At(l, a)) && (forall i :: a <= i < b ==> !l[i].alive)
         && (a == 0 || l[a - 1].alive) && (b == |l| || l[b].alive)
  }

  lemma SweptLength(l: seq<Block>)
    ensures if l == [] then Swept(l) == [] else |Swept(l)| == 1 + |Swept(l[Taken(l)..])|
  {
  }

  lemma {:induction false} SweptBlock(l: seq<Block>, j: nat) returns (a: nat, b: nat)
    requires j < |Swept(l)|
    ensures a < b <= |l| && Became(l, a, b, Swept(l), j) && (j == 0 <==> a == 0)
    decreases |l|
  {
    hide Swept, First, At, Became, DeadRun, Taken;
    SweptLength(l);
    if j == 0 {
      a, b := 0, Taken(l);
      FirstBecame(l);
    } else {
      var a', b' := SweptBlock(l[Taken(l)..], j - 1);
      a, b := Taken(l) + a', Taken(l) + b';
      BecameLater(l, Taken(l), a', b', j - 1);
    }
  }

  lemma FirstBecame(l: seq<Block>)
    requires l != []
    ensures Swept(l) != [] && Became(l, 0, Taken(l), Swept(l), 0)
  {
    SweptStep(l);
    assert At(Swept(l), 0 + 1) == At(l, Taken(l)) + At(Swept(l[Taken(l)..]), 0);
  }

  lemma BecameLater(l: seq<Block>, k: nat, a: nat, b: nat, j: nat)
    requires l != [] && k == Taken(l) && a < b <= |l| - k && j < |Swept(l[k..])| && Became(l[k..], a, b, Swept(l[k..]), j)
    requires j == 0 <==> a == 0
    ensures j + 1 < |Swept(l)| && Became(l, k + a, k + b, Swept(l), j + 1)
  {
    hide Swept, First, At;
    SweptStep(l);
    AtSuffix(l, k, a);
    AtSuffix(l, k, b);
    var i := j + 1;
    assert At(Swept(l), i) == At(l, k) + At(Swept(l[k..]), j) && At(Swept(l), i + 1) == At(l, k) + At(Swept(l[k..]), i);
    assert Swept(l)[i] == Swept(l[k..])[j] && l[k..][a] == l[k + a];
    if !l[k + a].alive {
      forall e | k + a <= e < k + b ensures !l[e].alive { assert l[k..][e - k] == l[e]; }
      if a > 0 { assert l[k..][a - 1] == l[k + a - 1]; }
      if b < |l| - k { assert l[k..][b] == l[k + b]; }
    }
  }

  /** Every block that is alive survives where it is. */
  lemma {:induction false} SweptKeeps(l: seq<Block>, i: nat) returns (j: nat)
    requires i < |l| && l[i].alive
    ensures j < |Swept(l)| && Survives(l[i], Swept(l)[j]) && At(Swept(l), j) == At(l, i)
    decreases |l|
  {
    var k := Taken(l);
    SweptStep(l);
    hide Swept;
    if i < k {
      j := 0;
    } else {
      var j' := SweptKeeps(l[k..], i - k);
      j := 1 + j';
      AtSuffix(l, k, i - k);
      assert At(Swept(l), j' + 1) == At(l, k) + At(Swept(l[k..]), j');
    }
  }

  /** Every block after the sweep is a survivor in its old place, or free where all blocks were dead. */
  lemma SweptFrom(l: seq<Block>, j: nat)
    requires j < |Swept(l)|
    ensures if Swept(l)[j].alive || !Swept(l)[j].free then exists i: nat :: i < |l| && l[i].alive && At(l, i) == At(Swept(l), j) && Survives(l[i], Swept(l)[j])
            else forall i: nat :: i < |l| && At(Swept(l), j) <= At(l, i) < At(Swept(l), j + 1) && Sized(l) ==> !l[i].alive || l[i].free
  {
    hide Swept, At, DeadRun;
    var a, b := SweptBlock(l, j);
    forall i: nat | i < |l| && At(Swept(l), j) <= At(l, i) < At(Swept(l), j + 1) && Sized(l) ensures a <= i < b {
      if i < a { AtOrder(l, i, a); }
      if i >= b { AtOrder(l, b, i); }
    }
  }

  /** The sweep, block by block: what was alive is there as before, alive exactly if it is an event; and nothing else is
      in use. */
  ghost predicate SweepsTo(was: seq<Block>, now: seq<Block>) {
    && (forall i: nat :: i < |was| && was[i].alive ==> exists j: nat :: j < |now| && At(now, j) == At(was, i) && Survives(was[i], now[j]))
    && (forall j: nat :: j < |now| && !now[j].free ==> exists i: nat :: i < |was| && was[i].alive && At(was, i) == At(now, j) && Survives(was[i], now[j]))
    && (forall j: nat :: j < |now| && now[j].alive ==> now[j].event && !now[j].free)
  }

  lemma SweepMeans(l: seq<Block>)
    requires Sized(l) && forall i :: 0 <= i < |l| && l[i].alive ==> !l[i].free
    ensures SweepsTo(l, Swept(l))
  {
    hide Swept, At, Survives;
    forall i: nat | i < |l| && l[i].alive
      ensures exists j: nat :: j < |Swept(l)| && At(Swept(l), j) == At(l, i) && Survives(l[i], Swept(l)[j])
    {
      var j := SweptKeeps(l, i);
    }
    forall j: nat | j < |Swept(l)| && (Swept(l)[j].alive || !Swept(l)[j].free)
      ensures exists i: nat :: i < |l| && l[i].alive && At(l, i) == At(Swept(l), j) && Survives(l[i], Swept(l)[j])
      ensures Swept(l)[j].alive ==> Swept(l)[j].event && !Swept(l)[j].free
    {
      SweptFrom(l, j);
      var i: nat :| i < |l| && l[i].alive && At(l, i) == At(Swept(l), j) && Survives(l[i], Swept(l)[j]);
      SurvivesAlive(l[i], Swept(l)[j]);
    }
  }

  lemma SurvivesAlive(was: Block, now: Block)
    requires Survives(was, now)
    ensures now.alive ==> now.event && now.free == was.free
  {
  }

  /** Sweeping leaves proper blocks, and free ones never side by side. */
  lemma {:induction false} SweptOk(l: seq<Block>)
    requires Sized(l) && forall i :: 0 <= i < |l| && l[i].alive ==> !l[i].free
    ensures Tiled(Swept(l)) && NoAdjacentFree(Swept(l)) && (l != [] ==> Swept(l) != [] && Swept(l)[0].free == !l[0].alive)
    decreases |l|
  {
    if l != [] {
      var k := Taken(l);
      SweptOk(l[k..]);
      AtGrows(l, 0, k);
      var s := Swept(l);
      assert s == [s[0]] + Swept(l[k..]);
      assert k < |l| && !l[0].alive ==> l[k..][0].alive;
      forall i | 0 <= i < |s| ensures s[i].size > 0 && (s[i].free ==> IsFree(s[i])) {
        if i > 0 { assert s[i] == Swept(l[k..])[i - 1]; }
      }
      forall i | 0 <= i < |s| - 1 ensures !(s[i].free && s[i + 1].free) {
        assert s[i + 1] == Swept(l[k..])[i];
        if i > 0 { assert s[i] == Swept(l[k..])[i - 1]; }
      }
    }
  }

  /** The blocks that take the place of free block `i`. */
  function Carved(l: seq<Block>, i: nat, b: Block): seq<Block>
    requires i < |l| && Fits(l, i, b.size)
  {
    var rest := l[i].size - b.size;
    if rest == 0 then [b] else if b.event then [FreeBlock(rest), b] else [b, FreeBlock(rest)]
  }

  lemma CarvedOk(l: seq<Block>, i: nat, b: Block)
    requires i < |l| && Fits(l, i, b.size) && b.size > 0 && !b.free
    ensures Allocated(l, i, b) == l[..i] + Carved(l, i, b) + l[i + 1..] && Tiled(Carved(l, i, b))
    ensures Size(Carved(l, i, b)) == l[i].size == At(l, i + 1) - At(l, i) && FreeSize(Carved(l, i, b)) == l[i].size - b.size
  {
    hide At, FreeSize;
    var rest := l[i].size - b.size;
    FreeAtFew(b, FreeBlock(rest));
    FreeAtFew(FreeBlock(rest), b);
    FreeSizeOne(b);
    FreeSizeOne(FreeBlock(rest));
    FreeSizeConcat([FreeBlock(rest)], [b]);
    FreeSizeConcat([b], [FreeBlock(rest)]);
    assert [FreeBlock(rest)] + [b] == [FreeBlock(rest), b] && [b] + [FreeBlock(rest)] == [b, FreeBlock(rest)];
    AtNext(l, i);
  }

  lemma AllocatedOk(l: seq<Block>, i: nat, b: Block)
    requires Tiled(l) && NoAdjacentFree(l) && i < |l| && Fits(l, i, b.size) && b.size > 0 && !b.free
    ensures Tiled(Allocated(l, i, b)) && NoAdjacentFree(Allocated(l, i, b)) && Size(Allocated(l, i, b)) == Size(l)
  {
    hide At;
    CarvedOk(l, i, b);
    Replaced(l, i, i + 1, Carved(l, i, b), 0);
    AllocatedApart(l, i, b);
  }

  lemma AllocatedApart(l: seq<Block>, i: nat, b: Block)
    requires NoAdjacentFree(l) && i < |l| && Fits(l, i, b.size) && b.size > 0 && !b.free
    ensures NoAdjacentFree(Allocated(l, i, b))
  {
    hide At;
    var m, t := Carved(l, i, b), Allocated(l, i, b);
    assert t == l[..i] + m + l[i + 1..];
    forall j | 0 <= j < |t| - 1 ensures !(t[j].free && t[j + 1].free) {
      if j + 1 < i { assert t[j] == l[j] && t[j + 1] == l[j + 1]; }
      else if j >= i + |m| { assert t[j] == l[j - |m| + 1] && t[j + 1] == l[j - |m| + 2]; }
      else if j + 1 == i { assert t[j] == l[i - 1]; }
      else if j == i + |m| - 1 { assert t[j + 1] == l[i + 1]; }
    }
  }

  /** The new block is in the heap, where it was said to be, and takes away its size from what is free. */
  lemma AllocatedBlock(l: seq<Block>, i: nat, b: Block) returns (j: nat)
    requires i < |l| && Fits(l, i, b.size) && !b.free && b.size > 0
    ensures j < |Allocated(l, i, b)| && Allocated(l, i, b)[j] == b && At(Allocated(l, i, b), j) == AllocatedAt(l, i, b)
    ensures FreeSize(Allocated(l, i, b)) == FreeSize(l) - b.size
  {
    hide At, FreeSize;
    var m := Carved(l, i, b);
    var j' := if l[i].size > b.size && b.event then 1 else 0;
    CarvedOk(l, i, b);
    CarvedAt(l, i, b);
    j := i + j';
    Replaced(l, i, i + 1, m, j');
    FreeSizeConcat(l[..i] + m, l[i + 1..]);
    FreeSizeConcat(l[..i], m);
    FreeSizeTo(l, i, i + 1);
    FreeSizeTo(l, i + 1, |l|);
    FreeSizeOne(l[i]);
    assert l[i..i + 1] == [l[i]] && l[..|l|] == l;
  }

  /** The blocks before block `i` are the same and in the same place. */
  ghost predicate SameFront(was: seq<Block>, now: seq<Block>, i: nat) {
    i <= |was| && i <= |now| && forall j :: 0 <= j < i ==> now[j] == was[j] && At(now, j) == At(was, j)
  }

  /** So are the blocks from `i` on, which are `d` further on in the sequence. */
  ghost predicate SameBack(was: seq<Block>, now: seq<Block>, i: nat, d: nat) {
    |now| == |was| + d && forall j :: i <= j < |was| ==> now[j + d] == was[j] && At(now, j + d) == At(was, j)
  }

  /** What an allocation in block `i` does, block by block: the new block lies at its front, or at its back if it is an
      event; what remains of the block stays free, and every other block stays where it was. */
  ghost predicate AllocatesTo(was: seq<Block>, now: seq<Block>, i: nat, b: Block, at: int) {
    && i < |was| && was[i].free && was[i].size >= b.size
    && var rest := was[i].size - b.size; var more := if rest > 0 then 1 else 0;
    && |now| == |was| + more
    && SameFront(was, now, i) && SameBack(was, now, i + 1, more)
    && at == At(was, i) + (if b.event then rest else 0)
    && (var k := if b.event then i + more else i; now[k] == b && At(now, k) == at)
    && (rest > 0 ==> var m := if b.event then i else i + 1;
          now[m].free && now[m].size == rest && At(now, m) == At(was, i) + if b.event then 0 else b.size)
  }

  lemma AllocatedMeans(l: seq<Block>, i: nat, b: Block)
    requires i < |l| && Fits(l, i, b.size) && b.size > 0 && !b.free
    ensures AllocatesTo(l, Allocated(l, i, b), i, b, AllocatedAt(l, i, b))
  {
    hide At, Allocated, Carved, SameFront, SameBack;
    AllocatedHere(l, i, b);
    AllocatedSame(l, i, b);
    AllocatedOther(l, i, b, i);
  }

  lemma AllocatedSame(l: seq<Block>, i: nat, b: Block)
    requires i < |l| && Fits(l, i, b.size) && b.size > 0 && !b.free
    ensures SameFront(l, Allocated(l, i, b), i) && SameBack(l, Allocated(l, i, b), i + 1, if l[i].size > b.size then 1 else 0)
  {
    hide At, Allocated, Carved, FreeBlock;
    AllocatedHere(l, i, b);
    var more, t := if l[i].size > b.size then 1 else 0, Allocated(l, i, b);
    forall j | 0 <= j < i ensures t[j] == l[j] && At(t, j) == At(l, j) { AllocatedOther(l, i, b, j); }
    assert SameFront(l, t, i);
    hide SameFront;
    forall j | i + 1 <= j < |l| ensures t[j + more] == l[j] && At(t, j + more) == At(l, j) { AllocatedOther(l, i, b, j); }
  }

  /** The one or two blocks in place of block `i`. */
  lemma AllocatedHere(l: seq<Block>, i: nat, b: Block)
    requires i < |l| && Fits(l, i, b.size) && b.size > 0 && !b.free
    ensures var t, m, rest := Allocated(l, i, b), Carved(l, i, b), l[i].size - b.size;
            && |m| == (if rest > 0 then 2 else 1) && |t| == |l| + |m| - 1 && At(m, 0) == 0
            && (|m| > 1 ==> At(m, 1) == m[0].size)
            && (forall k :: 0 <= k < |m| ==> t[i + k] == m[k])
            && m[if rest > 0 && b.event then 1 else 0] == b
            && (rest > 0 ==> m[if b.event then 0 else 1] == FreeBlock(rest))
  {
    hide At;
    CarvedFirst(Carved(l, i, b));
  }

  lemma AllocatedOther(l: seq<Block>, i: nat, b: Block, j: nat)
    requires i < |l| && Fits(l, i, b.size) && b.size > 0 && !b.free && j < |l|
    ensures var m, t := Carved(l, i, b), Allocated(l, i, b);
            && |t| == |l| + |m| - 1 && (j < i ==> t[j] == l[j] && At(t, j) == At(l, j))
            && (j > i ==> t[j + (|m| - 1)] == l[j] && At(t, j + (|m| - 1)) == At(l, j))
            && (j == i ==> At(t, i) == At(l, i) && (|m| > 1 ==> At(t, i + 1) == At(l, i) + At(m, 1)))
  {
    hide At, Carved;
    var m := Carved(l, i, b);
    CarvedOk(l, i, b);
    hide Allocated;
    Replaced(l, i, i + 1, m, j);
    if j == i && |m| > 1 { Replaced(l, i, i + 1, m, 1); }
  }

  lemma CarvedFirst(m: seq<Block>)
    requires m != []
    ensures At(m, 0) == 0 && At(m, 1) == m[0].size
  {
  }

  lemma CarvedAt(l: seq<Block>, i: nat, b: Block)
    requires i < |l| && Fits(l, i, b.size)
    ensures var m := Carved(l, i, b); var j := if l[i].size > b.size && b.event then 1 else 0;
            j < |m| && m[j] == b && At(m, j) == if b.event then l[i].size - b.size else 0
  {
  }

  lemma FreeIncreasing(l: seq<Block>)
    requires Sized(l)
    ensures forall i :: 0 <= i < |FreeAt(l)| ==> FreeAt(l)[i] < Size(l)
    ensures forall i, j :: 0 <= i < j < |FreeAt(l)| ==> FreeAt(l)[i] < FreeAt(l)[j]
  {
    forall j | 0 <= j < |FreeAt(l)| ensures FreeAt(l)[j] < Size(l) && forall i :: 0 <= i < j ==> FreeAt(l)[i] < FreeAt(l)[j] {
      FreeAtBelow(l, j);
    }
  }

  lemma {:induction false} DeadRunIs(l: seq<Block>, k: nat)
    requires k <= |l| && (forall i :: 0 <= i < k ==> !l[i].alive) && (k < |l| ==> l[k].alive)
    ensures DeadRun(l) == k
  {
    if k > 0 { DeadRunIs(l[1..], k - 1); }
  }

  /** The blocks from `a` on are still to be swept, and `done` is what became of those before. */
  ghost predicate Sweeping(l: seq<Block>, a: nat, done: seq<Block>) {
    a <= |l| && Swept(l) == done + Swept(l[a..]) && Size(done) == At(l, a)
  }

  lemma SweepStart(l: seq<Block>)
    ensures Sweeping(l, 0, []) && FreeAt([]) == []
  {
    assert l[0..] == l;
  }

  /** One block more of the swept heap, out of blocks `a..b`. */
  lemma SweepOne(l: seq<Block>, a: nat, b: nat, done: seq<Block>)
    requires Sweeping(l, a, done) && a < b <= |l|
    requires if l[a].alive then b == a + 1 else (forall i :: a <= i < b ==> !l[i].alive) && (b < |l| ==> l[b].alive)
    ensures At(l, a) <= At(l, b)
    ensures var n := if l[a].alive then Survivor(l[a]) else FreeBlock(At(l, b) - At(l, a));
            Sweeping(l, b, done + [n])
  {
    hide Swept, At, DeadRun;
    var r := l[a..];
    if !l[a].alive { DeadRunIs(r, b - a); }
    SweptStep(r);
    assert r[b - a..] == l[b..];
    AtSuffix(l, a, b - a);
    AtNext(l, a);
    SizeConcat(done, [First(r)]);
    SizeOne(First(r));
    assert done + ([First(r)] + Swept(l[b..])) == done + [First(r)] + Swept(l[b..]);
  }

  lemma FreeAtMore(l: seq<Block>, b: Block)
    ensures FreeAt(l + [b]) == FreeAt(l) + if b.free then [Size(l)] else []
    ensures forall j :: 0 <= j <= |l| ==> At(l + [b], j) == At(l, j)
  {
    FreeAtLast(l, b);
    hide FreeAt;
    assert (l + [b])[..|l|] == l;
    forall j | 0 <= j <= |l| ensures At(l + [b], j) == At(l, j) { AtPrefix(l + [b], |l|, j); }
  }

  lemma FreeAtLast(l: seq<Block>, b: Block)
    ensures FreeAt(l + [b]) == FreeAt(l) + if b.free then [Size(l)] else []
  {
    assert (l + [b])[..|l|] == l;
    AtPrefix(l + [b], |l|, |l|);
  }

  // ---------- Free addresses after a change ----------

  lemma FreeAtParts(l: seq<Block>, i: nat, k: nat)
    requires i <= k <= |l|
    ensures FreeAt(l) == FreeAt(l[..i]) + Shifted(FreeAt(l[i..k]), At(l, i)) + Shifted(FreeAt(l[k..]), At(l, k))
  {
    hide At, FreeAt;
    assert l == l[..i] + l[i..k] + l[k..] && l[..i] + l[i..k] == l[..k];
    FreeAtConcat(l[..k], l[k..]);
    FreeAtConcat(l[..i], l[i..k]);
    AtPrefix(l, k, k);
    AtPrefix(l, i, i);
  }

  lemma FreeAtReplaced(l: seq<Block>, i: nat, k: nat, m: seq<Block>)
    requires i <= k <= |l| && At(l, k) - At(l, i) == Size(m)
    ensures FreeAt(l[..i] + m + l[k..]) == FreeAt(l[..i]) + Shifted(FreeAt(m), At(l, i)) + Shifted(FreeAt(l[k..]), At(l, k))
  {
    hide At, FreeAt;
    FreeAtConcat(l[..i] + m, l[k..]);
    FreeAtConcat(l[..i], m);
    AtPrefix(l, i, i);
    SizeConcat(l[..i], m);
  }

  lemma FreeAtFew(b: Block, c: Block)
    ensures FreeAt([b]) == if b.free then [0] else []
    ensures FreeAt([b, c]) == (if b.free then [0] else []) + if c.free then [b.size] else []
    ensures Size([b]) == b.size && Size([b, c]) == b.size + c.size
  {
    assert [b, c] == [b] + [c];
    assert [b][..0] == [] && [b, c][..1] == [b];
    assert At([b, c], 1) == At([b], 1) == b.size;
    SizeConcat([b], [c]);
  }

  /** Free block `i`, element `k` of the free list, gives way to blocks `m`. */
  lemma FreeAtOne(l: seq<Block>, i: nat, m: seq<Block>)
    requires i < |l| && l[i].free && Size(m) == l[i].size
    ensures var k, s := |FreeAt(l[..i])|, FreeAt(l);
            && k < |s| && s[k] == At(l, i) && Size(l[..i] + m + l[i + 1..]) == Size(l)
            && FreeAt(l[..i] + m + l[i + 1..]) == s[..k] + Shifted(FreeAt(m), At(l, i)) + s[k + 1..]
  {
    assert At(l, i + 1) == At(l, i) + l[i].size;
    FreeAtFew(l[i], l[i]);
    hide At, FreeAt;
    Replaced(l, i, i + 1, m, 0);
    FreeAtReplaced(l, i, i + 1, m);
    FreeSplit(l, i);
  }

  /** The free list after an allocation from free block `i`, which is its element `k`. */
  lemma AllocatedFree(l: seq<Block>, i: nat, b: Block)
    requires i < |l| && Fits(l, i, b.size) && !b.free
    ensures var k, s := |FreeAt(l[..i])|, FreeAt(l); var rest := l[i].size - b.size;
            k < |s| && s[k] == At(l, i) && Size(Allocated(l, i, b)) == Size(l) &&
            FreeAt(Allocated(l, i, b)) == if rest == 0 then s[..k] + s[k + 1..] else if b.event then s else s[k := At(l, i) + b.size]
  {
    hide At, FreeAt;
    var rest, k, s := l[i].size - b.size, |FreeAt(l[..i])|, FreeAt(l);
    FreeAtFew(b, FreeBlock(rest));
    FreeAtFew(FreeBlock(rest), b);
    if rest == 0 {
      FreeAtOne(l, i, [b]);
      assert s[..k] + [] + s[k + 1..] == s[..k] + s[k + 1..];
    } else if b.event {
      FreeAtOne(l, i, [FreeBlock(rest), b]);
      assert s[..k] + [s[k]] + s[k + 1..] == s;
    } else {
      FreeAtOne(l, i, [b, FreeBlock(rest)]);
      assert s[..k] + [At(l, i) + b.size] + s[k + 1..] == s[k := At(l, i) + b.size];
    }
  }

  // ---------- The free list around an insertion ----------

  /** The free list and where blocks `i..k` come in it: `q` elements lie before them, and their free
      neighbours, if any, are the elements on either side. */
  lemma InsertedList(l: seq<Block>, i: nat, k: nat) returns (q: nat)
    requires i < k <= |l| && (forall j :: i <= j < k ==> !l[j].free) && At(l, i) <= At(l, k) && At(l, Low(l, i)) <= At(l, High(l, k))
    ensures var s, lo, hi := FreeAt(l), Low(l, i), High(l, k);
            && q + (hi - k) <= |s| && i - lo <= q && q == |FreeAt(l[..i])|
            && (lo < i ==> s[q - 1] == At(l, lo)) && (k < hi ==> s[q] == At(l, k))
            && FreeAt(Inserted(l, i, k)) == s[..q - (i - lo)] + [At(l, lo)] + s[q + (hi - k)..]
  {
    hide At, FreeAt, Low, High;
    var s, lo, hi := FreeAt(l), Low(l, i), High(l, k);
    var m := [FreeBlock(At(l, hi) - At(l, lo))];
    q := |FreeAt(l[..i])|;
    FreeAtParts(l, i, k);
    NoFree(l[i..k]);
    assert s == FreeAt(l[..i]) + Shifted(FreeAt(l[k..]), At(l, k));
    LowList(l, i);
    HighList(l, k);
    FreeAtFew(m[0], m[0]);
    FreeAtReplaced(l, lo, hi, m);
    assert Shifted([0], At(l, lo)) == [At(l, lo)];
    hide Shifted, Inserted;
    var a, x, y, b := FreeAt(l[..lo]), if lo < i then [At(l, lo)] else [], if k < hi then [At(l, k)] else [], Shifted(FreeAt(l[hi..]), At(l, hi));
    assert s == a + x + (y + b) && q == |a + x|;
    Around(a, x, y, b);
  }

  /** A list in four parts. */
  lemma Around(a: seq<nat>, x: seq<nat>, y: seq<nat>, b: seq<nat>)
    ensures var s, q := a + x + (y + b), |a + x|;
            s[..q - |x|] == a && s[q + |y|..] == b && s[|a|..q] == x && s[q..q + |y|] == y
  {
  }

  lemma LowList(l: seq<Block>, i: nat)
    requires i <= |l|
    ensures var lo := Low(l, i); FreeAt(l[..i]) == FreeAt(l[..lo]) + if lo < i then [At(l, lo)] else []
  {
    hide At, FreeAt;
    var p := l[..Low(l, i)];
    if Low(l, i) < i {
      assert l[..i] == p + [l[i - 1]];
      FreeAtLast(p, l[i - 1]);
      AtPrefix(l, i - 1, i - 1);
    } else {
      assert FreeAt(p) + [] == FreeAt(p);
    }
  }

  lemma HighList(l: seq<Block>, k: nat)
    requires k <= |l|
    ensures var hi := High(l, k);
            Shifted(FreeAt(l[k..]), At(l, k)) == (if k < hi then [At(l, k)] else []) + Shifted(FreeAt(l[hi..]), At(l, hi))
  {
    hide At, FreeAt;
    var hi := High(l, k);
    if k < hi {
      assert l[k..] == [l[k]] + l[hi..];
      FreeAtConcat([l[k]], l[hi..]);
      FreeAtFew(l[k], l[k]);
      AtNext(l, k);
      ShiftedTwice(FreeAt(l[hi..]), l[k].size, At(l, k));
    } else {
      assert l[k..] == l[hi..];
    }
  }

  lemma ShiftedTwice(s: seq<nat>, e: nat, d: nat)
    ensures Shifted([0] + Shifted(s, e), d) == [d] + Shifted(s, d + e)
  {
  }

  // ---------- Blocks in memory ----------

  /** The headers of the blocks stand at their addresses. */
  ghost predicate Represents(cells: seq<Block>, l: seq<Block>) {
    |cells| == Size(l) && forall i :: 0 <= i < |l| ==> At(l, i) < |cells| && cells[At(l, i)] == l[i]
  }

  /** Blocks `i..k` give way to `m`, whose headers are written; no other header changes. */
  ghost predicate Rewritten(was: seq<Block>, now: seq<Block>, l: seq<Block>, i: nat, k: nat, m: seq<Block>)
    requires i <= k <= |l|
  {
    && |now| == |was| && At(l, k) - At(l, i) == Size(m)
    && (forall a :: 0 <= a < |now| && (a < At(l, i) || a >= At(l, k)) ==> now[a] == was[a])
    && (forall j :: 0 <= j < |m| ==> At(l, i) + At(m, j) < |now| && now[At(l, i) + At(m, j)] == m[j])
  }

  lemma RewrittenOne(was: seq<Block>, now: seq<Block>, l: seq<Block>, i: nat, k: nat, m: seq<Block>, j: nat)
    requires Represents(was, l) && Tiled(l) && i <= k <= |l| && Rewritten(was, now, l, i, k, m)
    requires j < i + |m| + |l| - k
    ensures var t := l[..i] + m + l[k..];
            At(t, j) < |now| && now[At(t, j)] == t[j]
  {
    hide At;
    if j < i {
      Replaced(l, i, k, m, j);
      AtGrows(l, j, i);
    } else if j < i + |m| {
      Replaced(l, i, k, m, j - i);
    } else {
      var o := j - i - |m| + k;
      Replaced(l, i, k, m, o);
      AtGrows(l, k, o);
    }
  }

  lemma RepresentsReplaced(was: seq<Block>, now: seq<Block>, l: seq<Block>, i: nat, k: nat, m: seq<Block>)
    requires Represents(was, l) && Tiled(l) && i <= k <= |l| && Rewritten(was, now, l, i, k, m)
    ensures Represents(now, l[..i] + m + l[k..])
  {
    hide At;
    var t := l[..i] + m + l[k..];
    Replaced(l, i, k, m, 0);
    forall j | 0 <= j < |t| ensures At(t, j) < |now| && now[At(t, j)] == t[j] {
      RewrittenOne(was, now, l, i, k, m, j);
    }
  }
}
