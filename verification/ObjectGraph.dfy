/** Blocks, what they refer to, and where compaction has taken them. */
module ObjectGraph {
  import opened HeapLayout
  import opened Compaction
  import opened Relocation

  // ---------- What a reference points into ----------

  /** The block in which address `v` lies. */
  function Holder(l: seq<Block>, v: nat): (i: nat)
    requires v < Size(l)
    ensures i < |l|
  {
    if v >= At(l, |l| - 1) then |l| - 1 else Prefixed(l, v); Holder(l[..|l| - 1], v)
  }

  lemma Prefixed(l: seq<Block>, v: nat)
    requires v < Size(l) && v < At(l, |l| - 1)
    ensures v < Size(l[..|l| - 1])
  {
    AtPrefix(l, |l| - 1, |l| - 1);
  }

  lemma {:induction false} HolderOk(l: seq<Block>, v: nat)
    requires v < Size(l)
    ensures var i := Holder(l, v); At(l, i) <= v < At(l, i + 1)
  {
    if v < At(l, |l| - 1) {
      Prefixed(l, v);
      HolderOk(l[..|l| - 1], v);
      AtPrefix(l, |l| - 1, Holder(l, v));
      AtPrefix(l, |l| - 1, Holder(l, v) + 1);
    }
  }

  lemma HolderIs(l: seq<Block>, v: nat, i: nat)
    requires Sized(l) && i < |l| && At(l, i) <= v < At(l, i + 1)
    ensures v < Size(l) && Holder(l, v) == i
  {
    AtGrows(l, i + 1, |l|);
    HolderOk(l, v);
    var j := Holder(l, v);
    if i < j { AtGrows(l, i + 1, j); }
    if j < i { AtGrows(l, j + 1, i); }
  }

  /** The address lies in a block that is in use. */
  ghost predicate Owned(l: seq<Block>, v: int) {
    0 <= v < Size(l) && !l[Holder(l, v)].free
  }

  /** A reference into block `j` when that block has come to address `to[j]`. */
  ghost function Forwarded(l: seq<Block>, to: seq<nat>, v: int): int
    requires |to| == |l|
  {
    if Owned(l, v) then to[Holder(l, v)] + (v - At(l, Holder(l, v))) else v
  }

  ghost function ForwardedAll(l: seq<Block>, to: seq<nat>, refs: seq<int>): (r: seq<int>)
    requires |to| == |l|
    ensures |r| == |refs|
  {
    seq(|refs|, i requires 0 <= i < |refs| => Forwarded(l, to, refs[i]))
  }

  /** A block but for its references. */
  function Plain(b: Block): Block {
    b.(refs := [])
  }

  // ---------- The trail of the blocks ----------

  /** For each block of the heap as it was: its index and its address now, its address when references were
      last brought up to date, and how often it has been moved. */
  datatype Trail = Trail(was: seq<Block>, place: seq<nat>, now: seq<nat>, before: seq<nat>, moves: seq<nat>)

  ghost predicate Shape(t: Trail) {
    |t.place| == |t.now| == |t.before| == |t.moves| == |t.was| && Tiled(t.was)
  }

  /** From block `s` on the heap is as it was from block `s0` on, but for references. */
  ghost predicate Untouched(was: seq<Block>, heap: seq<Block>, s: nat, s0: nat) {
    && s <= |heap| && s0 <= |was| && |heap| - s == |was| - s0 && At(heap, s) == At(was, s0)
    && forall k: nat :: s <= k < |heap| ==> Plain(heap[k]) == Plain(was[k - s + s0])
  }

  /** A block that the cursor has passed has moved once and down, or has not moved. */
  ghost predicate Passed(t: Trail, heap: seq<Block>, s: nat, s0: nat, j: nat)
    requires Shape(t) && j < |t.was| && s <= |heap| && s0 <= |t.was|
  {
    && t.place[j] < s && Plain(heap[t.place[j]]) == Plain(t.was[j]) && t.now[j] == At(heap, t.place[j]) <= At(t.was, j)
    && t.before[j] + t.was[j].size <= At(t.was, s0)
    && t.moves[j] <= 1 && (Unmovable(t.was[j]) ==> t.moves[j] == 0) && (t.moves[j] == 0 ==> t.now[j] == At(t.was, j))
  }

  /** A block that the cursor has not reached is where it was. */
  ghost predicate Ahead(t: Trail, s: nat, s0: nat, j: nat)
    requires Shape(t) && s0 <= j < |t.was|
  {
    t.place[j] == s + (j - s0) && t.now[j] == t.before[j] == At(t.was, j) && t.moves[j] == 0
  }

  ghost predicate Distinct(t: Trail)
    requires Shape(t)
  {
    forall i, j :: 0 <= i < j < |t.was| && !t.was[i].free && !t.was[j].free ==> t.place[i] != t.place[j]
  }

  ghost predicate Sound(was: seq<Block>, heap: seq<Block>) {
    Tiled(heap) && NoAdjacentFree(heap) && Size(heap) == Size(was) && FreeSize(heap) == FreeSize(was)
  }

  /** The cursor is at block `s` of the heap, which was block `s0`. */
  ghost predicate Tracked(t: Trail, heap: seq<Block>, s: nat, s0: nat) {
    && Shape(t) && Sound(t.was, heap) && Untouched(t.was, heap, s, s0) && Distinct(t)
    && (forall j: nat :: j < s0 && !t.was[j].free ==> Passed(t, heap, s, s0, j))
    && (forall j: nat :: s0 <= j < |t.was| && !t.was[j].free ==> Ahead(t, s, s0, j))
  }

  /** Every reference is as it was, brought up to date for the addresses `before`. */
  ghost predicate Carries(t: Trail, heap: seq<Block>)
    requires Shape(t)
  {
    forall j: nat :: j < |t.was| && !t.was[j].free ==>
      t.place[j] < |heap| && heap[t.place[j]].refs == ForwardedAll(t.was, t.before, t.was[j].refs)
  }

  /** The table takes every reference from the addresses `before` to the addresses now. */
  ghost predicate Faithful(t: Trail, table: seq<Region>)
    requires Shape(t)
  {
    forall v: int :: Relocated(table, Forwarded(t.was, t.before, v)) == Forwarded(t.was, t.now, v)
  }

  ghost predicate EndsBy(table: seq<Region>, a: nat) {
    forall i :: 0 <= i < |table| ==> table[i].end <= a
  }

  // ---------- The start, and the cursor going up ----------

  function Addresses(l: seq<Block>): (r: seq<nat>)
    ensures |r| == |l|
  {
    seq(|l|, i requires 0 <= i < |l| => At(l, i))
  }

  function Start(l: seq<Block>): Trail {
    Trail(l, seq(|l|, i => i), Addresses(l), Addresses(l), seq(|l|, i => 0))
  }

  lemma StartOk(l: seq<Block>)
    requires Tiled(l) && NoAdjacentFree(l)
    ensures Tracked(Start(l), l, 0, 0) && Carries(Start(l), l) && Faithful(Start(l), [])
  {
    hide At, FreeSize;
    forall v | Owned(l, v) ensures Forwarded(l, Addresses(l), v) == v { HolderOk(l, v); }
    forall j: nat | j < |l| ensures ForwardedAll(l, Addresses(l), l[j].refs) == l[j].refs {
      assert forall k :: 0 <= k < |l[j].refs| ==> Forwarded(l, Addresses(l), l[j].refs[k]) == l[j].refs[k];
    }
  }

  /** The cursor passes blocks that stay where they are. */
  lemma Advance(t: Trail, heap: seq<Block>, s: nat, s0: nat, d: nat)
    requires Tracked(t, heap, s, s0) && s + d <= |heap|
    ensures Tracked(t, heap, s + d, s0 + d) && At(t.was, s0) <= At(t.was, s0 + d)
  {
    hide At, FreeSize, NoAdjacentFree, Distinct;
    AtSuffix(heap, s, d);
    AtSuffix(t.was, s0, d);
    SameAt(heap[s..], t.was[s0..], d);
    AtGrows(t.was, s0, s0 + d);
    forall j: nat | j < s0 + d && !t.was[j].free ensures Passed(t, heap, s + d, s0 + d, j) {
      if j < s0 {
        assert Passed(t, heap, s, s0, j);
      } else {
        assert Ahead(t, s, s0, j);
        AheadAt(t, heap, s, s0, j);
        AtNext(t.was, j);
        AtGrows(t.was, j + 1, s0 + d);
      }
    }
    forall j: nat | s0 + d <= j < |t.was| && !t.was[j].free ensures Ahead(t, s + d, s0 + d, j) {
      assert Ahead(t, s, s0, j);
    }
  }

  lemma {:induction false} SameAt(l: seq<Block>, m: seq<Block>, i: nat)
    requires |l| == |m| && i <= |l| && forall k :: 0 <= k < |l| ==> Plain(l[k]) == Plain(m[k])
    ensures At(l, i) == At(m, i)
  {
    if i > 0 {
      SameAt(l, m, i - 1);
      assert Plain(l[i - 1]) == Plain(m[i - 1]);
      assert Plain(l[i - 1]).size == l[i - 1].size;
    }
  }

  /** A block ahead of the cursor. */
  lemma AheadAt(t: Trail, heap: seq<Block>, s: nat, s0: nat, j: nat)
    requires Untouched(t.was, heap, s, s0) && s0 <= j <= |t.was|
    ensures At(heap, s + (j - s0)) == At(t.was, j)
    ensures j < |t.was| ==> Plain(heap[s + (j - s0)]) == Plain(t.was[j])
  {
    AtSuffix(heap, s, j - s0);
    AtSuffix(t.was, s0, j - s0);
    SameAt(heap[s..], t.was[s0..], j - s0);
  }

  // ---------- A move ----------

  predicate InUse(heap: seq<Block>, k: nat) {
    k < |heap| && !heap[k].free
  }

  ghost function PlaceAfter(heap: seq<Block>, f: nat, s: nat, e: nat, k: nat): nat
    requires Tiled(heap) && NoAdjacentFree(heap) && CanMove(heap, f, s, e)
  {
    if InUse(heap, k) then MovedTo(heap, f, s, e, k) else 0
  }

  /** How far blocks `s..e` go down. */
  ghost function Drop(heap: seq<Block>, f: nat, s: nat): nat
    requires Sized(heap) && f < s <= |heap|
  {
    AtOrder(heap, f, s);
    At(heap, s) - At(heap, f)
  }

  ghost function NowAfter(heap: seq<Block>, f: nat, s: nat, e: nat, k: nat, a: nat): nat
    requires Sized(heap) && f < s <= |heap|
  {
    if s <= k < e && a >= Drop(heap, f, s) then a - Drop(heap, f, s) else a
  }

  /** The trail after blocks `s..e` have moved. */
  ghost function Stepped(t: Trail, heap: seq<Block>, f: nat, s: nat, e: nat): (r: Trail)
    requires Shape(t) && Tiled(heap) && NoAdjacentFree(heap) && CanMove(heap, f, s, e)
    ensures Shape(r) && r.was == t.was && r.before == t.before
  {
    Trail(t.was,
          seq(|t.was|, j requires 0 <= j < |t.was| => PlaceAfter(heap, f, s, e, t.place[j])),
          seq(|t.was|, j requires 0 <= j < |t.was| => NowAfter(heap, f, s, e, t.place[j], t.now[j])),
          t.before,
          seq(|t.was|, j requires 0 <= j < |t.was| => t.moves[j] + if s <= t.place[j] < e then 1 else 0))
  }

  /** Where a block is. */
  lemma Placed(t: Trail, heap: seq<Block>, s: nat, s0: nat, j: nat)
    requires Tracked(t, heap, s, s0) && j < |t.was| && !t.was[j].free
    ensures InUse(heap, t.place[j]) && Plain(heap[t.place[j]]) == Plain(t.was[j]) && t.now[j] == At(heap, t.place[j])
    ensures t.place[j] < s <==> j < s0
    ensures j >= s0 ==> t.place[j] == s + (j - s0)
  {
    hide At, FreeSize, NoAdjacentFree, Distinct;
    if j < s0 {
      assert Passed(t, heap, s, s0, j);
    } else {
      assert Ahead(t, s, s0, j);
      AheadAt(t, heap, s, s0, j);
    }
    assert Plain(heap[t.place[j]]).free == heap[t.place[j]].free && Plain(t.was[j]).free == t.was[j].free;
  }

  /** The cursor is now at block `c` and blocks `s..e` have moved. */
  ghost predicate Jumps(t: Trail, heap: seq<Block>, s: nat, s0: nat, f: nat, e: nat, c: nat, d: nat) {
    && Tracked(t, heap, s, s0) && CanMove(heap, f, s, e) && Beyond(heap, e, c)
    && var m := Moved(heap, f, s, e);
       d <= |m| && |m| - d == |heap| - c && m[d..] == heap[c..] && At(m, d) == At(heap, c)
  }

  lemma StepPlace(t: Trail, heap: seq<Block>, s: nat, s0: nat, f: nat, e: nat, c: nat, d: nat, j: nat)
    requires Jumps(t, heap, s, s0, f, e, c, d) && j < |t.was| && !t.was[j].free
    ensures InUse(heap, t.place[j])
    ensures var m, r := Moved(heap, f, s, e), Stepped(t, heap, f, s, e);
            && r.place[j] == MovedTo(heap, f, s, e, t.place[j]) < |m| && m[r.place[j]] == heap[t.place[j]]
            && r.now[j] == At(m, r.place[j]) && r.now[j] == (if s <= t.place[j] < e then t.now[j] - Drop(heap, f, s) else t.now[j])
            && (if t.place[j] < c then r.place[j] < d else r.place[j] == d + (t.place[j] - c))
  {
    hide At, Moved, MovedTo, Beyond, NoAdjacentFree, FreeSize, Distinct, Passed, Ahead, Untouched, Drop;
    Placed(t, heap, s, s0, j);
    MovedFrom(heap, f, s, e, c, d, t.place[j]);
  }

  lemma MovedFrom(heap: seq<Block>, f: nat, s: nat, e: nat, c: nat, d: nat, k: nat)
    requires Tiled(heap) && NoAdjacentFree(heap) && CanMove(heap, f, s, e) && Beyond(heap, e, c) && InUse(heap, k)
    requires var m := Moved(heap, f, s, e); d <= |m| && |m| - d == |heap| - c && m[d..] == heap[c..] && At(m, d) == At(heap, c)
    ensures var m, i := Moved(heap, f, s, e), MovedTo(heap, f, s, e, k);
            && i < |m| && m[i] == heap[k] && At(m, i) == NowAfter(heap, f, s, e, k, At(heap, k))
            && (if k < c then i < d else i == d + (k - c))
    ensures s <= k ==> At(heap, k) >= Drop(heap, f, s)
  {
    hide At, Moved, MovedTo, Beyond, NoAdjacentFree;
    MovedBlock(heap, f, s, e, k);
    MovedSide(heap, f, s, e, c, d, k);
    AtOrder(heap, s, k);
  }

  lemma StepUntouched(t: Trail, heap: seq<Block>, s: nat, s0: nat, f: nat, e: nat, c: nat, d: nat)
    requires Jumps(t, heap, s, s0, f, e, c, d)
    ensures s0 + (c - s) <= |t.was| && Untouched(t.was, Moved(heap, f, s, e), d, s0 + (c - s))
  {
    hide At, Moved, NoAdjacentFree, FreeSize, Distinct, Passed, Ahead;
    var m, c0 := Moved(heap, f, s, e), s0 + (c - s);
    AheadAt(t, heap, s, s0, c0);
    forall k: nat | d <= k < |m| ensures Plain(m[k]) == Plain(t.was[k - d + c0]) {
      assert m[k] == m[d..][k - d] == heap[c..][k - d] == heap[k - d + c];
    }
  }

  lemma StepPassed(t: Trail, heap: seq<Block>, s: nat, s0: nat, f: nat, e: nat, c: nat, d: nat, j: nat)
    requires Jumps(t, heap, s, s0, f, e, c, d) && j < s0 + (c - s) <= |t.was| && !t.was[j].free
    ensures Passed(Stepped(t, heap, f, s, e), Moved(heap, f, s, e), d, s0 + (c - s), j)
  {
    hide At, Moved, MovedTo, NoAdjacentFree, FreeSize, Distinct, Untouched, Passed, Ahead;
    Placed(t, heap, s, s0, j);
    StepPlace(t, heap, s, s0, f, e, c, d, j);
    StepBefore(t, heap, s, s0, c, j);
    StepUnmoved(t, heap, s, s0, f, e, j);
    SoFar(t, heap, s, s0, j);
    ThenPassed(t, heap, s, f, e, d, s0 + (c - s), j);
  }

  lemma ThenPassed(t: Trail, heap: seq<Block>, s: nat, f: nat, e: nat, d: nat, c0: nat, j: nat)
    requires Shape(t) && Tiled(heap) && NoAdjacentFree(heap) && CanMove(heap, f, s, e) && j < |t.was| && c0 <= |t.was|
    requires InUse(heap, t.place[j]) && Plain(heap[t.place[j]]) == Plain(t.was[j])
    requires Unmovable(t.was[j]) ==> !(s <= t.place[j] < e)
    requires t.before[j] + t.was[j].size <= At(t.was, c0)
    requires t.now[j] <= At(t.was, j) && t.moves[j] <= (if t.place[j] < s then 1 else 0)
    requires (Unmovable(t.was[j]) ==> t.moves[j] == 0) && (t.moves[j] == 0 ==> t.now[j] == At(t.was, j))
    requires var m, r := Moved(heap, f, s, e), Stepped(t, heap, f, s, e);
             && d <= |m| && r.place[j] < d && m[r.place[j]] == heap[t.place[j]] && r.now[j] == At(m, r.place[j])
             && r.now[j] == (if s <= t.place[j] < e then t.now[j] - Drop(heap, f, s) else t.now[j])
    ensures Passed(Stepped(t, heap, f, s, e), Moved(heap, f, s, e), d, c0, j)
  {
    hide At, Moved, MovedTo, NoAdjacentFree;
    AtOrder(heap, f, s);
  }

  /** A block up to now. */
  lemma SoFar(t: Trail, heap: seq<Block>, s: nat, s0: nat, j: nat)
    requires Tracked(t, heap, s, s0) && j < |t.was| && !t.was[j].free
    ensures t.now[j] <= At(t.was, j) && t.moves[j] <= (if t.place[j] < s then 1 else 0)
    ensures (Unmovable(t.was[j]) ==> t.moves[j] == 0) && (t.moves[j] == 0 ==> t.now[j] == At(t.was, j))
  {
    Placed(t, heap, s, s0, j);
    hide At, NoAdjacentFree, FreeSize, Distinct, Untouched;
    if j < s0 { assert Passed(t, heap, s, s0, j); } else { assert Ahead(t, s, s0, j); }
  }

  lemma StepBefore(t: Trail, heap: seq<Block>, s: nat, s0: nat, c: nat, j: nat)
    requires Tracked(t, heap, s, s0) && s <= c <= |heap| && j < s0 + (c - s) <= |t.was| && !t.was[j].free
    ensures t.before[j] + t.was[j].size <= At(t.was, s0 + (c - s))
  {
    hide At, NoAdjacentFree, FreeSize, Distinct;
    AtGrows(t.was, s0, s0 + (c - s));
    if j < s0 {
      assert Passed(t, heap, s, s0, j);
    } else {
      assert Ahead(t, s, s0, j);
      AtNext(t.was, j);
      AtGrows(t.was, j + 1, s0 + (c - s));
    }
  }

  /** What cannot move is not among the blocks that move. */
  lemma StepUnmoved(t: Trail, heap: seq<Block>, s: nat, s0: nat, f: nat, e: nat, j: nat)
    requires Tracked(t, heap, s, s0) && CanMove(heap, f, s, e) && j < |t.was| && !t.was[j].free
    ensures Unmovable(t.was[j]) ==> !(s <= t.place[j] < e)
  {
    Placed(t, heap, s, s0, j);
    hide At, Tracked;
    var k := t.place[j];
    assert Plain(heap[k]).pinned == heap[k].pinned && Plain(heap[k]).event == heap[k].event;
  }

  lemma StepAhead(t: Trail, heap: seq<Block>, s: nat, s0: nat, f: nat, e: nat, c: nat, d: nat, j: nat)
    requires Jumps(t, heap, s, s0, f, e, c, d) && s0 + (c - s) <= j < |t.was| && !t.was[j].free
    ensures Ahead(Stepped(t, heap, f, s, e), d, s0 + (c - s), j)
  {
    StepPlace(t, heap, s, s0, f, e, c, d, j);
    hide At, Moved, MovedTo, NoAdjacentFree, FreeSize, Distinct;
    assert Ahead(t, s, s0, j);
  }

  lemma StepDistinct(t: Trail, heap: seq<Block>, s: nat, s0: nat, f: nat, e: nat, c: nat, d: nat)
    requires Jumps(t, heap, s, s0, f, e, c, d)
    ensures Distinct(Stepped(t, heap, f, s, e))
  {
    var r := Stepped(t, heap, f, s, e);
    hide At, Moved, MovedTo, CanMove, Tiled, NoAdjacentFree, FreeSize, Passed, Ahead, Untouched;
    forall i, j | 0 <= i < j < |t.was| && !t.was[i].free && !t.was[j].free ensures r.place[i] != r.place[j] {
      Placed(t, heap, s, s0, i);
      Placed(t, heap, s, s0, j);
      StepPlace(t, heap, s, s0, f, e, c, d, i);
      StepPlace(t, heap, s, s0, f, e, c, d, j);
      if t.place[i] < t.place[j] {
        MovedApart(heap, f, s, e, t.place[i], t.place[j]);
      } else {
        MovedApart(heap, f, s, e, t.place[j], t.place[i]);
      }
    }
  }

  lemma StepTracked(t: Trail, heap: seq<Block>, s: nat, s0: nat, f: nat, e: nat, c: nat, d: nat)
    requires Jumps(t, heap, s, s0, f, e, c, d)
    ensures s0 + (c - s) <= |t.was| && Tracked(Stepped(t, heap, f, s, e), Moved(heap, f, s, e), d, s0 + (c - s))
  {
    MovedOk(heap, f, s, e);
    StepUntouched(t, heap, s, s0, f, e, c, d);
    StepDistinct(t, heap, s, s0, f, e, c, d);
    StepBoth(t, heap, s, s0, f, e, c, d);
    hide At, Moved, CanMove, Beyond, Tiled, NoAdjacentFree, FreeSize, Size, Passed, Ahead, Untouched, Distinct, Stepped;
  }

  lemma StepBoth(t: Trail, heap: seq<Block>, s: nat, s0: nat, f: nat, e: nat, c: nat, d: nat)
    requires Jumps(t, heap, s, s0, f, e, c, d) && s0 + (c - s) <= |t.was|
    ensures var r, m, c0 := Stepped(t, heap, f, s, e), Moved(heap, f, s, e), s0 + (c - s);
            && (forall j: nat :: j < c0 && !t.was[j].free ==> Passed(r, m, d, c0, j))
            && (forall j: nat :: c0 <= j < |t.was| && !t.was[j].free ==> Ahead(r, d, c0, j))
  {
    hide At, Moved, NoAdjacentFree, FreeSize, Size, Passed, Ahead, Untouched, Distinct, Stepped;
    var r, m, c0 := Stepped(t, heap, f, s, e), Moved(heap, f, s, e), s0 + (c - s);
    forall j: nat | j < c0 && !t.was[j].free ensures Passed(r, m, d, c0, j) {
      StepPassed(t, heap, s, s0, f, e, c, d, j);
    }
    forall j: nat | c0 <= j < |t.was| && !t.was[j].free ensures Ahead(r, d, c0, j) {
      StepAhead(t, heap, s, s0, f, e, c, d, j);
    }
  }

  lemma StepCarries(t: Trail, heap: seq<Block>, s: nat, s0: nat, f: nat, e: nat, c: nat, d: nat)
    requires Jumps(t, heap, s, s0, f, e, c, d) && Carries(t, heap)
    ensures Carries(Stepped(t, heap, f, s, e), Moved(heap, f, s, e))
  {
    hide At, Moved, MovedTo, Beyond, NoAdjacentFree, FreeSize, Distinct, Passed, Ahead, Untouched, Drop, Forwarded, ForwardedAll, Stepped;
    var r, m := Stepped(t, heap, f, s, e), Moved(heap, f, s, e);
    forall j: nat | j < |t.was| && !t.was[j].free
      ensures r.place[j] < |m| && m[r.place[j]].refs == ForwardedAll(t.was, t.before, t.was[j].refs) {
      StepPlace(t, heap, s, s0, f, e, c, d, j);
    }
  }

  // ---------- The table ----------

  ghost function MoveRegion(heap: seq<Block>, f: nat, s: nat, e: nat): Region
    requires f <= |heap| && s <= |heap| && e <= |heap|
  {
    Region(At(heap, s), At(heap, e), At(heap, f) - At(heap, s))
  }

  /** A reference into the moved blocks is one that has not been changed yet, and no other is in the new region. */
  lemma StepForwarded(t: Trail, heap: seq<Block>, s: nat, s0: nat, f: nat, e: nat, c: nat, d: nat, v: int)
    requires Jumps(t, heap, s, s0, f, e, c, d)
    ensures var x, y := Forwarded(t.was, t.before, v), Forwarded(t.was, Stepped(t, heap, f, s, e).now, v);
            if Within(MoveRegion(heap, f, s, e), x) then
              y == x + MoveRegion(heap, f, s, e).offset && Forwarded(t.was, t.now, v) == x == v
            else y == Forwarded(t.was, t.now, v)
  {
    hide At, Moved, MovedTo, Beyond, NoAdjacentFree, FreeSize, Distinct, Passed, Ahead, Untouched, Stepped, Holder;
    if Owned(t.was, v) {
      HolderOk(t.was, v);
      AtNext(t.was, Holder(t.was, v));
      StepPlace(t, heap, s, s0, f, e, c, d, Holder(t.was, v));
      OwnedForward(t, heap, s, s0, e, Holder(t.was, v), v - At(t.was, Holder(t.was, v)));
    } else {
      NotOwned(t, heap, s, s0, f, e, v);
    }
  }

  /** Cell `o` of block `j` is in the region of blocks `s..e` exactly if block `j` is one of these. */
  lemma OwnedForward(t: Trail, heap: seq<Block>, s: nat, s0: nat, e: nat, j: nat, o: nat)
    requires Tracked(t, heap, s, s0) && s <= e <= |heap| && j < |t.was| && !t.was[j].free && o < t.was[j].size
    ensures if s <= t.place[j] < e then At(heap, s) <= t.before[j] + o < At(heap, e) && t.now[j] == t.before[j] == At(t.was, j)
            else !(At(heap, s) <= t.before[j] + o < At(heap, e))
  {
    hide At, NoAdjacentFree, FreeSize, Distinct, Untouched;
    Placed(t, heap, s, s0, j);
    var k := t.place[j];
    if j < s0 {
      AtStarts(t, heap, s, s0);
      assert Passed(t, heap, s, s0, j);
    } else {
      assert Ahead(t, s, s0, j);
      AheadAt(t, heap, s, s0, j);
      AtNext(heap, k);
      assert Plain(heap[k]).size == heap[k].size && Plain(t.was[j]).size == t.was[j].size;
      AtOrder(heap, s, k);
      if k < e { AtGrows(heap, k + 1, e); } else { AtGrows(heap, e, k); }
    }
  }

  lemma AtStarts(t: Trail, heap: seq<Block>, s: nat, s0: nat)
    requires Tracked(t, heap, s, s0)
    ensures s <= |heap| && s0 <= |t.was| && At(heap, s) == At(t.was, s0)
  {
  }

  /** What is in no block, or in a free one, is not in the region of the moved blocks. */
  lemma NotOwned(t: Trail, heap: seq<Block>, s: nat, s0: nat, f: nat, e: nat, v: int)
    requires Tracked(t, heap, s, s0) && CanMove(heap, f, s, e) && !Owned(t.was, v)
    ensures !Within(MoveRegion(heap, f, s, e), v)
  {
    hide At, NoAdjacentFree, FreeSize, Distinct, Passed, Ahead, Holder;
    if 0 <= v < Size(t.was) {
      HolderOk(t.was, v);
      var j := Holder(t.was, v);
      if j < s0 {
        AtGrows(t.was, j + 1, s0);
      } else {
        var k := s + (j - s0);
        AheadAt(t, heap, s, s0, j);
        assert Plain(heap[k]).free == heap[k].free;
        assert k >= e;
        AtGrows(heap, e, k);
      }
    } else {
      AtGrows(heap, e, |heap|);
    }
  }

  lemma StepFaithful(t: Trail, heap: seq<Block>, s: nat, s0: nat, f: nat, e: nat, c: nat, d: nat, table: seq<Region>)
    requires Jumps(t, heap, s, s0, f, e, c, d) && Faithful(t, table) && EndsBy(table, At(heap, s))
    ensures var r := MoveRegion(heap, f, s, e);
            r.start < r.end && EndsBy(table + [r], At(heap, c)) && Faithful(Stepped(t, heap, f, s, e), table + [r])
  {
    hide At, Moved, MovedTo, Forwarded, Stepped, NoAdjacentFree, FreeSize, Distinct, Untouched;
    var r, n := MoveRegion(heap, f, s, e), Stepped(t, heap, f, s, e);
    AtGrows(heap, s, e);
    AtGrows(heap, e, c);
    forall v: int ensures Relocated(table + [r], Forwarded(t.was, t.before, v)) == Forwarded(t.was, n.now, v) {
      var x := Forwarded(t.was, t.before, v);
      RelocatedMore(table, r, x);
      StepForwarded(t, heap, s, s0, f, e, c, d, v);
      assert Relocated(table, x) == Forwarded(t.was, t.now, v);
    }
  }

  // ---------- References brought up to date ----------

  function Updated(table: seq<Region>, b: Block): Block {
    b.(refs := RelocatedAll(table, b.refs))
  }

  function UpdatedAll(table: seq<Region>, heap: seq<Block>): (r: seq<Block>)
    ensures |r| == |heap|
  {
    seq(|heap|, i requires 0 <= i < |heap| => Updated(table, heap[i]))
  }

  lemma {:induction false} UpdatedAt(table: seq<Region>, heap: seq<Block>, i: nat)
    requires i <= |heap|
    ensures At(UpdatedAll(table, heap), i) == At(heap, i)
  {
    if i > 0 { UpdatedAt(table, heap, i - 1); }
  }

  lemma {:induction false} UpdatedFree(table: seq<Region>, heap: seq<Block>)
    ensures FreeSize(UpdatedAll(table, heap)) == FreeSize(heap)
  {
    if heap != [] {
      UpdatedFree(table, heap[..|heap| - 1]);
      assert UpdatedAll(table, heap)[..|heap| - 1] == UpdatedAll(table, heap[..|heap| - 1]);
    }
  }

  lemma UpdatedSound(table: seq<Region>, heap: seq<Block>, was: seq<Block>)
    requires Sound(was, heap)
    ensures Sound(was, UpdatedAll(table, heap))
  {
    UpdatedAt(table, heap, |heap|);
    UpdatedFree(table, heap);
    hide At, FreeSize;
    var u := UpdatedAll(table, heap);
    forall i | 0 <= i < |u| && u[i].free ensures IsFree(u[i]) {
      assert heap[i].refs == [];
      assert u[i] == heap[i];
    }
    forall i | 0 <= i < |u| - 1 ensures !(u[i].free && u[i + 1].free) {
      assert u[i].free == heap[i].free && u[i + 1].free == heap[i + 1].free;
    }
  }

  ghost function Flushed(t: Trail): Trail {
    t.(before := t.now)
  }

  lemma FlushTracked(t: Trail, heap: seq<Block>, s: nat, s0: nat, table: seq<Region>)
    requires Tracked(t, heap, s, s0)
    ensures Tracked(Flushed(t), UpdatedAll(table, heap), s, s0)
  {
    UpdatedSound(table, heap, t.was);
    UpdatedAt(table, heap, s);
    hide At, NoAdjacentFree, FreeSize;
    var u, r := UpdatedAll(table, heap), Flushed(t);
    forall k: nat | s <= k < |u| ensures Plain(u[k]) == Plain(t.was[k - s + s0]) {
      assert Plain(u[k]) == Plain(heap[k]);
    }
    forall j: nat | j < s0 && !t.was[j].free ensures Passed(r, u, s, s0, j) {
      FlushPassed(t, heap, s, s0, table, j);
    }
    forall j: nat | s0 <= j < |t.was| && !t.was[j].free ensures Ahead(r, s, s0, j) {
      assert Ahead(t, s, s0, j);
    }
  }

  lemma FlushPassed(t: Trail, heap: seq<Block>, s: nat, s0: nat, table: seq<Region>, j: nat)
    requires Tracked(t, heap, s, s0) && j < s0 && !t.was[j].free
    ensures Passed(Flushed(t), UpdatedAll(table, heap), s, s0, j)
  {
    hide At, NoAdjacentFree, FreeSize, Distinct, Ahead;
    var k := t.place[j];
    assert Passed(t, heap, s, s0, j);
    UpdatedAt(table, heap, k);
    assert Plain(UpdatedAll(table, heap)[k]) == Plain(heap[k]);
    AtNext(heap, k);
    AtGrows(heap, k + 1, s);
    assert Plain(heap[k]).size == heap[k].size && Plain(t.was[j]).size == t.was[j].size;
  }

  lemma UpdatedRefs(t: Trail, table: seq<Region>, refs: seq<int>)
    requires Shape(t) && Faithful(t, table)
    ensures RelocatedAll(table, ForwardedAll(t.was, t.before, refs)) == ForwardedAll(t.was, t.now, refs)
  {
    hide Forwarded, Relocated;
  }

  lemma FlushCarries(t: Trail, heap: seq<Block>, table: seq<Region>)
    requires Shape(t) && Carries(t, heap) && Faithful(t, table)
    ensures Carries(Flushed(t), UpdatedAll(table, heap)) && Faithful(Flushed(t), [])
  {
    hide Forwarded, ForwardedAll, RelocatedAll;
    forall j: nat | j < |t.was| && !t.was[j].free
      ensures t.place[j] < |heap| && UpdatedAll(table, heap)[t.place[j]].refs == ForwardedAll(t.was, t.now, t.was[j].refs) {
      UpdatedRefs(t, table, t.was[j].refs);
    }
    assert Faithful(Flushed(t), []);
  }

  // ---------- The graph of the objects ----------

  /** Every block in use is still there, moved at most once and only down, or not at all; what it and the roots
      refer to is forwarded to where it has gone; and as much is free as was. */
  ghost predicate Compacted(t: Trail, heap: seq<Block>, refs: seq<int>, roots: seq<int>) {
    && Shape(t) && Sound(t.was, heap) && Distinct(t) && roots == ForwardedAll(t.was, t.now, refs)
    && forall j: nat :: j < |t.was| && !t.was[j].free ==> Settled(t, heap, j)
  }

  ghost predicate Settled(t: Trail, heap: seq<Block>, j: nat)
    requires Shape(t) && j < |t.was|
  {
    && t.place[j] < |heap| && heap[t.place[j]] == t.was[j].(refs := ForwardedAll(t.was, t.now, t.was[j].refs))
    && t.now[j] == At(heap, t.place[j]) <= At(t.was, j)
    && t.moves[j] <= 1 && (Unmovable(t.was[j]) ==> t.moves[j] == 0) && (t.moves[j] == 0 ==> t.now[j] == At(t.was, j))
  }

  lemma TrackedSettled(t: Trail, heap: seq<Block>, s: nat, s0: nat, j: nat)
    requires Tracked(t, heap, s, s0) && Carries(t, heap) && t.now == t.before && j < |t.was| && !t.was[j].free
    ensures Settled(t, heap, j)
  {
    Placed(t, heap, s, s0, j);
    SoFar(t, heap, s, s0, j);
    hide At, NoAdjacentFree, FreeSize, Distinct, Ahead, Passed, Untouched, Tracked, ForwardedAll;
    var b, c := heap[t.place[j]], t.was[j];
    assert b == Plain(b).(refs := b.refs) && c == Plain(c).(refs := c.refs);
  }

  /** What is pinned and what is an event has not been moved. */
  lemma FixedStay(t: Trail, heap: seq<Block>, refs: seq<int>, roots: seq<int>)
    requires Compacted(t, heap, refs, roots)
    ensures |t.now| == |t.moves| == |t.was|
    ensures forall j: nat :: j < |t.was| && !t.was[j].free && (t.was[j].pinned || t.was[j].event) ==> t.moves[j] == 0 && t.now[j] == At(t.was, j)
  {
    hide At, Sound, Distinct, ForwardedAll;
    forall j: nat | j < |t.was| && !t.was[j].free && (t.was[j].pinned || t.was[j].event) ensures t.moves[j] == 0 && t.now[j] == At(t.was, j) {
      assert Settled(t, heap, j);
    }
  }

  /** What a reference refers to: a place in a block, by what is in the block and not by its address. */
  datatype Referent = Outside(address: int) | Inside(data: int, size: nat, event: bool, pinned: bool, offset: int)

  ghost function Look(l: seq<Block>, v: int): Referent {
    if Owned(l, v) then
      var b := l[Holder(l, v)];
      Inside(b.data, b.size, b.event, b.pinned, v - At(l, Holder(l, v)))
    else Outside(v)
  }

  /** What is at the end of a path: from a reference to the block it points into, on to one of that block's
      references, and so on. */
  ghost function Follow(l: seq<Block>, v: int, path: seq<nat>): Referent
    decreases |path|
  {
    if path == [] || !Owned(l, v) || path[0] >= |l[Holder(l, v)].refs| then Look(l, v)
    else Follow(l, l[Holder(l, v)].refs[path[0]], path[1..])
  }

  /** A reference leads to the block that its block has become, at the same place in it. */
  lemma Leads(t: Trail, heap: seq<Block>, v: int)
    requires Shape(t) && Sound(t.was, heap) && Owned(t.was, v) && Settled(t, heap, Holder(t.was, v))
    ensures var j, w := Holder(t.was, v), Forwarded(t.was, t.now, v);
            Owned(heap, w) && Holder(heap, w) == t.place[j] && w - At(heap, t.place[j]) == v - At(t.was, j)
  {
    hide At, NoAdjacentFree, FreeSize, Holder, ForwardedAll;
    var j, w := Holder(t.was, v), Forwarded(t.was, t.now, v);
    HolderOk(t.was, v);
    AtNext(t.was, j);
    AtNext(heap, t.place[j]);
    HolderIs(heap, w, t.place[j]);
  }

  /** The reference points into a block that is in use, or to somewhere else altogether. */
  ghost predicate Live(l: seq<Block>, v: int) {
    0 <= v < Size(l) ==> Owned(l, v)
  }

  ghost predicate AllLive(l: seq<Block>, refs: seq<int>) {
    (forall k :: 0 <= k < |refs| ==> Live(l, refs[k])) &&
    forall j, k :: 0 <= j < |l| && 0 <= k < |l[j].refs| ==> Live(l, l[j].refs[k])
  }

  /** Compaction cannot be seen: from every root, every path leads to the same object and the same place in it. */
  lemma {:induction false} SamePath(t: Trail, heap: seq<Block>, refs: seq<int>, roots: seq<int>, v: int, path: seq<nat>)
    requires Compacted(t, heap, refs, roots) && AllLive(t.was, refs) && Live(t.was, v)
    ensures Follow(heap, Forwarded(t.was, t.now, v), path) == Follow(t.was, v, path)
    decreases |path|
  {
    hide At, NoAdjacentFree, FreeSize, Holder, Distinct, Tiled;
    if Owned(t.was, v) {
      var j := Holder(t.was, v);
      assert Settled(t, heap, j);
      Leads(t, heap, v);
      if path != [] && path[0] < |t.was[j].refs| {
        assert Live(t.was, t.was[j].refs[path[0]]);
        SamePath(t, heap, refs, roots, t.was[j].refs[path[0]], path[1..]);
      }
    }
  }

  lemma SameRoots(t: Trail, heap: seq<Block>, refs: seq<int>, roots: seq<int>)
    requires Compacted(t, heap, refs, roots) && AllLive(t.was, refs)
    ensures |roots| == |refs|
    ensures forall k, path: seq<nat> :: 0 <= k < |refs| ==> Follow(heap, roots[k], path) == Follow(t.was, refs[k], path)
  {
    hide Follow, Forwarded, Live, Settled, Sound, Distinct;
    forall k, path: seq<nat> | 0 <= k < |refs| ensures Follow(heap, roots[k], path) == Follow(t.was, refs[k], path) {
      SamePath(t, heap, refs, roots, refs[k], path);
    }
  }
}
