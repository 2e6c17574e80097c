/** What compaction does to the layout of the heap: blocks slide or move down into free space. */
module Compaction {
  import opened HeapLayout

  /** Space that has no owner for the moment: neither free nor movable. */
  function Hole(size: nat): Block {
    Block(false, false, false, true, size, 0, [])
  }

  predicate Movable(b: Block) {
    !b.free && !Unmovable(b)
  }

  /** Blocks `s..e` can move into free block `f`: they follow it, or they fit into it. */
  ghost predicate CanMove(l: seq<Block>, f: nat, s: nat, e: nat) {
    && f < s < e <= |l| && l[f].free
    && (forall i :: s <= i < e ==> Movable(l[i]))
    && (s == f + 1 || At(l, e) - At(l, s) <= l[f].size)
  }

  /** Blocks `s..e` can be looked at as moving into block `f`. */
  ghost predicate Ranges(l: seq<Block>, f: nat, s: nat, e: nat) {
    f < s < e <= |l| && At(l, s) < At(l, e) && (s == f + 1 || At(l, e) - At(l, s) <= l[f].size)
  }

  /** What is left of the free block; nothing if the blocks after it slide down, or if they fit exactly. */
  function RestOf(l: seq<Block>, f: nat, s: nat, e: nat): (rest: seq<Block>)
    requires Ranges(l, f, s, e)
    ensures |rest| <= 1
  {
    if s == f + 1 || l[f].size == At(l, e) - At(l, s) then [] else [FreeBlock(l[f].size - (At(l, e) - At(l, s)))]
  }

  /** The space that the moved blocks leave behind. */
  function HoleSize(l: seq<Block>, f: nat, s: nat, e: nat): nat
    requires Ranges(l, f, s, e)
  {
    if s == f + 1 then l[f].size else At(l, e) - At(l, s)
  }

  /** The blocks that take the place of blocks `f..e`, before the space they leave is given back. */
  function Spread(l: seq<Block>, f: nat, s: nat, e: nat): seq<Block>
    requires Ranges(l, f, s, e)
  {
    l[s..e] + RestOf(l, f, s, e) + l[f + 1..s] + [Hole(HoleSize(l, f, s, e))]
  }

  /** Where the space that the moved blocks leave behind begins: block `k` of the result. */
  function HoleAt(l: seq<Block>, f: nat, s: nat, e: nat): nat
    requires Ranges(l, f, s, e)
  {
    f + |Spread(l, f, s, e)| - 1
  }

  lemma AtSlice(l: seq<Block>, a: nat, b: nat, j: nat)
    requires a + j <= b <= |l|
    ensures At(l[a..b], j) == At(l, a + j) - At(l, a)
  {
    AtSuffix(l, a, j);
    AtPrefix(l[a..], b - a, j);
    assert l[a..][..b - a] == l[a..b];
  }

  /** The three parts of `Spread` before the hole, and where they end. */
  lemma SpreadParts(l: seq<Block>, f: nat, s: nat, e: nat)
    requires Sized(l) && Ranges(l, f, s, e)
    ensures Size(l[s..e]) == At(l, e) - At(l, s)
    ensures Size(l[s..e] + RestOf(l, f, s, e)) == if s == f + 1 then At(l, e) - At(l, s) else l[f].size
    ensures Size(l[s..e] + RestOf(l, f, s, e) + l[f + 1..s]) == At(l, e) - At(l, f) - HoleSize(l, f, s, e)
    ensures Size(Spread(l, f, s, e)) == At(l, e) - At(l, f)
  {
    hide At;
    AtSlice(l, s, e, e - s);
    AtSlice(l, f + 1, s, s - f - 1);
    AtNext(l, f);
    RestSize(RestOf(l, f, s, e));
    SizeConcat(l[s..e], RestOf(l, f, s, e));
    SizeConcat(l[s..e] + RestOf(l, f, s, e), l[f + 1..s]);
    SizeConcat(l[s..e] + RestOf(l, f, s, e) + l[f + 1..s], [Hole(HoleSize(l, f, s, e))]);
    SizeOne(Hole(HoleSize(l, f, s, e)));
  }

  /** The addresses of the moved blocks and of the hole. */
  lemma SpreadAt(l: seq<Block>, f: nat, s: nat, e: nat, j: nat)
    requires Sized(l) && Ranges(l, f, s, e)
    ensures var m := Spread(l, f, s, e);
            && Size(m) == At(l, e) - At(l, f)
            && (j <= e - s ==> At(m, j) == At(l, s + j) - At(l, s))
            && At(m, |m| - 1) == Size(m) - HoleSize(l, f, s, e)
  {
    hide At, RestOf, HoleSize;
    SpreadParts(l, f, s, e);
    var moved, hole := l[s..e], [Hole(HoleSize(l, f, s, e))];
    var front := moved + RestOf(l, f, s, e) + l[f + 1..s];
    AtConcat(front, hole, 0);
    AtZero(hole);
    if j <= e - s {
      AtSlice(l, s, e, j);
      AtFront(front, hole, j);
      AtFront(moved + RestOf(l, f, s, e), l[f + 1..s], j);
      AtFront(moved, RestOf(l, f, s, e), j);
    }
  }

  lemma AtZero(l: seq<Block>)
    ensures At(l, 0) == 0
  {
  }

  lemma RestSize(rest: seq<Block>)
    requires |rest| <= 1
    ensures Size(rest) == if rest == [] then 0 else rest[0].size
  {
    if rest != [] { assert rest == [rest[0]]; SizeOne(rest[0]); }
  }

  /** The heap after blocks `s..e` have moved into free block `f`. */
  function Opened(l: seq<Block>, f: nat, s: nat, e: nat): seq<Block>
    requires Ranges(l, f, s, e)
  {
    l[..f] + Spread(l, f, s, e) + l[e..]
  }

  lemma OpenedOk(l: seq<Block>, f: nat, s: nat, e: nat)
    requires Tiled(l) && NoAdjacentFree(l) && CanMove(l, f, s, e)
    ensures Ranges(l, f, s, e)
    ensures var t, h := Opened(l, f, s, e), HoleAt(l, f, s, e);
            && Tiled(t) && Size(t) == Size(l) && h < |t| && t[h] == Hole(HoleSize(l, f, s, e))
            && At(t, h) == At(l, e) - t[h].size && At(t, h + 1) == At(l, e)
            && (forall j :: 0 <= j < h - 1 || h < j < |t| - 1 ==> !(t[j].free && t[j + 1].free))
  {
    hide At, RestOf, HoleSize;
    AtGrows(l, s, e);
    SpreadAt(l, f, s, e, 0);
    var m := Spread(l, f, s, e);
    Replaced(l, f, e, m, |m| - 1);
    Replaced(l, f, e, m, |m|);
    OpenedTiled(l, f, s, e);
    OpenedApart(l, f, s, e);
  }

  lemma OpenedTiled(l: seq<Block>, f: nat, s: nat, e: nat)
    requires Tiled(l) && CanMove(l, f, s, e) && Ranges(l, f, s, e)
    ensures Tiled(Opened(l, f, s, e))
  {
    hide At;
    var m := Spread(l, f, s, e);
    forall j | 0 <= j < |m| ensures m[j].size > 0 && (m[j].free ==> IsFree(m[j])) {
      if j < e - s { assert m[j] == l[s + j]; }
    }
  }

  lemma OpenedApart(l: seq<Block>, f: nat, s: nat, e: nat)
    requires NoAdjacentFree(l) && CanMove(l, f, s, e) && Ranges(l, f, s, e)
    ensures var t, h := Opened(l, f, s, e), HoleAt(l, f, s, e);
            forall j :: 0 <= j < h - 1 || h < j < |t| - 1 ==> !(t[j].free && t[j + 1].free)
  {
    hide At;
    var m, t, h := Spread(l, f, s, e), Opened(l, f, s, e), HoleAt(l, f, s, e);
    forall j | 0 <= j < h - 1 || h < j < |t| - 1 ensures !(t[j].free && t[j + 1].free) {
      if j < h {
        if j + 1 < f { assert t[j] == l[j] && t[j + 1] == l[j + 1]; }
        else if j + 1 < f + (e - s) { assert t[j + 1] == l[s + j + 1 - f]; }
        else if j < f + (e - s) { assert t[j] == l[s + j - f]; }
        else { SpreadTail(l, f, s, e, j - f); }
      } else {
        assert t[j] == l[j - h - 1 + e] && t[j + 1] == l[j - h + e];
      }
    }
  }

  /** Behind the moved blocks comes what is left of the free block, if anything, and then the blocks that were
      between it and the moved ones. */
  lemma SpreadTail(l: seq<Block>, f: nat, s: nat, e: nat, j: nat)
    requires NoAdjacentFree(l) && CanMove(l, f, s, e) && Ranges(l, f, s, e) && e - s <= j < |Spread(l, f, s, e)| - 2
    ensures !(Spread(l, f, s, e)[j].free && Spread(l, f, s, e)[j + 1].free)
  {
    hide At;
    var m := Spread(l, f, s, e);
    var d := |RestOf(l, f, s, e)|;
    assert s != f + 1;
    if j >= e - s + d { assert m[j] == l[f + 1 + (j - (e - s) - d)] && m[j + 1] == l[f + 2 + (j - (e - s) - d)]; }
    else { assert m[j + 1] == l[f + 1]; }
  }

  /** Where a block of the old heap that has an owner comes to lie before the hole is given back. */
  function NewIndex(l: seq<Block>, f: nat, s: nat, e: nat, i: nat): nat
    requires Ranges(l, f, s, e) && i < |l| && i != f
  {
    if i < f then i
    else if i < s then i - 1 + (e - s) + |RestOf(l, f, s, e)|
    else if i < e then f + (i - s)
    else HoleAt(l, f, s, e) + 1 + (i - e)
  }

  lemma OpenedBlock(l: seq<Block>, f: nat, s: nat, e: nat, i: nat)
    requires Sized(l) && Ranges(l, f, s, e) && i < |l| && i != f
    ensures var t, k := Opened(l, f, s, e), NewIndex(l, f, s, e, i);
            && k < |t| && k != HoleAt(l, f, s, e) && t[k] == l[i]
            && At(l, f) <= At(l, s) && At(t, k) == if s <= i < e then At(l, i) - (At(l, s) - At(l, f)) else At(l, i)
  {
    hide At, RestOf, HoleSize;
    AtGrows(l, f, s);
    SpreadAt(l, f, s, e, if s <= i < e then i - s else 0);
    if i < f {
      Replaced(l, f, e, Spread(l, f, s, e), i);
    } else if i < s {
      BetweenAt(l, f, s, e, i);
      Replaced(l, f, e, Spread(l, f, s, e), NewIndex(l, f, s, e, i) - f);
    } else if i < e {
      Replaced(l, f, e, Spread(l, f, s, e), i - s);
    } else {
      Replaced(l, f, e, Spread(l, f, s, e), i);
    }
  }

  /** The blocks between the free block and the moved ones stay where they are. */
  lemma BetweenAt(l: seq<Block>, f: nat, s: nat, e: nat, i: nat)
    requires Sized(l) && Ranges(l, f, s, e) && f < i < s
    ensures var m, j := Spread(l, f, s, e), NewIndex(l, f, s, e, i) - f;
            0 <= j < |m| - 1 && m[j] == l[i] && At(m, j) == At(l, i) - At(l, f)
  {
    hide At, RestOf, HoleSize;
    var rest, j := RestOf(l, f, s, e), NewIndex(l, f, s, e, i) - f;
    SpreadParts(l, f, s, e);
    AtFront(l[s..e] + rest + l[f + 1..s], [Hole(HoleSize(l, f, s, e))], j);
    AtConcat(l[s..e] + rest, l[f + 1..s], i - f - 1);
    AtSlice(l, f + 1, s, i - f - 1);
    AtNext(l, f);
  }

  // ---------- The hole is given back ----------

  /** The heap after the move, with the space left behind free and joined to what is free beside it. */
  ghost function Moved(l: seq<Block>, f: nat, s: nat, e: nat): seq<Block>
    requires Tiled(l) && NoAdjacentFree(l) && CanMove(l, f, s, e)
  {
    OpenedOk(l, f, s, e);
    InsertedOk(Opened(l, f, s, e), HoleAt(l, f, s, e), HoleAt(l, f, s, e) + 1);
    Inserted(Opened(l, f, s, e), HoleAt(l, f, s, e), HoleAt(l, f, s, e) + 1)
  }

  /** Where a block that is in use comes to be when block `h` is freed. */
  function AfterInsert(l: seq<Block>, h: nat, k: nat): nat
    requires h < |l| && k < |l| && k != h && !l[k].free
  {
    if k < h then k else k - (High(l, h + 1) - Low(l, h)) + 1
  }

  lemma InsertedKeeps(l: seq<Block>, h: nat, k: nat)
    requires Tiled(l) && h < |l| && k < |l| && k != h && !l[k].free
    ensures At(l, h) <= At(l, h + 1) && At(l, Low(l, h)) <= At(l, High(l, h + 1))
    ensures var t, j := Inserted(l, h, h + 1), AfterInsert(l, h, k); j < |t| && t[j] == l[k] && At(t, j) == At(l, k)
  {
    hide At;
    AtGrows(l, h, h + 1);
    AtGrows(l, Low(l, h), High(l, h + 1));
    var m := [FreeBlock(At(l, High(l, h + 1)) - At(l, Low(l, h)))];
    SizeOne(m[0]);
    Replaced(l, Low(l, h), High(l, h + 1), m, k);
  }

  /** The block that block `i`, which is in use, becomes. */
  ghost function MovedTo(l: seq<Block>, f: nat, s: nat, e: nat, i: nat): (k: nat)
    requires Tiled(l) && NoAdjacentFree(l) && CanMove(l, f, s, e) && i < |l| && !l[i].free
  {
    OpenedOk(l, f, s, e);
    OpenedBlock(l, f, s, e, i);
    AfterInsert(Opened(l, f, s, e), HoleAt(l, f, s, e), NewIndex(l, f, s, e, i))
  }

  /** The moved blocks come down to where the free block was, and every other block in use stays where it is. */
  lemma MovedBlock(l: seq<Block>, f: nat, s: nat, e: nat, i: nat)
    requires Tiled(l) && NoAdjacentFree(l) && CanMove(l, f, s, e) && i < |l| && !l[i].free
    ensures At(l, f) < At(l, s)
    ensures var t, k := Moved(l, f, s, e), MovedTo(l, f, s, e, i);
            k < |t| && t[k] == l[i] && At(t, k) == if s <= i < e then At(l, i) - (At(l, s) - At(l, f)) else At(l, i)
  {
    hide At, RestOf, HoleSize, NoAdjacentFree, Spread;
    OpenedOk(l, f, s, e);
    AtOrder(l, f, s);
    OpenedBlock(l, f, s, e, i);
    InsertedKeeps(Opened(l, f, s, e), HoleAt(l, f, s, e), NewIndex(l, f, s, e, i));
  }

  /** Different blocks stay different. */
  lemma MovedApart(l: seq<Block>, f: nat, s: nat, e: nat, i: nat, j: nat)
    requires Tiled(l) && NoAdjacentFree(l) && CanMove(l, f, s, e) && i < j < |l| && !l[i].free && !l[j].free
    ensures MovedTo(l, f, s, e, i) != MovedTo(l, f, s, e, j)
  {
    hide At, RestOf, HoleSize, NoAdjacentFree, Opened, Low, High;
    OpenedOk(l, f, s, e);
    OpenedBlock(l, f, s, e, i);
    OpenedBlock(l, f, s, e, j);
    AfterInsertApart(Opened(l, f, s, e), HoleAt(l, f, s, e), NewIndex(l, f, s, e, i), NewIndex(l, f, s, e, j));
  }

  lemma AfterInsertApart(l: seq<Block>, h: nat, k: nat, j: nat)
    requires h < |l| && k < |l| && j < |l| && k != h && j != h && k != j && !l[k].free && !l[j].free
    ensures AfterInsert(l, h, k) != AfterInsert(l, h, j)
  {
  }

  /** What is free stays as much, and the heap stays in order. */
  lemma MovedOk(l: seq<Block>, f: nat, s: nat, e: nat)
    requires Tiled(l) && NoAdjacentFree(l) && CanMove(l, f, s, e)
    ensures var t := Moved(l, f, s, e); Tiled(t) && NoAdjacentFree(t) && Size(t) == Size(l) && FreeSize(t) == FreeSize(l)
  {
    hide At, RestOf, HoleSize, Spread, FreeSize;
    OpenedOk(l, f, s, e);
    OpenedFree(l, f, s, e);
    InsertedOk(Opened(l, f, s, e), HoleAt(l, f, s, e), HoleAt(l, f, s, e) + 1);
    InsertedFrees(Opened(l, f, s, e), HoleAt(l, f, s, e), HoleAt(l, f, s, e) + 1);
  }

  lemma OpenedFree(l: seq<Block>, f: nat, s: nat, e: nat)
    requires Sized(l) && CanMove(l, f, s, e) && Ranges(l, f, s, e)
    ensures FreeSize(Opened(l, f, s, e)) == FreeSize(l) - HoleSize(l, f, s, e)
  {
    hide At, FreeSize;
    var moved, rest, between, hole := l[s..e], RestOf(l, f, s, e), l[f + 1..s], [Hole(HoleSize(l, f, s, e))];
    NoFree(moved);
    FreeSizeOne(hole[0]);
    FreeSizeConcat(moved, rest);
    FreeSizeConcat(moved + rest, between);
    FreeSizeConcat(moved + rest + between, hole);
    FreeSizeConcat(l[..f], Spread(l, f, s, e));
    FreeSizeConcat(l[..f] + Spread(l, f, s, e), l[e..]);
    FreeSizeTo(l, f, f + 1);
    FreeSizeTo(l, f + 1, s);
    FreeSizeTo(l, s, e);
    FreeSizeTo(l, e, |l|);
    assert l[f..f + 1] == [l[f]] && l[..|l|] == l;
    FreeSizeOne(l[f]);
    if rest == [] { NoFree(rest); } else { FreeSizeOne(rest[0]); assert rest == [rest[0]]; }
    if s == f + 1 { assert between == []; NoFree(between); }
  }

  // ---------- What lies behind the moved blocks ----------

  /** The blocks from `c` on, beyond the hole and the free block that may follow it. */
  ghost predicate Beyond(l: seq<Block>, e: nat, c: nat) {
    e <= c <= |l| && (e < |l| && l[e].free ==> e < c)
  }

  lemma MovedSuffix(l: seq<Block>, f: nat, s: nat, e: nat, c: nat) returns (d: nat)
    requires Tiled(l) && NoAdjacentFree(l) && CanMove(l, f, s, e) && Beyond(l, e, c)
    ensures var t := Moved(l, f, s, e);
            d <= |t| && |t| - d == |l| - c && t[d..] == l[c..] && At(t, d) == At(l, c)
  {
    hide At, RestOf, HoleSize, Spread, NoAdjacentFree, Low, High;
    OpenedOk(l, f, s, e);
    var u, h := Opened(l, f, s, e), HoleAt(l, f, s, e);
    InsertedOk(u, h, h + 1);
    OpenedSuffix(l, f, s, e, c);
    InsertedSuffix(u, h, h + 1 + (c - e));
    MovedOk(l, f, s, e);
    d := |Moved(l, f, s, e)| - (|l| - c);
    SuffixAt(Moved(l, f, s, e), d, l, c);
  }

  lemma OpenedSuffix(l: seq<Block>, f: nat, s: nat, e: nat, c: nat)
    requires Ranges(l, f, s, e) && Beyond(l, e, c)
    ensures var u, h := Opened(l, f, s, e), HoleAt(l, f, s, e);
            && h + 1 + (c - e) <= |u| && |u| - (h + 1 + (c - e)) == |l| - c && u[h + 1 + (c - e)..] == l[c..]
            && (h + 1 < |u| && u[h + 1].free ==> e < c)
  {
    hide At, RestOf, HoleSize, Spread;
    var u, h := Opened(l, f, s, e), HoleAt(l, f, s, e);
    assert u[h + 1..] == l[e..];
  }

  lemma SuffixAt(t: seq<Block>, d: nat, l: seq<Block>, c: nat)
    requires d <= |t| && c <= |l| && |t| - d == |l| - c && t[d..] == l[c..] && Size(t) == Size(l)
    ensures At(t, d) == At(l, c)
  {
    AtSuffix(t, d, |t| - d);
    AtSuffix(l, c, |l| - c);
  }

  lemma InsertedSuffix(u: seq<Block>, h: nat, c: nat)
    requires Tiled(u) && h < c <= |u| && (h + 1 < |u| && u[h + 1].free ==> h + 1 < c)
    requires At(u, h) <= At(u, h + 1) && At(u, Low(u, h)) <= At(u, High(u, h + 1))
    ensures var t := Inserted(u, h, h + 1); |t| >= |u| - c && t[|t| - (|u| - c)..] == u[c..]
  {
  }

  /** What was before cursor `c` stays before it, and what was behind stays behind. */
  lemma MovedSide(l: seq<Block>, f: nat, s: nat, e: nat, c: nat, d: nat, i: nat)
    requires Tiled(l) && NoAdjacentFree(l) && CanMove(l, f, s, e) && Beyond(l, e, c) && i < |l| && !l[i].free
    requires var t := Moved(l, f, s, e); d <= |t| && |t| - d == |l| - c && t[d..] == l[c..] && At(t, d) == At(l, c)
    ensures if i < c then MovedTo(l, f, s, e, i) < d else MovedTo(l, f, s, e, i) == d + (i - c)
  {
    hide At, RestOf, HoleSize, Spread, NoAdjacentFree, Opened, Moved, MovedTo;
    var t, k := Moved(l, f, s, e), MovedTo(l, f, s, e, i);
    MovedOk(l, f, s, e);
    MovedBlock(l, f, s, e, i);
    if i < c {
      AtOrder(l, i, c);
      AtOrder(t, k, d);
    } else {
      AtSuffix(t, d, i - c);
      AtSuffix(l, c, i - c);
      AtOrder(t, k, d + (i - c));
    }
  }

  // ---------- The free blocks ----------

  /** A free block is still free where it was when block `h` is freed, unless it is what joins the end of `h`. */
  lemma InsertedFree(l: seq<Block>, h: nat, g: nat) returns (k: nat)
    requires Tiled(l) && h < |l| && g < |l| && g != h && l[g].free
    ensures At(l, h) <= At(l, h + 1) && At(l, Low(l, h)) <= At(l, High(l, h + 1))
    ensures var t := Inserted(l, h, h + 1);
            && k < |t| && t[k].free
            && if g == h + 1 then k == Low(l, h) && At(t, k) == At(l, k) < At(l, g) < At(l, k) + t[k].size
               else At(t, k) == At(l, g)
  {
    hide At;
    AtGrows(l, h, h + 1);
    var lo, hi := Low(l, h), High(l, h + 1);
    AtGrows(l, lo, hi);
    var m := [FreeBlock(At(l, hi) - At(l, lo))];
    SizeOne(m[0]);
    Replaced(l, lo, hi, m, lo);
    if g == h + 1 {
      k := lo;
      AtGrows(l, lo, h + 1);
      AtGrows(l, h + 1, hi);
    } else if g < h {
      k := g;
      Replaced(l, lo, hi, m, g);
    } else {
      k := g - (hi - lo) + 1;
      Replaced(l, lo, hi, m, g);
    }
  }

  // ---------- The steps of a move ----------

  /** The heap when blocks `s..e` have been copied to where free block `f` was: what is left of it has no owner yet. */
  function Copied(l: seq<Block>, f: nat, s: nat, e: nat): seq<Block>
    requires Ranges(l, f, s, e)
  {
    var rest := RestOf(l, f, s, e);
    l[..f] + l[s..e] + (if rest == [] then [] else [Hole(rest[0].size)]) + l[f + 1..s] + [Hole(HoleSize(l, f, s, e))] + l[e..]
  }

  /** Giving back what is left of the free block. */
  lemma CopiedRest(l: seq<Block>, f: nat, s: nat, e: nat)
    requires Tiled(l) && NoAdjacentFree(l) && CanMove(l, f, s, e) && Ranges(l, f, s, e)
    ensures var t, i := Copied(l, f, s, e), f + (e - s);
            if RestOf(l, f, s, e) == [] then t == Opened(l, f, s, e)
            else
              && i < |t| && t[i] == Hole(RestOf(l, f, s, e)[0].size) && At(t, i) == At(l, f) + (At(l, e) - At(l, s))
              && Low(t, i) == i && High(t, i + 1) == i + 1 && At(t, i) <= At(t, i + 1)
              && Inserted(t, i, i + 1) == Opened(l, f, s, e)
  {
    hide At, HoleSize, NoAdjacentFree;
    var t, rest, i := Copied(l, f, s, e), RestOf(l, f, s, e), f + (e - s);
    if rest == [] {
      assert t == Opened(l, f, s, e);
    } else {
      assert t[..i] == l[..f] + l[s..e];
      assert t[i - 1] == l[e - 1];
      assert t[i + 1..] == l[f + 1..s] + [Hole(HoleSize(l, f, s, e))] + l[e..];
      BehindFree(l, f);
      assert t[i + 1] == l[f + 1];
      AtNext(t, i);
      CopiedAt(l, f, s, e, t);
    }
  }

  lemma BehindFree(l: seq<Block>, f: nat)
    requires NoAdjacentFree(l) && f + 1 < |l| && l[f].free
    ensures !l[f + 1].free
  {
  }

  lemma CopiedAt(l: seq<Block>, f: nat, s: nat, e: nat, t: seq<Block>)
    requires f <= s <= e <= |l| && f + (e - s) <= |t| && t[..f + (e - s)] == l[..f] + l[s..e]
    ensures At(t, f + (e - s)) == At(l, f) + (At(l, e) - At(l, s))
  {
    AtPrefix(t, f + (e - s), f + (e - s));
    SizeConcat(l[..f], l[s..e]);
    AtSlice(l, s, e, e - s);
    AtPrefix(l, f, f);
  }

  /** What is left of the free block, as a free block. */
  lemma OpenedRest(l: seq<Block>, f: nat, s: nat, e: nat)
    requires Tiled(l) && CanMove(l, f, s, e) && Ranges(l, f, s, e) && RestOf(l, f, s, e) != []
    ensures var t, i := Opened(l, f, s, e), f + (e - s);
            i < HoleAt(l, f, s, e) - 1 && i < |t| && t[i] == RestOf(l, f, s, e)[0] && At(t, i) == At(l, f) + (At(l, e) - At(l, s))
  {
    hide At, HoleSize;
    var t, i := Opened(l, f, s, e), f + (e - s);
    assert t[..i] == l[..f] + l[s..e];
    CopiedAt(l, f, s, e, t);
  }

  /** A free block behind the one that is being filled. */
  lemma OpenedLater(l: seq<Block>, f: nat, s: nat, e: nat, g: nat)
    requires Tiled(l) && CanMove(l, f, s, e) && Ranges(l, f, s, e) && f < g < |l| && l[g].free
    ensures var t, k := Opened(l, f, s, e), NewIndex(l, f, s, e, g);
            k < |t| && k != HoleAt(l, f, s, e) && t[k] == l[g] && At(t, k) == At(l, g)
            && (k == HoleAt(l, f, s, e) + 1 <==> g == e)
  {
    OpenedBlock(l, f, s, e, g);
  }
}
