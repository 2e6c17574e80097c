/** The table of the regions that compaction has moved, and how a reference is looked up in it. */
module Relocation {

  datatype Region = Region(start: nat, end: nat, offset: int)

  predicate Within(r: Region, v: int) {
    r.start <= v < r.end
  }

  /** What becomes of a reference: the first region that holds it says how far it moves. */
  function Relocated(table: seq<Region>, v: int): int
  {
    if table == [] then v
    else if Within(table[0], v) then v + table[0].offset
    else Relocated(table[1..], v)
  }

  /** Regions in the order of their addresses, without overlap. */
  ghost predicate Sorted(table: seq<Region>) {
    && (forall i :: 0 <= i < |table| ==> table[i].start < table[i].end)
    && (forall i, j :: 0 <= i < j < |table| ==> table[i].end <= table[j].start)
  }

  lemma {:induction false} RelocatedAt(table: seq<Region>, v: int, k: nat)
    requires Sorted(table) && k < |table| && Within(table[k], v)
    ensures Relocated(table, v) == v + table[k].offset
  {
    if k > 0 {
      assert table[0].end <= table[k].start;
      RelocatedAt(table[1..], v, k - 1);
    }
  }

  lemma {:induction false} RelocatedNowhere(table: seq<Region>, v: int)
    requires forall i :: 0 <= i < |table| ==> !Within(table[i], v)
    ensures Relocated(table, v) == v
  {
    if table != [] { RelocatedNowhere(table[1..], v); }
  }

  /** A region above all others. */
  lemma {:induction false} RelocatedMore(table: seq<Region>, r: Region, v: int)
    requires r.start < r.end && forall i :: 0 <= i < |table| ==> table[i].end <= r.start
    ensures Relocated(table + [r], v) == if Within(r, v) then v + r.offset else Relocated(table, v)
  {
    if table == [] {
      assert (table + [r])[1..] == [];
    } else {
      assert (table + [r])[1..] == table[1..] + [r];
      RelocatedMore(table[1..], r, v);
    }
  }

  lemma SortedMore(table: seq<Region>, r: Region)
    requires Sorted(table) && r.start < r.end && forall i :: 0 <= i < |table| ==> table[i].end <= r.start
    ensures Sorted(table + [r])
  {
  }

  /** Each reference of a list. */
  function RelocatedAll(table: seq<Region>, refs: seq<int>): (r: seq<int>)
    ensures |r| == |refs|
  {
    seq(|refs|, i requires 0 <= i < |refs| => Relocated(table, refs[i]))
  }

  class RelocationTable {
    const blocks: array<Region>
    var count: nat
    var minimum: int
    var maximum: int

    constructor (total: nat)
      ensures blocks.Length == total && count == 0 && fresh(blocks)
    {
      blocks := new Region[total](_ => Region(0, 0, 0));
      count, minimum, maximum := 0, 0, 0;
    }

    ghost predicate Valid()
      reads this, blocks
    {
      count <= blocks.Length && Sorted(blocks[..count])
    }

    ghost function Table(): seq<Region>
      reads this, blocks
      requires Valid()
    {
      blocks[..count]
    }

    /** All regions lie between the bounds. */
    ghost predicate Bounded()
      reads this, blocks
      requires Valid()
    {
      forall i :: 0 <= i < count ==> minimum <= blocks[i].start && blocks[i].end <= maximum
    }

    method Add(r: Region)
      requires Valid() && count < blocks.Length && r.start < r.end
      requires forall i :: 0 <= i < |Table()| ==> Table()[i].end <= r.start
      modifies this`count, blocks
      ensures Valid() && Table() == old(Table()) + [r]
    {
      SortedMore(Table(), r);
      blocks[count] := r;
      count := count + 1;
      assert blocks[..count] == old(blocks[..count]) + [r];
    }

    method Clear()
      modifies this`count
      ensures Valid() && Table() == []
    {
      count := 0;
    }

    method FindBounds()
      requires Valid() && count > 0
      modifies this`minimum, this`maximum
      ensures Valid() && Table() == old(Table()) && Bounded()
      ensures exists i: nat :: i < count && minimum == blocks[i].start
      ensures exists i: nat :: i < count && maximum == blocks[i].end
    {
      minimum, maximum := blocks[0].start, blocks[0].end;
      var i := 0;
      while i < count
        invariant i <= count
        invariant forall j :: 0 <= j < i ==> minimum <= blocks[j].start && blocks[j].end <= maximum
        invariant exists j: nat :: j < count && minimum == blocks[j].start
        invariant exists j: nat :: j < count && maximum == blocks[j].end
      {
        if minimum > blocks[i].start { minimum := blocks[i].start; }
        if maximum < blocks[i].end { maximum := blocks[i].end; }
        i := i + 1;
      }
    }

    /** Bounds and bisection find what a look through the whole table would. */
    method Relocate(dst: int) returns (ref: int)
      requires Valid() && Bounded()
      ensures ref == Relocated(Table(), dst)
    {
      if dst >= minimum && dst < maximum {
        var left, right := 0, count;
        while left < right
          invariant left <= right <= count
          invariant forall i :: 0 <= i < left ==> blocks[i].end <= dst
          invariant forall i :: right <= i < count ==> dst < blocks[i].start
        {
          var center := (left + right) / 2;
          if dst < blocks[center].start {
            right := center;
          } else if dst >= blocks[center].end {
            left := center + 1;
          } else {
            RelocatedAt(Table(), dst, center);
            return dst + blocks[center].offset;
          }
        }
      }
      RelocatedNowhere(Table(), dst);
      return dst;
    }

    method RelocateAll(refs: seq<int>) returns (moved: seq<int>)
      requires Valid() && Bounded()
      ensures moved == RelocatedAll(Table(), refs)
    {
      moved := [];
      while |moved| < |refs|
        invariant |moved| <= |refs| && moved == RelocatedAll(Table(), refs)[..|moved|]
      {
        var ref := Relocate(refs[|moved|]);
        moved := moved + [ref];
      }
    }
  }
}
