/** The marker: traversals with a bounded stack, rescans of the heap, roots and finalizers. */
module Collector {
  import opened Wrappers
  import opened MarkStack
  import opened Reachability
  import opened Marking

  class Marker {
    const m: Memory
    const alive: array<bool>
    const stacks: Stack
    var finalizersAlive: seq<nat>
    var finalizersPending: seq<nat>

    ghost predicate Valid()
      reads stacks, stacks.Footprint(), alive
    {
      && WellFormed(m) && alive.Length == |m.cells| && stacks.Valid()
      && (alive as object) !in stacks.Footprint()
      && forall h :: h in m.events && h in Headers(m) ==> h < alive.Length && alive[h]
    }

    ghost function Footprint(): set<object>
      reads stacks
    {
      {alive} + stacks.Footprint()
    }

    /** Before a collection only events are alive. */
    constructor (memory: Memory, asWritten: bool)
      requires WellFormed(memory) && forall e :: e in memory.events ==> e < |memory.cells|
      ensures Valid() && fresh(Footprint()) && m == memory && stacks.Contents() == [] && !stacks.outOfSpace
      ensures stacks.asWritten == asWritten && !stacks.overran && finalizersAlive == [] && finalizersPending == []
      ensures forall h :: 0 <= h < alive.Length ==> alive[h] == (h in m.events)
    {
      m := memory;
      alive := new bool[|memory.cells|](i => i in memory.events);
      stacks := new Stack(asWritten);
      finalizersAlive, finalizersPending := [], [];
    }

    /** The trace of a traversal that is at cell `lst` with `num` to go. */
    ghost predicate At(t: Trace, lst: nat, num: nat)
      reads stacks, stacks.Footprint(), alive
    {
      Valid() && t.now == alive[..] && t.pend == stacks.Contents() && t.lst == lst && t.num == num
    }

    /** The next cell from the stack. */
    method TakeNext(ghost from: iset<nat>, ghost t: Trace, ghost first: bool) returns (more: bool, ptr: nat, ghost u: Trace)
      requires At(t, t.lst, 0) && TraceOk(m, t) && TraceSound(m, from, t)
      requires if first then t == Trace(t.lst, 0, t.was, t.was, [], t.lst, 0) else Tracing(m, t, stacks.outOfSpace)
      modifies stacks.Footprint()
      ensures Valid() && stacks.list == old(stacks.list) && Arrays(stacks.list) == old(Arrays(stacks.list))
      ensures stacks.outOfSpace == old(stacks.outOfSpace) && stacks.overran == old(stacks.overran)
      ensures !more ==> t.pend == [] && stacks.Contents() == [] && stacks.stackList == 0 && u == t
      ensures more ==> At(u, ptr, 1) && u.lst0 == t.lst0 && u.num0 == t.num0 && u.was == t.was && u.now == t.now
                       && TraceOk(m, u) && TraceSound(m, from, u) && Turn(m, u, !first, stacks.outOfSpace)
                       && Total(m, u) == Total(m, t) && SomeNew(m, u) == SomeNew(m, t)
    {
      hide WellFormed, TraceSound, Tracing, Turn, Weight, Headers, Stack.Valid, Stack.Contents;
      u := t;
      ghost var pend := t.pend;
      more, ptr := stacks.Next();
      if more {
        ghost var e := pend[|pend| - 1];
        assert pend == pend[..|pend| - 1] + [e];
        TakeTurn(m, from, t, pend[..|pend| - 1], e, stacks.outOfSpace);
        TakeTotal(m, t, pend[..|pend| - 1], e);
        u := t.(pend := pend[..|pend| - 1] + Tail(e), lst := e.ptr, num := 1);
      }
    }

    /** The first of several cells, with the others put on the stack if there is room. */
    method TakeFirst(lst: nat, num: nat, ghost from: iset<nat>, ghost t: Trace, ghost first: bool) returns (dropped: bool, ghost u: Trace)
      requires At(t, lst, num) && TraceOk(m, t) && TraceSound(m, from, t) && num > 1
      requires if first then t == Trace(lst, num, t.was, t.was, [], lst, num) else Tracing(m, t, stacks.outOfSpace)
      modifies stacks.Footprint()
      ensures Valid() && fresh(stacks.Footprint() - old(stacks.Footprint()))
      ensures old(stacks.overran) ==> stacks.overran
      ensures !dropped ==> stacks.outOfSpace == old(stacks.outOfSpace)
      ensures dropped ==> At(u, 0, 0) && !first && stacks.outOfSpace && u == t.(lst := 0, num := 0)
                          && TraceOk(m, u) && TraceSound(m, from, u) && Tracing(m, u, true) && SomeNew(m, u) && Total(m, u) < Total(m, t)
      ensures !dropped ==> At(u, lst, 1) && u.lst0 == t.lst0 && u.num0 == t.num0 && u.was == t.was && u.now == t.now
                           && TraceOk(m, u) && TraceSound(m, from, u) && Turn(m, u, !first, stacks.outOfSpace)
                           && Total(m, u) == Total(m, t) && SomeNew(m, u) == SomeNew(m, t)
    {
      hide WellFormed, TraceSound, Tracing, Turn, Weight, Headers, Stack.Valid, Stack.Contents;
      var ok, _ := stacks.Push(lst, num);
      dropped := !ok;
      if dropped {
        DropKeeps(m, from, t, old(stacks.outOfSpace));
        u := t.(lst := 0, num := 0);
      } else {
        PushTotal(m, t);
        if first { StartPushTurn(m, from, t, stacks.outOfSpace); } else { PushTurn(m, from, t, stacks.outOfSpace); }
        u := t.(pend := t.pend + [Entry(lst + 1, num - 1)], num := 1);
      }
    }

    /** The cell whose turn it is: the only one left, the first of several, or the next from the stack. */
    method Choose(lst: nat, num: nat, ghost from: iset<nat>, ghost t: Trace, ghost first: bool)
      returns (more: bool, dropped: bool, ptr: nat, ghost u: Trace)
      requires At(t, lst, num) && TraceOk(m, t) && TraceSound(m, from, t)
      requires if first then t == Trace(lst, num, t.was, t.was, [], lst, num) else Tracing(m, t, stacks.outOfSpace)
      modifies stacks.Footprint()
      ensures Valid() && fresh(stacks.Footprint() - old(stacks.Footprint()))
      ensures old(stacks.overran) ==> stacks.overran
      ensures !dropped ==> stacks.outOfSpace == old(stacks.outOfSpace)
      ensures !more ==> num == 0 && t.pend == [] && stacks.Contents() == [] && stacks.stackList == 0 && u == t && !dropped
      ensures more && dropped ==> At(u, 0, 0) && !first && stacks.outOfSpace && u == t.(lst := 0, num := 0)
                                  && TraceOk(m, u) && TraceSound(m, from, u) && Tracing(m, u, true) && SomeNew(m, u)
                                  && Total(m, u) < Total(m, t)
      ensures more && !dropped ==> At(u, ptr, 1) && u.lst0 == t.lst0 && u.num0 == t.num0 && u.was == t.was && u.now == t.now
                                   && TraceOk(m, u) && TraceSound(m, from, u) && Turn(m, u, !first, stacks.outOfSpace)
                                   && Total(m, u) == Total(m, t) && SomeNew(m, u) == SomeNew(m, t)
    {
      hide WellFormed, TraceSound, TraceOk, Tracing, Turn, Weight, Headers, Stack.Valid, Stack.Contents, Total, SomeNew;
      more, dropped, ptr, u := true, false, lst, t;
      if num == 0 {
        more, ptr, u := TakeNext(from, t, first);
      } else if num > 1 {
        dropped, u := TakeFirst(lst, num, from, t, first);
      } else {
        if first { StartTurn(m, from, t, stacks.outOfSpace); } else { OneTurn(m, from, t, stacks.outOfSpace); }
      }
    }

    /** Marks one cell or object and finds what it leads to. */
    method Visit(ptr: nat) returns (lst: nat, num: nat)
      requires Valid() && ptr < alive.Length
      modifies alive
      ensures Valid() && alive[..] == old(alive[..])[ptr := true] && (lst, num) == Leads(m, alive[..], ptr)
    {
      lst, num := 0, 0;
      alive[ptr] := true;
      var sub := None;
      match m.cells[ptr] {
        case Reference(target) => sub := target;
        case _ => var list := ListOf(m.cells, ptr); lst, num := list.0, list.1;
      }
      if sub.Some? && !alive[sub.value] { lst, num := sub.value, 1; }
    }

    /** Marks all that the `num0` cells from `lst0` on lead to, as far as the mark stack can follow. */
    method ComputeReachabilityGraphForMultipleBlocks(lst0: nat, num0: nat, ghost from: iset<nat>)
      requires Valid() && stacks.Contents() == [] && Work(m, lst0, num0) && WorkSound(m, from, lst0, num0)
      modifies Footprint()
      ensures Valid() && stacks.Contents() == [] && stacks.stackList == 0 && fresh(stacks.Footprint() - old(stacks.Footprint()))
      ensures old(stacks.overran) ==> stacks.overran
      ensures Traversed(m, from, lst0, num0, old(alive[..]), alive[..], stacks.outOfSpace)
      ensures stacks.outOfSpace ==> old(stacks.outOfSpace) || Dead(m, alive[..]) < Dead(m, old(alive[..]))
      ensures old(stacks.outOfSpace) ==> stacks.outOfSpace
    {
      hide WellFormed, TraceSound, Tracing, Turn, Stack.Contents, Stack.Valid, Traversed, Work, WorkSound, Weight, SomeNew, Headers, Leads;
      var lst, num := lst0, num0;
      ghost var first := true;
      ghost var t := Trace(lst0, num0, alive[..], alive[..], [], lst0, num0);
      StartTrace(m, from, t);
      var more := true;
      while more
        invariant fresh(stacks.Footprint() - old(stacks.Footprint())) && (old(stacks.overran) ==> stacks.overran) && At(t, lst, num)
        invariant t.was == old(alive[..]) && t.lst0 == lst0 && t.num0 == num0
        invariant TraceOk(m, t) && TraceSound(m, from, t)
        invariant if first then t == Trace(lst0, num0, t.was, t.was, [], lst0, num0) else Tracing(m, t, stacks.outOfSpace)
        invariant stacks.outOfSpace ==> old(stacks.outOfSpace) || SomeNew(m, t)
        invariant old(stacks.outOfSpace) ==> stacks.outOfSpace
        invariant !more ==> num == 0 && t.pend == [] && stacks.Contents() == [] && stacks.stackList == 0
        decreases more, first, Dead(m, t.now), Total(m, t)
      {
        var dropped, ptr;
        ghost var u;
        more, dropped, ptr, u := Choose(lst, num, from, t, first);
        t := u;
        if dropped {
          lst, num := 0, 0;
        } else if more {
          MarkTurn(m, from, t, !first, stacks.outOfSpace);
          lst, num := Visit(ptr);
          t := Marked(t, (lst, num));
          first := false;
        }
      }
      Finish(m, from, t, stacks.outOfSpace);
      if SomeNew(m, t) { NewIsFewer(m, t); }
    }

    /** What a rescan keeps: marks are sound, only grow, and are clean where it has looked, unless the mark
        stack has failed again, which it does only after marking something new. */
    ghost predicate Rescanning(from: iset<nat>, start: seq<bool>, seen: set<nat>)
      reads stacks, stacks.Footprint(), alive
    {
      && Valid() && stacks.Contents() == [] && |start| == |m.cells| && AliveSound(m, from, alive[..])
      && (forall h :: 0 <= h < alive.Length && start[h] ==> alive[h])
      && if stacks.outOfSpace then Dead(m, alive[..]) < Dead(m, start) else Clean(m, start, alive[..], seen)
    }

    /** The walk is at block `ptr`. */
    method Look(ptr: nat, ghost from: iset<nat>, ghost start: seq<bool>, ghost seen: set<nat>)
      requires Rescanning(from, start, seen) && ptr in Headers(m)
      modifies Footprint()
      ensures Rescanning(from, start, seen + {ptr}) && fresh(stacks.Footprint() - old(stacks.Footprint()))
      ensures old(stacks.overran) ==> stacks.overran
    {
      ghost var was := alive[..];
      assert ptr < alive.Length;
      if alive[ptr] && ptr !in m.events {
        assert Reachable(m, from, ptr) && !m.cells[ptr].Reference?;
        assert Work(m, ptr, 1) && WorkSound(m, from, ptr, 1);
        ComputeReachabilityGraphForMultipleBlocks(ptr, 1, from);
        Looked(m, from, start, was, alive[..], ptr, seen, old(stacks.outOfSpace), stacks.outOfSpace);
      }
    }

    /** The walk over one cluster, block by block. */
    method RescanCluster(k: nat, ghost from: iset<nat>, ghost start: seq<bool>, ghost seen0: set<nat>) returns (ghost seen: set<nat>)
      requires k < |m.clusters| && Rescanning(from, start, seen0)
      requires TiledBy(m.cells, m.clusters[k].payloadStart, m.clusters[k].payloadEnd)
      requires forall h :: h in Starts(m.cells, m.clusters[k].payloadStart, m.clusters[k].payloadEnd) ==> h in Headers(m)
      modifies Footprint()
      ensures Rescanning(from, start, seen) && fresh(stacks.Footprint() - old(stacks.Footprint())) && (old(stacks.overran) ==> stacks.overran) && seen0 <= seen
      ensures forall h :: h in Starts(m.cells, m.clusters[k].payloadStart, m.clusters[k].payloadEnd) ==> h in seen
    {
      hide Rescanning, Valid, WellFormed, Starts, TiledBy, Headers;
      seen := seen0;
      var ptr, end := m.clusters[k].payloadStart, m.clusters[k].payloadEnd;
      while ptr < end
        invariant Rescanning(from, start, seen) && fresh(stacks.Footprint() - old(stacks.Footprint()))
        invariant old(stacks.overran) ==> stacks.overran
        invariant seen0 <= seen && TiledBy(m.cells, ptr, end)
        invariant forall h :: h in Starts(m.cells, ptr, end) ==> h in Headers(m)
        invariant forall h :: h in Starts(m.cells, m.clusters[k].payloadStart, end) ==> h in seen || h in Starts(m.cells, ptr, end)
        decreases end - ptr
      {
        WalkStep(m.cells, m.clusters[k].payloadStart, ptr, end, seen);
        Look(ptr, from, start, seen);
        seen := seen + {ptr};
        ptr := ptr + DataSize(m.cells[ptr]);
      }
      WalkEnd(m.cells, ptr, end);
    }

    /** One walk over the heap: every marked object is looked at again. */
    method Rescan(ghost from: iset<nat>)
      requires Rescanning(from, alive[..], {}) && !stacks.outOfSpace
      modifies Footprint()
      ensures Rescanning(from, old(alive[..]), Headers(m)) && fresh(stacks.Footprint() - old(stacks.Footprint()))
      ensures old(stacks.overran) ==> stacks.overran
    {
      assert WellFormed(m);
      hide Rescanning, Valid, WellFormed, Starts, TiledBy, HeadersOf, Headers;
      ghost var start, seen: set<nat> := alive[..], {};
      WalkStart(m);
      for k := 0 to |m.clusters|
        invariant Rescanning(from, start, seen) && fresh(stacks.Footprint() - old(stacks.Footprint()))
        invariant old(stacks.overran) ==> stacks.overran
        invariant HeadersOf(m.cells, m.clusters[..k]) <= seen
      {
        seen := RescanCluster(k, from, start, seen);
        ClusterDone(m.cells, m.clusters, k, seen);
      }
      SeenAll(from, start, seen);
    }

    lemma SeenAll(from: iset<nat>, start: seq<bool>, seen: set<nat>)
      requires Rescanning(from, start, seen) && HeadersOf(m.cells, m.clusters[..|m.clusters|]) <= seen
      ensures Rescanning(from, start, Headers(m))
    {
      assert m.clusters[..|m.clusters|] == m.clusters;
    }

    ghost predicate Marks(from: iset<nat>)
      reads stacks, stacks.Footprint(), alive
    {
      Valid() && stacks.Contents() == [] && AliveSound(m, from, alive[..])
    }

    method Round(ghost from: iset<nat>)
      requires Marks(from)
      modifies Footprint()
      ensures Marks(from) && fresh(stacks.Footprint() - old(stacks.Footprint()))
      ensures old(stacks.overran) ==> stacks.overran
      ensures forall h :: 0 <= h < alive.Length && old(alive[h]) ==> alive[h]
      ensures Dead(m, alive[..]) <= Dead(m, old(alive[..]))
      ensures if stacks.outOfSpace then Dead(m, alive[..]) < Dead(m, old(alive[..])) else Clean(m, alive[..], alive[..], Headers(m))
    {
      ghost var start := alive[..];
      stacks.outOfSpace := false;
      assert Rescanning(from, start, {});
      hide Headers, AliveSound, WellFormed, Stack.Valid, Stack.Contents, Clean;
      Rescan(from);
      CleanRound(m, start, alive[..], stacks.outOfSpace);
    }

    /** Rescans until the mark stack has held out for a whole walk. */
    method MarkSlow(ghost from: iset<nat>)
      requires Marks(from)
      modifies Footprint()
      ensures Marks(from) && fresh(stacks.Footprint() - old(stacks.Footprint()))
      ensures old(stacks.overran) ==> stacks.overran
      ensures !stacks.outOfSpace && forall h :: 0 <= h < alive.Length && old(alive[h]) ==> alive[h]
      ensures if old(stacks.outOfSpace) then Clean(m, alive[..], alive[..], Headers(m)) else alive[..] == old(alive[..])
    {
      assert alive.Length == |m.cells|;
      hide Marks, Headers, Clean, Dead;
      ghost var was := alive[..];
      while stacks.outOfSpace
        invariant Marks(from) && fresh(stacks.Footprint() - old(stacks.Footprint()))
        invariant old(stacks.overran) ==> stacks.overran
        invariant forall h :: 0 <= h < alive.Length && was[h] ==> alive[h]
        invariant if !old(stacks.outOfSpace) then alive[..] == was && !stacks.outOfSpace
                  else stacks.outOfSpace || Clean(m, alive[..], alive[..], Headers(m))
        decreases Dead(m, alive[..]), stacks.outOfSpace
      {
        Round(from);
      }
    }

    /** Marks are sound, and as long as the mark stack has held out they are clean. */
    ghost predicate Marking(from: iset<nat>)
      reads stacks, stacks.Footprint(), alive
    {
      Marks(from) && (stacks.outOfSpace || Clean(m, alive[..], alive[..], Headers(m)))
    }

    /** A traversal from cells or an object, between others. */
    method Traverse(lst: nat, num: nat, ghost from: iset<nat>)
      requires Marking(from) && Work(m, lst, num) && WorkSound(m, from, lst, num)
      modifies Footprint()
      ensures Marking(from) && fresh(stacks.Footprint() - old(stacks.Footprint()))
      ensures old(stacks.overran) ==> stacks.overran
      ensures Traversed(m, from, lst, num, old(alive[..]), alive[..], stacks.outOfSpace)
    {
      ghost var was := alive[..];
      hide Work, WorkSound, Traversed, Stack.Valid, Stack.Contents, WellFormed, AliveSound, Headers;
      ComputeReachabilityGraphForMultipleBlocks(lst, num, from);
      assert AliveSound(m, from, alive[..]) by { assert Traversed(m, from, lst, num, was, alive[..], stacks.outOfSpace); TraversedParts(m, from, lst, num, was, alive[..], stacks.outOfSpace); AliveMore(m, from, was, alive[..]); }
      if !stacks.outOfSpace {
        CleanMore(m, from, was, was, alive[..], lst, num, Headers(m));
        CleanAll(m, was, alive[..], if IsObject(m, lst, num) then {lst} else {});
      }
    }

    method MarkRoot(r: Root, ghost from: iset<nat>)
      requires Marking(from) && RootOk(m, r) && forall t: nat :: RootLeads(m, r, t) ==> t in from
      modifies Footprint()
      ensures Marking(from) && RootMarked(m, alive[..], r) && fresh(stacks.Footprint() - old(stacks.Footprint()))
      ensures old(stacks.overran) ==> stacks.overran
      ensures forall h :: 0 <= h < alive.Length && old(alive[h]) ==> alive[h]
    {
      ghost var was := alive[..];
      RootWork(m, from, r);
      assert r.Single? && r.p.Some? ==> r.p.value < alive.Length;
      assert WellFormed(m);
      hide Marking, Work, WorkSound, WellFormed, RootLeads, RootMarked, RootOk, Valid;
      match r {
        case Cells(lst, num) =>
          Traverse(lst, num, from);
          RootDone(m, from, r, was, alive[..], stacks.outOfSpace);
        case Forced(h) =>
          Traverse(h, 1, from);
          RootDone(m, from, r, was, alive[..], stacks.outOfSpace);
        case Single(p) =>
          if p.Some? && !alive[p.value] { Traverse(p.value, 1, from); }
          RootDone(m, from, r, was, alive[..], stacks.outOfSpace);
      }
    }

    method FinishMarks(ghost from: iset<nat>)
      requires Marking(from)
      modifies Footprint()
      ensures Marking(from) && !stacks.outOfSpace && fresh(stacks.Footprint() - old(stacks.Footprint()))
      ensures old(stacks.overran) ==> stacks.overran
      ensures forall h :: 0 <= h < alive.Length && old(alive[h]) ==> alive[h]
    {
      if stacks.outOfSpace { MarkSlow(from); }
    }

    method MarkEach(roots: seq<Root>, ghost from: iset<nat>)
      requires Marking(from) && from == RootSet(m, roots) && forall k :: 0 <= k < |roots| ==> RootOk(m, roots[k])
      modifies Footprint()
      ensures Marking(from) && fresh(stacks.Footprint() - old(stacks.Footprint()))
      ensures old(stacks.overran) ==> stacks.overran
      ensures forall k :: 0 <= k < |roots| ==> RootMarked(m, alive[..], roots[k])
    {
      hide Marking, RootOk, RootLeads, RootMarked;
      for k := 0 to |roots|
        invariant Marking(from) && fresh(stacks.Footprint() - old(stacks.Footprint()))
        invariant old(stacks.overran) ==> stacks.overran
        invariant forall i :: 0 <= i < k ==> RootMarked(m, alive[..], roots[i])
      {
        ghost var was := alive[..];
        assert forall t: nat :: RootLeads(m, roots[k], t) ==> SomeLeads(m, roots, t);
        MarkRoot(roots[k], from);
        forall i | 0 <= i < k ensures RootMarked(m, alive[..], roots[i]) { RootStays(m, was, alive[..], roots[i]); }
      }
    }

    /** The roots one after the other, then rescans if the mark stack failed. */
    method MarkRoots(roots: seq<Root>)
      requires Marking(RootSet(m, roots)) && forall k :: 0 <= k < |roots| ==> RootOk(m, roots[k])
      modifies Footprint()
      ensures Marking(RootSet(m, roots)) && !stacks.outOfSpace && fresh(stacks.Footprint() - old(stacks.Footprint()))
      ensures old(stacks.overran) ==> stacks.overran
      ensures Exact(m, RootSet(m, roots), alive[..])
      ensures forall t :: t in RootSet(m, roots) ==> IsPlainObject(m, t) && t < alive.Length && alive[t]
    {
      ghost var from := RootSet(m, roots);
      hide Marking, RootOk, RootLeads, RootMarked, WellFormed, IsPlainObject, Reachable, Exact, RootSet;
      MarkEach(roots, from);
      ghost var was := alive[..];
      FinishMarks(from);
      AllMarked(roots, was);
      Settle(from);
    }

    lemma AllMarked(roots: seq<Root>, was: seq<bool>)
      requires Marking(RootSet(m, roots)) && |was| == alive.Length && forall h :: 0 <= h < alive.Length && was[h] ==> alive[h]
      requires forall k :: 0 <= k < |roots| ==> RootOk(m, roots[k]) && RootMarked(m, was, roots[k])
      ensures forall t :: t in RootSet(m, roots) ==> IsPlainObject(m, t) && t < alive.Length && alive[t]
    {
      assert WellFormed(m) && alive.Length == |m.cells|;
      hide Marking, RootOk, RootLeads, RootMarked, WellFormed, IsPlainObject;
      forall i | 0 <= i < |roots| ensures RootMarked(m, alive[..], roots[i]) { RootStays(m, was, alive[..], roots[i]); }
      forall t | t in RootSet(m, roots) ensures IsPlainObject(m, t) && t < alive.Length && alive[t] { RootsMarked(m, roots, alive[..], t); }
    }

    lemma Settle(from: iset<nat>)
      requires Marking(from) && !stacks.outOfSpace && forall t :: t in from ==> IsPlainObject(m, t) && t < alive.Length && alive[t]
      ensures Exact(m, from, alive[..])
    {
      hide Headers, WellFormed, AliveSound, Clean, Stack.Valid, Stack.Contents;
      ExactFrom(m, from, alive[..]);
    }

    /** A finalizable object that nothing reaches is marked one last time. */
    method Resurrect(f: nat, ghost from: iset<nat>)
      requires Marking(from) && IsPlainObject(m, f)
      modifies Footprint()
      ensures Marking(from + iset{f}) && fresh(stacks.Footprint() - old(stacks.Footprint()))
      ensures old(stacks.overran) ==> stacks.overran
      ensures f < alive.Length && alive[f] && forall h :: 0 <= h < alive.Length && old(alive[h]) ==> alive[h]
    {
      ghost var more := from + iset{f};
      ghost var was := alive[..];
      SoundFromMore(m, from, more, alive[..]);
      ReachableObject(m, more, f);
      assert Marking(more) && IsObject(m, f, 1) && f < alive.Length;
      hide Marking, WellFormed, Work, WorkSound;
      Traverse(f, 1, more);
      TraversedParts(m, more, f, 1, was, alive[..], stacks.outOfSpace);
    }

    /** The first `k` finalizable objects have been gone through: those found dead were marked. */
    ghost predicate Sorted(from: iset<nat>, was: seq<bool>, first: seq<nat>, kept: seq<nat>, moved: seq<nat>)
      requires |was| == alive.Length
      reads stacks, stacks.Footprint(), alive
    {
      && Marking(from + ObjectSet(moved)) && multiset(kept) + multiset(moved) == multiset(first)
      && (forall h :: 0 <= h < alive.Length && was[h] ==> alive[h])
      && (forall f :: f in moved ==> f < alive.Length && !was[f])
      && (forall f :: f in kept || f in moved ==> f < alive.Length && alive[f])
    }

    method SortOne(f: nat, ghost from: iset<nat>, ghost was: seq<bool>, ghost first: seq<nat>, kept: seq<nat>, moved: seq<nat>)
      returns (kept': seq<nat>, moved': seq<nat>)
      requires |was| == alive.Length && Sorted(from, was, first, kept, moved) && IsPlainObject(m, f) && f < alive.Length
      modifies Footprint()
      ensures Sorted(from, was, first + [f], kept', moved') && fresh(stacks.Footprint() - old(stacks.Footprint()))
      ensures old(stacks.overran) ==> stacks.overran
    {
      hide Marking, IsPlainObject, ObjectSet;
      kept', moved' := kept, moved;
      if alive[f] {
        kept' := kept + [f];
      } else {
        OneMore(from, moved, f);
        Resurrect(f, from + ObjectSet(moved));
        moved' := moved + [f];
      }
    }

    lemma OneMore(from: iset<nat>, moved: seq<nat>, f: nat)
      ensures from + ObjectSet(moved) + iset{f} == from + ObjectSet(moved + [f])
    {
    }

    ghost predicate AllPlain(all: seq<nat>) {
      forall f :: f in all ==> IsPlainObject(m, f) && f < alive.Length
    }

    lemma OnePlain(all: seq<nat>, k: nat)
      requires AllPlain(all) && k < |all|
      ensures IsPlainObject(m, all[k]) && all[k] < alive.Length && all[..k + 1] == all[..k] + [all[k]]
    {
    }

    lemma NoneSorted(from: iset<nat>)
      requires Marking(from)
      ensures Sorted(from, alive[..], [], [], [])
    {
      hide Marking;
      assert from + ObjectSet([]) == from;
    }

    /** Goes through the finalizable objects: those found dead are marked, and are to be finalized. */
    method ResurrectDead(all: seq<nat>, ghost from: iset<nat>) returns (kept: seq<nat>, moved: seq<nat>)
      requires Marking(from) && AllPlain(all)
      modifies Footprint()
      ensures Sorted(from, old(alive[..]), all, kept, moved) && fresh(stacks.Footprint() - old(stacks.Footprint()))
      ensures old(stacks.overran) ==> stacks.overran
    {
      hide Sorted, Marking, IsPlainObject, ObjectSet, Headers, AllPlain, WellFormed, Reachable, Exact;
      kept, moved := [], [];
      ghost var was, before := alive[..], stacks.Footprint();
      NoneSorted(from);
      assert all[..0] == [];
      for k := 0 to |all|
        invariant Sorted(from, was, all[..k], kept, moved) && fresh(stacks.Footprint() - before)
        invariant old(stacks.overran) ==> stacks.overran
      {
        OnePlain(all, k);
        kept, moved := SortOne(all[k], from, was, all[..k], kept, moved);
      }
      assert all[..|all|] == all;
    }

    method SortFinalizers(all: seq<nat>, ghost from: iset<nat>) returns (kept: seq<nat>, moved: seq<nat>)
      requires Marking(from) && Exact(m, from, alive[..]) && AllPlain(all)
      requires forall t :: t in from ==> IsPlainObject(m, t) && t < alive.Length && alive[t]
      modifies Footprint()
      ensures Concluded(from + ObjectSet(moved), kept) && fresh(stacks.Footprint() - old(stacks.Footprint()))
      ensures old(stacks.overran) ==> stacks.overran
      ensures multiset(kept) + multiset(moved) == multiset(all) && forall f :: f in moved ==> !Reachable(m, from, f)
    {
      hide Marking, Reachable, IsPlainObject, Sorted, ObjectSet, Exact, AllPlain, Concluded, WellFormed, Headers;
      ghost var was := alive[..];
      kept, moved := ResurrectDead(all, from);
      SortedParts(from, was, all, kept, moved);
      FinishMarks(from + ObjectSet(moved));
      SettleKept(from + ObjectSet(moved), kept);
    }

    /** The marks are exactly what `from` reaches, and the objects kept are among it. */
    ghost predicate Concluded(from: iset<nat>, kept: seq<nat>)
      reads stacks, stacks.Footprint(), alive
    {
      Marking(from) && Exact(m, from, alive[..]) && forall f :: f in kept ==> Reachable(m, from, f)
    }

    lemma SettleKept(from: iset<nat>, kept: seq<nat>)
      requires Marking(from) && !stacks.outOfSpace && forall t :: t in from ==> IsPlainObject(m, t) && t < alive.Length && alive[t]
      requires forall f :: f in kept ==> IsPlainObject(m, f) && f < alive.Length && alive[f]
      ensures Concluded(from, kept)
    {
      hide Marking, Reachable, IsPlainObject, Exact;
      Settle(from);
      ExactParts(m, from, alive[..], kept);
    }

    /** Finalizable objects that nothing reaches move to the pending list, marked one last time. */
    method PrepareFinalizers(ghost from: iset<nat>) returns (moved: seq<nat>)
      requires Marking(from) && Exact(m, from, alive[..])
      requires forall f :: f in finalizersAlive ==> IsPlainObject(m, f) && f < alive.Length
      requires forall t :: t in from ==> IsPlainObject(m, t) && t < alive.Length && alive[t]
      modifies this`finalizersAlive, this`finalizersPending, Footprint()
      ensures Concluded(from + ObjectSet(moved), finalizersAlive) && fresh(stacks.Footprint() - old(stacks.Footprint()))
      ensures old(stacks.overran) ==> stacks.overran
      ensures finalizersPending == old(finalizersPending) + moved
      ensures multiset(finalizersAlive) + multiset(moved) == multiset(old(finalizersAlive))
      ensures forall f :: f in moved ==> !Reachable(m, from, f)
    {
      hide Marking, Reachable, IsPlainObject, ObjectSet, Exact, Concluded;
      var kept;
      kept, moved := SortFinalizers(finalizersAlive, from);
      finalizersAlive, finalizersPending := kept, finalizersPending + moved;
    }

    lemma SortedParts(from: iset<nat>, was: seq<bool>, all: seq<nat>, kept: seq<nat>, moved: seq<nat>)
      requires |was| == alive.Length && Sorted(from, was, all, kept, moved) && AllPlain(all)
      requires forall t :: t in from ==> IsPlainObject(m, t) && t < alive.Length && was[t]
      requires Exact(m, from, was)
      ensures Marking(from + ObjectSet(moved)) && multiset(kept) + multiset(moved) == multiset(all)
      ensures forall f :: f in moved ==> !Reachable(m, from, f)
      ensures forall f :: f in kept ==> IsPlainObject(m, f) && f < alive.Length && alive[f]
      ensures forall t :: t in from + ObjectSet(moved) ==> IsPlainObject(m, t) && t < alive.Length && alive[t]
    {
      hide Marking, IsPlainObject;
      forall f | f in kept || f in moved ensures f in all {
        assert f in multiset(kept) || f in multiset(moved);
        assert f in multiset(all);
      }
      hide Reachable;
      forall f | f in moved ensures !Reachable(m, from, f) { assert f in all && !was[f]; }
    }

    lemma Apart()
      ensures (this as object) !in Footprint()
    {
    }

    method Begin(ghost from: iset<nat>)
      requires Valid() && stacks.Contents() == [] && forall h: nat :: IsPlainObject(m, h) && h < alive.Length ==> !alive[h]
      modifies stacks`outOfSpace
      ensures Marking(from) && Footprint() == old(Footprint())
    {
      stacks.outOfSpace := false;
    }

    lemma StartMarking(roots: seq<Root>)
      requires Valid() && forall k :: 0 <= k < |roots| ==> RootOk(m, roots[k])
      requires forall f :: f in finalizersAlive || f in finalizersPending ==> IsPlainObject(m, f)
      ensures var all := Singles(finalizersPending) + roots;
              && RootSet(m, all) == RootSet(m, roots) + ObjectSet(finalizersPending)
              && forall k :: 0 <= k < |all| ==> RootOk(m, all[k])
      ensures forall f :: f in finalizersAlive ==> IsPlainObject(m, f) && f < alive.Length
    {
      PendingRoots(m, finalizersPending, roots);
    }

    method MarkFromRoots(all: seq<Root>, ghost from: iset<nat>)
      requires Valid() && stacks.Contents() == [] && from == RootSet(m, all)
      requires forall h: nat :: IsPlainObject(m, h) && h < alive.Length ==> !alive[h]
      requires forall k :: 0 <= k < |all| ==> RootOk(m, all[k])
      modifies Footprint()
      ensures Marking(from) && Exact(m, from, alive[..]) && fresh(stacks.Footprint() - old(stacks.Footprint()))
      ensures old(stacks.overran) ==> stacks.overran
      ensures forall t :: t in from ==> IsPlainObject(m, t) && t < alive.Length && alive[t]
    {
      hide Reachable, Exact, RootSet, RootOk, IsPlainObject, WellFormed, Marking, Valid, Headers;
      Begin(from);
      MarkRoots(all);
    }

    method Conclude(ghost from: iset<nat>) returns (moved: seq<nat>)
      requires Marking(from) && Exact(m, from, alive[..])
      requires forall f :: f in finalizersAlive ==> IsPlainObject(m, f) && f < alive.Length
      requires forall t :: t in from ==> IsPlainObject(m, t) && t < alive.Length && alive[t]
      modifies this`finalizersAlive, this`finalizersPending, Footprint()
      ensures Valid() && stacks.Contents() == [] && |stacks.list| == 1 && fresh(stacks.Footprint() - old(stacks.Footprint()))
      ensures old(stacks.overran) ==> stacks.overran
      ensures finalizersPending == old(finalizersPending) + moved
      ensures multiset(finalizersAlive) + multiset(moved) == multiset(old(finalizersAlive))
      ensures forall f :: f in moved ==> !Reachable(m, from, f)
      ensures forall f :: f in finalizersAlive ==> Reachable(m, from + ObjectSet(moved), f)
      ensures Exact(m, from + ObjectSet(moved), alive[..])
    {
      hide Marking, Valid, Reachable, Exact, IsPlainObject, ObjectSet;
      moved := PrepareFinalizers(from);
      ReleaseChunks(from + ObjectSet(moved));
    }

    method ReleaseChunks(ghost from: iset<nat>)
      requires Marking(from)
      modifies stacks`list
      ensures Valid() && stacks.Contents() == [] && |stacks.list| == 1 && stacks.Footprint() <= old(stacks.Footprint())
    {
      hide Stack.Valid, Stack.Contents;
      stacks.Release();
    }

    /** The mark phase.  Whatever chunks of mark stack there is memory for, what ends up marked is what can be
        reached from the roots, the objects waiting for their finalizers, and those that join them now; and those
        that join are the finalizable objects that could not be reached.  This is so for the mark stack as it is
        meant, and for the mark stack as it is written unless some push has led past the end of its chunk. */
    method Mark(roots: seq<Root>) returns (moved: seq<nat>)
      requires Valid() && stacks.Contents() == []
      requires forall h: nat :: IsPlainObject(m, h) && h < alive.Length ==> !alive[h]
      requires forall k :: 0 <= k < |roots| ==> RootOk(m, roots[k])
      requires forall f :: f in finalizersAlive || f in finalizersPending ==> IsPlainObject(m, f)
      modifies this`finalizersAlive, this`finalizersPending, Footprint()
      ensures Valid() && stacks.Contents() == [] && |stacks.list| == 1 && fresh(stacks.Footprint() - old(stacks.Footprint()))
      ensures old(stacks.overran) ==> stacks.overran
      ensures finalizersPending == old(finalizersPending) + moved
      ensures multiset(finalizersAlive) + multiset(moved) == multiset(old(finalizersAlive))
      ensures !stacks.asWritten ==> !stacks.overran
      ensures !stacks.overran ==>
              var from := RootSet(m, roots) + ObjectSet(old(finalizersPending));
              && (forall f :: f in moved ==> !Reachable(m, from, f))
              && (forall f :: f in finalizersAlive ==> Reachable(m, from + ObjectSet(moved), f))
              && Exact(m, from + ObjectSet(moved), alive[..])
      ensures !stacks.overran ==> HoldsOn(m, alive[..]) && Justified(m, alive[..], roots, old(finalizersPending), moved)
    {
      Apart();
      StartMarking(roots);
      hide Marking, Valid, Reachable, Exact, RootSet, RootOk, IsPlainObject, ObjectSet, Headers, HoldsOn, Justified;
      ghost var from := RootSet(m, roots) + ObjectSet(finalizersPending);
      MarkFromRoots(Singles(finalizersPending) + roots, from);
      ghost var pending, finalizers := finalizersPending, finalizersAlive;
      moved := Conclude(from);
      Meant(roots, pending, moved, finalizers);
    }

    lemma Meant(roots: seq<Root>, pending: seq<nat>, moved: seq<nat>, finalizers: seq<nat>)
      requires Valid() && Exact(m, RootSet(m, roots) + ObjectSet(pending) + ObjectSet(moved), alive[..])
      requires forall k :: 0 <= k < |roots| ==> RootOk(m, roots[k])
      requires forall f :: f in finalizers || f in pending ==> IsPlainObject(m, f)
      requires multiset(finalizersAlive) + multiset(moved) == multiset(finalizers)
      ensures HoldsOn(m, alive[..]) && Justified(m, alive[..], roots, pending, moved)
    {
      hide Exact, WellFormed, RootOk, IsPlainObject, RootSet, ObjectSet, HoldsOn, Justified, Headers;
      MarksMean(m, roots, pending, moved, alive[..], finalizers, finalizersAlive);
    }
  }
}
