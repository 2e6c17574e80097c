/** Marking: every object that can be reached is marked, however little the mark stack can grow. */
module Marking {
  import opened Wrappers
  import opened MarkStack
  import opened Reachability

  // ---------- What a traversal still has to do ----------

  /** The cells `num` from `lst` on are one object to mark. */
  ghost predicate IsObject(m: Memory, lst: nat, num: nat) {
    num == 1 && lst in Headers(m) && lst !in m.events
  }

  ghost predicate Work(m: Memory, lst: nat, num: nat) {
    num == 0 || IsObject(m, lst, num) || PlainCells(m, lst, num)
  }

  ghost predicate Shapes(m: Memory, pend: seq<Entry>) {
    forall k :: 0 <= k < |pend| ==> pend[k].num > 0 && PlainCells(m, pend[k].ptr, pend[k].num)
  }

  /** All that the cells lead to is reachable. */
  ghost predicate WorkSound(m: Memory, from: iset<nat>, lst: nat, num: nat) {
    && (IsObject(m, lst, num) ==> Reachable(m, from, lst))
    && (forall c: nat, t: nat :: lst <= c < lst + num && Refers(m, c, t) ==> Reachable(m, from, t))
  }

  ghost predicate PendSound(m: Memory, from: iset<nat>, pend: seq<Entry>) {
    forall k :: 0 <= k < |pend| ==> WorkSound(m, from, pend[k].ptr, pend[k].num)
  }

  ghost predicate MarksSound(m: Memory, from: iset<nat>, was: seq<bool>, now: seq<bool>)
    requires |was| == |now| == |m.cells|
  {
    forall h :: h in Headers(m) && h < |now| && now[h] ==> was[h] || Reachable(m, from, h)
  }

  /** What the cell refers to, if anything, is marked. */
  ghost predicate Settled(m: Memory, now: seq<bool>, c: nat)
    requires |now| == |m.cells|
  {
    c < |m.cells| && m.cells[c].Reference? && m.cells[c].target.Some? && m.cells[c].target.value < |now| ==>
      now[m.cells[c].target.value]
  }

  ghost predicate OnStack(pend: seq<Entry>, c: nat) {
    exists k :: 0 <= k < |pend| && pend[k].ptr <= c < pend[k].ptr + pend[k].num
  }

  /** The cell is settled, or it is on the stack, or its turn is now. */
  ghost predicate Safe(m: Memory, now: seq<bool>, pend: seq<Entry>, lst: nat, num: nat, c: nat)
    requires |now| == |m.cells|
  {
    || Settled(m, now, c) || OnStack(pend, c)
    || (num == 1 && (lst == c || (c < |m.cells| && m.cells[c] == Reference(Some(lst)))))
  }

  ghost predicate Covered(m: Memory, now: seq<bool>, pend: seq<Entry>, lst: nat, num: nat, c: nat)
    requires |now| == |m.cells|
  {
    Safe(m, now, pend, lst, num, c) || lst <= c < lst + num
  }

  /** A traversal from the cells `num0` from `lst0` on: `was` the marks at its start, `now` the present ones. */
  datatype Trace = Trace(lst0: nat, num0: nat, was: seq<bool>, now: seq<bool>, pend: seq<Entry>, lst: nat, num: nat)

  ghost predicate TraceOk(m: Memory, t: Trace) {
    && |t.was| == |t.now| == |m.cells|
    && Shapes(m, t.pend) && Work(m, t.lst, t.num) && Work(m, t.lst0, t.num0)
    && (forall h :: h in m.events && h < |t.now| && h in Headers(m) ==> t.now[h])
    && (forall h :: 0 <= h < |t.now| && t.was[h] ==> t.now[h])
  }

  ghost predicate TraceSound(m: Memory, from: iset<nat>, t: Trace)
    requires TraceOk(m, t)
  {
    PendSound(m, from, t.pend) && WorkSound(m, from, t.lst, t.num) && MarksSound(m, from, t.was, t.now)
  }

  /** Object `h` was met by this traversal. */
  ghost predicate Met(m: Memory, t: Trace, started: bool, h: nat)
    requires TraceOk(m, t)
  {
    h in Headers(m) && h < |t.now| && ((!t.was[h] && t.now[h]) || (started && IsObject(m, t.lst0, t.num0) && h == t.lst0))
  }

  /** Nothing that an object met leads to has been forgotten. */
  ghost predicate ObjectsCovered(m: Memory, t: Trace, started: bool)
    requires TraceOk(m, t)
  {
    forall h, c :: Met(m, t, started, h) && InList(m, h, c) ==> Covered(m, t.now, t.pend, t.lst, t.num, c)
  }

  ghost predicate StartSafe(m: Memory, t: Trace)
    requires TraceOk(m, t)
  {
    PlainCells(m, t.lst0, t.num0) ==>
      forall c :: t.lst0 <= c < t.lst0 + t.num0 ==> Safe(m, t.now, t.pend, t.lst, t.num, c)
  }

  ghost predicate SomeNew(m: Memory, t: Trace)
    requires TraceOk(m, t)
  {
    exists h :: h in Headers(m) && h < |t.now| && !t.was[h] && t.now[h]
  }

  /** What holds at the head of the loop once it has been through it. */
  ghost predicate Tracing(m: Memory, t: Trace, outOfSpace: bool)
    requires TraceOk(m, t)
  {
    && StartSafe(m, t) && (outOfSpace || ObjectsCovered(m, t, true))
    && (t.num > 1 ==> t.pend == [] || SomeNew(m, t))
    && (IsObject(m, t.lst, t.num) && t.lst < |t.now| ==> !t.now[t.lst])
    && (IsObject(m, t.lst0, t.num0) && t.lst0 < |t.now| ==> t.now[t.lst0])
  }

  /** What holds when cell or object `t.lst` is about to be marked. */
  ghost predicate Turn(m: Memory, t: Trace, started: bool, outOfSpace: bool)
    requires TraceOk(m, t)
  {
    && t.num == 1 && StartSafe(m, t) && (outOfSpace || ObjectsCovered(m, t, started))
    && (IsObject(m, t.lst, 1) && t.lst < |t.now| && t.now[t.lst] ==> t.pend == [] && !started)
    && (IsObject(m, t.lst0, t.num0) && t.lst0 < |t.now| ==> if started then t.now[t.lst0] else t.lst0 == t.lst)
  }

  lemma StartTrace(m: Memory, from: iset<nat>, t: Trace)
    requires |t.was| == |m.cells| && t == Trace(t.lst0, t.num0, t.was, t.was, [], t.lst0, t.num0)
    requires Work(m, t.lst0, t.num0) && WorkSound(m, from, t.lst0, t.num0)
    requires forall h :: h in m.events && h in Headers(m) && h < |t.now| ==> t.now[h]
    ensures TraceOk(m, t) && TraceSound(m, from, t)
  {
  }

  // ---------- Choosing the next cell ----------

  /** The cells of entry `e` after its first one. */
  function Tail(e: Entry): seq<Entry> {
    if e.num <= 1 then [] else [Entry(e.ptr + 1, e.num - 1)]
  }

  lemma TakeShapes(m: Memory, pend: seq<Entry>, e: Entry)
    requires Shapes(m, pend + [e])
    ensures Shapes(m, pend + Tail(e)) && PlainCells(m, e.ptr, 1)
  {
    assert (pend + [e])[|pend|] == e;
    forall k | 0 <= k < |pend| ensures pend[k].num > 0 && PlainCells(m, pend[k].ptr, pend[k].num) {
      assert (pend + [e])[k] == pend[k];
    }
  }

  lemma TakeSound(m: Memory, from: iset<nat>, pend: seq<Entry>, e: Entry)
    requires PendSound(m, from, pend + [e]) && Shapes(m, pend + [e])
    ensures PendSound(m, from, pend + Tail(e)) && WorkSound(m, from, e.ptr, 1)
  {
    assert (pend + [e])[|pend|] == e;
    assert WorkSound(m, from, e.ptr, e.num);
    assert PlainCells(m, e.ptr, e.num);
    forall k | 0 <= k < |pend| + |Tail(e)| ensures WorkSound(m, from, (pend + Tail(e))[k].ptr, (pend + Tail(e))[k].num) {
      if k < |pend| { assert (pend + [e])[k] == pend[k]; }
      else { assert e.num > 1 && e.ptr + 1 !in Headers(m); }
    }
  }

  lemma TakeCovers(m: Memory, now: seq<bool>, pend: seq<Entry>, e: Entry, c: nat)
    requires |now| == |m.cells| && (Settled(m, now, c) || OnStack(pend + [e], c))
    ensures Safe(m, now, pend + Tail(e), e.ptr, 1, c)
  {
    if OnStack(pend + [e], c) && c != e.ptr {
      var k :| 0 <= k < |pend + [e]| && (pend + [e])[k].ptr <= c < (pend + [e])[k].ptr + (pend + [e])[k].num;
      assert (pend + Tail(e))[k].ptr <= c < (pend + Tail(e))[k].ptr + (pend + Tail(e))[k].num;
    }
  }

  /** The top entry gives up its first cell. */
  lemma TakeTurn(m: Memory, from: iset<nat>, t: Trace, pend: seq<Entry>, e: Entry, outOfSpace: bool)
    requires TraceOk(m, t) && TraceSound(m, from, t) && Tracing(m, t, outOfSpace)
    requires t.num == 0 && t.pend == pend + [e]
    ensures var u := t.(pend := pend + Tail(e), lst := e.ptr, num := 1);
            TraceOk(m, u) && TraceSound(m, from, u) && Turn(m, u, true, outOfSpace)
  {
    var u := t.(pend := pend + Tail(e), lst := e.ptr, num := 1);
    TakeShapes(m, pend, e);
    TakeSound(m, from, pend, e);
    forall c: nat | Settled(m, t.now, c) || OnStack(t.pend, c) ensures Safe(m, u.now, u.pend, u.lst, u.num, c) {
      TakeCovers(m, t.now, pend, e, c);
    }
    forall c | t.lst0 <= c < t.lst0 + t.num0 && PlainCells(m, t.lst0, t.num0) ensures Safe(m, u.now, u.pend, u.lst, u.num, c) {
      assert Safe(m, t.now, t.pend, t.lst, t.num, c);
    }
    if !outOfSpace {
      forall h, c | Met(m, u, true, h) && InList(m, h, c) ensures Covered(m, u.now, u.pend, u.lst, u.num, c) {
        assert Met(m, t, true, h) && Covered(m, t.now, t.pend, t.lst, t.num, c);
      }
    }
  }

  // The cells from `lst` on, more than one: the first has its turn, the others go on the stack.

  lemma PushCovers(m: Memory, t: Trace, c: nat)
    requires |t.now| == |m.cells| && t.num > 1 && Covered(m, t.now, t.pend, t.lst, t.num, c)
    ensures Safe(m, t.now, t.pend + [Entry(t.lst + 1, t.num - 1)], t.lst, 1, c)
  {
    var pend := t.pend + [Entry(t.lst + 1, t.num - 1)];
    if OnStack(t.pend, c) {
      var k :| 0 <= k < |t.pend| && t.pend[k].ptr <= c < t.pend[k].ptr + t.pend[k].num;
      assert pend[k].ptr <= c < pend[k].ptr + pend[k].num;
    } else if t.lst < c < t.lst + t.num {
      assert pend[|t.pend|].ptr <= c < pend[|t.pend|].ptr + pend[|t.pend|].num;
    }
  }

  lemma PushShapes(m: Memory, from: iset<nat>, t: Trace)
    requires TraceOk(m, t) && TraceSound(m, from, t) && t.num > 1
    ensures PlainCells(m, t.lst, t.num) && t.lst !in Headers(m)
    ensures var e := Entry(t.lst + 1, t.num - 1);
            Shapes(m, t.pend + [e]) && PendSound(m, from, t.pend + [e]) && PlainCells(m, t.lst, 1) && WorkSound(m, from, t.lst, 1)
  {
    var pend := t.pend + [Entry(t.lst + 1, t.num - 1)];
    forall k | 0 <= k < |pend| ensures pend[k].num > 0 && PlainCells(m, pend[k].ptr, pend[k].num) && WorkSound(m, from, pend[k].ptr, pend[k].num) {
      if k < |t.pend| { assert pend[k] == t.pend[k]; }
    }
  }

  lemma PushTurn(m: Memory, from: iset<nat>, t: Trace, outOfSpace: bool)
    requires TraceOk(m, t) && TraceSound(m, from, t) && Tracing(m, t, outOfSpace) && t.num > 1
    ensures var u := t.(pend := t.pend + [Entry(t.lst + 1, t.num - 1)], num := 1);
            TraceOk(m, u) && TraceSound(m, from, u) && Turn(m, u, true, outOfSpace)
  {
    var u := t.(pend := t.pend + [Entry(t.lst + 1, t.num - 1)], num := 1);
    PushShapes(m, from, t);
    forall c: nat | Covered(m, t.now, t.pend, t.lst, t.num, c) ensures Safe(m, u.now, u.pend, u.lst, u.num, c) {
      PushCovers(m, t, c);
    }
    if !outOfSpace {
      forall h, c | Met(m, u, true, h) && InList(m, h, c) ensures Covered(m, u.now, u.pend, u.lst, u.num, c) {
        assert Met(m, t, true, h) && Covered(m, t.now, t.pend, t.lst, t.num, c);
      }
    }
  }

  /** At the start nothing is on the stack. */
  lemma StartPushTurn(m: Memory, from: iset<nat>, t: Trace, outOfSpace: bool)
    requires TraceOk(m, t) && TraceSound(m, from, t)
    requires t.num > 1 && t.pend == [] && t.lst == t.lst0 && t.num == t.num0 && t.now == t.was
    ensures var u := t.(pend := t.pend + [Entry(t.lst + 1, t.num - 1)], num := 1);
            TraceOk(m, u) && TraceSound(m, from, u) && Turn(m, u, false, outOfSpace)
  {
    var u := t.(pend := t.pend + [Entry(t.lst + 1, t.num - 1)], num := 1);
    PushShapes(m, from, t);
    forall c | t.lst <= c < t.lst + t.num ensures Safe(m, u.now, u.pend, u.lst, u.num, c) {
      PushCovers(m, t, c);
    }
  }

  lemma StartTurn(m: Memory, from: iset<nat>, t: Trace, outOfSpace: bool)
    requires TraceOk(m, t) && TraceSound(m, from, t)
    requires t.num == 1 && t.pend == [] && t.lst == t.lst0 && t.num == t.num0 && t.now == t.was
    ensures Turn(m, t, false, outOfSpace)
  {
  }

  lemma OneTurn(m: Memory, from: iset<nat>, t: Trace, outOfSpace: bool)
    requires TraceOk(m, t) && Tracing(m, t, outOfSpace) && t.num == 1
    ensures Turn(m, t, true, outOfSpace)
  {
  }

  /** Cells that find no room are given up; those of the start are never among them. */
  lemma DropKeeps(m: Memory, from: iset<nat>, t: Trace, outOfSpace: bool)
    requires TraceOk(m, t) && TraceSound(m, from, t) && Tracing(m, t, outOfSpace) && t.num > 1 && t.pend != []
    ensures var u := t.(lst := 0, num := 0);
            TraceOk(m, u) && TraceSound(m, from, u) && Tracing(m, u, true) && SomeNew(m, u)
  {
    var u := t.(lst := 0, num := 0);
    forall c | t.lst0 <= c < t.lst0 + t.num0 && PlainCells(m, t.lst0, t.num0) ensures Safe(m, u.now, u.pend, u.lst, u.num, c) {
      assert Safe(m, t.now, t.pend, t.lst, t.num, c);
    }
    var h :| h in Headers(m) && h < |t.now| && !t.was[h] && t.now[h];
    assert h < |u.now| && !u.was[h] && u.now[h];
  }

  // ---------- Marking it ----------

  lemma SettledMore(m: Memory, now: seq<bool>, ptr: nat, pend: seq<Entry>, lst: nat, num: nat, c: nat)
    requires |now| == |m.cells| && ptr < |now| && Safe(m, now, pend, ptr, 1, c)
    requires m.cells[ptr].Reference? && m.cells[ptr].target.Some? ==>
               var s := m.cells[ptr].target.value; s < |now| && (now[s] || s == ptr || (lst == s && num == 1))
    ensures Safe(m, now[ptr := true], pend, lst, num, c)
  {
  }

  /** The trace after its turn has been taken: cell `t.lst` is marked and `e` is what it leads to. */
  function Marked(t: Trace, e: (nat, nat)): Trace
    requires t.lst < |t.now|
  {
    t.(now := t.now[t.lst := true], lst := e.0, num := e.1)
  }

  lemma ObjectShapes(m: Memory, from: iset<nat>, t: Trace)
    requires WellFormed(m) && TraceOk(m, t) && TraceSound(m, from, t) && t.num == 1 && IsObject(m, t.lst, 1)
    ensures t.lst < |m.cells| && !m.cells[t.lst].Reference?
    ensures var u := Marked(t, ListOf(m.cells, t.lst)); TraceOk(m, u) && TraceSound(m, from, u)
  {
    var ptr := t.lst;
    var u := Marked(t, ListOf(m.cells, ptr));
    forall c, s | u.lst <= c < u.lst + u.num && Refers(m, c, s) ensures Reachable(m, from, s) {
      assert InList(m, ptr, c);
      ReachEdge(m, from, ptr, c, s);
    }
  }

  /** An object: its list is next. */
  lemma MarkObject(m: Memory, from: iset<nat>, t: Trace, started: bool, outOfSpace: bool)
    requires WellFormed(m) && TraceOk(m, t) && TraceSound(m, from, t) && Turn(m, t, started, outOfSpace)
    requires IsObject(m, t.lst, 1)
    ensures t.lst < |m.cells|
    ensures var u := Marked(t, ListOf(m.cells, t.lst));
            TraceOk(m, u) && TraceSound(m, from, u) && Tracing(m, u, outOfSpace)
  {
    ObjectShapes(m, from, t);
    var ptr := t.lst;
    var u := Marked(t, ListOf(m.cells, ptr));
    hide WellFormed, TraceSound, Reachable;
    forall c | t.lst0 <= c < t.lst0 + t.num0 && PlainCells(m, t.lst0, t.num0) ensures Safe(m, u.now, u.pend, u.lst, u.num, c) {
      SettledMore(m, t.now, ptr, t.pend, u.lst, u.num, c);
    }
    if !outOfSpace {
      forall h, c | Met(m, u, true, h) && InList(m, h, c) ensures Covered(m, u.now, u.pend, u.lst, u.num, c) {
        if h != ptr {
          assert Met(m, t, started, h) && Covered(m, t.now, t.pend, ptr, 1, c);
          SettledMore(m, t.now, ptr, t.pend, u.lst, u.num, c);
        }
      }
    }
    if u.num > 1 && t.pend != [] { assert !u.was[ptr] && u.now[ptr]; }
  }

  /** What a cell leads to: the object it refers to, unless that is marked already. */
  function Sub(m: Memory, now: seq<bool>, ptr: nat): (nat, nat)
    requires ptr < |m.cells| == |now|
  {
    match m.cells[ptr]
    case Reference(Some(s)) => if s < |now| && !now[s] then (s, 1) else (0, 0)
    case _ => (0, 0)
  }

  lemma CellShapes(m: Memory, from: iset<nat>, t: Trace)
    requires WellFormed(m) && TraceOk(m, t) && TraceSound(m, from, t) && t.num == 1 && !IsObject(m, t.lst, 1)
    ensures t.lst < |m.cells| && PlainCells(m, t.lst, 1) && t.lst !in Headers(m)
    ensures var e := Sub(m, t.now[t.lst := true], t.lst); var u := Marked(t, e);
            TraceOk(m, u) && TraceSound(m, from, u) && (e.1 == 0 || (e.1 == 1 && IsObject(m, e.0, 1) && e.0 < |t.now| && !u.now[e.0]))
  {
    var e := Sub(m, t.now[t.lst := true], t.lst);
    var u := Marked(t, e);
    if e.1 != 0 {
      assert Refers(m, t.lst, e.0) && Reachable(m, from, e.0) && e.0 in Headers(m) && !m.cells[e.0].Reference?;
      assert WorkSound(m, from, e.0, 1);
    }
  }

  /** A plain cell: the object it refers to is next, unless it is marked already. */
  lemma MarkCell(m: Memory, from: iset<nat>, t: Trace, started: bool, outOfSpace: bool)
    requires WellFormed(m) && TraceOk(m, t) && TraceSound(m, from, t) && Turn(m, t, started, outOfSpace)
    requires !IsObject(m, t.lst, 1)
    ensures t.lst < |m.cells|
    ensures var u := Marked(t, Sub(m, t.now[t.lst := true], t.lst));
            TraceOk(m, u) && TraceSound(m, from, u) && Tracing(m, u, outOfSpace)
  {
    CellShapes(m, from, t);
    var ptr := t.lst;
    var u := Marked(t, Sub(m, t.now[ptr := true], ptr));
    hide WellFormed, TraceSound, Reachable;
    forall c | t.lst0 <= c < t.lst0 + t.num0 && PlainCells(m, t.lst0, t.num0) ensures Safe(m, u.now, u.pend, u.lst, u.num, c) {
      SettledMore(m, t.now, ptr, t.pend, u.lst, u.num, c);
    }
    if !outOfSpace {
      forall h, c | Met(m, u, true, h) && InList(m, h, c) ensures Covered(m, u.now, u.pend, u.lst, u.num, c) {
        assert Met(m, t, started, h) && Covered(m, t.now, t.pend, ptr, 1, c);
        SettledMore(m, t.now, ptr, t.pend, u.lst, u.num, c);
      }
    }
  }

  /** What follows from cell or object `ptr`. */
  function Leads(m: Memory, now: seq<bool>, ptr: nat): (nat, nat)
    requires ptr < |m.cells| == |now|
  {
    if m.cells[ptr].Reference? then Sub(m, now, ptr) else ListOf(m.cells, ptr)
  }

  lemma MarkTurn(m: Memory, from: iset<nat>, t: Trace, started: bool, outOfSpace: bool)
    requires WellFormed(m) && TraceOk(m, t) && TraceSound(m, from, t) && Turn(m, t, started, outOfSpace)
    ensures t.lst < |m.cells|
    ensures var u := Marked(t, Leads(m, t.now[t.lst := true], t.lst));
            && TraceOk(m, u) && TraceSound(m, from, u) && Tracing(m, u, outOfSpace)
            && (SomeNew(m, t) ==> SomeNew(m, u))
            && (started ==> Dead(m, u.now) < Dead(m, t.now) || (Dead(m, u.now) == Dead(m, t.now) && Total(m, u) < Total(m, t)))
  {
    hide TraceSound, Tracing, Safe, StartSafe, ObjectsCovered;
    if IsObject(m, t.lst, 1) {
      ObjectShapes(m, from, t);
      MarkObject(m, from, t, started, outOfSpace);
    } else {
      CellShapes(m, from, t);
      MarkCell(m, from, t, started, outOfSpace);
    }
    if started { TurnEnds(m, t, Leads(m, t.now[t.lst := true], t.lst)); }
  }

  // ---------- The end of a traversal ----------

  /** Everything that object `h` refers to is marked. */
  ghost predicate Closed(m: Memory, now: seq<bool>, h: nat)
    requires |now| == |m.cells|
  {
    forall c: nat :: InList(m, h, c) ==> Settled(m, now, c)
  }

  /** What a traversal from `num0` cells at `lst0` has done. */
  ghost predicate Traversed(m: Memory, from: iset<nat>, lst0: nat, num0: nat, was: seq<bool>, now: seq<bool>, outOfSpace: bool)
    requires |was| == |now| == |m.cells|
  {
    && (forall h :: 0 <= h < |now| && was[h] ==> now[h])
    && MarksSound(m, from, was, now)
    && (PlainCells(m, lst0, num0) ==> forall c :: lst0 <= c < lst0 + num0 ==> Settled(m, now, c))
    && (IsObject(m, lst0, num0) && lst0 < |now| ==> now[lst0] && (!outOfSpace ==> Closed(m, now, lst0)))
    && (!outOfSpace ==> forall h :: h in Headers(m) && h < |now| && !was[h] && now[h] ==> Closed(m, now, h))
  }

  lemma Finish(m: Memory, from: iset<nat>, t: Trace, outOfSpace: bool)
    requires TraceOk(m, t) && TraceSound(m, from, t) && t.num == 0 && t.pend == []
    requires Tracing(m, t, outOfSpace) || (t.num0 == 0 && t.was == t.now)
    ensures Traversed(m, from, t.lst0, t.num0, t.was, t.now, outOfSpace)
  {
    if Tracing(m, t, outOfSpace) && !outOfSpace {
      forall h, c: nat | Met(m, t, true, h) && InList(m, h, c) ensures Settled(m, t.now, c) {
        assert Covered(m, t.now, t.pend, t.lst, t.num, c);
      }
      forall h | Met(m, t, true, h) ensures Closed(m, t.now, h) {}
      if IsObject(m, t.lst0, t.num0) && t.lst0 < |t.now| { assert Met(m, t, true, t.lst0); }
      forall h | h in Headers(m) && h < |t.now| && !t.was[h] && t.now[h] ensures Closed(m, t.now, h) { assert Met(m, t, true, h); }
    }
    if Tracing(m, t, outOfSpace) && PlainCells(m, t.lst0, t.num0) {
      forall c | t.lst0 <= c < t.lst0 + t.num0 ensures Settled(m, t.now, c) {
        assert Safe(m, t.now, t.pend, t.lst, t.num, c);
      }
    }
  }

  // ---------- A traversal ends ----------

  function Dead(m: Memory, now: seq<bool>): set<nat> {
    set h | h in Headers(m) && h < |now| && !now[h]
  }

  function Weight(pend: seq<Entry>): nat {
    if pend == [] then 0 else Weight(pend[..|pend| - 1]) + 2 * pend[|pend| - 1].num
  }

  /** What is left to do, as a number. */
  ghost function Total(m: Memory, t: Trace): nat {
    Weight(t.pend) + if IsObject(m, t.lst, t.num) then 1 else 2 * t.num
  }

  lemma WeightMore(pend: seq<Entry>, e: Entry)
    ensures Weight(pend + [e]) == Weight(pend) + 2 * e.num
    ensures Weight(pend + Tail(e)) == Weight(pend) + if e.num <= 1 then 0 else 2 * (e.num - 1)
  {
    assert (pend + [e])[..|pend|] == pend;
    if e.num > 1 { assert (pend + Tail(e))[..|pend|] == pend; } else { assert pend + Tail(e) == pend; }
  }

  lemma TakeTotal(m: Memory, t: Trace, pend: seq<Entry>, e: Entry)
    requires t.num == 0 && t.pend == pend + [e] && Shapes(m, t.pend)
    ensures Total(m, t.(pend := pend + Tail(e), lst := e.ptr, num := 1)) == Total(m, t)
  {
    TakeShapes(m, pend, e);
    assert t.pend[|pend|] == e;
    WeightMore(pend, e);
  }

  lemma PushTotal(m: Memory, t: Trace)
    requires t.num > 1 && Work(m, t.lst, t.num)
    ensures Total(m, t.(pend := t.pend + [Entry(t.lst + 1, t.num - 1)], num := 1)) == Total(m, t)
  {
    WeightMore(t.pend, Entry(t.lst + 1, t.num - 1));
  }

  /** A turn leaves fewer dead objects, or as many and less to do. */
  lemma TurnEnds(m: Memory, t: Trace, e: (nat, nat))
    requires TraceOk(m, t) && t.num == 1 && t.lst < |t.now|
    requires if IsObject(m, t.lst, 1) then !t.now[t.lst] else t.lst !in Headers(m) && (e.1 == 0 || IsObject(m, e.0, e.1))
    ensures var u := Marked(t, e);
            Dead(m, u.now) < Dead(m, t.now) || (Dead(m, u.now) == Dead(m, t.now) && Total(m, u) < Total(m, t))
  {
    DeadLess(m, t.now, t.lst);
  }

  /** Marking a dead object leaves fewer of them; marking anything else leaves as many. */
  lemma DeadLess(m: Memory, now: seq<bool>, ptr: nat)
    requires ptr < |now|
    ensures if ptr in Headers(m) && !now[ptr] then Dead(m, now[ptr := true]) < Dead(m, now)
            else Dead(m, now[ptr := true]) == Dead(m, now)
  {
    if ptr in Headers(m) && !now[ptr] { assert ptr in Dead(m, now) && ptr !in Dead(m, now[ptr := true]); }
  }

  lemma NewIsFewer(m: Memory, t: Trace)
    requires TraceOk(m, t) && SomeNew(m, t)
    ensures Dead(m, t.now) < Dead(m, t.was)
  {
    var h :| h in Headers(m) && h < |t.now| && !t.was[h] && t.now[h];
    assert h in Dead(m, t.was) && h !in Dead(m, t.now);
  }

  // ---------- Rescanning the heap ----------

  /** Only what is reachable has been marked. */
  ghost predicate AliveSound(m: Memory, from: iset<nat>, now: seq<bool>) {
    forall h :: h in Headers(m) && h !in m.events && h < |now| && now[h] ==> Reachable(m, from, h)
  }

  /** No marked object of `among`, and none marked since `start`, refers to an unmarked one. */
  ghost predicate Clean(m: Memory, start: seq<bool>, now: seq<bool>, among: set<nat>)
    requires |start| == |now| == |m.cells|
  {
    forall h :: h in Headers(m) && h !in m.events && h < |now| && now[h] && (h in among || !start[h]) ==> Closed(m, now, h)
  }

  lemma ClosedStays(m: Memory, was: seq<bool>, now: seq<bool>, h: nat)
    requires |was| == |now| == |m.cells| && Closed(m, was, h)
    requires forall i :: 0 <= i < |now| && was[i] ==> now[i]
    ensures Closed(m, now, h)
  {
    forall c: nat | InList(m, h, c) ensures Settled(m, now, c) { assert Settled(m, was, c); }
  }

  /** A traversal that never ran out of space leaves the marks clean. */
  lemma CleanMore(m: Memory, from: iset<nat>, start: seq<bool>, was: seq<bool>, now: seq<bool>, lst: nat, num: nat, among: set<nat>)
    requires |start| == |was| == |now| == |m.cells| && Traversed(m, from, lst, num, was, now, false)
    requires Clean(m, start, was, among)
    ensures Clean(m, start, now, among + if IsObject(m, lst, num) then {lst} else {})
  {
    forall h | h in Headers(m) && h !in m.events && h < |now| && now[h] && (h in among || !start[h] || (IsObject(m, lst, num) && h == lst))
      ensures Closed(m, now, h) {
      if was[h] && (h in among || !start[h]) { ClosedStays(m, was, now, h); }
    }
  }

  lemma AliveMore(m: Memory, from: iset<nat>, was: seq<bool>, now: seq<bool>)
    requires |was| == |now| == |m.cells| && MarksSound(m, from, was, now) && AliveSound(m, from, was)
    ensures AliveSound(m, from, now)
  {
  }

  /** Marks that are sound, hold the start and are clean are the objects that can be reached. */
  lemma ExactMarks(m: Memory, from: iset<nat>, now: seq<bool>, h: nat)
    requires WellFormed(m) && |now| == |m.cells| && AliveSound(m, from, now) && Clean(m, now, now, Headers(m))
    requires forall t :: t in from ==> t in Headers(m) && t !in m.events && t < |now| && now[t]
    requires h in Headers(m) && h !in m.events && h < |now|
    ensures now[h] <==> Reachable(m, from, h)
  {
    if Reachable(m, from, h) {
      var inside := iset i: nat | i in Headers(m) && i !in m.events && i < |now| && now[i];
      forall i, t | i in inside && Edge(m, i, t) ensures t in inside {
        var c: nat :| InList(m, i, c) && Refers(m, c, t);
        assert Closed(m, now, i) && Settled(m, now, c);
      }
      var p: seq<nat> :| IsPath(m, p) && p[0] in from && p[|p| - 1] == h;
      ReachClosed(m, from, inside, p);
    }
  }

  lemma TraversedParts(m: Memory, from: iset<nat>, lst: nat, num: nat, was: seq<bool>, now: seq<bool>, outOfSpace: bool)
    requires |was| == |now| == |m.cells| && Traversed(m, from, lst, num, was, now, outOfSpace)
    ensures MarksSound(m, from, was, now) && forall h :: 0 <= h < |now| && was[h] ==> now[h]
  {
  }

  lemma CleanAll(m: Memory, start: seq<bool>, now: seq<bool>, more: set<nat>)
    requires |start| == |now| == |m.cells| && Clean(m, start, now, Headers(m) + more)
    ensures Clean(m, now, now, Headers(m))
  {
  }

  // ---------- The walk over the block headers ----------

  lemma WalkStep(cells: seq<HeapBlock>, start: nat, ptr: nat, end: nat, seen: set<nat>)
    requires ptr < end && TiledBy(cells, ptr, end) && forall h :: h in Starts(cells, start, end) ==> h in seen || h in Starts(cells, ptr, end)
    ensures ptr < |cells| && DataSize(cells[ptr]) > 0 && TiledBy(cells, ptr + DataSize(cells[ptr]), end)
    ensures ptr in Starts(cells, ptr, end) && Starts(cells, ptr + DataSize(cells[ptr]), end) <= Starts(cells, ptr, end)
    ensures forall h :: h in Starts(cells, start, end) ==> h in seen + {ptr} || h in Starts(cells, ptr + DataSize(cells[ptr]), end)
  {
  }

  lemma {:induction false} ClusterHeaders(cells: seq<HeapBlock>, clusters: seq<Cluster>, k: nat, h: nat)
    requires k < |clusters| && h in Starts(cells, clusters[k].payloadStart, clusters[k].payloadEnd)
    ensures h in HeadersOf(cells, clusters)
  {
    if k < |clusters| - 1 { ClusterHeaders(cells, clusters[..|clusters| - 1], k, h); }
  }

  lemma ClusterDone(cells: seq<HeapBlock>, clusters: seq<Cluster>, k: nat, seen: set<nat>)
    requires k < |clusters| && HeadersOf(cells, clusters[..k]) <= seen
    requires forall h :: h in Starts(cells, clusters[k].payloadStart, clusters[k].payloadEnd) ==> h in seen
    ensures HeadersOf(cells, clusters[..k + 1]) <= seen
  {
    assert clusters[..k + 1][..k] == clusters[..k];
  }

  lemma WalkStart(m: Memory)
    requires WellFormed(m)
    ensures HeadersOf(m.cells, []) == {}
    ensures forall k :: 0 <= k < |m.clusters| ==> TiledBy(m.cells, m.clusters[k].payloadStart, m.clusters[k].payloadEnd)
    ensures forall k, h :: 0 <= k < |m.clusters| && h in Starts(m.cells, m.clusters[k].payloadStart, m.clusters[k].payloadEnd) ==> h in Headers(m)
  {
    forall k, h | 0 <= k < |m.clusters| && h in Starts(m.cells, m.clusters[k].payloadStart, m.clusters[k].payloadEnd) ensures h in Headers(m) {
      ClusterHeaders(m.cells, m.clusters, k, h);
    }
  }

  lemma WalkEnd(cells: seq<HeapBlock>, ptr: nat, end: nat)
    requires ptr >= end
    ensures Starts(cells, ptr, end) == {}
  {
  }

  /** Looking at one block keeps the marks clean, or something new has been marked. */
  lemma Looked(m: Memory, from: iset<nat>, start: seq<bool>, was: seq<bool>, now: seq<bool>, ptr: nat, seen: set<nat>, before: bool, after: bool)
    requires |start| == |was| == |now| == |m.cells| && IsObject(m, ptr, 1) && Traversed(m, from, ptr, 1, was, now, after)
    requires (before ==> after) && (after ==> before || Dead(m, now) < Dead(m, was))
    requires forall h :: 0 <= h < |was| && start[h] ==> was[h]
    requires if before then Dead(m, was) < Dead(m, start) else Clean(m, start, was, seen)
    ensures if after then Dead(m, now) < Dead(m, start) else Clean(m, start, now, seen + {ptr})
  {
    if after {
      assert Dead(m, now) <= Dead(m, was) <= Dead(m, start);
    } else {
      CleanMore(m, from, start, was, now, ptr, 1, seen);
    }
  }

  lemma CleanRound(m: Memory, start: seq<bool>, now: seq<bool>, outOfSpace: bool)
    requires |start| == |now| == |m.cells| && forall h :: 0 <= h < |now| && start[h] ==> now[h]
    ensures Dead(m, now) <= Dead(m, start)
    ensures Clean(m, start, now, Headers(m)) ==> Clean(m, now, now, Headers(m))
  {
  }

  // ---------- Roots ----------

  /** Where marking begins: a run of cells, an object to be looked at in any case, or a pointer that may be null. */
  datatype Root = Cells(lst: nat, num: nat) | Forced(h: nat) | Single(p: Option<nat>)

  ghost predicate IsPlainObject(m: Memory, h: nat) {
    h in Headers(m) && h !in m.events
  }

  ghost predicate RootOk(m: Memory, r: Root) {
    match r
    case Cells(lst, num) => PlainCells(m, lst, num)
    case Forced(h) => IsPlainObject(m, h)
    case Single(p) => p.Some? ==> IsPlainObject(m, p.value)
  }

  /** The objects a root leads to. */
  ghost predicate RootLeads(m: Memory, r: Root, t: nat) {
    match r
    case Cells(lst, num) => exists c: nat :: lst <= c < lst + num && Refers(m, c, t)
    case Forced(h) => t == h
    case Single(p) => p == Some(t)
  }

  ghost predicate SomeLeads(m: Memory, roots: seq<Root>, t: nat) {
    exists k :: 0 <= k < |roots| && RootLeads(m, roots[k], t)
  }

  ghost function RootSet(m: Memory, roots: seq<Root>): iset<nat> {
    iset t: nat | SomeLeads(m, roots, t)
  }

  /** All that the root leads to is marked. */
  ghost predicate RootMarked(m: Memory, now: seq<bool>, r: Root) {
    forall t: nat :: RootLeads(m, r, t) && t < |now| ==> now[t]
  }

  lemma RootObjects(m: Memory, r: Root, t: nat)
    requires WellFormed(m) && RootOk(m, r) && RootLeads(m, r, t)
    ensures IsPlainObject(m, t)
  {
  }

  lemma RootWork(m: Memory, from: iset<nat>, r: Root)
    requires WellFormed(m) && RootOk(m, r) && forall t: nat :: RootLeads(m, r, t) ==> t in from
    ensures match r
            case Cells(lst, num) => Work(m, lst, num) && WorkSound(m, from, lst, num)
            case Forced(h) => Work(m, h, 1) && WorkSound(m, from, h, 1)
            case Single(p) => p.Some? ==> Work(m, p.value, 1) && WorkSound(m, from, p.value, 1)
  {
    match r
    case Cells(lst, num) =>
      forall c: nat, t: nat | lst <= c < lst + num && Refers(m, c, t) ensures Reachable(m, from, t) {
        assert RootLeads(m, r, t);
        ReachRoot(m, from, t);
      }
      assert num == 1 ==> lst !in Headers(m);
    case Forced(h) => assert RootLeads(m, r, h); ReachRoot(m, from, h); assert !m.cells[h].Reference?;
    case Single(p) =>
      if p.Some? { assert RootLeads(m, r, p.value); ReachRoot(m, from, p.value); assert !m.cells[p.value].Reference?; }
  }

  /** A traversal from the root's cells marks what the root leads to. */
  lemma RootDone(m: Memory, from: iset<nat>, r: Root, was: seq<bool>, now: seq<bool>, outOfSpace: bool)
    requires WellFormed(m) && RootOk(m, r) && |was| == |now| == |m.cells|
    requires match r
             case Cells(lst, num) => Traversed(m, from, lst, num, was, now, outOfSpace)
             case Forced(h) => Traversed(m, from, h, 1, was, now, outOfSpace)
             case Single(p) => p.Some? && p.value < |now| && !now[p.value] ==> Traversed(m, from, p.value, 1, was, now, outOfSpace)
    ensures RootMarked(m, now, r)
  {
    if r.Cells? {
      forall t: nat | RootLeads(m, r, t) && t < |now| ensures now[t] {
        var c: nat :| r.lst <= c < r.lst + r.num && Refers(m, c, t);
        assert Settled(m, now, c);
      }
    }
  }

  lemma SoundFromMore(m: Memory, from: iset<nat>, more: iset<nat>, now: seq<bool>)
    requires AliveSound(m, from, now) && from <= more
    ensures AliveSound(m, more, now)
  {
    forall h | h in Headers(m) && h !in m.events && h < |now| && now[h] ensures Reachable(m, more, h) {
      ReachMore(m, from, more, h);
    }
  }

  lemma RootStays(m: Memory, was: seq<bool>, now: seq<bool>, r: Root)
    requires |was| == |now| && RootMarked(m, was, r) && forall h :: 0 <= h < |now| && was[h] ==> now[h]
    ensures RootMarked(m, now, r)
  {
  }

  /** The objects on a list. */
  ghost function ObjectSet(fs: seq<nat>): iset<nat> {
    iset f | f in fs
  }

  /** The marks are exactly the objects that can be reached from the roots and from `more`. */
  ghost predicate Exact(m: Memory, from: iset<nat>, now: seq<bool>) {
    forall h: nat :: IsPlainObject(m, h) && h < |now| ==> (now[h] <==> Reachable(m, from, h))
  }

  lemma ExactFrom(m: Memory, from: iset<nat>, now: seq<bool>)
    requires WellFormed(m) && |now| == |m.cells| && AliveSound(m, from, now) && Clean(m, now, now, Headers(m))
    requires forall t :: t in from ==> IsPlainObject(m, t) && t < |now| && now[t]
    ensures Exact(m, from, now)
  {
    hide Reachable, Clean, AliveSound, WellFormed, Headers;
    forall h: nat | IsPlainObject(m, h) && h < |now| ensures now[h] <==> Reachable(m, from, h) {
      ExactMarks(m, from, now, h);
    }
  }

  // ---------- What the marks mean, by the kinds of objects ----------

  /** Whatever the references in cells `lo` to below `hi` refer to is marked. */
  ghost predicate TargetsMarked(m: Memory, now: seq<bool>, lo: int, hi: int) {
    forall c: nat, t: nat :: c < |m.cells| && lo <= c < hi && m.cells[c] == Reference(Some(t)) ==> t < |now| && now[t]
  }

  /** Every marked object that is not an event holds on to what it refers to: a class or value type by its fields, an
      array of references by its elements, a delegate by its object, a list of delegates by its delegates. */
  ghost predicate HoldsOn(m: Memory, now: seq<bool>) {
    forall h: nat :: h in Headers(m) && h !in m.events && h < |now| && h < |m.cells| && now[h] ==>
      match m.cells[h]
      case Instance(size) => TargetsMarked(m, now, h + 1, h + size)
      case Array(_, references, n) => references ==> TargetsMarked(m, now, h + 1, h + 1 + n)
      case Delegate(_, i) => TargetsMarked(m, now, i, i + 1)
      case DelegateList(_, d, k) => TargetsMarked(m, now, d, d + k)
      case _ => true
  }

  /** Object `h` refers to object `t` from one of its cells. */
  ghost predicate RefersTo(m: Memory, h: nat, t: nat) {
    h < |m.cells| && exists c :: 0 <= c < |m.cells| && m.cells[c] == Reference(Some(t)) && IsCellOf(m.cells[h], h, c)
  }

  /** Cell `c` is one by which the object at `h` refers to others. */
  ghost predicate IsCellOf(block: HeapBlock, h: nat, c: nat) {
    match block
    case Instance(size) => h < c < h + size
    case Array(_, references, n) => references && h < c <= h + n
    case Delegate(_, i) => c == i
    case DelegateList(_, d, k) => d <= c < d + k
    case _ => false
  }

  /** An object that a root gives, by itself or by a reference in its cells. */
  ghost predicate IsRoot(m: Memory, r: Root, t: nat) {
    match r
    case Cells(lst, num) => exists c :: 0 <= c < |m.cells| && lst <= c < lst + num && m.cells[c] == Reference(Some(t))
    case Forced(h) => t == h
    case Single(p) => p == Some(t)
  }

  /** Every marked object that is not an event is a root, or on one of the lists, or referred to by such an object. */
  ghost predicate Justified(m: Memory, now: seq<bool>, roots: seq<Root>, pending: seq<nat>, moved: seq<nat>) {
    forall t: nat :: t in Headers(m) && t !in m.events && t < |now| && now[t] ==>
      || t in pending || t in moved || (exists k :: 0 <= k < |roots| && IsRoot(m, roots[k], t))
      || exists h: nat :: h in Headers(m) && h !in m.events && h < |now| && now[h] && RefersTo(m, h, t)
  }

  lemma CellsOf(m: Memory, h: nat, c: nat)
    requires h < |m.cells|
    ensures InList(m, h, c) <==> IsCellOf(m.cells[h], h, c)
  {
  }

  lemma TargetMarked(m: Memory, from: iset<nat>, now: seq<bool>, h: nat, c: nat, t: nat)
    requires WellFormed(m) && |now| == |m.cells| && Exact(m, from, now)
    requires forall e :: e in m.events && e in Headers(m) ==> e < |now| && now[e]
    requires IsPlainObject(m, h) && h < |now| && now[h] && InList(m, h, c) && c < |m.cells| && m.cells[c] == Reference(Some(t))
    ensures t < |now| && now[t]
  {
    assert t in Headers(m);
    if t !in m.events {
      hide Reachable, Headers;
      ReachEdge(m, from, h, c, t);
      assert IsPlainObject(m, t);
    }
  }

  lemma ExactCloses(m: Memory, from: iset<nat>, now: seq<bool>)
    requires WellFormed(m) && |now| == |m.cells| && Exact(m, from, now)
    requires forall e :: e in m.events && e in Headers(m) ==> e < |now| && now[e]
    ensures HoldsOn(m, now)
  {
    hide Reachable, Exact, WellFormed, InList, Headers;
    forall h: nat, c: nat, t: nat | IsPlainObject(m, h) && h < |now| && now[h] && c < |m.cells| && InList(m, h, c) && m.cells[c] == Reference(Some(t))
      ensures t < |now| && now[t]
    {
      TargetMarked(m, from, now, h, c, t);
    }
    forall h: nat, c: nat | h < |m.cells| ensures InList(m, h, c) <==> IsCellOf(m.cells[h], h, c)
    {
      CellsOf(m, h, c);
    }
  }

  /** A path ends in its start or is the last of two reachable objects. */
  lemma LastStep(m: Memory, from: iset<nat>, t: nat) returns (h: nat, c: nat)
    requires Reachable(m, from, t) && t !in from
    ensures Reachable(m, from, h) && InList(m, h, c) && Refers(m, c, t)
  {
    var p: seq<nat> :| IsPath(m, p) && p[0] in from && p[|p| - 1] == t;
    var q := p[..|p| - 1];
    h := p[|p| - 2];
    assert Edge(m, p[|p| - 2], p[|p| - 1]);
    assert forall i :: 0 <= i < |q| - 1 ==> Edge(m, q[i], q[i + 1]);
    assert IsPath(m, q) && q[0] in from && q[|q| - 1] == h;
    c :| InList(m, h, c) && Refers(m, c, t);
  }

  lemma {:induction false} ReachablePlain(m: Memory, from: iset<nat>, p: seq<nat>)
    requires WellFormed(m) && IsPath(m, p) && p[0] in from && forall t :: t in from ==> IsPlainObject(m, t)
    ensures IsPlainObject(m, p[|p| - 1])
  {
    if |p| > 1 {
      assert Edge(m, p[|p| - 2], p[|p| - 1]);
    }
  }

  lemma IsRootLeads(m: Memory, r: Root, t: nat)
    requires RootLeads(m, r, t)
    ensures IsRoot(m, r, t)
  {
  }

  lemma ExactJustifies(m: Memory, roots: seq<Root>, pending: seq<nat>, moved: seq<nat>, now: seq<bool>)
    requires WellFormed(m) && |now| == |m.cells|
    requires var from := RootSet(m, roots) + ObjectSet(pending) + ObjectSet(moved);
             Exact(m, from, now) && forall t :: t in from ==> IsPlainObject(m, t)
    ensures Justified(m, now, roots, pending, moved)
  {
    hide Reachable, WellFormed, InList, Headers, RootLeads, IsRoot, Exact;
    var from := RootSet(m, roots) + ObjectSet(pending) + ObjectSet(moved);
    forall t: nat | IsPlainObject(m, t) && t < |now| && now[t]
      ensures t in pending || t in moved || (exists k :: 0 <= k < |roots| && IsRoot(m, roots[k], t))
              || exists h: nat :: h in Headers(m) && h !in m.events && h < |now| && now[h] && RefersTo(m, h, t)
    {
      if t in from {
        FromRoots(m, roots, pending, moved, t);
      } else {
        var h := Referrer(m, from, now, t);
      }
    }
  }

  lemma FromRoots(m: Memory, roots: seq<Root>, pending: seq<nat>, moved: seq<nat>, t: nat)
    requires t in RootSet(m, roots) + ObjectSet(pending) + ObjectSet(moved)
    ensures t in pending || t in moved || exists k :: 0 <= k < |roots| && IsRoot(m, roots[k], t)
  {
    hide IsRoot, RootLeads;
    if t in RootSet(m, roots) {
      var k :| 0 <= k < |roots| && RootLeads(m, roots[k], t);
      IsRootLeads(m, roots[k], t);
    }
  }

  lemma Referrer(m: Memory, from: iset<nat>, now: seq<bool>, t: nat) returns (h: nat)
    requires WellFormed(m) && |now| == |m.cells| && Exact(m, from, now) && forall x :: x in from ==> IsPlainObject(m, x)
    requires IsPlainObject(m, t) && t < |now| && now[t] && t !in from
    ensures IsPlainObject(m, h) && h < |now| && now[h] && RefersTo(m, h, t)
  {
    assert Reachable(m, from, t);
    var c;
    h, c := LastStep(m, from, t);
    var p: seq<nat> :| IsPath(m, p) && p[0] in from && p[|p| - 1] == h;
    ReachablePlain(m, from, p);
    assert h < |m.cells|;
    CellsOf(m, h, c);
  }

  /** `ExactCloses` and `ExactJustifies` for the roots of a mark phase and the finalizers that join. */
  lemma MarksMean(m: Memory, roots: seq<Root>, pending: seq<nat>, moved: seq<nat>, now: seq<bool>, finalizers: seq<nat>, kept: seq<nat>)
    requires WellFormed(m) && |now| == |m.cells| && Exact(m, RootSet(m, roots) + ObjectSet(pending) + ObjectSet(moved), now)
    requires forall e :: e in m.events && e in Headers(m) ==> e < |now| && now[e]
    requires forall k :: 0 <= k < |roots| ==> RootOk(m, roots[k])
    requires forall f :: f in finalizers || f in pending ==> IsPlainObject(m, f)
    requires multiset(kept) + multiset(moved) == multiset(finalizers)
    ensures HoldsOn(m, now) && Justified(m, now, roots, pending, moved)
  {
    hide Exact, WellFormed, RootLeads, RootOk, IsPlainObject, HoldsOn, Justified, Headers;
    var from := RootSet(m, roots) + ObjectSet(pending) + ObjectSet(moved);
    ExactCloses(m, from, now);
    forall t | t in from ensures IsPlainObject(m, t) {
      if t in RootSet(m, roots) {
        var k :| 0 <= k < |roots| && RootLeads(m, roots[k], t);
        RootObjects(m, roots[k], t);
      } else if t in moved {
        assert t in multiset(moved) && t in multiset(finalizers);
      }
    }
    ExactJustifies(m, roots, pending, moved, now);
  }

  lemma ExactParts(m: Memory, from: iset<nat>, now: seq<bool>, fs: seq<nat>)
    requires Exact(m, from, now) && forall f :: f in fs ==> IsPlainObject(m, f) && f < |now| && now[f]
    ensures forall f :: f in fs ==> Reachable(m, from, f)
  {
    hide Reachable;
  }

  /** Every root has been looked at. */
  lemma RootsMarked(m: Memory, roots: seq<Root>, now: seq<bool>, t: nat)
    requires WellFormed(m) && |now| == |m.cells| && SomeLeads(m, roots, t)
    requires forall k :: 0 <= k < |roots| ==> RootOk(m, roots[k]) && RootMarked(m, now, roots[k])
    ensures IsPlainObject(m, t) && t < |now| && now[t]
  {
    var k :| 0 <= k < |roots| && RootLeads(m, roots[k], t);
    RootObjects(m, roots[k], t);
  }

  lemma ReachableObject(m: Memory, from: iset<nat>, f: nat)
    requires WellFormed(m) && IsPlainObject(m, f) && f in from
    ensures Work(m, f, 1) && WorkSound(m, from, f, 1)
  {
    ReachRoot(m, from, f);
  }

  function Singles(fs: seq<nat>): seq<Root> {
    seq(|fs|, i requires 0 <= i < |fs| => Single(Some(fs[i])))
  }

  /** Objects that wait for their finalizers are roots. */
  lemma PendingRoots(m: Memory, fs: seq<nat>, roots: seq<Root>)
    requires forall k :: 0 <= k < |roots| ==> RootOk(m, roots[k])
    requires forall f :: f in fs ==> IsPlainObject(m, f)
    ensures RootSet(m, Singles(fs) + roots) == RootSet(m, roots) + ObjectSet(fs)
    ensures forall k :: 0 <= k < |Singles(fs) + roots| ==> RootOk(m, (Singles(fs) + roots)[k])
  {
    var all := Singles(fs) + roots;
    forall t: nat ensures SomeLeads(m, all, t) <==> SomeLeads(m, roots, t) || t in fs {
      if t in fs {
        var i :| 0 <= i < |fs| && fs[i] == t;
        assert RootLeads(m, all[i], t);
      }
      if SomeLeads(m, roots, t) {
        var k :| 0 <= k < |roots| && RootLeads(m, roots[k], t);
        assert RootLeads(m, all[|fs| + k], t);
      }
      if SomeLeads(m, all, t) {
        var k :| 0 <= k < |all| && RootLeads(m, all[k], t);
        if k < |fs| { assert fs[k] == t; } else { assert all[k] == roots[k - |fs|]; }
      }
    }
  }
}
