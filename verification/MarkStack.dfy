/** The collector's mark stack: a list of fixed-size chunks, of which only the first is sure to be there. */
module MarkStack {

  /** Cells still to be marked: `num` of them from `ptr` on. */
  datatype Entry = Entry(ptr: nat, num: nat)

  const MINIMUM_SPACE := 128

  /** One chunk.  Element 0 is an empty sentinel. */
  class Chunk {
    const elements: array<Entry>
    var top: nat
    var last: nat

    constructor (num: nat)
      requires num >= 1
      ensures fresh(elements) && elements.Length == num && top == 0 && last == num - 1 && elements[0].num == 0
      ensures num >= 2 ==> ChunkOk(this, 0)
    {
      elements := new Entry[num](_ => Entry(0, 0));
      top, last := 0, num - 1;
    }
  }

  /** A chunk with entries up to index `top`. */
  ghost predicate ChunkOk(c: Chunk, top: nat)
    reads c, c.elements
  {
    && c.elements.Length >= 2 && c.last == c.elements.Length - 1 && top <= c.last
    && c.elements[0].num == 0 && forall k :: 1 <= k <= top ==> c.elements[k].num > 0
  }

  ghost function Arrays(cs: seq<Chunk>): set<object> {
    set i | 0 <= i < |cs| :: cs[i].elements
  }

  /** The entries of chunks that are full. */
  ghost function Full(cs: seq<Chunk>): seq<Entry>
    reads Arrays(cs)
  {
    if cs == [] then []
    else
      var c := cs[|cs| - 1];
      assert c.elements in Arrays(cs);
      Full(cs[..|cs| - 1]) + if c.elements.Length == 0 then [] else c.elements[1..]
  }

  lemma FullMore(cs: seq<Chunk>, k: nat)
    requires k < |cs| && cs[k].elements.Length >= 1
    ensures Full(cs[..k + 1]) == Full(cs[..k]) + cs[k].elements[1..]
  {
    assert cs[..k + 1][..k] == cs[..k];
  }

  twostate lemma {:induction false} FullKept(cs: seq<Chunk>)
    requires forall i :: 0 <= i < |cs| ==> unchanged(cs[i].elements)
    ensures Full(cs) == old(Full(cs))
  {
    if cs != [] { FullKept(cs[..|cs| - 1]); }
  }

  /** The first of the sizes `cElement`, `cElement / 2`, ..., 1 that there is memory for, or none. */
  function GrantedSize(granted: set<int>, cElement: int): (size: int)
    ensures size == 0 || (1 <= size <= cElement && size in granted)
  {
    if cElement < 1 then 0 else if cElement in granted then cElement else GrantedSize(granted, cElement / 2)
  }

  /** The first cell of the top entry was taken. */
  ghost predicate Took(was: seq<Entry>, now: seq<Entry>, ptr: nat) {
    && was != []
    && var e := was[|was| - 1];
       ptr == e.ptr && e.num > 0 && now == was[..|was| - 1] + if e.num == 1 then [] else [Entry(e.ptr + 1, e.num - 1)]
  }

  /** The registers of a traversal and the chunk that they are loaded from. */
  class Stack {
    var list: seq<Chunk> // m_markStackList
    var markStack: nat // m_markStack
    var stackList: nat
    var stack: nat
    var stackLast: nat
    var outOfSpace: bool
    const asWritten: bool // whether the source's own way of going on in another chunk is taken
    var overran: bool // whether that has led past the end of a chunk

    ghost predicate Valid()
      reads this`list, this`markStack, this`stackList, this`stack, this`stackLast, this`overran, list, Arrays(list)
    {
      && markStack == stackList < |list| && (overran ==> asWritten)
      && (forall i, j :: 0 <= i < j < |list| ==> list[i] != list[j] && list[i].elements != list[j].elements)
      && (forall i :: 0 <= i < |list| && i != stackList ==>
            list[i].top == (if i < stackList then list[i].last else 0) && ChunkOk(list[i], list[i].top))
      && ChunkOk(list[stackList], stack) && stackLast == list[stackList].last
    }

    /** The entries on the stack, the last one on top. */
    ghost function Contents(): seq<Entry>
      requires Valid()
      reads this`list, this`markStack, this`stackList, this`stack, this`stackLast, this`overran, list, Arrays(list)
    {
      Full(list[..stackList]) + list[stackList].elements[1..stack + 1]
    }

    ghost function Footprint(): set<object>
      reads this
    {
      {this} + (set i | 0 <= i < |list| :: list[i]) + Arrays(list)
    }

    constructor (asWritten: bool)
      ensures Valid() && fresh(Footprint()) && Contents() == [] && !outOfSpace && !overran && this.asWritten == asWritten
      ensures |list| == 1 && stackList == 0 && stack < stackLast
    {
      var c := new Chunk(MINIMUM_SPACE);
      list, markStack, stackList, stack, stackLast, outOfSpace := [c], 0, 0, 0, c.last, false;
      this.asWritten, overran := asWritten, false;
    }

    method LoadState()
      requires markStack < |list|
      modifies this`stack, this`stackLast, this`stackList
      ensures stackList == markStack && stack == list[markStack].top && stackLast == list[markStack].last
    {
      stackLast := list[markStack].last;
      stack := list[markStack].top;
      stackList := markStack;
    }

    method SaveState()
      requires markStack < |list|
      modifies this`markStack, list[markStack]
      ensures markStack == stackList && list[old(markStack)].top == stack && list[old(markStack)].last == stackLast
    {
      list[markStack].last := stackLast;
      list[markStack].top := stack;
      markStack := stackList;
    }

    /** A new chunk at the end of the list, if there is memory for one.  The source goes on down to chunks of one
        element; here a chunk has room for an entry beside the sentinel. */
    method Grow(granted: set<int>) returns (ok: bool)
      requires Valid() && stack == stackLast && stackList == |list| - 1
      modifies this, list[stackList]
      ensures Valid() && Contents() == old(Contents()) && outOfSpace == old(outOfSpace) && overran == old(overran)
      ensures ok <==> GrantedSize(granted, MINIMUM_SPACE) >= 2
      ensures if ok then stack == 0 && |list| == |old(list)| + 1 && stackList == |old(list)| && list[..|old(list)|] == old(list)
                && fresh(list[stackList]) && fresh(list[stackList].elements)
              else unchanged(this)
    {
      hide Full;
      var cElement := MINIMUM_SPACE;
      while cElement >= 2
        invariant 0 <= cElement && GrantedSize(granted, cElement) == GrantedSize(granted, MINIMUM_SPACE)
        invariant unchanged(this) && unchanged(list[stackList])
      {
        if cElement in granted {
          var stackNext := new Chunk(cElement);
          SaveState();
          list := list + [stackNext];
          markStack := |list| - 1;
          LoadState();
          FullKept(old(list[..stackList]));
          FullMore(list, stackList - 1);
          assert list[..stackList - 1] == old(list[..stackList]);
          return true;
        }
        cElement := cElement / 2;
      }
      return false;
    }

    /** The next chunk, left from an earlier, deeper traversal. */
    method Advance()
      requires Valid() && stack == stackLast && stackList < |list| - 1
      modifies this`markStack, this`stack, this`stackLast, this`stackList, list[stackList]
      ensures Valid() && Contents() == old(Contents()) && stack == 0
    {
      hide Full;
      ghost var k := stackList;
      SaveState();
      markStack := stackList + 1;
      LoadState();
      FullKept(list[..k]);
      FullMore(list, k);
    }

    method Store(lst: nat, num: nat)
      requires Valid() && stack < stackLast && num > 0
      modifies this`stack, list[stackList].elements
      ensures Valid() && Contents() == old(Contents()) + [Entry(lst, num)]
      ensures stack == old(stack) + 1 && list[stackList].elements[stack] == Entry(lst, num)
    {
      hide Full;
      stack := stack + 1;
      list[stackList].elements[stack] := Entry(lst, num);
      FullKept(list[..stackList]);
    }

    /** A full chunk holds entries, so an empty stack has room. */
    lemma SentinelOnly()
      requires Valid() && stack == stackLast
      ensures Contents() != []
    {
      assert list[stackList].elements[1..stack + 1][stack - 1] == list[stackList].elements[stack];
    }

    /** A free element above the top, if the stack can still grow. */
    method MakeRoom() returns (ok: bool)
      requires Valid()
      modifies this, list[stackList]
      ensures Valid() && Contents() == old(Contents()) && outOfSpace == old(outOfSpace) && overran == old(overran) && (ok ==> stack < stackLast)
      ensures fresh(Footprint() - old(Footprint()))
      ensures list[stackList].elements in old(Footprint()) || fresh(list[stackList].elements)
      ensures stack < stackLast ==> ok
      ensures old(Contents()) == [] ==> ok
      ensures old(outOfSpace) ==> |list| == old(|list|)
      ensures !ok ==> old(stack) == old(stackLast) && old(stackList) + 1 == old(|list|) == |list|
    {
      if stack == stackLast { SentinelOnly(); }
      assert list[stackList].elements in Footprint();
      ok := true;
      hide Contents, ChunkOk;
      if stack == stackLast {
        if stackList + 1 < |list| {
          Advance();
        } else {
          ok := false;
          if !outOfSpace { var granted: set<int> := *; ok := Grow(granted); }
        }
      }
    }

    method StoreOrGiveUp(ok: bool, lst: nat, num: nat)
      requires Valid() && num > 0 && (ok ==> stack < stackLast)
      modifies this`stack, this`outOfSpace, list[stackList].elements
      ensures Valid() && outOfSpace == (old(outOfSpace) || !ok)
      ensures Contents() == if ok then old(Contents()) + [Entry(lst, num)] else old(Contents())
    {
      hide Full;
      if ok { Store(lst, num); } else { outOfSpace := true; FullKept(list[..stackList]); }
    }

    /** Puts the cells after `lst` on the stack, or gives up and says so in the flag. */
    method PushAsMeant(lst: nat, num: nat) returns (ok: bool)
      requires Valid() && num > 1
      modifies Footprint()
      ensures Valid() && fresh(Footprint() - old(Footprint()))
      ensures Contents() == if ok then old(Contents()) + [Entry(lst + 1, num - 1)] else old(Contents())
      ensures outOfSpace == (old(outOfSpace) || !ok) && overran == old(overran)
      ensures old(Contents()) == [] ==> ok
    {
      assert list[stackList] in Footprint();
      hide Valid, Contents, ChunkOk, Full;
      ok := MakeRoom();
      StoreOrGiveUp(ok, lst + 1, num - 1);
    }

    // What the source does instead of `Grow`, `Advance` and `Push`.

    /** The loop of the source ends at chunks of one element, which the sentinel fills. */
    method GrowAsWritten(granted: set<int>) returns (size: int)
      requires Valid() && stack == stackLast && stackList == |list| - 1
      modifies this, list[stackList]
      ensures size == GrantedSize(granted, MINIMUM_SPACE) && outOfSpace == old(outOfSpace) && overran == old(overran)
      ensures size == 0 ==> unchanged(this) && unchanged(list[stackList])
      ensures size != 0 ==> stackList < |list| && (stack + 1 < list[stackList].elements.Length <==> size != 1)
      ensures size != 1 ==> Valid() && Contents() == old(Contents()) && (size != 0 ==> stack < stackLast)
      ensures fresh(Footprint() - old(Footprint()))
    {
      hide Full;
      size := MINIMUM_SPACE;
      while size >= 1
        invariant 0 <= size && GrantedSize(granted, size) == GrantedSize(granted, MINIMUM_SPACE)
        invariant unchanged(this) && unchanged(list[stackList])
      {
        if size in granted {
          var stackNext := new Chunk(size);
          SaveState();
          list := list + [stackNext];
          markStack := |list| - 1;
          LoadState();
          FullKept(old(list[..stackList]));
          FullMore(list, stackList - 1);
          assert list[..stackList - 1] == old(list[..stackList]);
          return;
        }
        size := size / 2;
      }
    }

    /** The source saves and reloads around the assignment to `stackList`, but the save has by then aimed
        `markStack` at the chunk in use: the registers come back unchanged, on a chunk that is full. */
    method SwitchAsWritten()
      requires Valid() && stack == stackLast && stackList < |list| - 1
      modifies this`markStack, this`stack, this`stackLast, this`stackList, list[stackList]
      ensures Valid() && Contents() == old(Contents()) && stackList == old(stackList) && stack == old(stack)
      ensures stack + 1 == list[stackList].elements.Length
    {
      var stackNext := stackList + 1;
      ghost var before := Full(list[..stackList]);
      SaveState();
      stackList := stackNext;
      LoadState();
      FullKept(list[..stackList]);
    }

    /** When the source writes past the end of a chunk. */
    predicate Overruns(granted: set<int>)
      reads this
    {
      stack == stackLast && (stackList + 1 < |list| || (!outOfSpace && GrantedSize(granted, MINIMUM_SPACE) == 1))
    }

    method MakeRoomAsWritten(granted: set<int>) returns (ok: bool, inBounds: bool)
      requires Valid()
      modifies this, list[stackList]
      ensures stackList < |list| && outOfSpace == old(outOfSpace) && overran == old(overran) && fresh(Footprint() - old(Footprint()))
      ensures inBounds <==> !old(Overruns(granted))
      ensures inBounds <==> (ok ==> stack + 1 < list[stackList].elements.Length)
      ensures inBounds ==> Valid() && Contents() == old(Contents()) && (ok ==> stack < stackLast)
      ensures inBounds ==> list[stackList].elements in old(Footprint()) || fresh(list[stackList].elements)
      ensures old(Contents()) == [] ==> ok
    {
      if stack == stackLast { SentinelOnly(); }
      assert list[stackList].elements in Footprint();
      ok := true;
      hide Contents, Full;
      if stack == stackLast {
        if stackList + 1 < |list| {
          SwitchAsWritten();
        } else {
          ok := false;
          if !outOfSpace {
            var size := GrowAsWritten(granted);
            ok := size != 0;
          }
        }
      }
      inBounds := !ok || stack + 1 < list[stackList].elements.Length;
    }

    /** The push of the source.  Its write stays within the chunk, or is skipped for want of memory, exactly when
        `Overruns` does not hold; and then it does what `Push` does. */
    method PushAsWritten(lst: nat, num: nat, granted: set<int>) returns (ok: bool, inBounds: bool)
      requires Valid() && num > 1
      modifies Footprint()
      ensures inBounds <==> !old(Overruns(granted))
      ensures inBounds ==> Valid() && outOfSpace == (old(outOfSpace) || !ok) && overran == old(overran)
      ensures fresh(Footprint() - old(Footprint()))
      ensures inBounds ==> Contents() == if ok then old(Contents()) + [Entry(lst + 1, num - 1)] else old(Contents())
      ensures inBounds && old(Contents()) == [] ==> ok
    {
      assert list[stackList] in Footprint();
      hide Valid, Contents, ChunkOk, Full, Overruns, GrantedSize;
      ok, inBounds := MakeRoomAsWritten(granted);
      if !inBounds { return; }
      StoreOrGiveUp(ok, lst + 1, num - 1);
    }

    method GiveUp()
      requires Valid() && asWritten
      modifies this`outOfSpace, this`overran
      ensures Valid() && Contents() == old(Contents()) && outOfSpace && overran
    {
      hide Full;
      outOfSpace, overran := true, true;
      FullKept(list[..stackList]);
    }

    /** The push of a traversal, as it is written or as it is meant.  Where the code as written leaves its chunk, the
        flag says that from here on it is not followed any more. */
    method Push(lst: nat, num: nat) returns (ok: bool, ghost granted: set<int>)
      requires Valid() && num > 1
      modifies Footprint()
      ensures Valid() && fresh(Footprint() - old(Footprint()))
      ensures Contents() == if ok then old(Contents()) + [Entry(lst + 1, num - 1)] else old(Contents())
      ensures outOfSpace == (old(outOfSpace) || !ok)
      ensures overran == (old(overran) || (asWritten && old(Overruns(granted))))
      ensures old(Contents()) == [] ==> ok
    {
      if stack == stackLast { SentinelOnly(); }
      assert this in Footprint();
      hide Valid, Contents, Full, ChunkOk, GrantedSize;
      if !asWritten {
        granted := {};
        ok := PushAsMeant(lst, num);
        return;
      }
      var memory: set<int> := *;
      granted := memory;
      if Overruns(memory) {
        GiveUp();
        ok := false;
      } else {
        var inBounds;
        ok, inBounds := PushAsWritten(lst, num, memory);
      }
    }

    /** Filling the first chunk, going on in a second one, coming back and filling the first again leads to a push
        that overruns, whatever memory there is by then. */
    static method OverrunIsReached() returns (s: Stack)
      ensures s.Valid() && fresh(s.Footprint()) && forall granted :: s.Overruns(granted)
    {
      hide Stack.Contents, Full;
      s := new Stack(true);
      assert s.list[0] in s.Footprint() && s.list[0].elements in s.Footprint();
      s.Fill();
      s.ThereAndBack();
      s.Fill();
    }

    method ThereAndBack()
      requires Valid() && stack == stackLast && stackList == 0 && |list| == 1 && list[0].elements[stack].num == 1
      modifies this, list[0], list[0].elements
      ensures Valid() && stackList == 0 && |list| == 2 && list[0] == old(list[0]) && fresh(list[1]) && fresh(list[1].elements)
    {
      hide Contents, Full;
      assert GrantedSize({MINIMUM_SPACE}, MINIMUM_SPACE) == MINIMUM_SPACE;
      var _ := Grow({MINIMUM_SPACE});
      Store(1, 1);
      var _ := Take();
      Retreat();
      var _ := Take();
    }

    /** Entries of one cell each, until the chunk is full. */
    method Fill()
      requires Valid()
      modifies this`stack, list[stackList].elements
      ensures Valid() && stack == stackLast && (old(stack) < old(stackLast) ==> list[stackList].elements[stack].num == 1)
    {
      while stack < stackLast
        invariant Valid() && stack <= stackLast == old(stackLast)
        invariant old(stack) < stack ==> list[stackList].elements[stack].num == 1
        decreases stackLast - stack
      {
        Store(1, 1);
      }
    }

    /** Leaves a chunk that is down to its sentinel, unless it is the first. */
    method Settle() returns (ok: bool)
      requires Valid()
      modifies this, list[stackList]
      ensures Valid() && Contents() == old(Contents()) && list == old(list) && outOfSpace == old(outOfSpace) && overran == old(overran)
      ensures ok == (Contents() != []) && stackList < |list| && if ok then stack > 0 else stackList == 0
    {
      ok := true;
      if list[stackList].elements[stack].num == 0 {
        if stackList == 0 { return false; }
        FullMore(list, stackList - 1);
        assert Contents() != [];
        hide Full;
        Retreat();
      } else {
        assert list[stackList].elements[stack] in Contents();
      }
    }

    /** Takes the next cell off the stack; none is left when the first chunk is down to its sentinel. */
    method Next() returns (ok: bool, ptr: nat)
      requires Valid()
      modifies Footprint()
      ensures Valid() && list == old(list) && outOfSpace == old(outOfSpace) && overran == old(overran)
      ensures var was := old(Contents());
              if was == [] then !ok && Contents() == [] && stackList == 0
              else ok && Took(was, Contents(), ptr)
    {
      assert stackList < |list|;
      hide Valid, Contents, ChunkOk, Full, Took;
      ok := Settle();
      ptr := 0;
      if ok { ptr := Take(); }
    }

    method Take() returns (ptr: nat)
      requires Valid() && stack > 0
      modifies this`stack, list[stackList].elements
      ensures Valid() && list == old(list)
      ensures stack == if old(list[stackList].elements[stack].num) == 1 then old(stack) - 1 else old(stack)
      ensures Took(old(Contents()), Contents(), ptr)
    {
      hide Full;
      var e := list[stackList].elements[stack];
      ptr := e.ptr;
      ghost var front := Full(list[..stackList]) + list[stackList].elements[1..stack];
      assert Contents() == front + [e];
      list[stackList].elements[stack] := Entry(e.ptr + 1, e.num - 1);
      FullKept(list[..stackList]);
      assert Full(list[..stackList]) + list[stackList].elements[1..stack] == front;
      assert old(Contents())[..|old(Contents())| - 1] == front;
      if e.num == 1 {
        stack := stack - 1;
        FullKept(list[..stackList]);
        assert Contents() == front + [];
      } else {
        assert Contents() == front + [Entry(e.ptr + 1, e.num - 1)];
      }
    }

    /** Back to the chunk before, which is full. */
    method Retreat()
      requires Valid() && stackList > 0 && stack == 0
      modifies this, list[stackList]
      ensures Valid() && Contents() == old(Contents()) && stack > 0 && list == old(list) && outOfSpace == old(outOfSpace) && overran == old(overran)
      ensures stackList == old(stackList) - 1 && stack == stackLast
    {
      hide Full;
      ghost var k := stackList;
      SaveState();
      markStack := stackList - 1;
      LoadState();
      FullKept(list[..k]);
      FullMore(list, k - 1);
    }

    /** A traversal that has nothing left to do is back at the sentinel of the first chunk. */
    lemma Unwound()
      requires Valid() && Contents() == []
      ensures stackList == 0 && stack == 0
    {
      if stackList > 0 { FullMore(list, stackList - 1); }
    }

    /** Gives back all chunks after the one in use, which is the first. */
    method Release()
      requires Valid() && Contents() == []
      modifies this`list
      ensures Valid() && Contents() == [] && |list| == 1 && Footprint() <= old(Footprint())
    {
      Unwound();
      while |list| - 1 != markStack
        invariant Valid() && markStack == 0 && |list| > 0 && list[0] == old(list[0]) && stack == 0
      {
        list := list[..|list| - 1];
      }
    }
  }
}
