/** The interpreter loop and its stack frames as objects that are updated in place. */
module Interpreter {
  import opened Wrappers
  import opened Il
  import S = StackFrames

  /** What inlining saves of the interrupted method: a copy of the frame's fields. */
  datatype SavedFrame = SavedFrame(locals: int, block: array<Cell>, args: int, evalStack: int, evalPos: int, call: nat, ip: nat)

  /** What a block holds above its first `n` cells. */
  function Above(cells: seq<Cell>, n: nat): nat -> Cell {
    i => S.Get(cells, n + i)
  }

  lemma NewBlockIs(me: Method, extra: nat, cells: seq<Cell>, found: seq<Cell>)
    requires |cells| == |S.NewBlock(me, extra, Above(found, |me.locals|))| && me.locals <= cells <= found
    ensures cells == S.NewBlock(me, extra, Above(found, |me.locals|))
  {
    var n := |me.locals|;
    var tail := seq(|cells| - n, Above(found, n));
    assert |tail| == |cells| - n;
    forall i | 0 <= i < |tail| ensures cells[n..][i] == tail[i] {}
    assert cells[n..] == tail;
    assert cells == cells[..n] + cells[n..];
  }

  lemma FirstBlock(me: Method, raw: seq<Cell>, values: seq<Cell>, own: nat)
    requires own == |S.NewBlock(me, |values|, _ => Cell(I4, 0))| && |raw| == own + |values|
    ensures var cells := S.Filled(S.Filled(raw, 0, me.locals), own, values);
            var block := S.NewBlock(me, |values|, Above(cells, |me.locals|));
            cells == block + values && |block| == own
  {
    var cells := S.Filled(S.Filled(raw, 0, me.locals), own, values);
    assert cells == cells[..own] + values;
    assert me.locals <= cells[..own];
    NewBlockIs(me, |values|, cells[..own], cells);
  }

  lemma StartIs(p: Program, c: nat, values: seq<Cell>, found: nat -> Cell, f: S.StackFrame)
    requires c < |p| && |values| == p[c].numArgs && [f] == S.Start(p, c, values, found).frames
    ensures S.Start(p, c, values, found) == S.Machine([f], f.evalStackPos - 1, f.ip, false)
  {
    hide S.NewBlock;
  }

  lemma WroteIs(m: S.Machine, i: int, v: Cell, pos: int, next: nat)
    requires m.frames != [] && 0 <= i < |S.Last(m.frames).extension|
    ensures var f := S.Last(m.frames);
            S.Wrote(m, S.Set(f.extension, i, v), pos, next)
              == m.(frames := m.frames[|m.frames| - 1 := f.(extension := f.extension[i := v])], evalPos := pos, ip := next)
  {
  }

  /** The frame whose block holds the arguments of the last one. */
  function ArgsFrame(m: S.Machine): int {
    if m.frames != [] && S.Last(m.frames).args.own then |m.frames| - 1 else |m.frames| - 2
  }

  lemma ArgStoredIs(m: S.Machine, n: nat, v: Cell)
    requires m.frames != [] && 0 <= ArgsFrame(m)
    ensures var k := ArgsFrame(m); var f := m.frames[k];
            S.ArgStored(m, n, v)
              == m.(frames := m.frames[k := f.(extension := S.Set(f.extension, S.Last(m.frames).args.at + n, v))],
                    evalPos := m.evalPos - 1, ip := m.ip + 1)
  {
    if !S.Last(m.frames).args.own {
      var bottom := Rest(Rest(m.frames));
      assert m.frames == bottom + [S.Last(Rest(m.frames)), S.Last(m.frames)];
    }
  }

  function CalledInline(p: Program, m: S.Machine, c: nat): S.Machine
    requires m.frames != [] && c < |p|
  {
    S.Machine(m.frames[|m.frames| - 1 := S.Inlined(p, S.Last(m.frames), m.evalPos, m.ip + 1, c)], m.evalPos + 1, 0, m.raised)
  }

  lemma CalledInlineIs(p: Program, m: S.Machine, c: nat, o: S.Oracle)
    requires m.frames != [] && c < |p| && S.CanInline(p, S.Last(m.frames), m.evalPos, c, o.buffer)
    ensures S.Called(p, m, c, o) == CalledInline(p, m, c)
  {
    var h := S.Inlined(p, S.Last(m.frames), m.evalPos, m.ip + 1, c);
    assert m.frames[|m.frames| - 1 := h] == Rest(m.frames) + [h];
    assert h == S.Inlined(p, S.Current(m).(ip := m.ip + 1), m.evalPos, m.ip + 1, c);
  }

  lemma NextCurrent(m: S.Machine)
    requires m.frames != []
    ensures S.Current(m.(ip := m.ip + 1)) == S.Current(m).(ip := m.ip + 1)
  {
  }

  lemma SyncedUpdate(m: S.Machine, f: S.StackFrame)
    requires m.frames != []
    ensures S.Synced(m)[|m.frames| - 1 := f] == m.frames[|m.frames| - 1 := f] && S.Last(S.Synced(m)) == S.Current(m)
    ensures |S.Synced(m)| == |m.frames|
  {
  }

  lemma RestoredIs(p: Program, f: S.StackFrame, pos: int)
    requires f.call < |p| && f.inlineFrame.Some?
    ensures S.Restored(p, f.(evalStackPos := pos)) == S.Restored(p, f)
  {
  }

  function InlineLeft(p: Program, f: S.StackFrame, evalPos: int): S.StackFrame
    requires f.call < |p| && f.inlineFrame.Some?
  {
    var g := S.Restored(p, f);
    if f.inlineReturns then S.ValuePushed(g, S.Get(f.extension, evalPos)) else g
  }

  lemma ReturnedInlineIs(p: Program, m: S.Machine)
    requires m.frames != [] && S.Last(m.frames).call < |p| && S.Last(m.frames).inlineFrame.Some?
    ensures var h := InlineLeft(p, S.Last(m.frames), m.evalPos);
            S.Returned(p, m) == S.Machine(m.frames[|m.frames| - 1 := h], h.evalStackPos - 1, h.ip, m.raised)
  {
    var h := InlineLeft(p, S.Last(m.frames), m.evalPos);
    hide S.Restored, S.ValuePushed;
    assert m.frames[|m.frames| - 1 := h] == Rest(m.frames) + [h];
  }

  lemma CallIs(p: Program, m: S.Machine, c: nat)
    requires m.frames != [] && !m.raised && S.Last(m.frames).call < |p| && m.ip < |p[S.Last(m.frames).call].code|
    requires S.Next(p, m) == Instr.Call(c) && c < |p|
    ensures forall o: S.Oracle :: S.Execute(p, m, o) == S.Called(p, m, c, o)
  {
    hide S.Called, S.Returned, S.Wrote, S.ArgStored;
  }

  lemma ReturnedIs(p: Program, m: S.Machine)
    requires m.frames != [] && S.Last(m.frames).call < |p| && S.Last(m.frames).inlineFrame == None
    ensures var f, rest := S.Last(m.frames), Rest(m.frames);
            S.Returned(p, m) ==
            if rest == [] then m.(frames := [])
            else
              var h := if p[f.call].hasRet then S.ValuePushed(S.Last(rest), S.Get(f.extension, m.evalPos)) else S.Last(rest);
              S.Machine(rest[|rest| - 1 := h], h.evalStackPos - 1, h.ip, m.raised)
  {
    var rest := Rest(m.frames);
    if rest != [] {
      var f := S.Last(m.frames);
      var h := if p[f.call].hasRet then S.ValuePushed(S.Last(rest), S.Get(f.extension, m.evalPos)) else S.Last(rest);
      hide S.ValuePushed;
      assert rest[|rest| - 1 := h] == Rest(rest) + [h];
    }
  }

  function CalledPush(p: Program, m: S.Machine, c: nat, found: nat -> Cell): S.Machine
    requires m.frames != [] && c < |p|
  {
    var f := S.Current(m).(ip := m.ip + 1);
    S.Machine(m.frames[|m.frames| - 1 := f.(evalStackPos := f.evalStackPos - p[c].numArgs)] + [S.Pushed(p, f, c, found)],
              |p[c].locals| - 1, 0, m.raised)
  }

  lemma CalledPushIs(p: Program, m: S.Machine, c: nat, o: S.Oracle)
    requires m.frames != [] && c < |p| && !S.CanInline(p, S.Last(m.frames), m.evalPos, c, o.buffer)
    ensures S.Called(p, m, c, o) == CalledPush(p, m, c, o.found)
  {
    var f := S.Current(m).(ip := m.ip + 1);
    var g, h := f.(evalStackPos := f.evalStackPos - p[c].numArgs), S.Pushed(p, f, c, o.found);
    assert m.frames[|m.frames| - 1 := g] + [h] == Rest(m.frames) + [g, h];
  }

  class StackFrame {
    const extension: array<Cell>
    var locals: int
    var block: array<Cell> // the block the arguments lie in
    var args: int
    var evalStack: int
    var evalStackPos: int
    var evalStackEnd: int
    var call: nat
    var ip: nat
    var inlineFrame: Option<SavedFrame>
    var inlineReturns: bool

    ghost function Saved(): Option<S.InlineFrame>
      reads this
    {
      match inlineFrame
      case None => None
      case Some(s) =>
        Some(S.InlineFrame(s.locals, S.Ptr(s.block == extension, s.args), s.evalStack, s.evalPos, s.call, s.ip))
    }

    ghost function Snapshot(): S.StackFrame
      reads this, extension
    {
      S.StackFrame(extension[..], locals, S.Ptr(block == extension, args), evalStack, evalStackPos, evalStackEnd,
                   call, ip, Saved(), inlineReturns)
    }

    /** A frame for method `c`, with the arguments on top of the stack of `caller`. */
    constructor (p: Program, caller: StackFrame, c: nat)
      requires c < |p|
      ensures fresh(extension) && block == caller.extension && inlineFrame == None
      ensures Snapshot() == S.Pushed(p, caller.Snapshot(), c, Above(extension[..], |p[c].locals|))
    {
      var me := p[c];
      var sizeEvalStack := me.lengthEvalStack + S.OVERHEAD + 1;
      if |me.locals| + sizeEvalStack < S.MINIMUM_STACK { sizeEvalStack := S.MINIMUM_STACK - |me.locals|; }
      extension := new Cell[|me.locals| + sizeEvalStack];
      locals, evalStack, evalStackPos, evalStackEnd := 0, |me.locals|, |me.locals|, |me.locals| + sizeEvalStack;
      block, args := caller.extension, caller.evalStackPos - me.numArgs;
      call, ip, inlineFrame, inlineReturns := c, 0, None, false;
      new;
      ghost var before := caller.Snapshot();
      InitializeLocals(0, me.locals);
      NewBlockIs(me, 0, extension[..], extension[..]);
      assert caller.Snapshot() == before;
      assert Snapshot() == S.Pushed(p, before, c, Above(extension[..], |me.locals|));
    }

    /** The first frame of a thread; its arguments lie at the end of its own block. */
    constructor First(p: Program, c: nat, values: seq<Cell>)
      requires c < |p| && |values| == p[c].numArgs
      ensures fresh(extension) && block == extension && inlineFrame == None
      ensures [Snapshot()] == S.Start(p, c, values, Above(extension[..], |p[c].locals|)).frames
    {
      var me := p[c];
      var sizeEvalStack := me.lengthEvalStack + S.OVERHEAD + 1;
      var memorySize := |me.locals| + sizeEvalStack + me.numArgs;
      if memorySize < S.MINIMUM_STACK { sizeEvalStack := sizeEvalStack + S.MINIMUM_STACK - memorySize; }
      var own := |me.locals| + sizeEvalStack;
      assert own == |S.NewBlock(me, |values|, _ => Cell(I4, 0))|;
      extension := new Cell[own + me.numArgs];
      locals, evalStack, evalStackPos, evalStackEnd := 0, |me.locals|, |me.locals|, own;
      block, args := extension, own;
      call, ip, inlineFrame, inlineReturns := c, 0, None, false;
      new;
      ghost var raw := extension[..];
      InitializeLocals(0, me.locals);
      InitializeLocals(own, values);
      hide S.NewBlock, S.Filled, Above;
      FirstBlock(me, raw, values, own);
    }

    method InitializeLocals(at: nat, values: seq<Cell>)
      requires at + |values| <= extension.Length
      modifies extension
      ensures extension[..] == S.Filled(old(extension[..]), at, values)
    {
      for i := 0 to |values|
        invariant extension[..] == S.Filled(old(extension[..]), at, values[..i])
      {
        extension[at + i] := values[i];
      }
      assert values[..|values|] == values;
    }

    /** Runs method `c` inside this frame if the conditions allow it. */
    method PushInline(p: Program, evalPos: int, next: nat, c: nat, buffer: bool) returns (ok: bool, pos: int, at: nat)
      requires c < |p|
      requires evalStackEnd <= extension.Length && p[c].numArgs <= evalPos + 1
      modifies this, extension
      ensures ok == S.CanInline(p, old(Snapshot()), evalPos, c, buffer)
      ensures ok <==> old(inlineFrame).None? && old(evalStackEnd) - evalPos > p[c].numArgs + |p[c].locals| + p[c].lengthEvalStack + 2
                      && !p[c].special && !p[c].isStatic && buffer
      ensures ok ==> Snapshot() == S.Inlined(p, old(Snapshot()), evalPos, next, c) && pos == evalPos + 1 && at == 0
      ensures ok ==> block == extension && inlineFrame.Some? && inlineFrame.value.block == old(block)
      ensures !ok ==> Snapshot() == old(Snapshot()) && unchanged(this) && pos == evalPos && at == next
    {
      var md := p[c];
      ok := !(inlineFrame.Some? || evalStackEnd - evalPos <= md.numArgs + |md.locals| + md.lengthEvalStack + 2
              || md.special || md.isStatic || !buffer);
      pos, at := evalPos, next;
      if ok {
        pos, at := EnterInline(p, evalPos, next, c);
      }
    }

    method EnterInline(p: Program, evalPos: int, next: nat, c: nat) returns (pos: int, at: nat)
      requires c < |p| && p[c].numArgs <= evalPos + 1
      requires |p[c].locals| <= evalStackEnd <= extension.Length
      modifies this, extension
      ensures Snapshot() == S.Inlined(p, old(Snapshot()), evalPos, next, c) && pos == evalPos + 1 && at == 0
      ensures block == extension && inlineFrame.Some? && inlineFrame.value.block == old(block)
    {
      var md := p[c];
      var pThis := evalPos + 1 - md.numArgs;
      inlineFrame := Some(SavedFrame(locals, block, args, evalStack, pThis, call, next));
      pos := evalPos + 1;
      at := 0;
      block, args := extension, pThis;
      locals := evalStackEnd - |md.locals|;
      call := c;
      evalStackEnd := locals;
      evalStack := pos;
      evalStackPos := pos + 1;
      ip := at;
      InitializeLocals(locals, md.locals);
      inlineReturns := md.hasRet;
    }

    method RestoreFromInlineStack(p: Program)
      requires call < |p| && inlineFrame.Some?
      modifies this
      ensures inlineFrame == old(inlineFrame) && inlineReturns == old(inlineReturns) && block == old(inlineFrame.value.block)
      ensures Snapshot().(inlineFrame := None, inlineReturns := false) == S.Restored(p, old(Snapshot()))
    {
      var s := inlineFrame.value;
      block, args := s.block, s.args;
      locals := s.locals;
      evalStackEnd := evalStackEnd + |p[call].locals|;
      call := s.call;
      ip := s.ip;
      evalStack := s.evalStack;
      evalStackPos := s.evalPos;
    }

    method PushValueAndPromote(v: Cell)
      requires 0 <= evalStackPos < extension.Length
      modifies this`evalStackPos, extension
      ensures Snapshot() == S.ValuePushed(old(Snapshot()), v)
    {
      extension[evalStackPos] := Promote(v);
      evalStackPos := evalStackPos + 1;
    }

    /** Ends the inlined call; `evalStackPos` points at the value returned. */
    method PopInline(p: Program)
      requires call < |p| && inlineFrame.Some?
      requires inlineReturns ==> 0 <= evalStackPos < extension.Length && 0 <= inlineFrame.value.evalPos < extension.Length
      modifies this, extension
      ensures block == old(inlineFrame.value.block) && inlineFrame == None
      ensures var g := S.Restored(p, old(Snapshot()));
              Snapshot() == if old(inlineReturns) then S.ValuePushed(g, old(extension[evalStackPos])) else g
    {
      var src := if inlineReturns then extension[evalStackPos] else Cell(I4, 0);
      RestoreFromInlineStack(p);
      label restored:
      if inlineReturns { PushValueAndPromote(src); }
      inlineFrame, inlineReturns := None, false;
    }
  }

  ghost function Blocks(fs: seq<StackFrame>): set<object> {
    set i | 0 <= i < |fs| :: fs[i].extension
  }

  ghost function Footprint(fs: seq<StackFrame>): set<object> {
    (set i | 0 <= i < |fs| :: fs[i]) + Blocks(fs)
  }

  ghost function Snapshots(fs: seq<StackFrame>): (snapshots: seq<S.StackFrame>)
    reads fs, Blocks(fs)
    ensures |snapshots| == |fs|
  {
    seq(|fs|, i requires 0 <= i < |fs| reads fs, Blocks(fs) => fs[i].Snapshot())
  }

  /** No two frames share a block, and arguments lie in the frame's own block or in the one below. */
  ghost predicate Apart(fs: seq<StackFrame>)
    reads fs
  {
    && (forall i, j :: 0 <= i < j < |fs| ==> fs[i] != fs[j] && fs[i].extension != fs[j].extension)
    && (forall i :: 0 <= i < |fs| ==> Aims(fs, i, fs[i].block))
    && (forall i :: 0 <= i < |fs| && fs[i].inlineFrame.Some? ==> Aims(fs, i, fs[i].inlineFrame.value.block))
  }

  ghost predicate Aims(fs: seq<StackFrame>, i: nat, block: array<Cell>)
    requires i < |fs|
  {
    block == fs[i].extension || (i > 0 && block == fs[i - 1].extension)
  }

  /** Only the last frame has changed. */
  twostate lemma LastChanged(fs: seq<StackFrame>)
    requires fs != [] && old(Apart(fs))
    requires forall i :: 0 <= i < |fs| - 1 ==> unchanged(fs[i], fs[i].extension)
    ensures Snapshots(fs) == old(Snapshots(fs))[|fs| - 1 := fs[|fs| - 1].Snapshot()]
  {
  }

  twostate lemma StaysApart(fs: seq<StackFrame>)
    requires fs != [] && old(Apart(fs))
    requires forall i :: 0 <= i < |fs| - 1 ==> unchanged(fs[i])
    requires var n := |fs| - 1;
             Aims(fs, n, fs[n].block) && (fs[n].inlineFrame.Some? ==> Aims(fs, n, fs[n].inlineFrame.value.block))
    ensures Apart(fs)
  {
    var n := |fs| - 1;
    forall i | 0 <= i < |fs| ensures Aims(fs, i, fs[i].block) {
      assert old(Aims(fs, i, fs[i].block));
    }
  }

  lemma OneMore(fs: seq<StackFrame>, f: StackFrame)
    requires Apart(fs) && fs != [] && f.block == fs[|fs| - 1].extension && f.inlineFrame == None
    requires f !in fs && forall i :: 0 <= i < |fs| ==> fs[i].extension != f.extension
    ensures Apart(fs + [f]) && Snapshots(fs + [f]) == Snapshots(fs) + [f.Snapshot()]
  {
    var gs := fs + [f];
    forall i | 0 <= i < |gs| ensures Aims(gs, i, gs[i].block) {
      if i < |fs| { assert Aims(fs, i, fs[i].block); }
    }
    forall i | 0 <= i < |gs| && gs[i].inlineFrame.Some? ensures Aims(gs, i, gs[i].inlineFrame.value.block) {
      if i < |fs| { assert Aims(fs, i, fs[i].inlineFrame.value.block); }
    }
  }

  /** A thread in the interpreter loop, with the registers the loop keeps for the last frame. */
  class Thread {
    const program: Program
    var frames: seq<StackFrame>
    var evalPos: int
    var ip: nat
    var raised: bool

    ghost function Machine(): S.Machine
      reads this, frames, Blocks(frames)
    {
      S.Machine(Snapshots(frames), evalPos, ip, raised)
    }

    ghost predicate Sound()
      reads this, frames, Blocks(frames)
    {
      Apart(frames) && S.MachineOk(program, Machine())
    }

    /** A thread about to run method `c`. */
    constructor (p: Program, c: nat, values: seq<Cell>)
      requires ProgramOk(p) && c < |p| && |values| == p[c].numArgs
      ensures program == p && Sound()
      ensures S.Denotes(p, Machine()) == State([Frame(c, 0, values, p[c].locals, [])], false)
    {
      var f := new StackFrame.First(p, c, values);
      program, frames, evalPos, ip, raised := p, [f], f.evalStackPos - 1, f.ip, false;
      new;
      hide S.MachineOk, S.Denotes, S.Start, ProgramOk, Above;
      ghost var found := Above(f.extension[..], |p[c].locals|);
      StartIs(p, c, values, found, f.Snapshot());
      S.StartOk(p, c, values, found);
      assert Snapshots(frames) == [f.Snapshot()];
    }

    /** One cell of one block is written. */
    method Write(k: nat, i: nat, v: Cell)
      requires Apart(frames) && k < |frames| && i < frames[k].extension.Length
      modifies frames[k].extension
      ensures Snapshots(frames) == old(Snapshots(frames))[k := old(frames[k].Snapshot()).(extension := old(frames[k].extension[..])[i := v])]
    {
      frames[k].extension[i] := v;
    }

    /** The running frame. */
    function Stack(): StackFrame
      requires frames != []
      reads this
    {
      frames[|frames| - 1]
    }

    /** Cell `evalPos + k` is written and becomes the top of the stack. */
    method Put(k: int, v: Cell, next: nat)
      requires Apart(frames) && frames != [] && 0 <= evalPos + k < Stack().extension.Length
      modifies this`evalPos, this`ip, Stack().extension
      ensures Machine() == S.Wrote(old(Machine()), S.Set(old(Stack().extension[..]), old(evalPos) + k, v), old(evalPos) + k, next)
    {
      assert S.Last(Snapshots(frames)) == Stack().Snapshot();
      WroteIs(Machine(), evalPos + k, v, evalPos + k, next);
      hide S.Wrote, S.Set, Apart, Snapshots, S.Last;
      Write(|frames| - 1, evalPos + k, v);
      evalPos, ip := evalPos + k, next;
    }

    /** The stack loses `n` cells. */
    method Jump(n: nat, next: nat)
      requires Apart(frames) && frames != []
      modifies this`evalPos, this`ip
      ensures Machine() == S.Wrote(old(Machine()), old(Stack().extension[..]), old(evalPos) - n, next)
    {
      ghost var was := Machine();
      evalPos, ip := evalPos - n, next;
      assert was.frames == Rest(was.frames) + [S.Last(was.frames)];
    }

    method StoreLocal(n: nat, v: Cell, next: nat)
      requires Apart(frames) && frames != [] && 0 <= Stack().locals + n < Stack().extension.Length
      modifies this`evalPos, this`ip, Stack().extension
      ensures Machine() == S.Wrote(old(Machine()), S.Set(old(Stack().extension[..]), Stack().locals + n, v), old(evalPos) - 1, next)
    {
      assert S.Last(Snapshots(frames)) == Stack().Snapshot();
      WroteIs(Machine(), Stack().locals + n, v, evalPos - 1, next);
      hide S.Wrote, S.Set, Apart, Snapshots, S.Last;
      Write(|frames| - 1, Stack().locals + n, v);
      evalPos, ip := evalPos - 1, next;
    }

    method LoadArg(n: nat) returns (v: Cell)
      requires Apart(frames) && frames != [] && 0 <= Stack().args + n < Stack().block.Length
      ensures v == S.ArgAt(Machine(), n)
    {
      v := Stack().block[Stack().args + n];
    }

    /** The arguments lie in the block of frame `k`. */
    method WriteArg(ghost k: nat, n: nat, v: Cell)
      requires Apart(frames) && frames != [] && k == ArgsFrame(Machine()) && 0 <= Stack().args + n < Stack().block.Length
      modifies Stack().block
      ensures var was := old(Snapshots(frames));
              Snapshots(frames) == was[k := was[k].(extension := S.Set(was[k].extension, Stack().args + n, v))]
    {
      assert frames[k].extension == Stack().block;
      Stack().block[Stack().args + n] := v;
      assert forall i :: 0 <= i < |frames| && i != k ==> frames[i].Snapshot() == old(frames[i].Snapshot());
    }

    method StoreArg(n: nat, v: Cell)
      requires Apart(frames) && frames != [] && 0 <= Stack().args + n < Stack().block.Length
      modifies this`evalPos, this`ip, Stack().block
      ensures Machine() == S.ArgStored(old(Machine()), n, v)
    {
      ghost var k := ArgsFrame(Machine());
      ArgStoredIs(Machine(), n, v);
      assert S.Last(Snapshots(frames)).args.at == Stack().args;
      hide S.ArgStored, Apart, Snapshots, S.Last;
      WriteArg(k, n, v);
      evalPos, ip := evalPos - 1, ip + 1;
    }

    /** A call inside the running frame, if that is possible. */
    method TryInline(c: nat, buffer: bool) returns (ok: bool)
      requires Apart(frames) && frames != [] && c < |program| && program[c].numArgs <= evalPos + 1
      requires Stack().evalStackEnd <= Stack().extension.Length
      modifies this`evalPos, this`ip, Stack(), Stack().extension
      ensures Apart(frames)
      ensures ok == S.CanInline(program, old(Stack().Snapshot()), old(evalPos), c, buffer)
      ensures ok ==> Machine() == CalledInline(program, old(Machine()), c)
      ensures !ok ==> Machine() == old(Machine()) && Stack().Snapshot() == old(Stack().Snapshot()) && unchanged(this)
    {
      hide S.CanInline, S.Inlined;
      assert S.Last(Machine().frames) == Stack().Snapshot();
      hide S.Last;
      var pos, at;
      ok, pos, at := Stack().PushInline(program, evalPos, ip + 1, c, buffer);
      LastChanged(frames);
      StaysApart(frames);
      hide Snapshots, Apart;
      if ok { evalPos, ip := pos, at; }
    }

    /** The registers go back to the frame. */
    method WriteBack()
      requires Apart(frames) && frames != []
      modifies Stack()`evalStackPos, Stack()`ip
      ensures Apart(frames) && Snapshots(frames) == S.Synced(old(Machine())) && Stack().Snapshot() == S.Current(old(Machine()))
    {
      ghost var was := Snapshots(frames);
      Stack().evalStackPos, Stack().ip := evalPos + 1, ip;
      LastChanged(frames);
      StaysApart(frames);
      assert Snapshots(frames) == Rest(was) + [Stack().Snapshot()];
    }

    /** The new frame takes its arguments off the stack of the last one. */
    method Link(callee: StackFrame)
      requires Apart(frames) && frames != [] && callee.block == Stack().extension && callee.inlineFrame == None
      requires callee !in frames && forall i :: 0 <= i < |frames| ==> frames[i].extension != callee.extension
      modifies this`frames, this`evalPos, this`ip, Stack()`evalStackPos
      ensures Apart(frames) && frames == old(frames) + [callee]
      ensures var was := old(Snapshots(frames));
              Snapshots(frames) == was[|was| - 1 := S.Last(was).(evalStackPos := callee.args)] + [callee.Snapshot()]
      ensures evalPos == callee.evalStackPos - 1 && ip == callee.ip && callee.Snapshot() == old(callee.Snapshot())
    {
      assert S.Last(Snapshots(frames)) == Stack().Snapshot();
      Stack().evalStackPos := callee.args;
      LastChanged(frames);
      StaysApart(frames);
      OneMore(frames, callee);
      hide Apart, Snapshots;
      frames := frames + [callee];
      evalPos, ip := callee.evalStackPos - 1, callee.ip;
    }

    /** A call in a frame of its own. */
    method Push(c: nat) returns (ghost found: nat -> Cell)
      requires Apart(frames) && frames != [] && c < |program|
      modifies this`frames, this`evalPos, this`ip, Stack()
      ensures Apart(frames) && |frames| == |old(frames)| + 1 && frames[..|old(frames)|] == old(frames)
      ensures fresh(Stack()) && fresh(Stack().extension)
      ensures Machine() == CalledPush(program, old(Machine()), c, found)
    {
      hide Apart, S.NewBlock, S.Pushed, S.Synced, S.Last, Above;
      ghost var was := Machine();
      ghost var f := S.Current(was).(ip := was.ip + 1);
      ip := ip + 1;
      assert Machine() == was.(ip := was.ip + 1);
      hide Snapshots;
      WriteBack();
      assert Stack().Snapshot() == f by { NextCurrent(was); }
      var callee := NewCallee(c);
      found := Above(callee.extension[..], |program[c].locals|);
      SyncedUpdate(was.(ip := was.ip + 1), S.Current(was).(ip := was.ip + 1, evalStackPos := callee.args));
      assert callee.Snapshot() == S.Pushed(program, f, c, found);
      Link(callee);
      assert Snapshots(frames) == CalledPush(program, was, c, found).frames;
    }

    method NewCallee(c: nat) returns (callee: StackFrame)
      requires Apart(frames) && frames != [] && c < |program|
      ensures fresh(callee) && fresh(callee.extension) && callee.block == Stack().extension && callee.inlineFrame == None
      ensures callee.Snapshot() == S.Pushed(program, Stack().Snapshot(), c, Above(callee.extension[..], |program[c].locals|))
      ensures callee.args == Stack().evalStackPos - program[c].numArgs
      ensures callee.evalStackPos == |program[c].locals| && callee.ip == 0
      ensures Snapshots(frames) == old(Snapshots(frames))
    {
      callee := new StackFrame(program, Stack(), c);
    }

    /** A call: inside the running frame when that is possible, otherwise in a new frame. */
    method Call(c: nat, buffer: bool) returns (ghost o: S.Oracle)
      requires Apart(frames) && frames != [] && c < |program| && program[c].numArgs <= evalPos + 1
      requires Stack().evalStackEnd <= Stack().extension.Length
      modifies this, Stack(), Stack().extension
      ensures Apart(frames) && Machine() == S.Called(program, old(Machine()), c, o) && o.buffer == buffer
      ensures frames == old(frames) || (|frames| == |old(frames)| + 1 && frames[..|old(frames)|] == old(frames)
                                        && fresh(Stack()) && fresh(Stack().extension))
    {
      ghost var was := Machine();
      assert S.Last(was.frames) == Stack().Snapshot();
      o := S.Oracle(buffer, _ => Cell(I4, 0));
      hide S.CanInline, S.Inlined, S.Pushed, S.Called, CalledInline, CalledPush, Snapshots;
      var ok := TryInline(c, buffer);
      if ok {
        CalledInlineIs(program, was, c, o);
      } else {
        ghost var found := Push(c);
        o := S.Oracle(buffer, found);
        CalledPushIs(program, was, c, o);
      }
    }

    method PopInlineFrame()
      requires Apart(frames) && frames != [] && Stack().call < |program| && Stack().inlineFrame.Some?
      requires Stack().inlineReturns ==> 0 <= evalPos < Stack().extension.Length && 0 <= Stack().inlineFrame.value.evalPos < Stack().extension.Length
      modifies Stack(), Stack().extension
      ensures Apart(frames)
      ensures var was := old(Snapshots(frames)); var h := InlineLeft(program, old(Stack().Snapshot()), evalPos);
              Stack().Snapshot() == h && Snapshots(frames) == was[|was| - 1 := h]
    {
      ghost var f := Stack().Snapshot();
      hide S.Restored, S.ValuePushed;
      Stack().evalStackPos := evalPos;
      RestoredIs(program, f, evalPos);
      Stack().PopInline(program);
      LastChanged(frames);
      StaysApart(frames);
    }

    method ReturnInline()
      requires Apart(frames) && frames != [] && Stack().call < |program| && Stack().inlineFrame.Some?
      requires Stack().inlineReturns ==> 0 <= evalPos < Stack().extension.Length && 0 <= Stack().inlineFrame.value.evalPos < Stack().extension.Length
      modifies this`evalPos, this`ip, Stack(), Stack().extension
      ensures Apart(frames) && Machine() == S.Returned(program, old(Machine()))
    {
      ghost var was := Machine();
      assert S.Last(was.frames) == Stack().Snapshot();
      ReturnedInlineIs(program, was);
      PopInlineFrame();
      hide Apart, Snapshots, S.Returned, S.Restored, S.ValuePushed;
      ip, evalPos := Stack().ip, Stack().evalStackPos - 1;
    }

    /** The caller goes on, with the result on its stack. */
    method Resume(hasRet: bool, v: Cell)
      requires Apart(frames) && frames != [] && (hasRet ==> 0 <= Stack().evalStackPos < Stack().extension.Length)
      modifies this`evalPos, this`ip, Stack()`evalStackPos, Stack().extension
      ensures Apart(frames)
      ensures var was := old(Snapshots(frames));
              var h := if hasRet then S.ValuePushed(S.Last(was), v) else S.Last(was);
              Machine() == S.Machine(was[|was| - 1 := h], h.evalStackPos - 1, h.ip, raised)
    {
      assert S.Last(Snapshots(frames)) == Stack().Snapshot();
      hide S.ValuePushed;
      if hasRet { Stack().PushValueAndPromote(v); }
      LastChanged(frames);
      StaysApart(frames);
      hide Apart, Snapshots;
      evalPos, ip := Stack().evalStackPos - 1, Stack().ip;
    }

    method Unlink()
      requires Apart(frames) && frames != []
      modifies this`frames
      ensures frames == old(frames)[..|old(frames)| - 1] && Apart(frames) && Snapshots(frames) == Rest(old(Snapshots(frames)))
    {
      ghost var fs := frames;
      frames := frames[..|frames| - 1];
      forall i | 0 <= i < |frames| ensures Aims(frames, i, frames[i].block) {
        assert Aims(fs, i, frames[i].block);
      }
    }

    method Return()
      requires Apart(frames) && frames != [] && Stack().call < |program| && Stack().inlineFrame == None
      requires program[Stack().call].hasRet ==> 0 <= evalPos < Stack().extension.Length
      requires program[Stack().call].hasRet && |frames| >= 2 ==> 0 <= frames[|frames| - 2].evalStackPos < frames[|frames| - 2].extension.Length
      modifies this, frames, Blocks(frames)
      ensures Apart(frames) && Machine() == S.Returned(program, old(Machine())) && frames == old(frames)[..|old(frames)| - 1]
    {
      ghost var was := Machine();
      var stack := Stack();
      assert S.Last(was.frames) == stack.Snapshot();
      ReturnedIs(program, was);
      Unlink();
      hide Apart, Snapshots, S.Returned, S.ValuePushed;
      if frames != [] {
        var hasRet := program[stack.call].hasRet;
        Resume(hasRet, if hasRet then stack.extension[evalPos] else Cell(I4, 0));
      }
    }

    /** The next instruction finds its operands inside the blocks. */
    ghost predicate Ready()
      reads this, frames, Blocks(frames)
    {
      && Apart(frames) && frames != [] && !raised
      && var f := Stack();
         && f.call < |program| && ip < |program[f.call].code|
         && Pops(program, program[f.call].code[ip]) <= evalPos + 1 < f.extension.Length
         && OperandOk(program, program[f.call], program[f.call].code[ip])
         && 0 <= f.locals && f.locals + |program[f.call].locals| <= f.extension.Length
         && 0 <= f.args && f.args + program[f.call].numArgs <= f.block.Length
         && f.evalStackEnd <= f.extension.Length
    }

    lemma SoundReady()
      requires Sound() && frames != [] && !raised
      ensures Ready()
    {
      ghost var m := Machine();
      assert S.Last(m.frames) == Stack().Snapshot();
      assert S.Lower(m.frames).Some? ==> |frames| >= 2 && S.Lower(m.frames).value == frames[|frames| - 2].Snapshot();
      hide S.MachineOk, OperandOk;
      S.InBounds(program, m);
    }

    ghost function Next(): Instr
      requires Ready()
      reads this, frames, Blocks(frames)
    {
      program[Stack().call].code[ip]
    }

    method LoadValue() returns (v: Cell)
      requires Ready() && (Next().LdArg? || Next().LdLoc? || Next().Ldc? || Next().Dup?)
      ensures v == S.Loaded(Machine(), Next())
    {
      var stack := Stack();
      assert S.Last(Machine().frames) == stack.Snapshot();
      hide S.ArgAt, Promote, Snapshots, S.Last, Apart;
      match program[stack.call].code[ip] {
        case LdArg(n) => v := LoadArg(n); v := Promote(v);
        case LdLoc(n) => v := Promote(stack.extension[stack.locals + n]);
        case Ldc(c) => v := Cell(I4, c);
        case Dup => v := stack.extension[evalPos];
      }
    }

    method Load(ghost o: S.Oracle)
      requires Ready() && (Next().LdArg? || Next().LdLoc? || Next().Ldc? || Next().Dup?)
      modifies this`evalPos, this`ip, Stack().extension
      ensures Machine() == S.Execute(program, old(Machine()), o)
    {
      ghost var was := Machine();
      assert S.Last(was.frames) == Stack().Snapshot();
      hide S.Wrote, S.Execute, S.Loaded, Apart, S.Set;
      S.LoadIs(program, was, o);
      assert Next() == S.Next(program, was) && 0 <= evalPos + 1 < Stack().extension.Length && Apart(frames);
      hide Ready;
      var v := LoadValue();
      assert Machine() == was;
      hide Snapshots, S.Last;
      Put(1, v, ip + 1);
    }

    method Store(ghost o: S.Oracle)
      requires Ready() && (Next().StArg? || Next().StLoc?)
      modifies this`evalPos, this`ip, Stack().extension, Stack().block
      ensures Machine() == S.Execute(program, old(Machine()), o)
    {
      ghost var was := Machine();
      var stack := Stack();
      assert S.Last(was.frames) == stack.Snapshot();
      hide S.Wrote, S.ArgStored, S.ArgAt, AssignAndPreserveType, Apart, S.Set;
      var v := stack.extension[evalPos];
      var i := program[stack.call].code[ip];
      S.StoreIs(program, was, o);
      assert i == S.Next(program, was) && S.Get(stack.extension[..], evalPos) == v;
      hide S.Execute;
      if i.StArg? {
        var slot := LoadArg(i.n);
        assert Machine() == was;
        hide Ready, S.Get, Snapshots;
        StoreArg(i.n, AssignAndPreserveType(slot, v));
      } else {
        assert 0 <= stack.locals + i.n < stack.extension.Length;
        var slot := stack.extension[stack.locals + i.n];
        assert S.Get(stack.extension[..], stack.locals + i.n) == slot;
        hide Ready, S.Get;
        StoreLocal(i.n, AssignAndPreserveType(slot, v), ip + 1);
      }
    }

    method AddTopTwo(ghost o: S.Oracle)
      requires Ready() && Next().Add?
      modifies this`evalPos, this`ip, this`raised, Stack().extension
      ensures Machine() == S.Execute(program, old(Machine()), o)
    {
      ghost var was := Machine();
      var stack := Stack();
      assert S.Last(was.frames) == stack.Snapshot();
      hide S.Wrote, S.Called, S.Returned, S.ArgStored, S.ArgAt, Promote, AssignAndPreserveType, S.Last, S.Set, Apart;
      var left := stack.extension[evalPos - 1];
      if Numeric(left) { Put(-1, NumericAdd(left, stack.extension[evalPos]), ip + 1); } else { raised := true; }
    }

    method Branch(ghost o: S.Oracle)
      requires Ready() && (Next().Pop? || Next().Br? || Next().BrTrue? || Next().BrFalse?)
      modifies this`evalPos, this`ip
      ensures Machine() == S.Execute(program, old(Machine()), o)
    {
      ghost var was := Machine();
      var stack := Stack();
      assert S.Last(was.frames) == stack.Snapshot();
      hide S.Wrote, S.Called, S.Returned, S.ArgStored, S.ArgAt, Promote, AssignAndPreserveType, Apart, Snapshots, S.Last, S.Set;
      match program[stack.call].code[ip] {
        case Pop => Jump(1, ip + 1);
        case Br(t) => Jump(0, t);
        case BrTrue(t) => Jump(1, if stack.extension[evalPos].data != 0 then t else ip + 1);
        case BrFalse(t) => Jump(1, if stack.extension[evalPos].data == 0 then t else ip + 1);
      }
    }

    /** The frames that a return needs have room for the result. */
    ghost predicate ReturnReady()
      requires frames != [] && Stack().call < |program|
      reads this, frames, Blocks(frames)
    {
      program[Stack().call].hasRet ==>
        && 0 <= evalPos < Stack().extension.Length
        && (Stack().inlineFrame.Some? ==> 0 <= Stack().inlineFrame.value.evalPos < Stack().extension.Length)
        && (Stack().inlineFrame == None && |frames| >= 2 ==>
              0 <= frames[|frames| - 2].evalStackPos < frames[|frames| - 2].extension.Length)
    }

    lemma SoundReturnReady()
      requires Sound() && frames != [] && !raised && Ready() && Next().Ret?
      ensures ReturnReady() && (Stack().inlineFrame.Some? ==> Stack().inlineReturns == program[Stack().call].hasRet)
    {
      ghost var m := Machine();
      assert S.Last(m.frames) == Stack().Snapshot();
      assert |frames| >= 2 ==> S.Last(Rest(m.frames)) == frames[|frames| - 2].Snapshot();
      assert Next() == S.Next(program, m);
      hide S.MachineOk, Ready, Apart, Snapshots, OperandOk, Pops, S.Block;
      S.InBounds(program, m);
      if program[Stack().call].hasRet { S.ReturnInBounds(program, m); }
      S.InlineReturnsOk(program, m);
    }

    method Ret(ghost o: S.Oracle)
      requires Ready() && Next().Ret? && ReturnReady()
      requires Stack().inlineFrame.Some? ==> Stack().inlineReturns == program[Stack().call].hasRet
      modifies this, frames, Blocks(frames)
      ensures Machine() == S.Execute(program, old(Machine()), o) && Apart(frames) && |frames| <= |old(frames)| && frames == old(frames)[..|frames|]
    {
      ghost var was := Machine();
      assert S.Last(was.frames) == Stack().Snapshot();
      assert S.Execute(program, was, o) == S.Returned(program, was) by {
        assert S.Next(program, was) == Instr.Ret;
        hide S.Returned, S.Called, S.Wrote, S.ArgStored, Snapshots, Apart;
      }
      hide S.Execute, S.Returned, Snapshots, S.Last;
      if Stack().inlineFrame.Some? { ReturnInline(); } else { Return(); }
    }

    method CallNext(buffer: bool) returns (ghost o: S.Oracle)
      requires Ready() && Next().Call?
      modifies this, Stack(), Stack().extension
      ensures Apart(frames) && Machine() == S.Execute(program, old(Machine()), o) && fresh(Footprint(frames) - old(Footprint(frames)))
    {
      ghost var was := Machine();
      assert S.Last(was.frames) == Stack().Snapshot();
      ghost var i := Next();
      CallIs(program, was, S.Next(program, was).callee);
      hide S.Called, Snapshots, S.Last, Apart, S.CanInline, S.Execute;
      o := Call(program[Stack().call].code[ip].callee, buffer);
    }

    method Simple(ghost o: S.Oracle)
      requires Ready() && !Next().Call? && !Next().Ret?
      modifies this`evalPos, this`ip, this`raised, Stack().extension, Stack().block
      ensures Apart(frames) && Machine() == S.Execute(program, old(Machine()), o)
    {
      var i := program[Stack().call].code[ip];
      assert Apart(frames) && i == Next();
      hide Ready, Snapshots, Apart, S.Execute, Machine;
      if i.LdArg? || i.LdLoc? || i.Ldc? || i.Dup? { Load(o); }
      else if i.StArg? || i.StLoc? { Store(o); }
      else if i.Add? { AddTopTwo(o); }
      else { Branch(o); }
    }

    ghost predicate FullyReady()
      reads this, frames, Blocks(frames)
    {
      Ready() && (Next().Ret? ==>
        ReturnReady() && (Stack().inlineFrame.Some? ==> Stack().inlineReturns == program[Stack().call].hasRet))
    }

    method Dispatch(buffer: bool) returns (ghost o: S.Oracle)
      requires FullyReady()
      modifies this, frames, Blocks(frames)
      ensures Machine() == S.Execute(program, old(Machine()), o) && Apart(frames) && fresh(Footprint(frames) - old(Footprint(frames)))
    {
      var i := program[Stack().call].code[ip];
      assert i == Next() && allocated(frames);
      assert Stack().block in Blocks(frames) by { assert Aims(frames, |frames| - 1, Stack().block); }
      hide Ready, Snapshots, Apart, S.Execute, ReturnReady, Machine;
      if i.Call? {
        o := CallNext(buffer);
      } else {
        o := S.Oracle(buffer, _ => Cell(I4, 0));
        if i.Ret? { Ret(o); } else { Simple(o); }
      }
    }

    /** Sound memory from which the reference machine is `n` steps short of state `final`. */
    ghost predicate Leads(final: State, n: nat)
      reads this, frames, Blocks(frames)
    {
      && Sound() && ProgramOk(program) && FramesOk(program, S.Denotes(program, Machine()).frames)
      && S.Steps(program, S.Denotes(program, Machine()), n) == final
    }

    /** One turn of the loop, fetch and instruction, is one step of the reference machine. */
    method Turn(buffer: bool, ghost final: State, ghost n: nat)
      requires Leads(final, n) && n > 0 && frames != [] && !raised
      modifies this, frames, Blocks(frames)
      ensures Leads(final, n - 1) && fresh(Footprint(frames) - old(Footprint(frames)))
    {
      ghost var was := Machine();
      SoundReady();
      if Next().Ret? { SoundReturnReady(); }
      assert FullyReady() && S.MachineOk(program, was);
      S.OneStep(program, S.Denotes(program, was), n);
      hide S.MachineOk, FullyReady, S.Execute, Machine, Apart, Ready, S.Denotes, S.Steps, FramesOk, ProgramOk, Step;
      ghost var o := Dispatch(buffer);
      S.ExecuteSimulates(program, was, o);
    }

    /** The interpreter loop runs for `quantum` turns.  However many calls find a buffer for inlining, the
        thread ends in the state that the reference machine reaches. */
    method ExecuteIL(quantum: nat)
      requires Sound()
      modifies this, frames, Blocks(frames)
      ensures Sound()
      ensures S.Denotes(program, Machine()) == S.Steps(program, old(S.Denotes(program, Machine())), quantum)
    {
      hide Leads, Sound, Machine, Apart, Snapshots, S.MachineOk, S.Denotes, S.Steps, FramesOk, ProgramOk;
      ghost var final := Final(quantum);
      var turns := 0;
      while turns < quantum && frames != [] && !raised
        invariant turns <= quantum && Leads(final, quantum - turns) && fresh(Footprint(frames) - old(Footprint(frames)))
      {
        var buffer: bool := *;
        Turn(buffer, final, quantum - turns);
        turns := turns + 1;
      }
      Arrived(final, quantum - turns);
    }

    /** Where the reference machine gets in `n` steps. */
    lemma Final(n: nat) returns (final: State)
      requires Sound()
      ensures Leads(final, n)
      ensures ProgramOk(program) && FramesOk(program, S.Denotes(program, Machine()).frames)
      ensures final == S.Steps(program, S.Denotes(program, Machine()), n)
    {
      S.DenotesOk(program, Machine());
      final := S.Steps(program, S.Denotes(program, Machine()), n);
    }

    lemma Arrived(final: State, n: nat)
      requires Leads(final, n) && (n == 0 || frames == [] || raised)
      ensures Sound() && S.Denotes(program, Machine()) == final
    {
      assert frames == [] ==> S.Denotes(program, Machine()).frames == [];
      hide S.MachineOk, FramesOk, ProgramOk;
      S.Halted(program, S.Denotes(program, Machine()), n);
    }
  }
}
