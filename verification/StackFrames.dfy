/** The interpreter's own stack frames: one block of cells per frame, with offsets for the arguments, the
    locals and the evaluation stack, and calls that may run inside the frame of the caller. */
module StackFrames {
  import opened Wrappers
  import opened Il

  // ---------- Frames as memory ----------

  /** A pointer to arguments: into the frame's own block or into the block of the frame below. */
  datatype Ptr = Ptr(own: bool, at: int)

  /** What inlining saves of the interrupted method. */
  datatype InlineFrame = InlineFrame(locals: int, args: Ptr, evalStack: int, evalPos: int, call: nat, ip: nat)

  datatype StackFrame = StackFrame(
    extension: seq<Cell>,
    locals: int, args: Ptr, evalStack: int, evalStackPos: int, evalStackEnd: int,
    call: nat, ip: nat,
    inlineFrame: Option<InlineFrame>, inlineReturns: bool)

  const OVERHEAD := 2
  const MINIMUM_STACK := 10

  /** The block a pointer points into; `lower` is the frame below `f`. */
  function Block(f: StackFrame, lower: Option<StackFrame>, ptr: Ptr): seq<Cell> {
    if ptr.own then f.extension else if lower.Some? then lower.value.extension else []
  }

  /** `n` cells from `at` on, as far as they lie in the block. */
  function Cells(block: seq<Cell>, at: int, n: int): seq<Cell> {
    if 0 <= at && 0 <= n && at + n <= |block| then block[at..at + n] else []
  }

  /** Where the evaluation stack of the running method begins; an inlined one leaves a gap. */
  function Base(f: StackFrame): int {
    if f.inlineFrame.Some? then f.evalStack + 1 else f.evalStack
  }

  /** The end of the evaluation area as it was before any inlining. */
  function End(p: Program, f: StackFrame): int
    requires f.call < |p|
  {
    if f.inlineFrame.Some? then f.evalStackEnd + |p[f.call].locals| else f.evalStackEnd
  }

  // ---------- What the memory stands for ----------

  /** The method that runs in frame `f`. */
  function Running(p: Program, f: StackFrame, lower: Option<StackFrame>): Frame
    requires f.call < |p|
  {
    Frame(f.call, f.ip,
          Cells(Block(f, lower, f.args), f.args.at, p[f.call].numArgs),
          Cells(f.extension, f.locals, |p[f.call].locals|),
          Cells(f.extension, Base(f), f.evalStackPos - Base(f)))
  }

  /** The method interrupted by an inlined call in frame `f`. */
  function Interrupted(p: Program, f: StackFrame, lower: Option<StackFrame>): seq<Frame> {
    match f.inlineFrame
    case None => []
    case Some(s) =>
      if s.call >= |p| then []
      else [Frame(s.call, s.ip,
                  Cells(Block(f, lower, s.args), s.args.at, p[s.call].numArgs),
                  Cells(f.extension, s.locals, |p[s.call].locals|),
                  Cells(f.extension, s.evalStack, s.evalPos - s.evalStack))]
  }

  function Last<T>(fs: seq<T>): T
    requires fs != []
  {
    fs[|fs| - 1]
  }

  function Lower(fs: seq<StackFrame>): Option<StackFrame> {
    if |fs| >= 2 then Some(fs[|fs| - 2]) else None
  }

  /** The frames of the reference machine that the blocks stand for. */
  function Abs(p: Program, fs: seq<StackFrame>): seq<Frame> {
    if fs == [] || Last(fs).call >= |p| then []
    else Abs(p, Rest(fs)) + Interrupted(p, Last(fs), Lower(fs)) + [Running(p, Last(fs), Lower(fs))]
  }

  // ---------- Layout: the areas of a block never overlap ----------

  /** `n` arguments lie either at the end of the block or on the stack of the frame below, just above
      the cells that frame still uses. */
  ghost predicate ArgsOk(f: StackFrame, lower: Option<StackFrame>, ptr: Ptr, n: nat, end: int) {
    if ptr.own then ptr.at == end && end + n <= |f.extension|
    else lower.Some? && ptr.at == lower.value.evalStackPos && ptr.at + n <= lower.value.evalStackEnd
  }

  ghost predicate PlainOk(p: Program, f: StackFrame, lower: Option<StackFrame>)
    requires f.call < |p|
  {
    var me := p[f.call];
    && !f.inlineReturns && 0 <= f.locals && f.locals + |me.locals| <= f.evalStack
    && f.evalStackEnd - f.evalStack >= me.lengthEvalStack + OVERHEAD + 1
    && ArgsOk(f, lower, f.args, me.numArgs, f.evalStackEnd)
  }

  ghost predicate InlinedOk(p: Program, f: StackFrame, lower: Option<StackFrame>, s: InlineFrame)
    requires f.call < |p|
  {
    var me := p[f.call];
    && s.call < |p| && f.inlineReturns == me.hasRet
    && 0 <= s.locals && s.locals + |p[s.call].locals| <= s.evalStack <= s.evalPos
    && f.args == Ptr(true, s.evalPos) && f.evalStack == s.evalPos + me.numArgs
    && f.locals == f.evalStackEnd
    && f.evalStackEnd - f.evalStack >= me.lengthEvalStack + 2
    && End(p, f) - s.evalStack >= p[s.call].lengthEvalStack + OVERHEAD + 1
    && ArgsOk(f, lower, s.args, p[s.call].numArgs, End(p, f))
  }

  ghost predicate FrameLayout(p: Program, f: StackFrame, lower: Option<StackFrame>) {
    && f.call < |p|
    && 0 <= Base(f) <= f.evalStackPos <= f.evalStackEnd && End(p, f) <= |f.extension|
    && (lower.Some? ==> 0 <= lower.value.evalStackPos && lower.value.evalStackEnd <= |lower.value.extension|)
    && (f.inlineFrame == None ==> PlainOk(p, f, lower))
    && (f.inlineFrame.Some? ==> InlinedOk(p, f, lower, f.inlineFrame.value))
  }

  ghost predicate Layout(p: Program, fs: seq<StackFrame>) {
    fs == [] || (FrameLayout(p, Last(fs), Lower(fs)) && Layout(p, Rest(fs)))
  }

  // ---------- The areas of the running method ----------

  /** Reads and writes; outside the block they do nothing, which no run ever comes to. */
  function Get(block: seq<Cell>, i: int): Cell {
    if 0 <= i < |block| then block[i] else Cell(I4, 0)
  }

  function Set(block: seq<Cell>, i: int, v: Cell): seq<Cell> {
    if 0 <= i < |block| then block[i := v] else block
  }

  ghost predicate Disjoint(a: int, n: int, b: int, m: int) {
    a + n <= b || b + m <= a
  }

  /** The running method's arguments, locals and evaluation stack lie inside their blocks, apart from
      each other, and the stack has room for all the method may push. */
  ghost predicate Areas(p: Program, f: StackFrame, lower: Option<StackFrame>) {
    && f.call < |p|
    && var me := p[f.call];
       && 0 <= f.args.at && f.args.at + me.numArgs <= |Block(f, lower, f.args)|
       && 0 <= f.locals && f.locals + |me.locals| <= |f.extension|
       && 0 <= Base(f) <= f.evalStackPos <= f.evalStackEnd <= |f.extension|
       && Base(f) + me.lengthEvalStack < f.evalStackEnd
       && Disjoint(f.locals, |me.locals|, Base(f), f.evalStackEnd - Base(f))
       && (f.args.own ==> Disjoint(f.args.at, me.numArgs, Base(f), f.evalStackEnd - Base(f)))
       && (f.args.own ==> Disjoint(f.args.at, me.numArgs, f.locals, |me.locals|))
  }

  lemma LayoutAreas(p: Program, f: StackFrame, lower: Option<StackFrame>)
    requires FrameLayout(p, f, lower)
    ensures Areas(p, f, lower)
  {
  }

  lemma CellWritten(a: seq<Cell>, i: int, v: Cell, at: int, n: int)
    requires 0 <= at && 0 <= n && at + n <= |a| && 0 <= i < |a|
    ensures !(at <= i < at + n) ==> Cells(a[i := v], at, n) == Cells(a, at, n)
    ensures at <= i < at + n ==> Cells(a[i := v], at, n) == Cells(a, at, n)[i - at := v]
  {
  }

  lemma CellAppended(a: seq<Cell>, at: int, n: int, k: nat, v: Cell)
    requires 0 <= at && k <= n && at + n <= |a| && at + k < |a|
    ensures Cells(a[at + k := v], at, k + 1) == Cells(a, at, n)[..k] + [v]
  {
    assert a[at + k := v][at..at + k + 1] == a[at..at + k] + [v];
  }

  lemma CellsShorter(a: seq<Cell>, at: int, n: int, k: int)
    requires 0 <= at && 0 <= k <= n && at + n <= |a|
    ensures Cells(a, at, k) == Cells(a, at, n)[..k]
  {
  }

  /** A block with an area of `n` cells at `at` and `k` live cells at `base`, all apart from cell `i`. */
  lemma AreasKept(a: seq<Cell>, i: int, v: Cell, at: int, n: nat, own: bool)
    requires 0 <= i < |a|
    requires own ==> 0 <= at && at + n <= |a| && (at + n <= i || i < at)
    ensures own ==> Cells(a[i := v], at, n) == Cells(a, at, n)
  {
  }

  lemma EvalKept(a: seq<Cell>, i: int, v: Cell, base: int, k: nat, pos: int, end: int)
    requires 0 <= i < |a| && 0 <= base && base + k <= pos <= end <= |a| && (end <= i || i < base)
    ensures Cells(a[i := v], base, k) == Cells(a, base, pos - base)[..k]
  {
    CellsShorter(a, base, pos - base, k);
  }

  /** The frame with other cells and registers. */
  function Moved(f: StackFrame, extension: seq<Cell>, pos: int, ip: nat): StackFrame {
    f.(extension := extension, evalStackPos := pos, ip := ip)
  }

  lemma RunningIs(p: Program, f: StackFrame, lower: Option<StackFrame>, args: seq<Cell>, locals: seq<Cell>, eval: seq<Cell>)
    requires f.call < |p| && Cells(Block(f, lower, f.args), f.args.at, p[f.call].numArgs) == args
    requires Cells(f.extension, f.locals, |p[f.call].locals|) == locals
    requires Cells(f.extension, Base(f), f.evalStackPos - Base(f)) == eval
    ensures Running(p, f, lower) == Frame(f.call, f.ip, args, locals, eval)
  {
  }

  lemma RunningSizes(p: Program, f: StackFrame, lower: Option<StackFrame>)
    requires Areas(p, f, lower)
    ensures |Running(p, f, lower).eval| == f.evalStackPos - Base(f)
    ensures |Running(p, f, lower).locals| == |p[f.call].locals|
    ensures |Running(p, f, lower).args| == p[f.call].numArgs
  {
  }

  /** Cell `i` is written, outside the arguments, and the evaluation stack is left at height `k`. */
  lemma ArgsUntouched(p: Program, f: StackFrame, lower: Option<StackFrame>, i: int, v: Cell)
    requires Areas(p, f, lower) && 0 <= i < |f.extension|
    requires f.args.own ==> i < f.args.at || f.args.at + p[f.call].numArgs <= i
    ensures var g := f.(extension := f.extension[i := v]);
            Cells(Block(g, lower, f.args), f.args.at, p[f.call].numArgs) == Running(p, f, lower).args
  {
    AreasKept(f.extension, i, v, f.args.at, p[f.call].numArgs, f.args.own);
  }

  lemma LocalsUntouched(p: Program, f: StackFrame, lower: Option<StackFrame>, i: int, v: Cell)
    requires Areas(p, f, lower) && 0 <= i < |f.extension|
    requires i < f.locals || f.locals + |p[f.call].locals| <= i
    ensures Cells(f.extension[i := v], f.locals, |p[f.call].locals|) == Running(p, f, lower).locals
  {
    AreasKept(f.extension, i, v, f.locals, |p[f.call].locals|, true);
  }

  lemma EvalUntouched(p: Program, f: StackFrame, lower: Option<StackFrame>, i: int, v: Cell, k: nat)
    requires Areas(p, f, lower) && 0 <= i < |f.extension| && k <= f.evalStackPos - Base(f)
    requires i < Base(f) || f.evalStackEnd <= i
    ensures k <= |Running(p, f, lower).eval|
    ensures Cells(f.extension[i := v], Base(f), k) == Running(p, f, lower).eval[..k]
  {
    EvalKept(f.extension, i, v, Base(f), k, f.evalStackPos, f.evalStackEnd);
  }

  lemma EvalAppended(p: Program, f: StackFrame, lower: Option<StackFrame>, k: nat, v: Cell)
    requires Areas(p, f, lower) && k <= f.evalStackPos - Base(f) && Base(f) + k < f.evalStackEnd
    ensures k <= |Running(p, f, lower).eval|
    ensures Cells(f.extension[Base(f) + k := v], Base(f), k + 1) == Running(p, f, lower).eval[..k] + [v]
  {
    CellAppended(f.extension, Base(f), f.evalStackPos - Base(f), k, v);
  }

  /** A cell written at height `k` of the evaluation stack, which then has height `k + 1`. */
  lemma EvalWritten(p: Program, f: StackFrame, lower: Option<StackFrame>, k: nat, v: Cell, ip: nat)
    requires Areas(p, f, lower) && k <= f.evalStackPos - Base(f) && Base(f) + k < f.evalStackEnd
    ensures k <= |Running(p, f, lower).eval|
    ensures var r := Running(p, f, lower);
            Running(p, Moved(f, f.extension[Base(f) + k := v], Base(f) + k + 1, ip), lower)
              == r.(eval := r.eval[..k] + [v], ip := ip)
  {
    var i, r := Base(f) + k, Running(p, f, lower);
    assert Base(Moved(f, f.extension[i := v], i + 1, ip)) == Base(f);
    hide Cells, Base;
    EvalAppended(p, f, lower, k, v);
    ArgsUntouched(p, f, lower, i, v);
    LocalsUntouched(p, f, lower, i, v);
    RunningIs(p, Moved(f, f.extension[i := v], i + 1, ip), lower, r.args, r.locals, r.eval[..k] + [v]);
  }

  lemma EvalDropped(p: Program, f: StackFrame, lower: Option<StackFrame>, k: nat, ip: nat)
    requires Areas(p, f, lower) && k <= f.evalStackPos - Base(f)
    ensures k <= |Running(p, f, lower).eval|
    ensures var r := Running(p, f, lower);
            Running(p, Moved(f, f.extension, Base(f) + k, ip), lower) == r.(eval := r.eval[..k], ip := ip)
  {
    var r := Running(p, f, lower);
    assert Base(Moved(f, f.extension, Base(f) + k, ip)) == Base(f);
    hide Cells, Base;
    RunningSizes(p, f, lower);
    CellsShorter(f.extension, Base(f), f.evalStackPos - Base(f), k);
    RunningIs(p, Moved(f, f.extension, Base(f) + k, ip), lower, r.args, r.locals, r.eval[..k]);
  }

  lemma LocalWritten(p: Program, f: StackFrame, lower: Option<StackFrame>, n: nat, v: Cell, k: nat, ip: nat)
    requires Areas(p, f, lower) && k <= f.evalStackPos - Base(f) && n < |p[f.call].locals|
    ensures k <= |Running(p, f, lower).eval| && n < |Running(p, f, lower).locals|
    ensures var r := Running(p, f, lower);
            Running(p, Moved(f, f.extension[f.locals + n := v], Base(f) + k, ip), lower)
              == r.(locals := r.locals[n := v], eval := r.eval[..k], ip := ip)
  {
    var i, r := f.locals + n, Running(p, f, lower);
    assert Base(Moved(f, f.extension[i := v], Base(f) + k, ip)) == Base(f);
    hide Cells, Base;
    RunningSizes(p, f, lower);
    CellWritten(f.extension, i, v, f.locals, |p[f.call].locals|);
    ArgsUntouched(p, f, lower, i, v);
    EvalUntouched(p, f, lower, i, v, k);
    RunningIs(p, Moved(f, f.extension[i := v], Base(f) + k, ip), lower, r.args, r.locals[n := v], r.eval[..k]);
  }

  /** An argument in the frame's own block: of an inlined method, or of the first frame. */
  lemma OwnArgWritten(p: Program, f: StackFrame, lower: Option<StackFrame>, n: nat, v: Cell, k: nat, ip: nat)
    requires Areas(p, f, lower) && k <= f.evalStackPos - Base(f) && n < p[f.call].numArgs && f.args.own
    ensures k <= |Running(p, f, lower).eval| && n < |Running(p, f, lower).args|
    ensures var r := Running(p, f, lower);
            Running(p, Moved(f, f.extension[f.args.at + n := v], Base(f) + k, ip), lower)
              == r.(args := r.args[n := v], eval := r.eval[..k], ip := ip)
  {
    var i, r := f.args.at + n, Running(p, f, lower);
    assert Base(Moved(f, f.extension[i := v], Base(f) + k, ip)) == Base(f);
    hide Cells, Base;
    RunningSizes(p, f, lower);
    CellWritten(f.extension, i, v, f.args.at, p[f.call].numArgs);
    LocalsUntouched(p, f, lower, i, v);
    EvalUntouched(p, f, lower, i, v, k);
    RunningIs(p, Moved(f, f.extension[i := v], Base(f) + k, ip), lower, r.args[n := v], r.locals, r.eval[..k]);
  }

  /** An argument in the block of the frame below. */
  lemma LowerArgWritten(p: Program, f: StackFrame, g: StackFrame, n: nat, v: Cell, k: nat, ip: nat)
    requires Areas(p, f, Some(g)) && k <= f.evalStackPos - Base(f) && n < p[f.call].numArgs && !f.args.own
    ensures k <= |Running(p, f, Some(g)).eval| && n < |Running(p, f, Some(g)).args|
    ensures var r := Running(p, f, Some(g));
            Running(p, Moved(f, f.extension, Base(f) + k, ip), Some(g.(extension := g.extension[f.args.at + n := v])))
              == r.(args := r.args[n := v], eval := r.eval[..k], ip := ip)
  {
    var r := Running(p, f, Some(g));
    assert Base(Moved(f, f.extension, Base(f) + k, ip)) == Base(f);
    hide Cells, Base;
    RunningSizes(p, f, Some(g));
    CellWritten(g.extension, f.args.at + n, v, f.args.at, p[f.call].numArgs);
    CellsShorter(f.extension, Base(f), f.evalStackPos - Base(f), k);
    RunningIs(p, Moved(f, f.extension, Base(f) + k, ip), Some(g.(extension := g.extension[f.args.at + n := v])),
              r.args[n := v], r.locals, r.eval[..k]);
  }

  // ---------- What a write leaves alone ----------

  /** Cell `i` belongs to the method that runs in `f`; an interrupted method owns the rest. */
  ghost predicate Owned(p: Program, f: StackFrame, i: int)
    requires f.call < |p|
  {
    0 <= i < |f.extension| && (f.inlineFrame.Some? ==> f.inlineFrame.value.evalPos <= i < End(p, f))
  }

  /** A write of a cell of its own leaves the interrupted method as it was. */
  lemma InterruptedKept(p: Program, f: StackFrame, lower: Option<StackFrame>, i: int, v: Cell, pos: int, ip: nat)
    requires FrameLayout(p, f, lower) && Owned(p, f, i)
    ensures Interrupted(p, Moved(f, f.extension[i := v], pos, ip), lower) == Interrupted(p, f, lower)
  {
    if f.inlineFrame.Some? {
      var s := f.inlineFrame.value;
      AreasKept(f.extension, i, v, s.locals, |p[s.call].locals|, true);
      AreasKept(f.extension, i, v, s.evalStack, s.evalPos - s.evalStack, true);
      AreasKept(f.extension, i, v, s.args.at, p[s.call].numArgs, s.args.own);
    }
  }

  lemma LayoutKept(p: Program, f: StackFrame, lower: Option<StackFrame>, ext: seq<Cell>, pos: int, ip: nat)
    requires FrameLayout(p, f, lower) && |ext| == |f.extension| && Base(f) <= pos <= f.evalStackEnd
    ensures FrameLayout(p, Moved(f, ext, pos, ip), lower)
  {
  }

  lemma RunningKept(p: Program, g: StackFrame, lower: Option<StackFrame>, i: int, v: Cell)
    requires Areas(p, g, lower) && g.evalStackPos <= i < g.evalStackEnd
    ensures Running(p, g.(extension := g.extension[i := v]), lower) == Running(p, g, lower)
  {
    var r := Running(p, g, lower);
    AreasKept(g.extension, i, v, Base(g), g.evalStackPos - Base(g), true);
    hide Cells;
    ArgsUntouched(p, g, lower, i, v);
    LocalsUntouched(p, g, lower, i, v);
    RunningIs(p, g.(extension := g.extension[i := v]), lower, r.args, r.locals, r.eval);
  }

  /** A write above the live stack of the frame below changes neither of its methods. */
  lemma LowerKept(p: Program, g: StackFrame, lower: Option<StackFrame>, i: int, v: Cell)
    requires FrameLayout(p, g, lower) && g.evalStackPos <= i < g.evalStackEnd
    ensures i < |g.extension|
    ensures Replaces(p, g, lower, g.(extension := g.extension[i := v]), Running(p, g, lower))
  {
    assert Owned(p, g, i) && i < |g.extension|;
    LayoutAreas(p, g, lower);
    hide Areas, Interrupted, Running, InlinedOk, PlainOk, ArgsOk;
    var h := g.(extension := g.extension[i := v]);
    assert h == Moved(g, g.extension[i := v], g.evalStackPos, g.ip);
    RunningKept(p, g, lower, i, v);
    InterruptedKept(p, g, lower, i, v, g.evalStackPos, g.ip);
    LayoutKept(p, g, lower, g.extension[i := v], g.evalStackPos, g.ip);
  }

  // ---------- The machine ----------

  /** The frames of a thread with the two registers the interpreter loop keeps for the last one:
      `evalPos` points at the top cell of its evaluation stack, `ip` at the next instruction. */
  datatype Machine = Machine(frames: seq<StackFrame>, evalPos: int, ip: nat, raised: bool)

  /** The last frame with the registers written back. */
  function Current(m: Machine): StackFrame
    requires m.frames != []
  {
    Last(m.frames).(evalStackPos := m.evalPos + 1, ip := m.ip)
  }

  function Synced(m: Machine): seq<StackFrame> {
    if m.frames == [] then [] else Rest(m.frames) + [Current(m)]
  }

  /** Sound memory that stands for a correct state of the reference machine. */
  ghost predicate MachineOk(p: Program, m: Machine) {
    ProgramOk(p) && Layout(p, Synced(m)) && FramesOk(p, Abs(p, Synced(m)))
  }

  /** The method that runs on the machine. */
  function Runs(p: Program, m: Machine): Frame
    requires m.frames != [] && Last(m.frames).call < |p|
  {
    Running(p, Current(m), Lower(m.frames))
  }

  lemma AbsSplit(p: Program, fs: seq<StackFrame>, g: StackFrame)
    requires g.call < |p|
    ensures Abs(p, fs + [g])
              == Abs(p, fs) + Interrupted(p, g, Lower(fs + [g])) + [Running(p, g, Lower(fs + [g]))]
    ensures Layout(p, fs + [g]) <==> FrameLayout(p, g, Lower(fs + [g])) && Layout(p, fs)
  {
    hide Interrupted, Running, FrameLayout;
    assert Rest(fs + [g]) == fs && Last(fs + [g]) == g;
  }

  lemma AbsAlone(p: Program, fs: seq<StackFrame>, g: StackFrame)
    requires g.call < |p| && g.inlineFrame == None
    ensures Abs(p, fs + [g]) == Abs(p, fs) + [Running(p, g, Lower(fs + [g]))]
  {
    assert Interrupted(p, g, Lower(fs + [g])) == [];
    hide Interrupted, Running, FrameLayout;
    AbsSplit(p, fs, g);
    assert Abs(p, fs) + [] == Abs(p, fs);
  }

  lemma TopOk(p: Program, fs: seq<Frame>)
    requires ProgramOk(p) && FramesOk(p, fs) && fs != []
    ensures FrameOk(p, Top(fs), 0) && InstrOk(p, p[Top(fs).call], Top(fs).ip)
  {
    assert FrameOk(p, fs[|fs| - 1], PendingOf(p, fs, |fs| - 1));
    assert MethodOk(p, p[Top(fs).call]);
  }

  lemma RunsOk(p: Program, m: Machine)
    requires MachineOk(p, m) && m.frames != []
    ensures Last(m.frames).call < |p| && FrameLayout(p, Current(m), Lower(m.frames)) && Areas(p, Current(m), Lower(m.frames))
    ensures var r := Runs(p, m);
            && FrameOk(p, r, 0) && r.call == Last(m.frames).call && r.ip == m.ip && InstrOk(p, p[r.call], r.ip)
            && |r.eval| == m.evalPos + 1 - Base(Last(m.frames)) <= p[r.call].lengthEvalStack
    ensures Abs(p, Synced(m)) != [] && Top(Abs(p, Synced(m))) == Runs(p, m)
  {
    var fs := Synced(m);
    assert Last(fs) == Current(m) && Lower(fs) == Lower(m.frames) && FrameLayout(p, Current(m), Lower(fs));
    hide FrameLayout, Running, Interrupted, Areas, Abs, Layout, FramesOk, InstrOk, ProgramOk;
    LayoutAreas(p, Current(m), Lower(m.frames));
    RunningSizes(p, Current(m), Lower(m.frames));
    RunningIp(p, Current(m), Lower(m.frames));
    assert Base(Current(m)) == Base(Last(m.frames));
    AbsSplit(p, Rest(m.frames), Current(m));
    TopOk(p, Abs(p, fs));
    assert InstrOk(p, p[Runs(p, m).call], m.ip);
    InstrDepth(p, p[Runs(p, m).call], m.ip);
  }

  lemma InstrDepth(p: Program, me: Method, k: nat)
    requires k < |me.code| == |me.depth| && InstrOk(p, me, k)
    ensures Pops(p, me.code[k]) <= me.depth[k] <= me.lengthEvalStack
  {
  }

  /** `n` follows `m` in sound memory, and the reference machine only changes its running frame, to `r`. */
  ghost predicate Simulates(p: Program, m: Machine, n: Machine, r: Frame) {
    && Layout(p, Synced(n)) && Abs(p, Synced(m)) != []
    && Abs(p, Synced(n)) == Rest(Abs(p, Synced(m))) + [r]
  }

  /** The machine with other cells in the last block and other registers. */
  function Wrote(m: Machine, ext: seq<Cell>, evalPos: int, ip: nat): Machine
    requires m.frames != []
  {
    m.(frames := Rest(m.frames) + [Last(m.frames).(extension := ext)], evalPos := evalPos, ip := ip)
  }

  lemma WroteCurrent(m: Machine, ext: seq<Cell>, evalPos: int, ip: nat)
    requires m.frames != []
    ensures Current(Wrote(m, ext, evalPos, ip)) == Moved(Current(m), ext, evalPos + 1, ip)
    ensures Rest(Wrote(m, ext, evalPos, ip).frames) == Rest(m.frames)
    ensures Synced(Wrote(m, ext, evalPos, ip)) == Rest(m.frames) + [Moved(Current(m), ext, evalPos + 1, ip)]
  {
  }

  /** `g` in the place of frame `f`: the same interrupted method, and `r` running. */
  ghost predicate Replaces(p: Program, f: StackFrame, lower: Option<StackFrame>, g: StackFrame, r: Frame) {
    && f.call < |p| && g.call == f.call && FrameLayout(p, g, lower)
    && Interrupted(p, g, lower) == Interrupted(p, f, lower) && Running(p, g, lower) == r
  }

  /** The machine with its last frame replaced. */
  lemma LastReplaced(p: Program, m: Machine, n: Machine, g: StackFrame, r: Frame)
    requires MachineOk(p, m) && m.frames != []
    requires Replaces(p, Current(m), Lower(m.frames), g, r)
    requires Synced(n) == Rest(m.frames) + [g]
    ensures Simulates(p, m, n, r)
  {
    hide Abs, Layout, FrameLayout, Interrupted, Running, FramesOk, ProgramOk;
    var base := Rest(m.frames);
    assert Lower(base + [g]) == Lower(m.frames) == Lower(Synced(m));
    AbsSplit(p, base, g);
    AbsSplit(p, base, Current(m));
    var a := Abs(p, base) + Interrupted(p, g, Lower(m.frames));
    assert Abs(p, Synced(n)) == a + [r];
    assert Abs(p, Synced(m)) == a + [Runs(p, m)];
    assert Rest(Abs(p, Synced(m))) == a;
  }

  // ---------- Instructions that write one cell ----------

  lemma EvalOwned(p: Program, f: StackFrame, lower: Option<StackFrame>, k: nat)
    requires FrameLayout(p, f, lower) && k < p[f.call].lengthEvalStack
    ensures Owned(p, f, Base(f) + k) && Base(f) + k < f.evalStackEnd
  {
  }

  lemma LocalOwned(p: Program, f: StackFrame, lower: Option<StackFrame>, n: nat)
    requires FrameLayout(p, f, lower) && n < |p[f.call].locals|
    ensures Owned(p, f, f.locals + n)
  {
  }

  lemma RunningIp(p: Program, f: StackFrame, lower: Option<StackFrame>)
    requires f.call < |p|
    ensures Running(p, f, lower).ip == f.ip && Running(p, f, lower).call == f.call
  {
  }

  lemma EvalReplaces(p: Program, f: StackFrame, lower: Option<StackFrame>, k: nat, v: Cell, ip: nat)
    requires FrameLayout(p, f, lower) && k <= f.evalStackPos - Base(f) && k < p[f.call].lengthEvalStack
    ensures Owned(p, f, Base(f) + k) && k <= |Running(p, f, lower).eval|
    ensures var r := Running(p, f, lower);
            Replaces(p, f, lower, Moved(f, f.extension[Base(f) + k := v], Base(f) + k + 1, ip),
                     r.(eval := r.eval[..k] + [v], ip := ip))
  {
    hide Areas, Interrupted, Running, InlinedOk, PlainOk, ArgsOk, Cells, Base, End;
    LayoutAreas(p, f, lower);
    RunningSizes(p, f, lower);
    EvalOwned(p, f, lower, k);
    EvalWritten(p, f, lower, k, v, ip);
    LayoutKept(p, f, lower, f.extension[Base(f) + k := v], Base(f) + k + 1, ip);
    InterruptedKept(p, f, lower, Base(f) + k, v, Base(f) + k + 1, ip);
  }

  lemma DropReplaces(p: Program, f: StackFrame, lower: Option<StackFrame>, k: nat, ip: nat)
    requires FrameLayout(p, f, lower) && k <= f.evalStackPos - Base(f)
    ensures k <= |Running(p, f, lower).eval|
    ensures var r := Running(p, f, lower);
            Replaces(p, f, lower, Moved(f, f.extension, Base(f) + k, ip), r.(eval := r.eval[..k], ip := ip))
  {
    assert Interrupted(p, Moved(f, f.extension, Base(f) + k, ip), lower) == Interrupted(p, f, lower);
    hide Areas, Interrupted, Running, InlinedOk, PlainOk, ArgsOk, Cells, Base, End;
    LayoutAreas(p, f, lower);
    RunningSizes(p, f, lower);
    EvalDropped(p, f, lower, k, ip);
    LayoutKept(p, f, lower, f.extension, Base(f) + k, ip);
  }

  lemma LocalReplaces(p: Program, f: StackFrame, lower: Option<StackFrame>, n: nat, v: Cell, k: nat, ip: nat)
    requires FrameLayout(p, f, lower) && k <= f.evalStackPos - Base(f) && n < |p[f.call].locals|
    ensures Owned(p, f, f.locals + n)
    ensures k <= |Running(p, f, lower).eval| && n < |Running(p, f, lower).locals|
    ensures var r := Running(p, f, lower);
            Replaces(p, f, lower, Moved(f, f.extension[f.locals + n := v], Base(f) + k, ip),
                     r.(locals := r.locals[n := v], eval := r.eval[..k], ip := ip))
  {
    hide Areas, Interrupted, Running, InlinedOk, PlainOk, ArgsOk, Cells, Base, End;
    LayoutAreas(p, f, lower);
    RunningSizes(p, f, lower);
    LocalOwned(p, f, lower, n);
    LocalWritten(p, f, lower, n, v, k, ip);
    LayoutKept(p, f, lower, f.extension[f.locals + n := v], Base(f) + k, ip);
    InterruptedKept(p, f, lower, f.locals + n, v, Base(f) + k, ip);
  }

  lemma OwnArgOwned(p: Program, f: StackFrame, lower: Option<StackFrame>, n: nat)
    requires FrameLayout(p, f, lower) && n < p[f.call].numArgs && f.args.own
    ensures Owned(p, f, f.args.at + n)
  {
  }

  lemma LowerArgBelow(p: Program, f: StackFrame, g: StackFrame, n: nat, v: Cell, k: nat, ip: nat)
    requires FrameLayout(p, f, Some(g)) && n < p[f.call].numArgs && !f.args.own && k <= f.evalStackPos - Base(f)
    ensures f.inlineFrame == None && g.evalStackPos <= f.args.at + n < g.evalStackEnd <= |g.extension|
    ensures 0 <= g.evalStackPos
    ensures FrameLayout(p, Moved(f, f.extension, Base(f) + k, ip), Some(g.(extension := g.extension[f.args.at + n := v])))
  {
  }

  lemma OwnArgReplaces(p: Program, f: StackFrame, lower: Option<StackFrame>, n: nat, v: Cell, k: nat, ip: nat)
    requires FrameLayout(p, f, lower) && k <= f.evalStackPos - Base(f) && n < p[f.call].numArgs && f.args.own
    ensures Owned(p, f, f.args.at + n)
    ensures k <= |Running(p, f, lower).eval| && n < |Running(p, f, lower).args|
    ensures var r := Running(p, f, lower);
            Replaces(p, f, lower, Moved(f, f.extension[f.args.at + n := v], Base(f) + k, ip),
                     r.(args := r.args[n := v], eval := r.eval[..k], ip := ip))
  {
    hide Areas, Interrupted, Running, InlinedOk, PlainOk, ArgsOk, Cells, Base, End;
    OwnArgOwned(p, f, lower, n);
    LayoutAreas(p, f, lower);
    RunningSizes(p, f, lower);
    OwnArgWritten(p, f, lower, n, v, k, ip);
    LayoutKept(p, f, lower, f.extension[f.args.at + n := v], Base(f) + k, ip);
    InterruptedKept(p, f, lower, f.args.at + n, v, Base(f) + k, ip);
  }

  /** An argument that lies on the stack of the frame below: both frames are replaced. */
  lemma LowerArgReplaces(p: Program, f: StackFrame, g: StackFrame, lower: Option<StackFrame>, n: nat, v: Cell, k: nat, ip: nat)
    requires FrameLayout(p, f, Some(g)) && FrameLayout(p, g, lower)
    requires k <= f.evalStackPos - Base(f) && n < p[f.call].numArgs && !f.args.own
    ensures f.inlineFrame == None && 0 <= f.args.at + n < |g.extension|
    ensures k <= |Running(p, f, Some(g)).eval| && n < |Running(p, f, Some(g)).args|
    ensures var r := Running(p, f, Some(g)); var h := g.(extension := g.extension[f.args.at + n := v]);
            && Replaces(p, g, lower, h, Running(p, g, lower))
            && Replaces(p, f, Some(h), Moved(f, f.extension, Base(f) + k, ip),
                        r.(args := r.args[n := v], eval := r.eval[..k], ip := ip))
  {
    hide Areas, Running, InlinedOk, PlainOk, ArgsOk, Cells, FrameLayout, Base, End;
    LowerArgBelow(p, f, g, n, v, k, ip);
    LayoutAreas(p, f, Some(g));
    RunningSizes(p, f, Some(g));
    LowerArgWritten(p, f, g, n, v, k, ip);
    LowerKept(p, g, lower, f.args.at + n, v);
  }

  // ---------- A call with a frame of its own ----------

  /** Cells for the locals and the evaluation stack, which get what the minimum leaves beside `extra` more cells.
      What lies above the locals is left as found. */
  function NewBlock(me: Method, extra: nat, found: nat -> Cell): (block: seq<Cell>)
    ensures |block| + extra >= MINIMUM_STACK && |block| >= |me.locals| + me.lengthEvalStack + OVERHEAD + 1
  {
    var need := me.lengthEvalStack + OVERHEAD + 1;
    me.locals + seq(if |me.locals| + need + extra < MINIMUM_STACK then MINIMUM_STACK - |me.locals| - extra else need, found)
  }

  /** The frame of method `c`, called by the method that runs in `f`. */
  function Pushed(p: Program, f: StackFrame, c: nat, found: nat -> Cell): StackFrame
    requires c < |p|
  {
    var block := NewBlock(p[c], 0, found);
    StackFrame(block, 0, Ptr(false, f.evalStackPos - p[c].numArgs), |p[c].locals|, |p[c].locals|, |block|,
               c, 0, None, false)
  }

  lemma PushedLayout(p: Program, f: StackFrame, lower: Option<StackFrame>, c: nat, found: nat -> Cell)
    requires FrameLayout(p, f, lower) && c < |p| && p[c].numArgs <= f.evalStackPos - Base(f)
    ensures var g := f.(evalStackPos := f.evalStackPos - p[c].numArgs);
            FrameLayout(p, Pushed(p, f, c, found), Some(g))
  {
  }

  lemma PushedRuns(p: Program, f: StackFrame, lower: Option<StackFrame>, c: nat, found: nat -> Cell)
    requires Areas(p, f, lower) && c < |p| && p[c].numArgs <= f.evalStackPos - Base(f)
    ensures p[c].numArgs <= |Running(p, f, lower).eval|
    ensures var r := Running(p, f, lower); var g := f.(evalStackPos := f.evalStackPos - p[c].numArgs);
            Running(p, Pushed(p, f, c, found), Some(g))
              == Frame(c, 0, r.eval[|r.eval| - p[c].numArgs..], p[c].locals, [])
  {
    var n := p[c].numArgs;
    var r, h := Running(p, f, lower), Pushed(p, f, c, found);
    assert Cells(h.extension, 0, |p[c].locals|) == p[c].locals;
    assert Cells(f.extension, f.evalStackPos - n, n) == r.eval[|r.eval| - n..];
  }

  lemma PushedOk(p: Program, f: StackFrame, lower: Option<StackFrame>, c: nat, found: nat -> Cell)
    requires FrameLayout(p, f, lower) && c < |p| && p[c].numArgs <= f.evalStackPos - Base(f)
    ensures p[c].numArgs <= |Running(p, f, lower).eval|
    ensures var r := Running(p, f, lower); var g := f.(evalStackPos := f.evalStackPos - p[c].numArgs);
            var h := Pushed(p, f, c, found);
            && Replaces(p, f, lower, g, r.(eval := Drop(r.eval, p[c].numArgs)))
            && FrameLayout(p, h, Some(g)) && Interrupted(p, h, Some(g)) == []
            && Running(p, h, Some(g)) == Frame(c, 0, r.eval[|r.eval| - p[c].numArgs..], p[c].locals, [])
  {
    hide Areas, InlinedOk, PlainOk, ArgsOk, Cells, Running;
    LayoutAreas(p, f, lower);
    RunningSizes(p, f, lower);
    PushedLayout(p, f, lower, c, found);
    PushedRuns(p, f, lower, c, found);
    hide FrameLayout;
    var k := f.evalStackPos - Base(f) - p[c].numArgs;
    DropReplaces(p, f, lower, k, f.ip);
    var r := Running(p, f, lower);
    assert r.(eval := r.eval[..k], ip := f.ip) == r.(eval := Drop(r.eval, p[c].numArgs)) by { RunningIp(p, f, lower); }
    assert f.(evalStackPos := f.evalStackPos - p[c].numArgs) == Moved(f, f.extension, Base(f) + k, f.ip);
  }

  // ---------- A call inside the frame of the caller ----------

  /** `vs` written from `at` on. */
  function Filled(block: seq<Cell>, at: int, vs: seq<Cell>): (r: seq<Cell>)
    ensures |r| == |block|
  {
    if 0 <= at && at + |vs| <= |block| then block[..at] + vs + block[at + |vs|..] else block
  }

  /** The conditions under which a call to `c` runs inside frame `f`; `buffer`: there is room to save the caller. */
  predicate CanInline(p: Program, f: StackFrame, evalPos: int, c: nat, buffer: bool)
    requires c < |p|
  {
    && f.inlineFrame == None
    && f.evalStackEnd - evalPos > p[c].numArgs + |p[c].locals| + p[c].lengthEvalStack + 2
    && !p[c].special && !p[c].isStatic && buffer
  }

  /** The same frame re-aimed at the callee: its arguments stay where the caller pushed them, its locals
      come out of the end of the evaluation area, and one cell above the arguments is left free. */
  function Inlined(p: Program, f: StackFrame, evalPos: int, ip: nat, c: nat): StackFrame
    requires c < |p|
  {
    var pThis, locals := evalPos + 1 - p[c].numArgs, f.evalStackEnd - |p[c].locals|;
    StackFrame(Filled(f.extension, locals, p[c].locals), locals, Ptr(true, pThis), evalPos + 1, evalPos + 2, locals,
               c, 0, Some(InlineFrame(f.locals, f.args, f.evalStack, pThis, f.call, ip)), p[c].hasRet)
  }

  lemma FilledKept(a: seq<Cell>, at: nat, vs: seq<Cell>, base: int, n: int)
    requires at + |vs| <= |a| && 0 <= base && 0 <= n && base + n <= |a|
    requires base + n <= at || at + |vs| <= base
    ensures Cells(Filled(a, at, vs), base, n) == Cells(a, base, n)
  {
    var b := Filled(a, at, vs);
    forall i | base <= i < base + n ensures b[i] == a[i] {}
  }

  lemma InlinedLayout(p: Program, f: StackFrame, lower: Option<StackFrame>, c: nat, buffer: bool, ip: nat)
    requires FrameLayout(p, f, lower) && c < |p| && p[c].numArgs <= f.evalStackPos - Base(f)
    requires CanInline(p, f, f.evalStackPos - 1, c, buffer)
    ensures FrameLayout(p, Inlined(p, f, f.evalStackPos - 1, ip, c), lower)
  {
  }

  /** Where the callee's areas come to lie. */
  lemma InlinedAreas(p: Program, f: StackFrame, lower: Option<StackFrame>, c: nat, buffer: bool, ip: nat)
    requires Areas(p, f, lower) && c < |p| && p[c].numArgs <= f.evalStackPos - Base(f)
    requires CanInline(p, f, f.evalStackPos - 1, c, buffer)
    ensures var h := Inlined(p, f, f.evalStackPos - 1, ip, c);
            && h.call == c && h.ip == 0 && h.args == Ptr(true, f.evalStackPos - p[c].numArgs)
            && h.extension == Filled(f.extension, h.locals, p[c].locals) && Base(h) == h.evalStackPos
            && f.inlineFrame == None && Base(f) == f.evalStack
            && 0 <= f.evalStack <= f.evalStackPos - p[c].numArgs && f.evalStackPos < h.locals
            && h.locals + |p[c].locals| == f.evalStackEnd <= |f.extension|
            && h.inlineFrame == Some(InlineFrame(f.locals, f.args, f.evalStack, f.evalStackPos - p[c].numArgs, f.call, ip))
            && 0 <= f.locals && f.locals + |p[f.call].locals| <= |f.extension|
            && (f.locals + |p[f.call].locals| <= f.evalStack || f.evalStackEnd <= f.locals)
            && (f.args.own ==> 0 <= f.args.at && f.args.at + p[f.call].numArgs <= |f.extension|)
  {
  }

  lemma CellsNone(a: seq<Cell>, at: int)
    ensures Cells(a, at, 0) == []
  {
  }

  /** The caller's areas lie clear of the locals carved out for the callee. */
  lemma InlinedInterrupts(p: Program, f: StackFrame, lower: Option<StackFrame>, c: nat, buffer: bool, ip: nat)
    requires Areas(p, f, lower) && (f.args.own ==> f.args.at >= f.evalStackEnd)
    requires c < |p| && p[c].numArgs <= f.evalStackPos - Base(f)
    requires CanInline(p, f, f.evalStackPos - 1, c, buffer)
    ensures p[c].numArgs <= |Running(p, f, lower).eval|
    ensures var r := Running(p, f, lower);
            Interrupted(p, Inlined(p, f, f.evalStackPos - 1, ip, c), lower) == [r.(eval := Drop(r.eval, p[c].numArgs), ip := ip)]
  {
    hide Cells, Base, Inlined, CanInline, Filled;
    var n, me := p[c].numArgs, p[f.call];
    hide Areas;
    var h := Inlined(p, f, f.evalStackPos - 1, ip, c);
    InlinedAreas(p, f, lower, c, buffer, ip);
    RunningSizes(p, f, lower);
    CellsShorter(f.extension, f.evalStack, f.evalStackPos - f.evalStack, f.evalStackPos - n - f.evalStack);
    FilledKept(f.extension, h.locals, p[c].locals, f.evalStack, f.evalStackPos - n - f.evalStack);
    FilledKept(f.extension, h.locals, p[c].locals, f.locals, |me.locals|);
    if f.args.own { FilledKept(f.extension, h.locals, p[c].locals, f.args.at, me.numArgs); }
  }

  lemma EvalTail(p: Program, f: StackFrame, lower: Option<StackFrame>, n: nat)
    requires Areas(p, f, lower) && n <= f.evalStackPos - Base(f)
    ensures n <= |Running(p, f, lower).eval|
    ensures Cells(f.extension, f.evalStackPos - n, n) == Running(p, f, lower).eval[|Running(p, f, lower).eval| - n..]
  {
  }

  lemma FilledWith(a: seq<Cell>, at: nat, vs: seq<Cell>)
    requires at + |vs| <= |a|
    ensures Cells(Filled(a, at, vs), at, |vs|) == vs
  {
  }

  lemma InlinedRuns(p: Program, f: StackFrame, lower: Option<StackFrame>, c: nat, buffer: bool, ip: nat)
    requires Areas(p, f, lower) && c < |p| && p[c].numArgs <= f.evalStackPos - Base(f)
    requires CanInline(p, f, f.evalStackPos - 1, c, buffer)
    ensures p[c].numArgs <= |Running(p, f, lower).eval|
    ensures var r := Running(p, f, lower);
            Running(p, Inlined(p, f, f.evalStackPos - 1, ip, c), lower)
              == Frame(c, 0, r.eval[|r.eval| - p[c].numArgs..], p[c].locals, [])
  {
    var n := p[c].numArgs;
    var r, h := Running(p, f, lower), Inlined(p, f, f.evalStackPos - 1, ip, c);
    hide Cells, Running, Base, Areas, Inlined, CanInline, Filled;
    InlinedAreas(p, f, lower, c, buffer, ip);
    EvalTail(p, f, lower, n);
    CellsNone(h.extension, Base(h));
    FilledWith(f.extension, h.locals, p[c].locals);
    FilledKept(f.extension, h.locals, p[c].locals, f.evalStackPos - n, n);
    RunningIs(p, h, lower, r.eval[|r.eval| - n..], p[c].locals, []);
  }

  /** The space check keeps the callee apart from all the caller still uses. */
  lemma InlinedOkay(p: Program, f: StackFrame, lower: Option<StackFrame>, c: nat, buffer: bool, evalPos: int, ip: nat)
    requires FrameLayout(p, f, lower) && c < |p| && p[c].numArgs <= f.evalStackPos - Base(f)
    requires f.evalStackPos == evalPos + 1 && CanInline(p, f, evalPos, c, buffer)
    ensures p[c].numArgs <= |Running(p, f, lower).eval|
    ensures var r := Running(p, f, lower); var h := Inlined(p, f, evalPos, ip, c);
            && FrameLayout(p, h, lower) && f.inlineFrame == None && h.call == c
            && Interrupted(p, h, lower) == [r.(eval := Drop(r.eval, p[c].numArgs), ip := ip)]
            && Running(p, h, lower) == Frame(c, 0, r.eval[|r.eval| - p[c].numArgs..], p[c].locals, [])
  {
    assert evalPos == f.evalStackPos - 1;
    assert f.args.own ==> f.args.at >= f.evalStackEnd;
    hide Areas, InlinedOk, PlainOk, ArgsOk, Cells, Running, Interrupted;
    LayoutAreas(p, f, lower);
    InlinedLayout(p, f, lower, c, buffer, ip);
    InlinedInterrupts(p, f, lower, c, buffer, ip);
    InlinedRuns(p, f, lower, c, buffer, ip);
  }

  /** The frame aimed at the interrupted method again. */
  function Restored(p: Program, f: StackFrame): StackFrame
    requires f.call < |p| && f.inlineFrame.Some?
  {
    var s := f.inlineFrame.value;
    f.(locals := s.locals, args := s.args, evalStack := s.evalStack, evalStackPos := s.evalPos,
       evalStackEnd := f.evalStackEnd + |p[f.call].locals|, call := s.call, ip := s.ip,
       inlineFrame := None, inlineReturns := false)
  }

  /** Leaving an inlined call brings back exactly the method that made it. */
  lemma RestoredOk(p: Program, f: StackFrame, lower: Option<StackFrame>)
    requires FrameLayout(p, f, lower) && f.inlineFrame.Some?
    ensures FrameLayout(p, Restored(p, f), lower)
    ensures Interrupted(p, Restored(p, f), lower) == [] && Interrupted(p, f, lower) == [Running(p, Restored(p, f), lower)]
  {
  }

  // ---------- The machine's steps ----------

  /** What the program does not decide: whether a buffer to save the caller is free, and what a new
      block of memory holds. */
  datatype Oracle = Oracle(buffer: bool, found: nat -> Cell)

  function ArgAt(m: Machine, n: nat): Cell
    requires m.frames != []
  {
    var f := Last(m.frames);
    Get(Block(f, Lower(m.frames), f.args), f.args.at + n)
  }

  /** The top cell goes to argument `n`, in the frame's own block or in the one below. */
  function ArgStored(m: Machine, n: nat, v: Cell): Machine
    requires m.frames != []
  {
    var f := Last(m.frames);
    if f.args.own then Wrote(m, Set(f.extension, f.args.at + n, v), m.evalPos - 1, m.ip + 1)
    else if |m.frames| < 2 then m
    else
      var g := Last(Rest(m.frames));
      m.(frames := Rest(Rest(m.frames)) + [g.(extension := Set(g.extension, f.args.at + n, v)), f],
         evalPos := m.evalPos - 1, ip := m.ip + 1)
  }

  /** A thread goes on with its last frame. */
  function Resumed(m: Machine, frames: seq<StackFrame>): Machine
    requires frames != []
  {
    m.(frames := frames, evalPos := Last(frames).evalStackPos - 1, ip := Last(frames).ip)
  }

  function Called(p: Program, m: Machine, c: nat, o: Oracle): Machine
    requires m.frames != [] && c < |p|
  {
    var f := Current(m).(ip := m.ip + 1);
    if CanInline(p, f, m.evalPos, c, o.buffer) then
      Resumed(m, Rest(m.frames) + [Inlined(p, f, m.evalPos, m.ip + 1, c)])
    else
      Resumed(m, Rest(m.frames) + [f.(evalStackPos := f.evalStackPos - p[c].numArgs), Pushed(p, f, c, o.found)])
  }

  /** A result widened onto the stack of a frame. */
  function ValuePushed(g: StackFrame, v: Cell): StackFrame {
    g.(extension := Set(g.extension, g.evalStackPos, Promote(v)), evalStackPos := g.evalStackPos + 1)
  }

  function Returned(p: Program, m: Machine): Machine
    requires m.frames != [] && Last(m.frames).call < |p|
  {
    var f, rest := Last(m.frames), Rest(m.frames);
    var top := Get(f.extension, m.evalPos);
    if f.inlineFrame.Some? then
      var g := Restored(p, f);
      Resumed(m, rest + [if f.inlineReturns then ValuePushed(g, top) else g])
    else if rest == [] then m.(frames := [])
    else
      var g := Last(rest);
      Resumed(m, Rest(rest) + [if p[f.call].hasRet then ValuePushed(g, top) else g])
  }

  /** One turn of the interpreter loop. */
  function Execute(p: Program, m: Machine, o: Oracle): Machine {
    if m.frames == [] || m.raised || Last(m.frames).call >= |p| || m.ip >= |p[Last(m.frames).call].code| then m
    else
      var f, top := Last(m.frames), m.evalPos;
      var ext, next := f.extension, m.ip + 1;
      var v := Get(ext, top);
      match p[f.call].code[m.ip]
      case LdArg(n) => Wrote(m, Set(ext, top + 1, Promote(ArgAt(m, n))), top + 1, next)
      case LdLoc(n) => Wrote(m, Set(ext, top + 1, Promote(Get(ext, f.locals + n))), top + 1, next)
      case StArg(n) => ArgStored(m, n, AssignAndPreserveType(ArgAt(m, n), v))
      case StLoc(n) => Wrote(m, Set(ext, f.locals + n, AssignAndPreserveType(Get(ext, f.locals + n), v)), top - 1, next)
      case Ldc(c) => Wrote(m, Set(ext, top + 1, Cell(I4, c)), top + 1, next)
      case Dup => Wrote(m, Set(ext, top + 1, v), top + 1, next)
      case Pop => Wrote(m, ext, top - 1, next)
      case Add =>
        if Numeric(Get(ext, top - 1)) then Wrote(m, Set(ext, top - 1, NumericAdd(Get(ext, top - 1), v)), top - 1, next)
        else m.(raised := true)
      case Br(t) => Wrote(m, ext, top, t)
      case BrTrue(t) => Wrote(m, ext, top - 1, if v.data != 0 then t else next)
      case BrFalse(t) => Wrote(m, ext, top - 1, if v.data == 0 then t else next)
      case Call(c) => if c < |p| then Called(p, m, c, o) else m
      case Ret => Returned(p, m)
  }

  // ---------- What the instructions read ----------

  lemma ArgValue(p: Program, m: Machine, n: nat)
    requires MachineOk(p, m) && m.frames != [] && Last(m.frames).call < |p| && n < p[Last(m.frames).call].numArgs
    ensures n < |Runs(p, m).args| && ArgAt(m, n) == Runs(p, m).args[n]
  {
    hide Abs, Layout, Interrupted, FramesOk, FrameLayout, ProgramOk;
    RunsOk(p, m);
  }

  lemma LocalValue(p: Program, m: Machine, n: nat)
    requires MachineOk(p, m) && m.frames != [] && Last(m.frames).call < |p| && n < |p[Last(m.frames).call].locals|
    ensures n < |Runs(p, m).locals| && Get(Last(m.frames).extension, Last(m.frames).locals + n) == Runs(p, m).locals[n]
  {
    hide Abs, Layout, Interrupted, FramesOk, FrameLayout, ProgramOk;
    RunsOk(p, m);
  }

  /** The cell `d` below the top. */
  lemma EvalValue(p: Program, m: Machine, d: nat)
    requires MachineOk(p, m) && m.frames != [] && Last(m.frames).call < |p| && d < |Runs(p, m).eval|
    ensures Get(Last(m.frames).extension, m.evalPos - d) == Runs(p, m).eval[|Runs(p, m).eval| - 1 - d]
  {
    hide Abs, Layout, Interrupted, FramesOk, FrameLayout, ProgramOk, MachineOk, FrameOk, InstrOk, Areas, Running;
    RunsOk(p, m);
    EvalCell(p, Current(m), Lower(m.frames), d);
  }

  lemma EvalCell(p: Program, f: StackFrame, lower: Option<StackFrame>, d: nat)
    requires Areas(p, f, lower) && d < |Running(p, f, lower).eval|
    ensures Get(f.extension, f.evalStackPos - 1 - d) == Running(p, f, lower).eval[|Running(p, f, lower).eval| - 1 - d]
  {
  }

  // ---------- What the instructions write ----------

  /** `v` becomes the top of the stack, at height `k`. */
  lemma EvalSimulates(p: Program, m: Machine, k: nat, v: Cell, ip: nat)
    requires MachineOk(p, m) && m.frames != [] && Last(m.frames).call < |p|
    requires k <= |Runs(p, m).eval| && k < p[Last(m.frames).call].lengthEvalStack
    ensures var i := Base(Last(m.frames)) + k; var r := Runs(p, m);
            Simulates(p, m, Wrote(m, Set(Last(m.frames).extension, i, v), i, ip), r.(eval := r.eval[..k] + [v], ip := ip))
  {
    hide Abs, Layout, Interrupted, FramesOk, FrameLayout, ProgramOk, Running, Replaces, MachineOk, Simulates, Areas;
    RunsOk(p, m);
    var f, lower := Current(m), Lower(m.frames);
    var i := Base(f) + k;
    EvalReplaces(p, f, lower, k, v, ip);
    WroteCurrent(m, f.extension[i := v], i, ip);
    var r := Runs(p, m);
    LastReplaced(p, m, Wrote(m, f.extension[i := v], i, ip), Moved(f, f.extension[i := v], i + 1, ip),
                 r.(eval := r.eval[..k] + [v], ip := ip));
  }

  /** The stack falls to height `k`. */
  lemma DropSimulates(p: Program, m: Machine, k: nat, ip: nat)
    requires MachineOk(p, m) && m.frames != [] && Last(m.frames).call < |p| && k <= |Runs(p, m).eval|
    ensures var i := Base(Last(m.frames)) + k - 1; var r := Runs(p, m);
            Simulates(p, m, Wrote(m, Last(m.frames).extension, i, ip), r.(eval := r.eval[..k], ip := ip))
  {
    hide Abs, Layout, Interrupted, FramesOk, FrameLayout, ProgramOk, Running, Replaces, MachineOk, Simulates, Areas;
    RunsOk(p, m);
    var f, lower := Current(m), Lower(m.frames);
    var i := Base(f) + k - 1;
    DropReplaces(p, f, lower, k, ip);
    WroteCurrent(m, f.extension, i, ip);
    var r := Runs(p, m);
    LastReplaced(p, m, Wrote(m, f.extension, i, ip), Moved(f, f.extension, i + 1, ip), r.(eval := r.eval[..k], ip := ip));
  }

  lemma LocalSimulates(p: Program, m: Machine, n: nat, v: Cell, k: nat, ip: nat)
    requires MachineOk(p, m) && m.frames != [] && Last(m.frames).call < |p| && k <= |Runs(p, m).eval|
    requires n < |p[Last(m.frames).call].locals|
    ensures n < |Runs(p, m).locals|
    ensures var i := Base(Last(m.frames)) + k - 1; var r := Runs(p, m); var f := Last(m.frames);
            Simulates(p, m, Wrote(m, Set(f.extension, f.locals + n, v), i, ip),
                      r.(locals := r.locals[n := v], eval := r.eval[..k], ip := ip))
  {
    hide Abs, Layout, Interrupted, FramesOk, FrameLayout, ProgramOk, Running, Replaces, MachineOk, Simulates, Areas;
    RunsOk(p, m);
    var f, lower := Current(m), Lower(m.frames);
    var i := Base(f) + k - 1;
    LocalReplaces(p, f, lower, n, v, k, ip);
    var ext := f.extension[f.locals + n := v];
    WroteCurrent(m, ext, i, ip);
    var r := Runs(p, m);
    LastReplaced(p, m, Wrote(m, ext, i, ip), Moved(f, ext, i + 1, ip), r.(locals := r.locals[n := v], eval := r.eval[..k], ip := ip));
  }

  lemma OwnArgSimulates(p: Program, m: Machine, n: nat, v: Cell)
    requires MachineOk(p, m) && m.frames != [] && Last(m.frames).call < |p| && Runs(p, m).eval != []
    requires n < p[Last(m.frames).call].numArgs && Last(m.frames).args.own
    ensures n < |Runs(p, m).args|
    ensures var r := Runs(p, m);
            Simulates(p, m, ArgStored(m, n, v), r.(args := r.args[n := v], eval := Drop(r.eval, 1), ip := m.ip + 1))
  {
    hide Abs, Layout, Interrupted, FramesOk, FrameLayout, ProgramOk, Running, Replaces, MachineOk, Simulates, Areas;
    RunsOk(p, m);
    var f, lower, r := Current(m), Lower(m.frames), Runs(p, m);
    OwnArgReplaces(p, f, lower, n, v, |r.eval| - 1, m.ip + 1);
    var ext := f.extension[f.args.at + n := v];
    WroteCurrent(m, ext, m.evalPos - 1, m.ip + 1);
    LastReplaced(p, m, ArgStored(m, n, v), Moved(f, ext, m.evalPos, m.ip + 1),
                 r.(args := r.args[n := v], eval := Drop(r.eval, 1), ip := m.ip + 1));
  }

  lemma OkParts(p: Program, m: Machine)
    requires MachineOk(p, m) && m.frames != []
    ensures Last(m.frames).call < |p| && ProgramOk(p) && FramesOk(p, Abs(p, Synced(m)))
    ensures FrameLayout(p, Current(m), Lower(m.frames)) && Layout(p, Rest(m.frames))
    ensures Abs(p, Synced(m)) == Abs(p, Rest(m.frames)) + Interrupted(p, Current(m), Lower(m.frames)) + [Runs(p, m)]
    ensures Last(m.frames).inlineFrame == None ==> Abs(p, Synced(m)) == Abs(p, Rest(m.frames)) + [Runs(p, m)]
    ensures Abs(p, Synced(m)) != [] && Top(Abs(p, Synced(m))) == Runs(p, m)
  {
    hide FrameLayout, Running, Interrupted, FramesOk, ProgramOk, Abs, Layout;
    var base := Rest(m.frames);
    assert Lower(base + [Current(m)]) == Lower(m.frames);
    SyncedLayout(p, m);
    AbsSplit(p, base, Current(m));
    if Last(m.frames).inlineFrame == None { AbsAlone(p, base, Current(m)); }
  }

  lemma SyncedLayout(p: Program, m: Machine)
    requires Layout(p, Synced(m)) && m.frames != []
    ensures Last(m.frames).call < |p| && FrameLayout(p, Current(m), Lower(m.frames))
  {
    assert Last(Synced(m)) == Current(m) && Lower(Synced(m)) == Lower(m.frames);
  }

  /** An argument below belongs to a method that has the frame to itself. */
  lemma LayoutLower(p: Program, f: StackFrame, lower: Option<StackFrame>)
    requires FrameLayout(p, f, lower) && !f.args.own
    ensures lower.Some? && f.inlineFrame == None
  {
  }

  lemma LastTwo(p: Program, fs: seq<StackFrame>)
    requires Layout(p, fs) && fs != []
    ensures FrameLayout(p, Last(fs), Lower(fs)) && Last(fs).call < |p| && Layout(p, Rest(fs)) && fs == Rest(fs) + [Last(fs)]
  {
    hide InlinedOk, PlainOk, Base, End;
  }

  /** The last two frames replaced, the lower one by a frame that stands for the same methods. */
  lemma TwoReplaced(p: Program, bottom: seq<StackFrame>, g: StackFrame, f: StackFrame, h: StackFrame, f': StackFrame, q: Frame)
    requires Layout(p, bottom) && f.call < |p| && g.call < |p| && f.inlineFrame == None
    requires Replaces(p, g, Lower(bottom + [g]), h, Running(p, g, Lower(bottom + [g])))
    requires Replaces(p, f, Some(h), f', q)
    ensures Layout(p, bottom + [h] + [f']) && Abs(p, bottom + [g] + [f]) != []
    ensures Abs(p, bottom + [h] + [f']) == Rest(Abs(p, bottom + [g] + [f])) + [q]
  {
    assert Interrupted(p, f, Some(g)) == Interrupted(p, f, Some(h)) == [];
    hide Abs, Layout, FrameLayout, Running, Interrupted;
    assert Lower(bottom + [h]) == Lower(bottom + [g]);
    assert Lower(bottom + [h] + [f']) == Some(h) && Lower(bottom + [g] + [f]) == Some(g);
    AbsSplit(p, bottom, g);
    AbsSplit(p, bottom, h);
    AbsSplit(p, bottom + [h], f');
    AbsSplit(p, bottom + [g], f);
    assert Abs(p, bottom + [h]) == Abs(p, bottom + [g]);
  }

  lemma RunsSize(p: Program, m: Machine)
    requires MachineOk(p, m) && m.frames != []
    ensures Last(m.frames).call < |p| && |Runs(p, m).eval| == Current(m).evalStackPos - Base(Current(m))
    ensures |Runs(p, m).args| == p[Last(m.frames).call].numArgs
  {
    hide Abs, Layout, Interrupted, FramesOk, FrameLayout, ProgramOk, Running, MachineOk, FrameOk, InstrOk, Areas;
    RunsOk(p, m);
    RunningSizes(p, Current(m), Lower(m.frames));
  }

  lemma ArgStoredBelow(m: Machine, n: nat, v: Cell)
    requires |m.frames| >= 2 && !Last(m.frames).args.own && 0 <= Last(m.frames).args.at + n < |Last(Rest(m.frames)).extension|
    ensures var f, g := Current(m), Last(Rest(m.frames));
            var h := g.(extension := g.extension[f.args.at + n := v]);
            Synced(ArgStored(m, n, v)) == Rest(Rest(m.frames)) + [h] + [Moved(f, f.extension, m.evalPos, m.ip + 1)]
    ensures Synced(m) == Rest(Rest(m.frames)) + [Last(Rest(m.frames))] + [Current(m)]
    ensures Rest(m.frames) == Rest(Rest(m.frames)) + [Last(Rest(m.frames))]
  {
  }

  lemma LowerArgStored(p: Program, m: Machine, n: nat, v: Cell)
    requires MachineOk(p, m) && m.frames != [] && Last(m.frames).call < |p| && Runs(p, m).eval != []
    requires n < p[Last(m.frames).call].numArgs && !Last(m.frames).args.own
    ensures n < |Runs(p, m).args| && |m.frames| >= 2 && Lower(m.frames) == Some(Last(Rest(m.frames)))
    ensures Layout(p, Rest(Rest(m.frames))) && Last(Rest(m.frames)).call < |p| && Last(m.frames).inlineFrame == None
    ensures 0 <= Last(m.frames).args.at + n < |Last(Rest(m.frames)).extension|
    ensures var r, f, g, lower := Runs(p, m), Current(m), Last(Rest(m.frames)), Lower(Rest(m.frames));
            var h := g.(extension := g.extension[f.args.at + n := v]);
            && Replaces(p, g, lower, h, Running(p, g, lower))
            && Replaces(p, f, Some(h), Moved(f, f.extension, m.evalPos, m.ip + 1),
                        r.(args := r.args[n := v], eval := Drop(r.eval, 1), ip := m.ip + 1))
  {
    hide Abs, Layout, Interrupted, FramesOk, FrameLayout, ProgramOk, Running, Replaces, MachineOk, Areas, Base, ArgStored, Synced;
    OkParts(p, m);
    RunsSize(p, m);
    var f, r := Current(m), Runs(p, m);
    LayoutLower(p, f, Lower(m.frames));
    LastTwo(p, Rest(m.frames));
    assert Base(f) + (|r.eval| - 1) == m.evalPos;
    LowerArgReplaces(p, f, Last(Rest(m.frames)), Lower(Rest(m.frames)), n, v, |r.eval| - 1, m.ip + 1);
  }

  lemma LowerArgSimulates(p: Program, m: Machine, n: nat, v: Cell)
    requires MachineOk(p, m) && m.frames != [] && Last(m.frames).call < |p| && Runs(p, m).eval != []
    requires n < p[Last(m.frames).call].numArgs && !Last(m.frames).args.own
    ensures n < |Runs(p, m).args|
    ensures var r := Runs(p, m);
            Simulates(p, m, ArgStored(m, n, v), r.(args := r.args[n := v], eval := Drop(r.eval, 1), ip := m.ip + 1))
  {
    hide Abs, Layout, Interrupted, FramesOk, FrameLayout, ProgramOk, Running, Replaces, MachineOk, Areas, Base, Lower, ArgStored,
         Synced, Runs, Drop;
    LowerArgStored(p, m, n, v);
    ArgStoredBelow(m, n, v);
    var r, f, g, bottom := Runs(p, m), Current(m), Last(Rest(m.frames)), Rest(Rest(m.frames));
    TwoReplaced(p, bottom, g, f, g.(extension := g.extension[f.args.at + n := v]), Moved(f, f.extension, m.evalPos, m.ip + 1),
                r.(args := r.args[n := v], eval := Drop(r.eval, 1), ip := m.ip + 1));
  }

  // ---------- Calls ----------

  /** What the next instruction does not change. */
  lemma Fetched(p: Program, m: Machine)
    requires m.frames != [] && Last(m.frames).call < |p|
    ensures var f := Current(m).(ip := m.ip + 1); var lower := Lower(m.frames);
            && Running(p, f, lower) == Runs(p, m).(ip := m.ip + 1)
            && Interrupted(p, f, lower) == Interrupted(p, Current(m), lower)
            && (FrameLayout(p, Current(m), lower) ==> FrameLayout(p, f, lower))
    ensures Runs(p, m).ip == m.ip && Runs(p, m).call == Last(m.frames).call && Current(m).evalStackPos == m.evalPos + 1
  {
  }

  lemma EnteredIs(p: Program, a: seq<Frame>, r: Frame, c: nat)
    requires c < |p| && p[c].numArgs <= |r.eval|
    ensures Entered(p, a + [r], c)
        == a + [r.(ip := r.ip + 1, eval := Drop(r.eval, p[c].numArgs))] + [Frame(c, 0, r.eval[|r.eval| - p[c].numArgs..], p[c].locals, [])]
  {
    assert Rest(a + [r]) == a;
  }

  lemma ArgsRoom(p: Program, m: Machine, n: nat)
    requires MachineOk(p, m) && m.frames != [] && Last(m.frames).call < |p| && n <= |Runs(p, m).eval|
    ensures n <= Current(m).evalStackPos - Base(Current(m).(ip := m.ip + 1))
  {
    hide Abs, Layout, Interrupted, FramesOk, FrameLayout, ProgramOk, Running, MachineOk, Areas, FrameOk, InstrOk;
    RunsOk(p, m);
  }

  lemma CalledPush(p: Program, m: Machine, c: nat, o: Oracle)
    requires m.frames != [] && c < |p| && !CanInline(p, Current(m).(ip := m.ip + 1), m.evalPos, c, o.buffer)
    ensures var base := Rest(m.frames); var f := Current(m).(ip := m.ip + 1);
            var g, h := f.(evalStackPos := f.evalStackPos - p[c].numArgs), Pushed(p, f, c, o.found);
            && Synced(Called(p, m, c, o)) == base + [g] + [h]
            && Lower(base + [g]) == Lower(m.frames) && Lower(base + [g] + [h]) == Some(g)
  {
    hide CanInline, Pushed;
    ResumedSynced(m, Called(p, m, c, o).frames);
  }

  lemma CalledInline(p: Program, m: Machine, c: nat, o: Oracle)
    requires m.frames != [] && c < |p| && CanInline(p, Current(m).(ip := m.ip + 1), m.evalPos, c, o.buffer)
    ensures var base := Rest(m.frames); var h := Inlined(p, Current(m).(ip := m.ip + 1), m.evalPos, m.ip + 1, c);
            Synced(Called(p, m, c, o)) == base + [h] && Lower(base + [h]) == Lower(m.frames)
  {
    hide CanInline, Inlined;
    ResumedSynced(m, Called(p, m, c, o).frames);
  }

  lemma ResumedSynced(m: Machine, frames: seq<StackFrame>)
    ensures frames != [] ==> Synced(Resumed(m, frames)) == frames
  {
  }

  lemma PushSimulates(p: Program, m: Machine, c: nat, o: Oracle)
    requires MachineOk(p, m) && m.frames != [] && Last(m.frames).call < |p|
    requires c < |p| && p[c].numArgs <= |Runs(p, m).eval|
    requires !CanInline(p, Current(m).(ip := m.ip + 1), m.evalPos, c, o.buffer)
    ensures Abs(p, Synced(m)) != [] && p[c].numArgs <= |Top(Abs(p, Synced(m))).eval|
    ensures Layout(p, Synced(Called(p, m, c, o)))
    ensures Abs(p, Synced(Called(p, m, c, o))) == Entered(p, Abs(p, Synced(m)), c)
  {
    hide Abs, Layout, Interrupted, FramesOk, FrameLayout, ProgramOk, Running, MachineOk, Areas, CanInline, Called, Pushed,
         Lower, Base, Synced, Runs, Entered;
    OkParts(p, m);
    Fetched(p, m);
    ArgsRoom(p, m, p[c].numArgs);
    var base, lower := Rest(m.frames), Lower(m.frames);
    var f := Current(m).(ip := m.ip + 1);
    var g, h := f.(evalStackPos := f.evalStackPos - p[c].numArgs), Pushed(p, f, c, o.found);
    CalledPush(p, m, c, o);
    PushedOk(p, f, lower, c, o.found);
    PushedCall(p, f, c, o.found);
    AbsSplit(p, base, g);
    AbsSplit(p, base + [g], h);
    AbsAlone(p, base + [g], h);
    var a := Abs(p, base) + Interrupted(p, Current(m), lower);
    EnteredIs(p, a, Runs(p, m), c);
  }

  lemma PushedCall(p: Program, f: StackFrame, c: nat, found: nat -> Cell)
    requires c < |p|
    ensures Pushed(p, f, c, found).call == c && Pushed(p, f, c, found).inlineFrame == None
  {
  }

  lemma InlineSimulates(p: Program, m: Machine, c: nat, o: Oracle)
    requires MachineOk(p, m) && m.frames != [] && Last(m.frames).call < |p|
    requires c < |p| && p[c].numArgs <= |Runs(p, m).eval|
    requires CanInline(p, Current(m).(ip := m.ip + 1), m.evalPos, c, o.buffer)
    ensures Abs(p, Synced(m)) != [] && p[c].numArgs <= |Top(Abs(p, Synced(m))).eval|
    ensures Layout(p, Synced(Called(p, m, c, o)))
    ensures Abs(p, Synced(Called(p, m, c, o))) == Entered(p, Abs(p, Synced(m)), c)
  {
    hide Abs, Layout, Interrupted, FramesOk, FrameLayout, ProgramOk, Running, MachineOk, Areas, CanInline, Called, Inlined,
         Lower, Base, Synced, Runs, Entered;
    OkParts(p, m);
    Fetched(p, m);
    ArgsRoom(p, m, p[c].numArgs);
    CalledInline(p, m, c, o);
    var base, f := Rest(m.frames), Current(m).(ip := m.ip + 1);
    InlinedOkay(p, f, Lower(m.frames), c, o.buffer, m.evalPos, m.ip + 1);
    AbsSplit(p, base, Inlined(p, f, m.evalPos, m.ip + 1, c));
    EnteredIs(p, Abs(p, base), Runs(p, m), c);
  }

  // ---------- Returns ----------

  /** A caller waits at the height its method declares, short of the result. */
  lemma CallerHeight(p: Program, fs: seq<Frame>)
    requires ProgramOk(p) && FramesOk(p, fs) && |fs| >= 2
    ensures var r := fs[|fs| - 2];
            r.call < |p| && Top(fs).call < |p| && |r.eval| + Returns(p[Top(fs).call]) <= p[r.call].lengthEvalStack
  {
    var k := |fs| - 2;
    assert FrameOk(p, fs[k], PendingOf(p, fs, k)) && FrameOk(p, fs[k + 1], PendingOf(p, fs, k + 1));
    assert MethodOk(p, p[fs[k].call]);
    assert InstrOk(p, p[fs[k].call], fs[k].ip);
  }

  lemma LeftIs(p: Program, a: seq<Frame>, r: Frame, t: Frame)
    requires t.call < |p| && (p[t.call].hasRet ==> t.eval != [])
    ensures Left(p, a + [r] + [t]) == a + [if p[t.call].hasRet then r.(eval := r.eval + [Promote(Peek(t.eval))]) else r]
  {
    assert Rest(a + [r] + [t]) == a + [r] && Rest(a + [r]) == a;
  }

  lemma ValuePushedOk(p: Program, g: StackFrame, lower: Option<StackFrame>, v: Cell)
    requires FrameLayout(p, g, lower) && |Running(p, g, lower).eval| < p[g.call].lengthEvalStack
    ensures var r := Running(p, g, lower); Replaces(p, g, lower, ValuePushed(g, v), r.(eval := r.eval + [Promote(v)]))
  {
    hide FrameLayout, Running, Areas, Replaces;
    LayoutAreas(p, g, lower);
    RunningSizes(p, g, lower);
    RunningIp(p, g, lower);
    var r := Running(p, g, lower);
    EvalReplaces(p, g, lower, |r.eval|, Promote(v), g.ip);
    assert r.eval[..|r.eval|] == r.eval;
    assert ValuePushed(g, v) == Moved(g, g.extension[g.evalStackPos := Promote(v)], g.evalStackPos + 1, g.ip);
  }

  /** The method below the running one, in frame `g`, goes on with the result on its stack. */
  lemma ResumeSimulates(p: Program, fs: seq<Frame>, base: seq<StackFrame>, g: StackFrame, t: Frame, v: Cell)
    requires ProgramOk(p) && FramesOk(p, fs) && Layout(p, base + [g]) && g.call < |p|
    requires fs == Abs(p, base + [g]) + [t]
    requires t.call < |p| && |t.eval| == Returns(p[t.call]) && (p[t.call].hasRet ==> Peek(t.eval) == v)
    ensures var h := if p[t.call].hasRet then ValuePushed(g, v) else g;
            Layout(p, base + [h]) && Abs(p, base + [h]) == Left(p, fs)
  {
    hide Abs, Layout, Interrupted, FramesOk, FrameLayout, ProgramOk, Running, ValuePushed;
    var lower := Lower(base + [g]);
    AbsSplit(p, base, g);
    var r, a := Running(p, g, lower), Abs(p, base) + Interrupted(p, g, lower);
    assert fs == a + [r] + [t] && fs[|fs| - 2] == r;
    CallerHeight(p, fs);
    LeftIs(p, a, r, t);
    RunningIp(p, g, lower);
    if p[t.call].hasRet {
      ValuePushedOk(p, g, lower, v);
      var h := ValuePushed(g, v);
      assert Lower(base + [h]) == lower;
      AbsSplit(p, base, h);
    }
  }

  /** The value returned is the top cell. */
  lemma ReturnValue(p: Program, m: Machine)
    requires MachineOk(p, m) && m.frames != [] && Last(m.frames).call < |p| && m.ip < |p[Last(m.frames).call].code|
    requires p[Last(m.frames).call].code[m.ip] == Ret
    ensures |Runs(p, m).eval| == Returns(p[Last(m.frames).call])
    ensures p[Last(m.frames).call].hasRet ==> Get(Last(m.frames).extension, m.evalPos) == Peek(Runs(p, m).eval)
  {
    hide Abs, Layout, Interrupted, FramesOk, FrameLayout, ProgramOk, Running, MachineOk, Areas;
    RunsOk(p, m);
    if p[Last(m.frames).call].hasRet { EvalValue(p, m, 0); }
  }

  lemma ReturnedFrames(p: Program, m: Machine)
    requires m.frames != [] && Last(m.frames).call < |p|
    ensures var base, f := Rest(m.frames), Current(m); var v := Get(f.extension, m.evalPos);
            if f.inlineFrame.Some? then
              var g := Restored(p, f);
              Synced(Returned(p, m)) == base + [if f.inlineReturns then ValuePushed(g, v) else g]
              && Lower(base + [g]) == Lower(m.frames)
            else if base == [] then Synced(Returned(p, m)) == []
            else Synced(Returned(p, m)) == Rest(base) + [if p[f.call].hasRet then ValuePushed(Last(base), v) else Last(base)]
  {
    RestoredCurrent(p, m);
    hide ValuePushed, Restored;
    ResumedSynced(m, Returned(p, m).frames);
  }

  lemma RestoredCurrent(p: Program, m: Machine)
    requires m.frames != [] && Last(m.frames).call < |p|
    ensures Current(m).inlineFrame.Some? ==> Restored(p, Current(m)) == Restored(p, Last(m.frames))
  {
  }

  lemma InlineReturns(p: Program, f: StackFrame, lower: Option<StackFrame>)
    requires FrameLayout(p, f, lower) && f.inlineFrame.Some?
    ensures f.inlineReturns == p[f.call].hasRet && Restored(p, f).call < |p| && Restored(p, f).inlineFrame == None
  {
  }

  lemma PopInlineSimulates(p: Program, m: Machine)
    requires MachineOk(p, m) && m.frames != [] && Last(m.frames).call < |p| && m.ip < |p[Last(m.frames).call].code|
    requires p[Last(m.frames).call].code[m.ip] == Ret && Last(m.frames).inlineFrame.Some?
    ensures Abs(p, Synced(m)) != [] && Top(Abs(p, Synced(m))) == Runs(p, m) && |Runs(p, m).eval| == Returns(p[Last(m.frames).call])
    ensures Layout(p, Synced(Returned(p, m))) && Abs(p, Synced(Returned(p, m))) == Left(p, Abs(p, Synced(m)))
  {
    var base, lower, f := Rest(m.frames), Lower(m.frames), Current(m);
    hide Abs, Layout, Interrupted, FramesOk, FrameLayout, ProgramOk, Running, MachineOk, Areas, Restored, Returned,
         ValuePushed, Lower, Runs, Synced, Left;
    OkParts(p, m);
    Fetched(p, m);
    ReturnValue(p, m);
    ReturnedFrames(p, m);
    InlineReturns(p, f, lower);
    RestoredOk(p, f, lower);
    AbsSplit(p, base, Restored(p, f));
    AbsAlone(p, base, Restored(p, f));
    ResumeSimulates(p, Abs(p, Synced(m)), base, Restored(p, f), Runs(p, m), Get(f.extension, m.evalPos));
  }

  lemma PopSimulates(p: Program, m: Machine)
    requires MachineOk(p, m) && m.frames != [] && Last(m.frames).call < |p| && m.ip < |p[Last(m.frames).call].code|
    requires p[Last(m.frames).call].code[m.ip] == Ret && Last(m.frames).inlineFrame == None
    ensures Abs(p, Synced(m)) != [] && Top(Abs(p, Synced(m))) == Runs(p, m) && |Runs(p, m).eval| == Returns(p[Last(m.frames).call])
    ensures Layout(p, Synced(Returned(p, m))) && Abs(p, Synced(Returned(p, m))) == Left(p, Abs(p, Synced(m)))
  {
    var base, f := Rest(m.frames), Current(m);
    assert Layout(p, []) && Abs(p, []) == [];
    hide Abs, Layout, Interrupted, FramesOk, FrameLayout, ProgramOk, Running, MachineOk, Areas, Returned, ValuePushed,
         Lower, Runs, Synced;
    OkParts(p, m);
    Fetched(p, m);
    ReturnValue(p, m);
    ReturnedFrames(p, m);
    if base != [] {
      hide Left;
      LastTwo(p, base);
      ResumeSimulates(p, Abs(p, Synced(m)), Rest(base), Last(base), Runs(p, m), Get(f.extension, m.evalPos));
    }
  }

  // ---------- One instruction ----------

  /** The instruction the machine is at. */
  function Next(p: Program, m: Machine): Instr
    requires m.frames != [] && Last(m.frames).call < |p| && m.ip < |p[Last(m.frames).call].code|
  {
    p[Last(m.frames).call].code[m.ip]
  }

  lemma NextOk(p: Program, m: Machine)
    requires MachineOk(p, m) && m.frames != []
    ensures Last(m.frames).call < |p| && m.ip < |p[Last(m.frames).call].code| == |p[Last(m.frames).call].depth|
    ensures var me, r := p[Last(m.frames).call], Runs(p, m);
            && r.call == Last(m.frames).call && r.ip == m.ip && FrameOk(p, r, 0) && InstrOk(p, me, m.ip) && MethodOk(p, me)
            && |r.eval| == me.depth[m.ip] == m.evalPos + 1 - Base(Last(m.frames))
            && Pops(p, Next(p, m)) <= |r.eval| <= me.lengthEvalStack && OperandOk(p, me, Next(p, m))
  {
    hide Abs, Layout, Interrupted, FramesOk, FrameLayout, Running, Areas;
    RunsOk(p, m);
  }

  /** A push stays within the declared stack need. */
  lemma PushRoom(p: Program, m: Machine)
    requires MachineOk(p, m) && m.frames != [] && Last(m.frames).call < |p| && m.ip < |p[Last(m.frames).call].code|
    requires Next(p, m).LdArg? || Next(p, m).LdLoc? || Next(p, m).Ldc? || Next(p, m).Dup?
    ensures |Runs(p, m).eval| < p[Last(m.frames).call].lengthEvalStack
  {
    hide Abs, Layout, Interrupted, FramesOk, FrameLayout, Running, Areas, MachineOk, Base;
    NextOk(p, m);
    var me := p[Last(m.frames).call];
    assert FlowOk(p, me, m.ip, m.ip + 1);
    assert InstrOk(p, me, m.ip + 1);
  }

  /** The value a load puts on the stack. */
  function Loaded(m: Machine, i: Instr): Cell
    requires m.frames != []
  {
    var f := Last(m.frames);
    match i
    case LdArg(n) => Promote(ArgAt(m, n))
    case LdLoc(n) => Promote(Get(f.extension, f.locals + n))
    case Ldc(c) => Cell(I4, c)
    case _ => Get(f.extension, m.evalPos)
  }

  lemma LoadIs(p: Program, m: Machine, o: Oracle)
    requires m.frames != [] && !m.raised && Last(m.frames).call < |p| && m.ip < |p[Last(m.frames).call].code|
    requires Next(p, m).LdArg? || Next(p, m).LdLoc? || Next(p, m).Ldc? || Next(p, m).Dup?
    ensures Execute(p, m, o)
              == Wrote(m, Set(Last(m.frames).extension, m.evalPos + 1, Loaded(m, Next(p, m))), m.evalPos + 1, m.ip + 1)
  {
    hide Wrote, Get, Set, Promote, ArgAt, Called, Returned, ArgStored;
  }

  lemma StoreIs(p: Program, m: Machine, o: Oracle)
    requires m.frames != [] && !m.raised && Last(m.frames).call < |p| && m.ip < |p[Last(m.frames).call].code|
    requires Next(p, m).StArg? || Next(p, m).StLoc?
    ensures var f, n := Last(m.frames), Next(p, m).n; var v := Get(f.extension, m.evalPos);
            Execute(p, m, o) ==
            if Next(p, m).StArg? then ArgStored(m, n, AssignAndPreserveType(ArgAt(m, n), v))
            else Wrote(m, Set(f.extension, f.locals + n, AssignAndPreserveType(Get(f.extension, f.locals + n), v)), m.evalPos - 1, m.ip + 1)
  {
    hide Wrote, Get, Set, AssignAndPreserveType, ArgAt, Called, Returned, ArgStored;
  }

  lemma LoadSteps(p: Program, m: Machine, o: Oracle)
    requires MachineOk(p, m) && m.frames != [] && !m.raised && Last(m.frames).call < |p| && m.ip < |p[Last(m.frames).call].code|
    requires Next(p, m).LdArg? || Next(p, m).LdLoc? || Next(p, m).Ldc? || Next(p, m).Dup?
    requires ProgramOk(p) && FrameOk(p, Runs(p, m), 0) && Runs(p, m).call == Last(m.frames).call && Runs(p, m).ip == m.ip
    ensures Simulates(p, m, Execute(p, m, o), Local(p, Runs(p, m)))
  {
    hide Abs, Layout, Interrupted, FramesOk, FrameLayout, Running, Areas, MachineOk, Base, Runs, Wrote, Simulates, ProgramOk, Synced,
         FrameOk, InstrOk, Get, Set, Promote, ArgAt, Called, Returned, ArgStored;
    NextOk(p, m);
    PushRoom(p, m);
    var r := Runs(p, m);
    assert r.eval[..|r.eval|] == r.eval;
    EvalSimulates(p, m, |r.eval|, Loaded(m, Next(p, m)), m.ip + 1);
    LoadIs(p, m, o);
    hide Execute;
    match Next(p, m)
    case LdArg(n) => ArgValue(p, m, n);
    case LdLoc(n) => LocalValue(p, m, n);
    case Dup => EvalValue(p, m, 0);
    case _ =>
  }

  lemma StoreSteps(p: Program, m: Machine, o: Oracle)
    requires MachineOk(p, m) && m.frames != [] && !m.raised && Last(m.frames).call < |p| && m.ip < |p[Last(m.frames).call].code|
    requires Next(p, m).StArg? || Next(p, m).StLoc?
    requires ProgramOk(p) && FrameOk(p, Runs(p, m), 0) && Runs(p, m).call == Last(m.frames).call && Runs(p, m).ip == m.ip
    ensures Simulates(p, m, Execute(p, m, o), Local(p, Runs(p, m)))
  {
    hide Abs, Layout, Interrupted, FramesOk, FrameLayout, Running, Areas, MachineOk, Base, Runs, Wrote, Simulates, ProgramOk, Synced,
         FrameOk, InstrOk, Get, Set, Promote, ArgAt, Called, Returned, ArgStored, AssignAndPreserveType;
    NextOk(p, m);
    var f, r := Last(m.frames), Runs(p, m);
    EvalValue(p, m, 0);
    match Next(p, m)
    case StArg(n) =>
      ArgValue(p, m, n);
      var v := AssignAndPreserveType(ArgAt(m, n), Get(f.extension, m.evalPos));
      if f.args.own { OwnArgSimulates(p, m, n, v); } else { LowerArgSimulates(p, m, n, v); }
    case StLoc(n) =>
      LocalValue(p, m, n);
      LocalSimulates(p, m, n, AssignAndPreserveType(Get(f.extension, f.locals + n), Get(f.extension, m.evalPos)), |r.eval| - 1, m.ip + 1);
    case _ =>
  }

  lemma AddStep(p: Program, m: Machine, o: Oracle)
    requires MachineOk(p, m) && m.frames != [] && !m.raised && Last(m.frames).call < |p| && m.ip < |p[Last(m.frames).call].code|
    requires Next(p, m).Add?
    requires ProgramOk(p) && FrameOk(p, Runs(p, m), 0) && Runs(p, m).call == Last(m.frames).call && Runs(p, m).ip == m.ip
    ensures var r := Runs(p, m);
            && |r.eval| >= 2
            && if Numeric(r.eval[|r.eval| - 2]) then Simulates(p, m, Execute(p, m, o), Local(p, r)) && !Execute(p, m, o).raised
               else Execute(p, m, o) == m.(raised := true)
  {
    hide Abs, Layout, Interrupted, FramesOk, FrameLayout, Running, Areas, MachineOk, Base, Runs, Simulates, ProgramOk, Synced,
         FrameOk, InstrOk, Get, Set, Promote, ArgAt, Called, Returned, ArgStored, Numeric, NumericAdd;
    NextOk(p, m);
    var f, r := Last(m.frames), Runs(p, m);
    EvalValue(p, m, 0);
    EvalValue(p, m, 1);
    EvalSimulates(p, m, |r.eval| - 2, NumericAdd(Get(f.extension, m.evalPos - 1), Get(f.extension, m.evalPos)), m.ip + 1);
  }

  lemma JumpSteps(p: Program, m: Machine, o: Oracle)
    requires MachineOk(p, m) && m.frames != [] && !m.raised && Last(m.frames).call < |p| && m.ip < |p[Last(m.frames).call].code|
    requires Next(p, m).Pop? || Next(p, m).Br? || Next(p, m).BrTrue? || Next(p, m).BrFalse?
    requires ProgramOk(p) && FrameOk(p, Runs(p, m), 0) && Runs(p, m).call == Last(m.frames).call && Runs(p, m).ip == m.ip
    ensures Simulates(p, m, Execute(p, m, o), Local(p, Runs(p, m)))
  {
    hide Abs, Layout, Interrupted, FramesOk, FrameLayout, Running, Areas, MachineOk, Base, Runs, Wrote, Simulates, ProgramOk, Synced,
         FrameOk, InstrOk, Get, Set, Promote, ArgAt, Called, Returned, ArgStored;
    NextOk(p, m);
    var r := Runs(p, m);
    assert r.eval[..|r.eval|] == r.eval;
    if !Next(p, m).Br? { EvalValue(p, m, 0); }
    var v := Get(Last(m.frames).extension, m.evalPos);
    var ip := match Next(p, m)
      case Br(t) => t
      case BrTrue(t) => if v.data != 0 then t else m.ip + 1
      case BrFalse(t) => if v.data == 0 then t else m.ip + 1
      case _ => m.ip + 1;
    DropSimulates(p, m, |r.eval| - Pops(p, Next(p, m)), ip);
  }

  // ---------- The machine refines the reference machine ----------

  /** The state of the reference machine that the memory stands for. */
  function Denotes(p: Program, m: Machine): State {
    State(Abs(p, Synced(m)), m.raised)
  }

  lemma SimulatesStep(p: Program, m: Machine, n: Machine)
    requires MachineOk(p, m) && m.frames != [] && !m.raised && Last(m.frames).call < |p| && m.ip < |p[Last(m.frames).call].code|
    requires !Next(p, m).Call? && !Next(p, m).Ret? && (Next(p, m).Add? ==> |Runs(p, m).eval| >= 2 && Numeric(Runs(p, m).eval[|Runs(p, m).eval| - 2]))
    requires FrameOk(p, Runs(p, m), 0) && Runs(p, m).call == Last(m.frames).call && Runs(p, m).ip == m.ip
    requires Simulates(p, m, n, Local(p, Runs(p, m))) && !n.raised
    ensures Denotes(p, n) == Step(p, Denotes(p, m)) && Layout(p, Synced(n))
  {
    hide Layout, Abs, Interrupted, FrameLayout, Running, Areas, Runs, FrameOk, Local, Synced, FramesOk, ProgramOk;
    OkParts(p, m);
  }

  lemma RaisesStep(p: Program, m: Machine)
    requires MachineOk(p, m) && m.frames != [] && !m.raised && Last(m.frames).call < |p| && m.ip < |p[Last(m.frames).call].code|
    requires FrameOk(p, Runs(p, m), 0) && Runs(p, m).call == Last(m.frames).call && Runs(p, m).ip == m.ip
    requires Next(p, m).Add? && |Runs(p, m).eval| >= 2 && !Numeric(Runs(p, m).eval[|Runs(p, m).eval| - 2])
    ensures Denotes(p, m.(raised := true)) == Step(p, Denotes(p, m))
  {
    hide Layout, Abs, Interrupted, FrameLayout, Running, Areas, Runs, FrameOk, Local, Synced, FramesOk, ProgramOk, Numeric,
         MachineOk, InstrOk, Entered, Left;
    OkParts(p, m);
    RaisedSynced(m);
  }

  lemma RaisedSynced(m: Machine)
    ensures Synced(m.(raised := true)) == Synced(m)
  {
  }


  lemma CallStep(p: Program, m: Machine, o: Oracle)
    requires MachineOk(p, m) && m.frames != [] && !m.raised && Last(m.frames).call < |p| && m.ip < |p[Last(m.frames).call].code|
    requires FrameOk(p, Runs(p, m), 0) && Runs(p, m).call == Last(m.frames).call && Runs(p, m).ip == m.ip
    requires Next(p, m).Call?
    ensures Denotes(p, Execute(p, m, o)) == Step(p, Denotes(p, m)) && Layout(p, Synced(Execute(p, m, o)))
  {
    hide Layout, Abs, Interrupted, FrameLayout, Running, Areas, Runs, Local, Synced, FramesOk, ProgramOk, Base, CanInline,
         Called, Returned, Entered, Left, InstrOk, FrameOk;
    OkParts(p, m);
    NextOk(p, m);
    var c := Next(p, m).callee;
    if CanInline(p, Current(m).(ip := m.ip + 1), m.evalPos, c, o.buffer) { InlineSimulates(p, m, c, o); }
    else { PushSimulates(p, m, c, o); }
    CalledRaised(p, m, c, o);
    assert Execute(p, m, o) == Called(p, m, c, o);
  }

  lemma RetStep(p: Program, m: Machine, o: Oracle)
    requires MachineOk(p, m) && m.frames != [] && !m.raised && Last(m.frames).call < |p| && m.ip < |p[Last(m.frames).call].code|
    requires FrameOk(p, Runs(p, m), 0) && Runs(p, m).call == Last(m.frames).call && Runs(p, m).ip == m.ip
    requires Next(p, m).Ret?
    ensures Denotes(p, Execute(p, m, o)) == Step(p, Denotes(p, m)) && Layout(p, Synced(Execute(p, m, o)))
  {
    hide Layout, Abs, Interrupted, FrameLayout, Running, Areas, Runs, Local, Synced, FramesOk, ProgramOk, Base, CanInline,
         Called, Returned, Entered, Left, InstrOk, FrameOk;
    OkParts(p, m);
    if Last(m.frames).inlineFrame.Some? { PopInlineSimulates(p, m); } else { PopSimulates(p, m); }
    ReturnedRaised(p, m);
    assert Execute(p, m, o) == Returned(p, m);
  }

  lemma CalledRaised(p: Program, m: Machine, c: nat, o: Oracle)
    requires m.frames != [] && c < |p|
    ensures Called(p, m, c, o).raised == m.raised
  {
    hide Pushed, Inlined, CanInline;
  }

  lemma ReturnedRaised(p: Program, m: Machine)
    requires m.frames != [] && Last(m.frames).call < |p|
    ensures Returned(p, m).raised == m.raised
  {
    hide Restored, ValuePushed;
  }

  lemma ExecuteRaised(p: Program, m: Machine, o: Oracle)
    requires m.frames != [] && !m.raised && Last(m.frames).call < |p| && m.ip < |p[Last(m.frames).call].code|
    requires !Next(p, m).Call? && !Next(p, m).Ret? && !Next(p, m).Add?
    ensures !Execute(p, m, o).raised
  {
    hide Get, Set, Promote, ArgAt, Called, Returned, AssignAndPreserveType, Numeric, NumericAdd;
  }

  /** One turn of the interpreter loop does what one step of the reference machine does, whether a call
      is given a frame of its own or runs inside its caller's, and whatever new memory holds. */
  lemma ExecuteSimulates(p: Program, m: Machine, o: Oracle)
    requires MachineOk(p, m)
    ensures MachineOk(p, Execute(p, m, o))
    ensures Denotes(p, Execute(p, m, o)) == Step(p, Denotes(p, m))
  {
    StepOk(p, Denotes(p, m));
    if m.frames != [] && !m.raised {
      hide Layout, Abs, Interrupted, FrameLayout, Running, Areas, Runs, Local, Synced, FramesOk, ProgramOk, Base, Execute,
           Entered, Left, InstrOk, FrameOk, Simulates, Step;
      OkParts(p, m);
      NextOk(p, m);
      if Next(p, m).Call? { CallStep(p, m, o); }
      else if Next(p, m).Ret? { RetStep(p, m, o); }
      else if Next(p, m).Add? {
        AddStep(p, m, o);
        if Numeric(Runs(p, m).eval[|Runs(p, m).eval| - 2]) { SimulatesStep(p, m, Execute(p, m, o)); }
        else { RaisesStep(p, m); RaisedLayout(p, m); }
      } else {
        ExecuteRaised(p, m, o);
        if Next(p, m).StArg? || Next(p, m).StLoc? { StoreSteps(p, m, o); }
        else if Next(p, m).LdArg? || Next(p, m).LdLoc? || Next(p, m).Ldc? || Next(p, m).Dup? { LoadSteps(p, m, o); }
        else { JumpSteps(p, m, o); }
        SimulatesStep(p, m, Execute(p, m, o));
      }
    } else if m.frames != [] {
      hide FrameLayout, Running, Interrupted;
      OkParts(p, m);
    }
  }

  lemma RaisedLayout(p: Program, m: Machine)
    requires MachineOk(p, m)
    ensures Layout(p, Synced(m.(raised := true)))
  {
    assert Synced(m.(raised := true)) == Synced(m);
  }

  function Steps(p: Program, s: State, n: nat): State
    requires ProgramOk(p) && FramesOk(p, s.frames)
    decreases n
  {
    if n == 0 then s else StepOk(p, s); Steps(p, Step(p, s), n - 1)
  }

  lemma OneStep(p: Program, s: State, n: nat)
    requires ProgramOk(p) && FramesOk(p, s.frames) && n > 0
    ensures FramesOk(p, Step(p, s).frames) && Steps(p, s, n) == Steps(p, Step(p, s), n - 1)
  {
    StepOk(p, s);
  }

  /** A machine that has no frames left, or has failed, stays as it is. */
  lemma {:induction false} Halted(p: Program, s: State, n: nat)
    requires ProgramOk(p) && FramesOk(p, s.frames)
    ensures s.frames == [] || s.raised || n == 0 ==> Steps(p, s, n) == s
    decreases n
  {
    if n > 0 {
      StepOk(p, s);
      hide ProgramOk, FramesOk;
      if s.frames == [] || s.raised { Halted(p, s, n - 1); }
    }
  }

  function Run(p: Program, m: Machine, os: seq<Oracle>): Machine
    decreases |os|
  {
    if os == [] then m else Run(p, Execute(p, m, os[0]), os[1..])
  }

  lemma DenotesOk(p: Program, m: Machine)
    requires MachineOk(p, m)
    ensures ProgramOk(p) && FramesOk(p, Denotes(p, m).frames)
  {
  }

  /** Over any run, with any answers from the outside, the memory stands for the reference machine's state. */
  lemma {:induction false} RunSimulates(p: Program, m: Machine, os: seq<Oracle>)
    requires MachineOk(p, m)
    ensures MachineOk(p, Run(p, m, os)) && Denotes(p, Run(p, m, os)) == Steps(p, Denotes(p, m), |os|)
    decreases |os|
  {
    hide Execute, Step, MachineOk, Denotes, ProgramOk, FramesOk;
    DenotesOk(p, m);
    if os != [] {
      var n := Execute(p, m, os[0]);
      ExecuteSimulates(p, m, os[0]);
      RunSimulates(p, n, os[1..]);
      assert Run(p, m, os) == Run(p, n, os[1..]);
    }
  }

  /** Two runs that differ only in which calls are inlined go through the same states. */
  lemma InliningIsInvisible(p: Program, m: Machine, os: seq<Oracle>, qs: seq<Oracle>)
    requires MachineOk(p, m) && |os| == |qs|
    ensures Denotes(p, Run(p, m, os)) == Denotes(p, Run(p, m, qs))
  {
    hide Run, Denotes, MachineOk, Steps;
    RunSimulates(p, m, os);
    RunSimulates(p, m, qs);
  }

  // ---------- Every access is inside its block ----------

  lemma InBounds(p: Program, m: Machine)
    requires MachineOk(p, m) && m.frames != []
    ensures Last(m.frames).call < |p| && m.ip < |p[Last(m.frames).call].code|
    ensures var f, me := Last(m.frames), p[Last(m.frames).call];
            && Pops(p, Next(p, m)) <= m.evalPos + 1 < |f.extension| && OperandOk(p, me, Next(p, m))
            && (Next(p, m).Ret? && me.hasRet ==> 0 <= m.evalPos)
            && 0 <= f.locals && f.locals + |me.locals| <= |f.extension|
            && 0 <= f.args.at && f.args.at + me.numArgs <= |Block(f, Lower(m.frames), f.args)|
            && f.evalStackEnd <= |f.extension|
  {
    hide Abs, Layout, Interrupted, FramesOk, FrameLayout, Running, MachineOk, FrameOk, OperandOk, ProgramOk;
    RunsOk(p, m);
    NextOk(p, m);
  }

  lemma ReturnInBounds(p: Program, m: Machine)
    requires MachineOk(p, m) && m.frames != [] && Last(m.frames).call < |p| && m.ip < |p[Last(m.frames).call].code|
    requires Next(p, m).Ret? && p[Last(m.frames).call].hasRet
    ensures var f := Last(m.frames);
            if f.inlineFrame.Some? then 0 <= f.inlineFrame.value.evalPos < |f.extension|
            else |m.frames| >= 2 ==> 0 <= Last(Rest(m.frames)).evalStackPos < |Last(Rest(m.frames)).extension|
  {
    hide Abs, Layout, Interrupted, FramesOk, FrameLayout, Running, MachineOk, FrameOk, OperandOk, ProgramOk, Areas;
    OkParts(p, m);
    var f := Current(m);
    if f.inlineFrame.Some? { InlineReturnRoom(p, f, Lower(m.frames)); }
    else if |m.frames| >= 2 {
      var g, rest := Last(Rest(m.frames)), Rest(Rest(m.frames));
      LastTwo(p, Rest(m.frames));
      AbsSplit(p, rest, g);
      var fs := Abs(p, Synced(m));
      assert fs[|fs| - 2] == Running(p, g, Lower(rest + [g]));
      CallerHeight(p, fs);
      Fetched(p, m);
      RunningIp(p, g, Lower(rest + [g]));
      LayoutAreas(p, g, Lower(rest + [g]));
      EvalRoom(p, g, Lower(rest + [g]));
    }
  }

  lemma InlineReturnsOk(p: Program, m: Machine)
    requires MachineOk(p, m) && m.frames != []
    ensures Last(m.frames).call < |p|
    ensures Last(m.frames).inlineFrame.Some? ==> Last(m.frames).inlineReturns == p[Last(m.frames).call].hasRet
  {
    hide Abs, Layout, Interrupted, FramesOk, FrameLayout, Running, MachineOk, ProgramOk;
    OkParts(p, m);
    if Last(m.frames).inlineFrame.Some? { InlineReturns(p, Current(m), Lower(m.frames)); }
  }

  lemma InlineReturnRoom(p: Program, f: StackFrame, lower: Option<StackFrame>)
    requires FrameLayout(p, f, lower) && f.inlineFrame.Some?
    ensures 0 <= f.inlineFrame.value.evalPos < |f.extension|
  {
  }

  lemma EvalRoom(p: Program, f: StackFrame, lower: Option<StackFrame>)
    requires Areas(p, f, lower) && |Running(p, f, lower).eval| < p[f.call].lengthEvalStack
    ensures 0 <= f.evalStackPos < |f.extension|
  {
  }

  /** A thread about to run method `c` on the given arguments. */
  function Start(p: Program, c: nat, args: seq<Cell>, found: nat -> Cell): Machine
    requires c < |p| && |args| == p[c].numArgs
  {
    var block := NewBlock(p[c], |args|, found);
    var f := StackFrame(block + args, 0, Ptr(true, |block|), |p[c].locals|, |p[c].locals|, |block|, c, 0, None, false);
    Resumed(Machine([], 0, 0, false), [f])
  }

  /** A new thread stands for the reference machine at the start of the method. */
  lemma StartOk(p: Program, c: nat, args: seq<Cell>, found: nat -> Cell)
    requires ProgramOk(p) && c < |p| && |args| == p[c].numArgs
    ensures MachineOk(p, Start(p, c, args, found))
    ensures Denotes(p, Start(p, c, args, found)) == State([Frame(c, 0, args, p[c].locals, [])], false)
  {
    var m := Start(p, c, args, found);
    var f := m.frames[0];
    ResumedSynced(Machine([], 0, 0, false), [f]);
    assert FrameLayout(p, f, None);
    assert Cells(f.extension, 0, |p[c].locals|) == p[c].locals;
    assert Cells(f.extension, f.args.at, p[c].numArgs) == args;
    assert Running(p, f, None) == Frame(c, 0, args, p[c].locals, []);
    hide FrameLayout, Running, Cells, NewBlock;
    AbsAlone(p, [], f);
    AbsSplit(p, [], f);
    assert [] + [f] == [f] && MethodOk(p, p[c]);
  }

  /** The values are the cells from `at` on. */
  ghost predicate InCells(values: seq<Cell>, cells: seq<Cell>, at: int) {
    0 <= at && at + |values| <= |cells| && forall i :: 0 <= i < |values| ==> values[i] == cells[at + i]
  }

  lemma RunningCells(p: Program, f: StackFrame, lower: Option<StackFrame>)
    requires FrameLayout(p, f, lower)
    ensures var top, base := Running(p, f, lower), if f.inlineFrame == None then f.evalStack else f.evalStack + 1;
            && top.call == f.call && top.ip == f.ip && InCells(top.locals, f.extension, f.locals)
            && |top.eval| == f.evalStackPos - base && InCells(top.eval, f.extension, base)
            && (f.args.own || lower.Some?) && InCells(top.args, if f.args.own then f.extension else lower.value.extension, f.args.at)
  {
    LayoutAreas(p, f, lower);
    hide FrameLayout;
  }

  /** What the machine stands for is in the cells of the last frame: its locals, its stack up to the top, and its
      arguments, which may lie in the frame below. */
  lemma DenotesCells(p: Program, m: Machine)
    requires MachineOk(p, m) && m.frames != []
    ensures var n := |m.frames| - 1; var f := m.frames[n]; var fs := Denotes(p, m).frames;
            && fs != [] && Denotes(p, m).raised == m.raised
            && var top, base := fs[|fs| - 1], if f.inlineFrame == None then f.evalStack else f.evalStack + 1;
               && top.call == f.call && top.ip == m.ip && InCells(top.locals, f.extension, f.locals)
               && |top.eval| == m.evalPos + 1 - base && InCells(top.eval, f.extension, base)
               && (f.args.own || n > 0) && InCells(top.args, if f.args.own then f.extension else m.frames[n - 1].extension, f.args.at)
  {
    OkParts(p, m);
    RunningCells(p, Current(m), Lower(m.frames));
    hide MachineOk, FrameLayout, Running, Abs, Layout, FramesOk, ProgramOk, Interrupted, InCells;
  }
}
