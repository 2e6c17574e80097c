/** The interpreted subset of IL and what a call means: a reference machine with one frame per call,
    each frame holding its own arguments, locals and evaluation stack. */
module Il {

  // ---------- Cells of the stack ----------

  datatype Kind = BOOLEAN | I1 | U1 | CHAR | I2 | U2 | I4 | U4 | OBJECT

  type bits32 = x: int | 0 <= x < 0x1_0000_0000

  datatype Cell = Cell(kind: Kind, data: bits32)

  /** Small integers are widened when they reach the evaluation stack. */
  function Promote(c: Cell): Cell {
    match c.kind
    case BOOLEAN => Cell(I4, c.data % 0x100)
    case U1 => Cell(I4, c.data % 0x100)
    case CHAR => Cell(I4, c.data % 0x1_0000)
    case U2 => Cell(I4, c.data % 0x1_0000)
    case I1 => Cell(I4, if c.data % 0x100 < 0x80 then c.data % 0x100 else c.data % 0x100 + 0xFFFF_FF00)
    case I2 => Cell(I4, if c.data % 0x1_0000 < 0x8000 then c.data % 0x1_0000 else c.data % 0x1_0000 + 0xFFFF_0000)
    case _ => c
  }

  /** A store keeps the type of a primitive slot; a reference slot takes the type of the value. */
  function AssignAndPreserveType(slot: Cell, value: Cell): Cell {
    if slot.kind == OBJECT then value else slot.(data := value.data)
  }

  predicate Numeric(c: Cell) {
    c.kind == I4 || c.kind == U4
  }

  function NumericAdd(left: Cell, right: Cell): Cell {
    left.(data := (left.data + right.data) % 0x1_0000_0000)
  }

  // ---------- Programs ----------

  datatype Instr =
    | LdArg(n: nat) | StArg(n: nat) | LdLoc(n: nat) | StLoc(n: nat)
    | Ldc(value: bits32) | Dup | Pop | Add
    | Br(target: nat) | BrTrue(target: nat) | BrFalse(target: nat)
    | Call(callee: nat) | Ret

  /** `locals` holds the initial value of each local, `lengthEvalStack` the declared stack need, and
      `depth` the height of the evaluation stack before each instruction.  `special` stands for the
      method flags that rule out inlining: constructors and the like, native code, no byte code. */
  datatype Method = Method(
    numArgs: nat, locals: seq<Cell>, lengthEvalStack: nat, hasRet: bool,
    code: seq<Instr>, depth: seq<nat>, isStatic: bool, special: bool)

  type Program = seq<Method>

  function Pops(p: Program, i: Instr): nat {
    match i
    case LdArg(_) => 0 case LdLoc(_) => 0 case Ldc(_) => 0 case Br(_) => 0 case Ret => 0
    case StArg(_) => 1 case StLoc(_) => 1 case Dup => 1 case Pop => 1 case BrTrue(_) => 1 case BrFalse(_) => 1
    case Add => 2
    case Call(c) => if c < |p| then p[c].numArgs else 0
  }

  function Pushes(p: Program, i: Instr): nat {
    match i
    case LdArg(_) => 1 case LdLoc(_) => 1 case Ldc(_) => 1 case Add => 1 case Dup => 2
    case Call(c) => if c < |p| then Returns(p[c]) else 0
    case _ => 0
  }

  function Returns(m: Method): nat {
    if m.hasRet then 1 else 0
  }

  /** The operand is in range. */
  predicate OperandOk(p: Program, m: Method, i: Instr) {
    match i
    case LdArg(n) => n < m.numArgs
    case StArg(n) => n < m.numArgs
    case LdLoc(n) => n < |m.locals|
    case StLoc(n) => n < |m.locals|
    case Call(c) => c < |p| && (!p[c].isStatic ==> p[c].numArgs > 0)
    case _ => true
  }

  /** Control leaves instruction `k` for `next` with the stack at the height the method declares there. */
  predicate FlowOk(p: Program, m: Method, k: nat, next: nat)
    requires k < |m.code| == |m.depth|
  {
    && next < |m.code|
    && m.depth[next] == m.depth[k] - Pops(p, m.code[k]) + Pushes(p, m.code[k])
  }

  predicate InstrOk(p: Program, m: Method, k: nat)
    requires k < |m.code| == |m.depth|
  {
    && OperandOk(p, m, m.code[k])
    && Pops(p, m.code[k]) <= m.depth[k] <= m.lengthEvalStack
    && match m.code[k]
       case Ret => m.depth[k] == Returns(m)
       case Br(t) => FlowOk(p, m, k, t)
       case BrTrue(t) => FlowOk(p, m, k, t) && FlowOk(p, m, k, k + 1)
       case BrFalse(t) => FlowOk(p, m, k, t) && FlowOk(p, m, k, k + 1)
       case _ => FlowOk(p, m, k, k + 1)
  }

  /** Correct IL: the stack height is known at every instruction and stays within the declared need. */
  predicate MethodOk(p: Program, m: Method) {
    && 0 < |m.code| == |m.depth| && m.depth[0] == 0
    && forall k :: 0 <= k < |m.code| ==> InstrOk(p, m, k)
  }

  predicate ProgramOk(p: Program) {
    forall i :: 0 <= i < |p| ==> MethodOk(p, p[i])
  }

  // ---------- The reference machine ----------

  datatype Frame = Frame(call: nat, ip: nat, args: seq<Cell>, locals: seq<Cell>, eval: seq<Cell>)

  /** The frames of a thread, the running one last.  `raised`: an instruction has failed. */
  datatype State = State(frames: seq<Frame>, raised: bool)

  /** A frame at its instruction, `pending` values short of the declared stack height. */
  predicate FrameOk(p: Program, f: Frame, pending: nat) {
    && f.call < |p| && f.ip < |p[f.call].code| == |p[f.call].depth|
    && |f.args| == p[f.call].numArgs && |f.locals| == |p[f.call].locals|
    && |f.eval| + pending == p[f.call].depth[f.ip]
  }

  function PendingOf(p: Program, fs: seq<Frame>, k: nat): nat
    requires k < |fs|
  {
    if k + 1 < |fs| && fs[k + 1].call < |p| then Returns(p[fs[k + 1].call]) else 0
  }

  predicate FramesOk(p: Program, fs: seq<Frame>) {
    forall k :: 0 <= k < |fs| ==> FrameOk(p, fs[k], PendingOf(p, fs, k))
  }

  function Top(fs: seq<Frame>): Frame
    requires fs != []
  {
    fs[|fs| - 1]
  }

  function Rest<T>(fs: seq<T>): seq<T>
    requires fs != []
  {
    fs[..|fs| - 1]
  }

  /** The stack with its last `n` cells dropped. */
  function Drop(s: seq<Cell>, n: nat): seq<Cell>
    requires n <= |s|
  {
    s[..|s| - n]
  }

  function Peek(s: seq<Cell>): Cell
    requires s != []
  {
    s[|s| - 1]
  }

  /** What one instruction does to the running frame; calls and returns are treated apart. */
  function Local(p: Program, f: Frame): Frame
    requires ProgramOk(p) && FrameOk(p, f, 0) && !p[f.call].code[f.ip].Call? && !p[f.call].code[f.ip].Ret?
  {
    assert InstrOk(p, p[f.call], f.ip);
    var e := f.eval;
    var g := f.(ip := f.ip + 1);
    match p[f.call].code[f.ip]
    case LdArg(n) => g.(eval := e + [Promote(f.args[n])])
    case LdLoc(n) => g.(eval := e + [Promote(f.locals[n])])
    case StArg(n) => g.(args := f.args[n := AssignAndPreserveType(f.args[n], Peek(e))], eval := Drop(e, 1))
    case StLoc(n) => g.(locals := f.locals[n := AssignAndPreserveType(f.locals[n], Peek(e))], eval := Drop(e, 1))
    case Ldc(v) => g.(eval := e + [Cell(I4, v)])
    case Dup => g.(eval := e + [Peek(e)])
    case Pop => g.(eval := Drop(e, 1))
    case Add => g.(eval := Drop(e, 2) + [NumericAdd(e[|e| - 2], e[|e| - 1])])
    case Br(t) => g.(ip := t)
    case BrTrue(t) => g.(ip := if Peek(e).data != 0 then t else f.ip + 1, eval := Drop(e, 1))
    case BrFalse(t) => g.(ip := if Peek(e).data == 0 then t else f.ip + 1, eval := Drop(e, 1))
  }

  /** A new frame takes its arguments off the caller's stack. */
  function Entered(p: Program, fs: seq<Frame>, c: nat): seq<Frame>
    requires fs != [] && c < |p| && p[c].numArgs <= |Top(fs).eval|
  {
    var f := Top(fs);
    var caller := f.(ip := f.ip + 1, eval := Drop(f.eval, p[c].numArgs));
    Rest(fs) + [caller, Frame(c, 0, f.eval[|f.eval| - p[c].numArgs..], p[c].locals, [])]
  }

  /** The frame goes away; its result, if any, is widened onto the stack of the caller. */
  function Left(p: Program, fs: seq<Frame>): seq<Frame>
    requires fs != [] && Top(fs).call < |p|
    requires p[Top(fs).call].hasRet ==> Top(fs).eval != []
  {
    var f, rest := Top(fs), Rest(fs);
    if rest == [] || !p[f.call].hasRet then rest
    else
      var caller := Top(rest);
      Rest(rest) + [caller.(eval := caller.eval + [Promote(Peek(f.eval))])]
  }

  function Step(p: Program, s: State): State
    requires ProgramOk(p) && FramesOk(p, s.frames)
  {
    if s.frames == [] || s.raised then s
    else
      var f := Top(s.frames);
      assert FrameOk(p, f, 0);
      assert InstrOk(p, p[f.call], f.ip);
      match p[f.call].code[f.ip]
      case Call(c) => s.(frames := Entered(p, s.frames, c))
      case Ret => s.(frames := Left(p, s.frames))
      case Add =>
        if Numeric(f.eval[|f.eval| - 2]) then s.(frames := Rest(s.frames) + [Local(p, f)])
        else s.(raised := true)
      case _ => s.(frames := Rest(s.frames) + [Local(p, f)])
  }

  // ---------- Correct IL stays correct ----------

  lemma LocalOk(p: Program, f: Frame)
    requires ProgramOk(p) && FrameOk(p, f, 0) && !p[f.call].code[f.ip].Call? && !p[f.call].code[f.ip].Ret?
    ensures FrameOk(p, Local(p, f), 0) && Local(p, f).call == f.call
  {
    assert InstrOk(p, p[f.call], f.ip);
    var i := p[f.call].code[f.ip];
    var g := Local(p, f);
    assert |g.eval| == |f.eval| - Pops(p, i) + Pushes(p, i);
    assert FlowOk(p, p[f.call], f.ip, g.ip);
  }

  lemma ReplacedOk(p: Program, fs: seq<Frame>, g: Frame)
    requires fs != [] && FramesOk(p, fs) && FrameOk(p, g, 0) && g.call == Top(fs).call
    ensures FramesOk(p, Rest(fs) + [g])
  {
    var t := Rest(fs) + [g];
    forall k | 0 <= k < |t| ensures FrameOk(p, t[k], PendingOf(p, t, k)) {
      assert FrameOk(p, fs[k], PendingOf(p, fs, k));
    }
  }

  lemma EnteredOk(p: Program, fs: seq<Frame>, c: nat)
    requires ProgramOk(p) && fs != [] && FramesOk(p, fs)
    requires FrameOk(p, Top(fs), 0) && p[Top(fs).call].code[Top(fs).ip] == Call(c)
    ensures c < |p| && p[c].numArgs <= |Top(fs).eval| && FramesOk(p, Entered(p, fs, c))
  {
    var f := Top(fs);
    assert InstrOk(p, p[f.call], f.ip);
    assert FlowOk(p, p[f.call], f.ip, f.ip + 1);
    assert MethodOk(p, p[c]);
    var t := Entered(p, fs, c);
    forall k | 0 <= k < |t| ensures FrameOk(p, t[k], PendingOf(p, t, k)) {
      if k < |fs| - 1 {
        assert FrameOk(p, fs[k], PendingOf(p, fs, k));
        assert t[k] == fs[k] && t[k + 1].call == fs[k + 1].call;
      }
    }
  }

  lemma LeftOk(p: Program, fs: seq<Frame>)
    requires ProgramOk(p) && fs != [] && FramesOk(p, fs)
    requires FrameOk(p, Top(fs), 0) && p[Top(fs).call].code[Top(fs).ip] == Ret
    ensures |Top(fs).eval| == Returns(p[Top(fs).call]) && FramesOk(p, Left(p, fs))
  {
    var f := Top(fs);
    assert |f.eval| == Returns(p[f.call]) by { assert InstrOk(p, p[f.call], f.ip); }
    hide ProgramOk;
    var t := Left(p, fs);
    forall k | 0 <= k < |t| ensures FrameOk(p, t[k], PendingOf(p, t, k)) {
      assert FrameOk(p, fs[k], PendingOf(p, fs, k));
      if k + 1 < |t| {
        assert t[k] == fs[k] && t[k + 1].call == fs[k + 1].call;
      } else {
        assert PendingOf(p, fs, k) == Returns(p[f.call]);
        assert PendingOf(p, t, k) == 0;
      }
    }
  }

  /** Every frame of every reachable state is at the stack height its method declares. */
  lemma StepOk(p: Program, s: State)
    requires ProgramOk(p) && FramesOk(p, s.frames)
    ensures FramesOk(p, Step(p, s).frames)
  {
    if s.frames != [] && !s.raised {
      var f := Top(s.frames);
      assert FrameOk(p, f, 0);
      match p[f.call].code[f.ip]
      case Call(c) => EnteredOk(p, s.frames, c);
      case Ret => LeftOk(p, s.frames);
      case _ => LocalOk(p, f); ReplacedOk(p, s.frames, Local(p, f));
    }
  }

  // ---------- What the instructions mean ----------

  /** Bits read as a two's complement number. */
  function Signed(bits: int, width: nat): int {
    if bits < width / 2 then bits else bits - width
  }

  /** The number that a cell stands for. */
  function Value(c: Cell): int {
    match c.kind
    case BOOLEAN => c.data % 0x100
    case U1 => c.data % 0x100
    case I1 => Signed(c.data % 0x100, 0x100)
    case CHAR => c.data % 0x1_0000
    case U2 => c.data % 0x1_0000
    case I2 => Signed(c.data % 0x1_0000, 0x1_0000)
    case I4 => Signed(c.data, 0x1_0000_0000)
    case U4 => c.data
    case OBJECT => c.data
  }

  /** A cell on the evaluation stack holds the same number as where it was loaded from, in 32 bits. */
  ghost predicate Loaded(from: Cell, c: Cell) {
    && Value(c) == Value(from)
    && c.kind == if from.kind == U4 || from.kind == OBJECT then from.kind else I4
  }

  /** A variable of a primitive type keeps its type and takes the bits; any other takes the whole cell. */
  ghost predicate StoredInto(was: Cell, value: Cell, now: Cell) {
    if was.kind == OBJECT then now == value else now.kind == was.kind && now.data == value.data
  }

  lemma PromoteLoads(c: Cell)
    ensures Loaded(c, Promote(c))
  {
  }

  /** The thread is at an instruction of its last frame. */
  ghost predicate IsAt(p: Program, s: State, i: Instr) {
    && ProgramOk(p) && FramesOk(p, s.frames) && s.frames != [] && !s.raised
    && var f := s.frames[|s.frames| - 1];
       f.call < |p| && f.ip < |p[f.call].code| && p[f.call].code[f.ip] == i
  }

  /** Only the last frame has changed; it is `g` now. */
  ghost predicate OnlyTop(s: State, n: State, g: Frame) {
    s.frames != [] && n == State(s.frames[..|s.frames| - 1] + [g], false)
  }

  /** The last frame goes on at `ip` with the first `keep` cells of its stack and then `more`. */
  ghost predicate GoesOn(s: State, n: State, ip: nat, keep: nat, more: seq<Cell>) {
    && s.frames != []
    && var f := s.frames[|s.frames| - 1];
       keep <= |f.eval| && OnlyTop(s, n, Frame(f.call, ip, f.args, f.locals, f.eval[..keep] + more))
  }

  /** The sum of the numbers if it fits into 32 bits, and what is congruent to it if not, in the type of the left one. */
  ghost predicate Sums(l: Cell, r: Cell, c: Cell) {
    var sum := Signed(l.data, 0x1_0000_0000) + Signed(r.data, 0x1_0000_0000);
    && c.kind == l.kind && (Signed(c.data, 0x1_0000_0000) - sum) % 0x1_0000_0000 == 0
    && (-0x8000_0000 <= sum < 0x8000_0000 ==> Signed(c.data, 0x1_0000_0000) == sum)
  }

  lemma AddSums(l: Cell, r: Cell)
    ensures Sums(l, r, NumericAdd(l, r))
  {
  }

  /** `add` (section III.3.1 of ECMA-335): the sum, or an exception if the left value is no number. */
  lemma AddMeans(p: Program, s: State)
    requires IsAt(p, s, Add)
    ensures var f, n := s.frames[|s.frames| - 1], Step(p, s);
            && |f.eval| >= 2
            && var l, r := f.eval[|f.eval| - 2], f.eval[|f.eval| - 1];
               if l.kind != I4 && l.kind != U4 then n == s.(raised := true)
               else exists c: Cell :: Sums(l, r, c) && GoesOn(s, n, f.ip + 1, |f.eval| - 2, [c])
  {
    var f := s.frames[|s.frames| - 1];
    assert FrameOk(p, f, 0) && InstrOk(p, p[f.call], f.ip);
    var l, r := f.eval[|f.eval| - 2], f.eval[|f.eval| - 1];
    AddSums(l, r);
    hide NumericAdd, Sums;
    if l.kind == I4 || l.kind == U4 {
      assert GoesOn(s, Step(p, s), f.ip + 1, |f.eval| - 2, [NumericAdd(l, r)]);
    }
  }

  /** `ldarg` and `ldloc` (sections III.3.38 and III.3.43). */
  lemma LoadMeans(p: Program, s: State, n: nat, local: bool)
    requires IsAt(p, s, if local then LdLoc(n) else LdArg(n))
    ensures var f := s.frames[|s.frames| - 1]; var from := if local then f.locals else f.args;
            n < |from| && exists c: Cell :: Loaded(from[n], c) && GoesOn(s, Step(p, s), f.ip + 1, |f.eval|, [c])
  {
    var f := s.frames[|s.frames| - 1];
    assert FrameOk(p, f, 0) && InstrOk(p, p[f.call], f.ip);
    var from := if local then f.locals else f.args;
    PromoteLoads(from[n]);
    hide Promote, Loaded;
    var c := Promote(from[n]);
    assert f.eval[..|f.eval|] == f.eval;
    assert GoesOn(s, Step(p, s), f.ip + 1, |f.eval|, [c]);
  }

  /** Variable `n` has become `c`, and the top of the stack is gone. */
  ghost predicate Stores(s: State, t: State, n: nat, local: bool, c: Cell) {
    && s.frames != []
    && var f := s.frames[|s.frames| - 1];
       |f.eval| >= 1
       && if local then n < |f.locals| && OnlyTop(s, t, Frame(f.call, f.ip + 1, f.args, f.locals[n := c], f.eval[..|f.eval| - 1]))
          else n < |f.args| && OnlyTop(s, t, Frame(f.call, f.ip + 1, f.args[n := c], f.locals, f.eval[..|f.eval| - 1]))
  }

  /** `starg` and `stloc` (sections III.3.61 and III.3.63). */
  lemma StoreMeans(p: Program, s: State, n: nat, local: bool)
    requires IsAt(p, s, if local then StLoc(n) else StArg(n))
    ensures var f := s.frames[|s.frames| - 1]; var into := if local then f.locals else f.args;
            n < |into| && |f.eval| >= 1 && exists c: Cell :: StoredInto(into[n], f.eval[|f.eval| - 1], c) && Stores(s, Step(p, s), n, local, c)
  {
    var f := s.frames[|s.frames| - 1];
    assert FrameOk(p, f, 0) && InstrOk(p, p[f.call], f.ip);
    var g := Step(p, s).frames[|s.frames| - 1];
    var c := if local then g.locals[n] else g.args[n];
    assert StoredInto(if local then f.locals[n] else f.args[n], f.eval[|f.eval| - 1], c);
    assert Stores(s, Step(p, s), n, local, c);
  }

  /** `ldc.i4`, `dup` and `pop` (sections III.3.40, III.3.34 and III.3.54). */
  lemma StackMeans(p: Program, s: State, i: Instr)
    requires (i.Ldc? || i == Dup || i == Pop) && IsAt(p, s, i)
    ensures var f, n := s.frames[|s.frames| - 1], Step(p, s);
            && (i.Ldc? ==> GoesOn(s, n, f.ip + 1, |f.eval|, [Cell(I4, i.value)]))
            && (i == Dup ==> |f.eval| >= 1 && GoesOn(s, n, f.ip + 1, |f.eval|, [f.eval[|f.eval| - 1]]))
            && (i == Pop ==> |f.eval| >= 1 && GoesOn(s, n, f.ip + 1, |f.eval| - 1, []))
  {
    var f := s.frames[|s.frames| - 1];
    assert FrameOk(p, f, 0) && InstrOk(p, p[f.call], f.ip);
    assert f.eval[..|f.eval|] == f.eval;
    if i == Pop { assert f.eval[..|f.eval| - 1] + [] == f.eval[..|f.eval| - 1]; }
  }

  /** `br`, `brtrue` and `brfalse` (sections III.3.15, III.3.18 and III.3.17): the branch is taken exactly on bits that are
      not all zero, or exactly on zero. */
  lemma BranchMeans(p: Program, s: State, i: Instr)
    requires (i.Br? || i.BrTrue? || i.BrFalse?) && IsAt(p, s, i)
    ensures var f, n := s.frames[|s.frames| - 1], Step(p, s);
            if i.Br? then GoesOn(s, n, i.target, |f.eval|, [])
            else
              && |f.eval| >= 1
              && var zero := f.eval[|f.eval| - 1].data == 0;
                 GoesOn(s, n, if zero == i.BrFalse? then i.target else f.ip + 1, |f.eval| - 1, [])
  {
    var f := s.frames[|s.frames| - 1];
    assert FrameOk(p, f, 0) && InstrOk(p, p[f.call], f.ip);
    assert f.eval[..|f.eval|] + [] == f.eval;
    if !i.Br? { assert f.eval[..|f.eval| - 1] + [] == f.eval[..|f.eval| - 1]; }
  }

  /** `call` (section III.3.19): the arguments leave the caller's stack, the first pushed being the first. */
  lemma CallMeans(p: Program, s: State, c: nat)
    requires IsAt(p, s, Call(c))
    ensures var f := s.frames[|s.frames| - 1];
            && c < |p| && p[c].numArgs <= |f.eval|
            && var k := |f.eval| - p[c].numArgs;
               Step(p, s) == State(s.frames[..|s.frames| - 1] + [Frame(f.call, f.ip + 1, f.args, f.locals, f.eval[..k]),
                                                                Frame(c, 0, f.eval[k..], p[c].locals, [])], false)
  {
    var f := s.frames[|s.frames| - 1];
    assert FrameOk(p, f, 0) && InstrOk(p, p[f.call], f.ip);
  }

  /** `ret` (section III.3.57): the caller goes on, with the same number on its stack. */
  lemma ReturnMeans(p: Program, s: State)
    requires IsAt(p, s, Ret)
    ensures var n, f := |s.frames| - 1, s.frames[|s.frames| - 1];
            if n == 0 || !p[f.call].hasRet then Step(p, s) == State(s.frames[..n], false)
            else
              var g := s.frames[n - 1];
              |f.eval| == 1 && exists c: Cell ::
                Loaded(f.eval[0], c) && Step(p, s) == State(s.frames[..n - 1] + [Frame(g.call, g.ip, g.args, g.locals, g.eval + [c])], false)
  {
    var n, f := |s.frames| - 1, s.frames[|s.frames| - 1];
    assert FrameOk(p, f, 0) && InstrOk(p, p[f.call], f.ip);
    if n > 0 && p[f.call].hasRet {
      PromoteLoads(f.eval[0]);
      hide Promote, Loaded;
      assert s.frames[..n][..n - 1] == s.frames[..n - 1];
    }
  }

  /** A thread that has ended or raised an exception stays as it is. */
  lemma EndMeans(p: Program, s: State)
    requires ProgramOk(p) && FramesOk(p, s.frames) && (s.frames == [] || s.raised)
    ensures Step(p, s) == s
  {
  }
}
