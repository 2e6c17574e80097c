/** Arithmetic flags and transfers of several registers, as the ARM emulator executes them. */
module ArmEmulator {

  type Word = x: int | 0 <= x < 0x1_0000_0000

  const SIZE := 0x1_0000_0000

  function Wrap(x: int): Word {
    x % SIZE
  }

  /** The word as a signed number. */
  function Signed(x: Word): int {
    if x < 0x8000_0000 then x else x - SIZE
  }

  predicate Top(x: Word) {
    x >= 0x8000_0000
  }

  datatype Operation = SUB | SBC | RSB | RSC | ADD | ADC | CMP | CMN

  datatype Flags = Flags(n: bool, z: bool, c: bool, v: bool)

  /** A subtraction in 64-bit arithmetic: the carry is the inverse of bit 32, the overflow is told from the signs. */
  function Difference(a: Word, b: Word, carry: bool): (r: (Word, bool, bool)) {
    var res64 := (a - b - if carry then 0 else 1) % (SIZE * SIZE);
    var res := Wrap(res64);
    (res, res64 / SIZE % 2 == 0, Top(a) != Top(b) && Top(a) != Top(res))
  }

  function Sum(a: Word, b: Word, carry: bool): (r: (Word, bool, bool)) {
    var res64 := b + a + if carry then 1 else 0;
    var res := Wrap(res64);
    (res, res64 / SIZE % 2 == 1, Top(a) == Top(b) && Top(a) != Top(res))
  }

  /** The two numbers that the operation adds or subtracts, and what it takes for the carry. */
  function Operands(op: Operation, a: Word, b: Word, carry: bool): (r: (bool, Word, Word, bool)) {
    match op
    case SUB => (true, a, b, true)
    case CMP => (true, a, b, true)
    case SBC => (true, a, b, carry)
    case RSB => (true, b, a, true)
    case RSC => (true, b, a, carry)
    case ADD => (false, a, b, false)
    case CMN => (false, a, b, false)
    case ADC => (false, a, b, carry)
  }

  /** What section A2.5.2 of the ARM Architecture Reference Manual says of a result: `unsigned` and `signed` are its exact
      values for operands of either kind, and overflow is that the signed one does not fit. */
  ghost predicate Reports(res: Word, f: Flags, unsigned: int, signed: int, carry: bool) {
    && res == unsigned % 0x1_0000_0000 == signed % 0x1_0000_0000
    && (f.n <==> res >= 0x8000_0000) && (f.z <==> res == 0) && (f.c <==> carry)
    && (f.v <==> !(-0x8000_0000 <= signed < 0x8000_0000))
  }

  /** What each operation computes: the carry is an unsigned overflow of a sum and no borrow of a difference. */
  ghost predicate Exactly(op: Operation, a: Word, b: Word, carry: bool, res: Word, f: Flags) {
    var x, y, c := Signed(a), Signed(b), if carry then 1 else 0;
    match op
    case SUB => Reports(res, f, a - b, x - y, a >= b)
    case CMP => Reports(res, f, a - b, x - y, a >= b)
    case SBC => Reports(res, f, a - b - (1 - c), x - y - (1 - c), a >= b + (1 - c))
    case RSB => Reports(res, f, b - a, y - x, b >= a)
    case RSC => Reports(res, f, b - a - (1 - c), y - x - (1 - c), b >= a + (1 - c))
    case ADD => Reports(res, f, a + b, x + y, a + b >= 0x1_0000_0000)
    case CMN => Reports(res, f, a + b, x + y, a + b >= 0x1_0000_0000)
    case ADC => Reports(res, f, a + b + c, x + y + c, a + b + c >= 0x1_0000_0000)
  }

  // ---------- Several registers ----------

  type RegisterList = l: seq<bool> | |l| == 16 witness seq(16, i => false)

  /** How many of the first `k` registers are in the list. */
  function Before(list: RegisterList, k: nat): (n: nat)
    requires k <= 16
    ensures n <= k
  {
    if k == 0 then 0 else Before(list, k - 1) + if list[k - 1] then 1 else 0
  }

  function Count(list: RegisterList): nat {
    Before(list, 16)
  }

  function Read(memory: map<Word, Word>, a: Word): Word {
    if a in memory then memory[a] else 0
  }

  /** Memory after the registers from `rd` to below `end` have been stored. */
  function Stored(registers: seq<Word>, memory: map<Word, Word>, list: RegisterList, rd: nat, end: nat, a: Word): map<Word, Word>
    requires |registers| == 17 && rd <= end <= 16
    decreases end - rd
  {
    if rd == end then memory
    else if list[rd] then Stored(registers, memory[a := registers[rd]], list, rd + 1, end, Wrap(a + 4))
    else Stored(registers, memory, list, rd + 1, end, a)
  }

  function Loaded(registers: seq<Word>, memory: map<Word, Word>, list: RegisterList, rd: nat, end: nat, a: Word): (r: seq<Word>)
    requires |registers| == 17 && rd <= end <= 16
    ensures |r| == 17
    decreases end - rd
  {
    if rd == end then registers
    else if list[rd] then Loaded(registers[rd := Read(memory, a)], memory, list, rd + 1, end, Wrap(a + 4))
    else Loaded(registers, memory, list, rd + 1, end, a)
  }

  /** The address of register `k`, if it is in the list. */
  function Place(list: RegisterList, first: Word, k: nat): Word
    requires k <= 16
  {
    Wrap(first + 4 * Before(list, k))
  }

  lemma {:induction false} BeforeMore(list: RegisterList, j: nat, k: nat)
    requires j < k <= 16 && list[j]
    ensures Before(list, j) < Before(list, k)
    decreases k
  {
    if j + 1 < k { BeforeMore(list, j, k - 1); }
  }

  /** Different registers have different places, wherever in the address space they lie. */
  lemma PlacesDiffer(list: RegisterList, first: Word, j: nat, k: nat)
    requires j < k < 16 && list[j]
    ensures Place(list, first, j) != Place(list, first, k)
  {
    BeforeMore(list, j, k);
    var x, y := first + 4 * Before(list, j), first + 4 * Before(list, k);
    assert 0 < y - x < SIZE;
    if x % SIZE == y % SIZE { SameRest(x, y); }
  }

  lemma SameRest(x: nat, y: nat)
    requires x % SIZE == y % SIZE
    ensures (y - x) % SIZE == 0
  {
  }

  lemma PlaceNext(list: RegisterList, first: Word, k: nat)
    requires k < 16
    ensures Place(list, first, k + 1) == if list[k] then Wrap(Place(list, first, k) + 4) else Place(list, first, k)
  {
  }

  lemma {:induction false} StoredAt(registers: seq<Word>, memory: map<Word, Word>, list: RegisterList, first: Word, rd: nat, k: nat)
    requires |registers| == 17 && rd <= 16 && k < 16 && list[k]
    ensures var m := Stored(registers, memory, list, rd, 16, Place(list, first, rd));
            Read(m, Place(list, first, k)) == if k >= rd then registers[k] else Read(memory, Place(list, first, k))
    decreases 16 - rd
  {
    hide Place, Before;
    if rd < 16 {
      PlaceNext(list, first, rd);
      if list[rd] {
        StoredAt(registers, memory[Place(list, first, rd) := registers[rd]], list, first, rd + 1, k);
        if k < rd { PlacesDiffer(list, first, k, rd); }
      } else {
        StoredAt(registers, memory, list, first, rd + 1, k);
      }
    }
  }

  lemma {:induction false} LoadedAt(registers: seq<Word>, memory: map<Word, Word>, list: RegisterList, first: Word, rd: nat, k: nat)
    requires |registers| == 17 && rd <= 16 && k < 17
    ensures Loaded(registers, memory, list, rd, 16, Place(list, first, rd))[k] ==
              if rd <= k < 16 && list[k] then Read(memory, Place(list, first, k)) else registers[k]
    decreases 16 - rd
  {
    hide Place, Before;
    if rd < 16 {
      PlaceNext(list, first, rd);
      LoadedAt(if list[rd] then registers[rd := Read(memory, Place(list, first, rd))] else registers, memory, list, first, rd + 1, k);
    }
  }

  /** What was stored comes back, each register to itself, and no other register changes. */
  lemma BackAgain(was: seq<Word>, memory: map<Word, Word>, now: seq<Word>, list: RegisterList, first: Word, k: nat)
    requires |was| == 17 && |now| == 17 && k < 17
    ensures Loaded(now, Stored(was, memory, list, 0, 16, first), list, 0, 16, first)[k] == if k < 16 && list[k] then was[k] else now[k]
  {
    assert Place(list, first, 0) == first;
    LoadedAt(now, Stored(was, memory, list, 0, 16, first), list, first, 0, k);
    if k < 16 && list[k] { StoredAt(was, memory, list, first, 0, k); }
  }

  /** One register more. */
  lemma {:induction false} LoadedMore(registers: seq<Word>, memory: map<Word, Word>, list: RegisterList, first: Word, rd: nat, k: nat)
    requires |registers| == 17 && rd <= k < 16
    ensures var r := Loaded(registers, memory, list, rd, k, Place(list, first, rd));
            Loaded(registers, memory, list, rd, k + 1, Place(list, first, rd))
              == if list[k] then r[k := Read(memory, Place(list, first, k))] else r
    decreases k - rd
  {
    hide Place, Before;
    PlaceNext(list, first, rd);
    if rd < k {
      LoadedMore(if list[rd] then registers[rd := Read(memory, Place(list, first, rd))] else registers, memory, list, first, rd + 1, k);
    }
  }

  lemma {:induction false} StoredMore(registers: seq<Word>, memory: map<Word, Word>, list: RegisterList, first: Word, rd: nat, k: nat)
    requires |registers| == 17 && rd <= k < 16
    ensures var m := Stored(registers, memory, list, rd, k, Place(list, first, rd));
            Stored(registers, memory, list, rd, k + 1, Place(list, first, rd))
              == if list[k] then m[Place(list, first, k) := registers[k]] else m
    decreases k - rd
  {
    hide Place, Before;
    PlaceNext(list, first, rd);
    if rd < k {
      StoredMore(registers, if list[rd] then memory[Place(list, first, rd) := registers[rd]] else memory, list, first, rd + 1, k);
    }
  }

  /** The first `k` registers of a list all have places that the memory system accepts. */
  predicate Accepted(list: RegisterList, first: Word, accepts: Word -> bool, k: nat)
    requires k <= 16
  {
    forall j :: 0 <= j < k && list[j] ==> accepts(Place(list, first, j))
  }

  /** Where a transfer begins. */
  function FirstAddress(address: Word, n: nat, preIndex: bool, up: bool): Word {
    if up then if preIndex then Wrap(address + 4) else address
    else if preIndex then Wrap(address - n * 4) else Wrap(Wrap(address - n * 4) + 4)
  }

  class State {
    var registers: seq<Word>
    var pc: Word
    var flags: Flags
    var memory: map<Word, Word>

    ghost predicate Valid()
      reads this
    {
      |registers| == 17
    }

    constructor ()
      ensures Valid() && registers == seq(17, i => 0) && pc == 0 && flags == Flags(false, false, false, false) && memory == map[]
    {
      registers := seq(17, i => 0);
      pc := 0;
      flags := Flags(false, false, false, false);
      memory := map[];
    }

    /** A data-processing instruction that adds or subtracts. */
    method Arithmetic(op: Operation, operand1: nat, operand2: Word, register2: nat, setConditions: bool)
      requires Valid() && operand1 < 16 && register2 < 16
      modifies this
      ensures Valid() && memory == old(memory)
      ensures exists res: Word, f: Flags :: Exactly(op, old(registers)[operand1], operand2, old(flags).c, res, f)
                && flags == (if setConditions then f else old(flags))
                && registers == old(registers)[if op.CMP? || op.CMN? then 16 else register2 := res]
                && pc == if register2 == 15 && !op.CMP? && !op.CMN? then res else old(pc)
    {
      var a, b, carry := registers[operand1], operand2, flags.c;
      ArithmeticExact(op, a, b, carry);
      hide Difference, Sum, Exactly;
      var dst := if op.CMP? || op.CMN? then 16 else register2;
      if op.SUB? || op.RSB? || op.CMP? { carry := true; }
      if op.ADD? || op.CMN? { carry := false; }
      var r;
      if op.SUB? || op.SBC? || op.CMP? {
        r := Difference(a, b, carry);
      } else if op.RSB? || op.RSC? {
        r := Difference(b, a, carry);
      } else {
        r := Sum(a, b, carry);
      }
      var f := Flags(Top(r.0), r.0 == 0, r.1, r.2);
      assert Exactly(op, a, b, old(flags).c, r.0, f);
      registers := registers[dst := r.0];
      if dst == 15 { pc := r.0; }
      if setConditions { flags := f; }
    }

    /** Loads or stores the registers of a list, the lowest at the lowest address, and may move the base.  It stops
        at the first address that the memory system does not accept, and does not move the base then. */
    method BlockDataTransfer(list: RegisterList, base: nat, load: bool, preIndex: bool, up: bool, writeBack: bool, loadPsr: bool, accepts: Word -> bool)
        returns (ok: bool, ghost done: nat)
      requires Valid() && base < 16
      modifies this
      ensures Valid() && flags == old(flags) && done <= 16
      ensures var b, n := old(registers)[base], Count(list); var first := FirstAddress(b, n, preIndex, up);
              var regs := if load then Loaded(old(registers), old(memory), list, 0, done, first) else old(registers);
              && Accepted(list, first, accepts, done) && (done < 16 ==> list[done] && !accepts(Place(list, first, done)))
              && (ok <==> done == 16 && !loadPsr)
              && registers == (if ok && writeBack then regs[base := Wrap(if up then b + 4 * n else b - 4 * n)] else regs)
              && memory == (if load then old(memory) else Stored(old(registers), old(memory), list, 0, done, first))
              && pc == if load && done == 16 && list[15] then regs[15] else old(pc)
    {
      hide Place, Before, Loaded, Stored, Accepted;
      var address := registers[base];
      var num := CountRegisters(list);
      var addressNext: Word;
      if up {
        addressNext := address;
        if preIndex { addressNext := Wrap(addressNext + 4); }
      } else {
        addressNext := Wrap(address - num * 4);
        if !preIndex { addressNext := Wrap(addressNext + 4); }
      }
      assert addressNext == FirstAddress(address, num, preIndex, up);
      hide FirstAddress, Wrap;
      var all;
      all, done := Transfer(list, load, addressNext, accepts);
      ok := all && !loadPsr;
      if ok && writeBack {
        address := Wrap(if up then address + 4 * num else address - 4 * num);
        registers := registers[base := address];
      }
    }

    static method CountRegisters(list: RegisterList) returns (num: nat)
      ensures num == Count(list)
    {
      var rd: nat := 0;
      num := 0;
      while rd < 16
        invariant rd <= 16 && num == Before(list, rd)
      {
        if list[rd] { num := num + 1; }
        rd := rd + 1;
      }
    }

    /** The registers of a list, one after the other, as far as the memory system accepts them. */
    method Transfer(list: RegisterList, load: bool, first: Word, accepts: Word -> bool) returns (ok: bool, ghost done: nat)
      requires Valid()
      modifies this
      ensures Valid() && flags == old(flags) && done <= 16 && (ok <==> done == 16)
      ensures Accepted(list, first, accepts, done) && (done < 16 ==> list[done] && !accepts(Place(list, first, done)))
      ensures registers == if load then Loaded(old(registers), old(memory), list, 0, done, first) else old(registers)
      ensures memory == if load then old(memory) else Stored(old(registers), old(memory), list, 0, done, first)
      ensures pc == if load && done == 16 && list[15] then registers[15] else old(pc)
    {
      var rd: nat, addressNext: Word := 0, first;
      NoneMoved(registers, memory, list, first);
      hide Place, Before, Loaded, Stored, Wrap;
      while rd < 16
        invariant Valid() && flags == old(flags) && rd <= 16 && addressNext == Place(list, first, rd) && Accepted(list, first, accepts, rd)
        invariant registers == if load then Loaded(old(registers), old(memory), list, 0, rd, first) else old(registers)
        invariant memory == if load then old(memory) else Stored(old(registers), old(memory), list, 0, rd, first)
        invariant pc == if load && rd == 16 && list[15] then registers[15] else old(pc)
      {
        if load { LoadedMore(old(registers), old(memory), list, first, 0, rd); } else { StoredMore(old(registers), old(memory), list, first, 0, rd); }
        PlaceNext(list, first, rd);
        if list[rd] {
          if !accepts(addressNext) { return false, rd; }
          if load {
            registers := registers[rd := Read(memory, addressNext)];
            if rd == 15 { pc := registers[15]; }
          } else {
            memory := memory[addressNext := registers[rd]];
          }
          addressNext := Wrap(addressNext + 4);
        }
        rd := rd + 1;
      }
      return true, 16;
    }

    /** Registers stored below the base and loaded from there again, both times moving the base: if the memory system
        accepts their places they are all back, whatever happened to them in between, and so is the base. */
    method PushAndPop(list: RegisterList, base: nat, between: seq<Word>, accepts: Word -> bool) returns (ok: bool)
      requires Valid() && base < 15 && !list[base] && !list[15] && |between| == 17
      modifies this
      ensures Valid() && flags == old(flags) && pc == old(pc)
      ensures ok <==> Accepted(list, Wrap(old(registers)[base] - Count(list) * 4), accepts, 16)
      ensures ok ==> registers[base] == old(registers)[base]
      ensures ok ==> forall k :: 0 <= k < 17 && k != base ==> registers[k] == if k < 16 && list[k] then old(registers)[k] else between[k]
    {
      hide Before, Loaded, Stored, Accepted;
      ghost var was, b, n := registers, registers[base], Count(list);
      ghost var first := Wrap(b - n * 4);
      ghost var done;
      ok, done := BlockDataTransfer(list, base, false, true, false, true, false, accepts);
      if !ok { NotAccepted(list, first, accepts, done); return; }
      registers := between[base := registers[base]];
      ok, done := BlockDataTransfer(list, base, true, false, true, true, false, accepts);
      if done < 16 { Contradicts(list, first, accepts, done); }
      AllBack(was, old(memory), between, list, base, first);
      BaseBack(b, n);
    }
  }

  lemma NotAccepted(list: RegisterList, first: Word, accepts: Word -> bool, k: nat)
    requires k < 16 && list[k] && !accepts(Place(list, first, k))
    ensures !Accepted(list, first, accepts, 16)
  {
  }

  lemma Contradicts(list: RegisterList, first: Word, accepts: Word -> bool, k: nat)
    requires k < 16 && list[k] && Accepted(list, first, accepts, 16)
    ensures accepts(Place(list, first, k))
  {
  }

  lemma AllBack(was: seq<Word>, memory: map<Word, Word>, between: seq<Word>, list: RegisterList, base: nat, first: Word)
    requires |was| == 17 && |between| == 17 && base < 16
    ensures forall k :: 0 <= k < 17 && k != base ==>
              Loaded(between[base := first], Stored(was, memory, list, 0, 16, first), list, 0, 16, first)[k] == if k < 16 && list[k] then was[k] else between[k]
  {
    hide Loaded, Stored;
    forall k | 0 <= k < 17 && k != base
      ensures Loaded(between[base := first], Stored(was, memory, list, 0, 16, first), list, 0, 16, first)[k] == if k < 16 && list[k] then was[k] else between[k]
    {
      BackAgain(was, memory, between[base := first], list, first, k);
    }
  }

  lemma NoneMoved(registers: seq<Word>, memory: map<Word, Word>, list: RegisterList, first: Word)
    requires |registers| == 17
    ensures Loaded(registers, memory, list, 0, 0, first) == registers && Stored(registers, memory, list, 0, 0, first) == memory
    ensures Place(list, first, 0) == first
  {
  }

  lemma BaseBack(b: Word, n: nat)
    ensures Wrap(Wrap(b - 4 * n) + 4 * n) == b
  {
  }

  lemma DifferenceExact(a: Word, b: Word, carry: bool)
    ensures var r, d := Difference(a, b, carry), a - b - if carry then 0 else 1;
            && r.0 == Wrap(d) && (r.1 <==> d >= 0)
            && (r.2 <==> !(-0x8000_0000 <= Signed(a) - Signed(b) - (if carry then 0 else 1) < 0x8000_0000))
            && Wrap(d) == Wrap(Signed(a) - Signed(b) - if carry then 0 else 1)
  {
    var d := a - b - if carry then 0 else 1;
    if d < 0 {
      assert d % (SIZE * SIZE) == d + SIZE * SIZE;
      assert (d + SIZE * SIZE) / SIZE == SIZE - 1;
    } else {
      assert d % (SIZE * SIZE) == d && d / SIZE == 0;
    }
  }

  lemma SumExact(a: Word, b: Word, carry: bool)
    ensures var r, s := Sum(a, b, carry), a + b + if carry then 1 else 0;
            && r.0 == Wrap(s) && (r.1 <==> s >= SIZE)
            && (r.2 <==> !(-0x8000_0000 <= Signed(a) + Signed(b) + (if carry then 1 else 0) < 0x8000_0000))
            && Wrap(s) == Wrap(Signed(a) + Signed(b) + if carry then 1 else 0)
  {
  }

  lemma ArithmeticExact(op: Operation, a: Word, b: Word, carry: bool)
    ensures var (minus, x, y, c) := Operands(op, a, b, carry);
            var r := if minus then Difference(x, y, c) else Sum(x, y, c);
            Exactly(op, a, b, carry, r.0, Flags(Top(r.0), r.0 == 0, r.1, r.2))
  {
    hide Difference, Sum, Signed;
    var (minus, x, y, c) := Operands(op, a, b, carry);
    DifferenceExact(x, y, c);
    SumExact(x, y, c);
  }
}
