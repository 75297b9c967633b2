/** The 68000 (src/core/cpu68000.cpp): the registers, and the handlers that this model covers. */
module Cpu68000 {
  import opened Bits
  import A = CpuArithmetic
  import D = CpuDecimal
  import opened CpuExceptions
  import M = CpuMemory
  import S = CpuShift
  import opened Wrappers

  /** X N Z V C. */
  function FlagsOf(sr: Word): A.Flags { A.Flags(sr[11], sr[12], sr[13], sr[14], sr[15]) }

  function WithFlags(sr: Word, f: A.Flags): Word { sr[..11] + [f.x, f.n, f.z, f.v, f.c] }

  /** A data register after a write of this size: the upper part stays. */
  function Merged(old_: nat, size: A.Size, value: nat): nat {
    old_ / size.Range() * size.Range() + value % size.Range()
  }

  lemma FlagsKept(sr: Word, f: A.Flags)
    ensures FlagsOf(WithFlags(sr, f)) == f
    ensures Real(sr) ==> Real(WithFlags(sr, f))
  {
    if Real(sr) {
      var w := WithFlags(sr, f);
      forall i | 0 <= i < 16
        ensures And(w, IMPLEMENTED)[i] == w[i]
      {
        assert And(sr, IMPLEMENTED)[i] == sr[i];
      }
    }
  }

  lemma FlagsSame(sr: Word)
    ensures WithFlags(sr, FlagsOf(sr)) == sr
  {}

  lemma MergedRange(old_: nat, size: A.Size, value: nat)
    requires old_ < RANGE
    ensures Merged(old_, size, value) < RANGE
    ensures Merged(old_, size, value) % size.Range() == value % size.Range()
    ensures Merged(old_, size, value) / size.Range() == old_ / size.Range()
  {
    var m := size.Range();
    DivMod(Merged(old_, size, value), m, old_ / m, value % m);
  }

  /** The flags of a shift: N and Z from the result, the others from the bits that moved. */
  function ShiftFlags(r: S.ShiftResult): A.Flags
    requires r.value != []
  {
    A.Flags(r.extend, r.value[0], Val(r.value) == 0, r.overflow, r.carry)
  }

  function BitWidth(size: A.Size): (n: nat)
    ensures n > 0
  {
    match size
    case Byte => 8
    case Word => 16
    case Long => 32
  }

  /** How far -(An) moves. */
  function StepOf(reg: nat, size: A.Size): nat { if reg == 7 && size == A.Byte then 2 else M.Width(size) }

  function Predecremented(registers: seq<int>, reg: nat, size: A.Size): (r: seq<int>)
    requires |registers| == 8 && reg < 8
    ensures |r| == 8
  {
    registers[reg := (registers[reg] - StepOf(reg, size)) % RANGE]
  }

  /** X is bit 4 of SR, then N, Z, V and C; the rest of SR stays when they are written. */
  lemma FlagBits(sr: Word, f: A.Flags)
    ensures var v := Val(sr);
      FlagsOf(sr) == A.Flags(v / 16 % 2 == 1, v / 8 % 2 == 1, v / 4 % 2 == 1, v / 2 % 2 == 1, v % 2 == 1)
    ensures Val(WithFlags(sr, f)) / 32 == Val(sr) / 32
  {
    hide Val, Pow2;
    PowersOfTwo();
    BitOf(sr, 4);
    BitOf(sr, 3);
    BitOf(sr, 2);
    BitOf(sr, 1);
    BitOf(sr, 0);
    var w := WithFlags(sr, f);
    assert sr == sr[..11] + sr[11..] && w == sr[..11] + w[11..];
    ValConcat(sr[..11], sr[11..]);
    ValConcat(sr[..11], w[11..]);
    ValBound(sr[11..]);
    ValBound(w[11..]);
  }

  /** An operand fills its width, and -(An) moves by its bytes, by two for a byte at A7. */
  lemma OperandSizes(registers: seq<int>, reg: nat, size: A.Size)
    requires |registers| == 8 && reg < 8
    ensures Pow2(BitWidth(size)) == size.Range()
    ensures var step := match size
        case Byte => if reg == 7 then 2 else 1
        case Word => 2
        case Long => 4;
      Predecremented(registers, reg, size) == registers[reg := (registers[reg] - step) % 0x1_0000_0000]
  {
    hide Pow2;
    Powers();
  }

  /** N is the top bit of a shifted operand, Z says that it is zero. */
  lemma ShiftFlagsMean(r: S.ShiftResult)
    requires r.value != []
    ensures var f := ShiftFlags(r);
      && f.n == (Val(r.value) >= Pow2(|r.value| - 1)) && f.z == (Val(r.value) == 0)
      && f.x == r.extend && f.v == r.overflow && f.c == r.carry
  {
    hide Val, Pow2;
    TopBit(r.value);
  }

  /** What ADDX, SUBX, ABCD and SBCD with memory operands work on. */
  datatype Operands = Operands(registers: seq<int>, ram: map<int, Word>, flags: A.Flags)

  /** -(Ay),-(Ax): both registers are decremented, first Ay, and the result goes where Ax points. */
  function Instruct(op: M.Operation, rx: nat, ry: nat, o: Operands): (r: Operands)
    requires |o.registers| == 8 && rx < 8 && ry < 8
    ensures |r.registers| == 8
  {
    var first := Predecremented(o.registers, ry, op.Size());
    var second := Predecremented(first, rx, op.Size());
    var from, to := first[ry], second[rx];
    var limb := op.Limb(M.ReadMemory(o.ram, from, op.Size()), M.ReadMemory(o.ram, to, op.Size()), o.flags);
    Operands(second, M.WriteMemory(o.ram, to, op.Size(), limb.result), limb.flags)
  }

  function Instructions(op: M.Operation, rx: nat, ry: nat, o: Operands, n: nat): (r: Operands)
    requires |o.registers| == 8 && rx < 8 && ry < 8
    ensures |r.registers| == 8
  {
    if n == 0 then o else Instruct(op, rx, ry, Instructions(op, rx, ry, o, n - 1))
  }

  function ChainOf(o: Operands, rx: nat, ry: nat): M.Chained
    requires |o.registers| == 8 && rx < 8 && ry < 8
  {
    M.Chained(o.ram, o.registers[rx], o.registers[ry], o.flags)
  }

  lemma OneInstruction(op: M.Operation, rx: nat, ry: nat, o: Operands)
    requires |o.registers| == 8 && rx < 8 && ry < 8 && rx != ry
    requires M.Width(op.Size()) <= o.registers[rx] < RANGE && M.Width(op.Size()) <= o.registers[ry] < RANGE
    requires op.Size() == A.Byte ==> rx < 7 && ry < 7
    ensures var r := Instruct(op, rx, ry, o);
      && ChainOf(r, rx, ry) == M.Step(op, ChainOf(o, rx, ry))
      && forall i | 0 <= i < 8 && i != rx && i != ry :: r.registers[i] == o.registers[i]
  {
    hide M.ReadMemory, M.WriteMemory, M.Operation.Limb;
  }

  /** n instructions with two different registers are a chain in memory; no operand is at an odd address unless the
      first is. */
  lemma {:induction false} InstructionsChain(op: M.Operation, rx: nat, ry: nat, o: Operands, n: nat)
    requires |o.registers| == 8 && rx < 8 && ry < 8 && rx != ry
    requires 0 <= M.Below(o.registers[rx], op.Size(), n) && o.registers[rx] < RANGE
    requires 0 <= M.Below(o.registers[ry], op.Size(), n) && o.registers[ry] < RANGE
    requires op.Size() == A.Byte ==> rx < 7 && ry < 7
    ensures var r, size := Instructions(op, rx, ry, o, n), op.Size();
      && ChainOf(r, rx, ry) == M.Steps(op, ChainOf(o, rx, ry), n)
      && (M.Aligned(o.registers[rx], size) ==> M.Aligned(r.registers[rx], size))
      && (M.Aligned(o.registers[ry], size) ==> M.Aligned(r.registers[ry], size))
      && forall i | 0 <= i < 8 && i != rx && i != ry :: r.registers[i] == o.registers[i]
  {
    hide M.Below, Instruct, M.Step, M.Aligned, M.Width;
    var c := ChainOf(o, rx, ry);
    M.Addresses(op, c, n);
    M.BelowNext(c.ax, op.Size(), n);
    M.BelowNext(c.ay, op.Size(), n);
    if n > 0 {
      M.Addresses(op, c, n - 1);
      M.BelowNext(c.ax, op.Size(), n - 1);
      M.BelowNext(c.ay, op.Size(), n - 1);
      M.BelowUnder(c.ax, op.Size(), n - 1);
      M.BelowUnder(c.ay, op.Size(), n - 1);
      InstructionsChain(op, rx, ry, o, n - 1);
      OneInstruction(op, rx, ry, Instructions(op, rx, ry, o, n - 1));
    }
  }

  /** n times ADDX or SUBX -(Ay),-(Ax) on separate operands: the number below Ax becomes the sum or difference, X and
      C are its carry or borrow, and Z says that it is zero. */
  lemma InstructionsAdd(subtract: bool, size: A.Size, rx: nat, ry: nat, o: Operands, n: nat)
    requires |o.registers| == 8 && rx < 8 && ry < 8 && rx != ry && (size == A.Byte ==> rx < 7 && ry < 7)
    requires 0 <= M.Below(o.registers[rx], size, n) && o.registers[rx] < RANGE && M.Aligned(o.registers[rx], size)
    requires 0 <= M.Below(o.registers[ry], size, n) && o.registers[ry] < RANGE && M.Aligned(o.registers[ry], size)
    requires M.Apart(o.registers[rx], o.registers[ry], size, n)
    ensures var r, m, e := Instructions(M.Binary(subtract, size), rx, ry, o, n), size.Range(), A.Direction(subtract);
      var ax, ay := o.registers[rx], o.registers[ry];
      var src := A.Number(m, M.LimbsBelow(o.ram, ay, size, n));
      var dst := A.Number(m, M.LimbsBelow(o.ram, ax, size, n));
      var result := A.Number(m, M.LimbsBelow(r.ram, ax, size, n));
      && dst + e * (src + A.Bit(o.flags.x)) == result + e * (A.Bit(r.flags.x) * A.Power(m, n))
      && r.flags.z == (o.flags.z && result == 0) && (n > 0 ==> r.flags.c == r.flags.x)
      && r.registers[rx] == M.Below(ax, size, n) && r.registers[ry] == M.Below(ay, size, n)
  {
    hide Instructions, M.Below, M.LimbsBelow, M.Apart, M.Aligned, A.Direction, A.Number, A.Bit, A.Power, M.Steps;
    var op, c := M.Binary(subtract, size), ChainOf(o, rx, ry);
    InstructionsChain(op, rx, ry, o, n);
    M.MemoryAdds(subtract, size, c, n);
    M.Addresses(op, c, n);
  }

  lemma InRange(ram: map<int, Word>, from: int, to: int, size: A.Size)
    ensures M.ReadMemory(ram, from, size) % size.Range() == M.ReadMemory(ram, from, size)
    ensures M.ReadMemory(ram, to, size) % size.Range() == M.ReadMemory(ram, to, size)
  {
    M.ReadRange(ram, from, size);
    M.ReadRange(ram, to, size);
  }

  /** What a step came to: an interrupt, nothing, an instruction to carry out, an address error, or the end. */
  datatype Outcome = Took(level: nat) | Idle | Instruction | Faulted(fault: Fault) | Halted

  class Cpu68000 {
    var d: seq<nat>
    /** A0 to A6; A7 is the stack pointer in use. */
    var a: seq<int>
    var a7: int
    var otherSp: int
    var pc: Long
    var sr: Word
    var instructionPc: Long
    var opcode: Word
    var ipl: nat
    var nmiPending: bool
    var stopped: bool
    /** Plain RAM on the bus. */
    var ram: map<int, Word>

    ghost predicate Valid()
      reads this
    {
      && |d| == 8 && (forall i | 0 <= i < 8 :: d[i] < RANGE)
      && |a| == 7 && (forall i | 0 <= i < 7 :: 0 <= a[i] < RANGE)
      && 0 <= a7 < RANGE && 0 <= otherSp < RANGE && Real(sr) && ipl < 8
    }

    ghost function Context(): State
      reads this`pc, this`sr, this`a7, this`otherSp, this`ram
    {
      State(pc, sr, a7, otherSp, ram)
    }

    // ----- arithmetic

    method AddWithFlags(src0: nat, dst0: nat, size: A.Size, extend: bool) returns (result: nat)
      modifies this`sr
      ensures var s := A.Sum(size.Half(), src0 % size.Range(), dst0 % size.Range(), extend, FlagsOf(old(sr)));
        result == s.result && sr == WithFlags(old(sr), s.flags)
    {
      hide A.Fits, A.AsSigned, A.Size.Half;
      assert size.Half() > 0 && size.Range() == 2 * size.Half();
      var msb, range := size.Half(), size.Range();
      var src, dst := src0 % range, dst0 % range;
      var sum := src + dst + if extend && sr[11] then 1 else 0;
      result := sum % range;
      var keepZ := extend && sr[13];
      var z := result == 0 && (!extend || keepZ);
      var n := result >= msb;
      var v := ((src >= msb) != n) && ((dst >= msb) != n);
      var c := sum > range - 1;
      sr := sr[..11] + [c, n, z, v, c];
      A.SumOverflow(msb, src, dst, sum - src - dst);
    }

    method SubWithFlags(src0: nat, dst0: nat, size: A.Size, extend: bool) returns (result: nat)
      modifies this`sr
      ensures var s := A.Difference(size.Half(), src0 % size.Range(), dst0 % size.Range(), extend, FlagsOf(old(sr)));
        result == s.result && sr == WithFlags(old(sr), s.flags)
    {
      hide A.Fits, A.AsSigned, A.Size.Half;
      assert size.Half() > 0 && size.Range() == 2 * size.Half();
      var msb, range := size.Half(), size.Range();
      var src, dst := src0 % range, dst0 % range;
      var subtrahend := src + if extend && sr[11] then 1 else 0;
      result := (dst - subtrahend) % range;
      var keepZ := extend && sr[13];
      var z := result == 0 && (!extend || keepZ);
      var n := result >= msb;
      var v := ((src >= msb) != (dst >= msb)) && (n != (dst >= msb));
      var c := subtrahend > dst;
      sr := sr[..11] + [c, n, z, v, c];
      A.DifferenceOverflow(msb, src, dst, subtrahend - src);
    }

    /** CMP: X is unaffected. */
    method Compare(src: nat, dst: nat, size: A.Size)
      modifies this`sr
      ensures var f := FlagsOf(old(sr));
        var s := A.Difference(size.Half(), src % size.Range(), dst % size.Range(), false, f);
        sr == WithFlags(old(sr), s.flags.(x := f.x))
    {
      var x := sr[11];
      var result := SubWithFlags(src, dst, size, false);
      sr := sr[11 := x];
    }

    method WriteDataRegister(reg: nat, value: nat, size: A.Size)
      requires Valid() && reg < 8
      modifies this`d
      ensures Valid() && d == old(d)[reg := Merged(old(d[reg]), size, value)]
    {
      MergedRange(d[reg], size, value);
      d := d[reg := d[reg] / size.Range() * size.Range() + value % size.Range()];
    }

    /** ADDX and SUBX on data registers: one limb of a chain. */
    method OpAddxSubx(subtract: bool, size: A.Size, rx: nat, ry: nat)
      requires Valid() && rx < 8 && ry < 8
      modifies this`d, this`sr
      ensures Valid()
      ensures var r := size.Range();
        var limb := A.Limb(subtract, size.Half(), old(d[ry]) % r, old(d[rx]) % r, FlagsOf(old(sr)));
        d == old(d)[rx := Merged(old(d[rx]), size, limb.result)] && sr == WithFlags(old(sr), limb.flags)
    {
      hide A.Sum, A.Difference, Merged, Real, FlagsOf, WithFlags;
      var result;
      if subtract {
        result := SubWithFlags(d[ry], d[rx], size, true);
      } else {
        result := AddWithFlags(d[ry], d[rx], size, true);
      }
      ghost var r := size.Range();
      FlagsKept(old(sr), A.Limb(subtract, size.Half(), old(d[ry]) % r, old(d[rx]) % r, FlagsOf(old(sr))).flags);
      WriteDataRegister(rx, result, size);
    }

    // ----- operands in memory

    function AddressRegisters(): seq<int>
      reads this`a, this`a7
    {
      a + [a7]
    }

    /** -(An), by two for a byte at A7. */
    method Predecrement(reg: nat, size: A.Size) returns (address: int)
      requires Valid() && reg < 8
      modifies this`a, this`a7
      ensures Valid() && AddressRegisters() == Predecremented(old(AddressRegisters()), reg, size)
      ensures address == AddressRegisters()[reg]
    {
      hide M.Width, Real;
      if reg == 7 {
        a7 := (a7 - StepOf(reg, size)) % RANGE;
        return a7;
      }
      a := a[reg := (a[reg] - StepOf(reg, size)) % RANGE];
      return a[reg];
    }

    /** -(Ay) and -(Ax), in this order, and the operands there; a word or long at an odd address faults, and the
        registers are left as they are then. */
    method MemoryOperands(size: A.Size, rx: nat, ry: nat)
      returns (src: nat, dst: nat, to: int, fault: Option<Fault>)
      requires Valid() && rx < 8 && ry < 8
      modifies this`a, this`a7
      ensures Valid()
      ensures var first := Predecremented(old(AddressRegisters()), ry, size);
        var second := Predecremented(first, rx, size);
        if size != A.Byte && first[ry] % 2 == 1 then
          fault == Some(Fault(first[ry], true, false)) && AddressRegisters() == first
        else if size != A.Byte && second[rx] % 2 == 1 then
          fault == Some(Fault(second[rx], true, false)) && AddressRegisters() == second
        else
          && fault == None && AddressRegisters() == second && to == second[rx]
          && src == M.ReadMemory(ram, first[ry], size) && dst == M.ReadMemory(ram, second[rx], size)
    {
      hide M.ReadMemory, Predecremented, Real;
      dst := 0;
      var from := Predecrement(ry, size);
      src := M.ReadMemory(ram, from, size);
      to := from;
      if !M.Aligned(from, size) {
        return src, dst, to, Some(Fault(from, true, false));
      }
      to := Predecrement(rx, size);
      dst := M.ReadMemory(ram, to, size);
      fault := if M.Aligned(to, size) then None else Some(Fault(to, true, false));
    }

    ghost function Work(): Operands
      reads this`a, this`a7, this`ram, this`sr
    {
      Operands(AddressRegisters(), ram, FlagsOf(sr))
    }

    /** ADDX and SUBX -(Ay),-(Ax). */
    method OpAddxSubxMemory(subtract: bool, size: A.Size, rx: nat, ry: nat) returns (fault: Option<Fault>)
      requires Valid() && rx < 8 && ry < 8
      modifies this`a, this`a7, this`ram, this`sr
      ensures Valid() && sr == WithFlags(old(sr), FlagsOf(sr))
      ensures var first := Predecremented(old(AddressRegisters()), ry, size);
        var second := Predecremented(first, rx, size);
        if size != A.Byte && first[ry] % 2 == 1 then
          fault == Some(Fault(first[ry], true, false)) && Work() == old(Work()).(registers := first)
        else if size != A.Byte && second[rx] % 2 == 1 then
          fault == Some(Fault(second[rx], true, false)) && Work() == old(Work()).(registers := second)
        else
          fault == None && Work() == Instruct(M.Binary(subtract, size), rx, ry, old(Work()))
    {
      hide A.Sum, A.Difference, M.ReadMemory, M.WriteMemory, Predecremented, Real, FlagsOf, WithFlags, M.Aligned;
      var src, dst, to;
      src, dst, to, fault := MemoryOperands(size, rx, ry);
      FlagsSame(sr);
      if fault.Some? {
        return;
      }
      InRange(ram, Predecremented(old(AddressRegisters()), ry, size)[ry], to, size);
      FlagsKept(sr, A.Limb(subtract, size.Half(), src, dst, FlagsOf(sr)).flags);
      var result;
      if subtract {
        result := SubWithFlags(src, dst, size, true);
      } else {
        result := AddWithFlags(src, dst, size, true);
      }
      ram := M.WriteMemory(ram, to, size, result);
    }

    /** ABCD and SBCD -(Ay),-(Ax). */
    method OpAbcdSbcdMemory(subtract: bool, rx: nat, ry: nat)
      requires Valid() && rx < 8 && ry < 8
      modifies this`a, this`a7, this`ram, this`sr
      ensures Valid() && sr == WithFlags(old(sr), FlagsOf(sr))
      ensures Work() == Instruct(M.Decimal(subtract), rx, ry, old(Work()))
    {
      hide D.AddNibbles, D.SubDecimal, D.DecimalFlags, M.ReadMemory, M.WriteMemory, Predecremented;
      hide Real, WithFlags, A.Bit;
      var x := if sr[11] then 1 else 0;
      assert x == A.Bit(FlagsOf(sr).x) by {
        FlagBit(sr[11]);
      }
      var src, dst, to, fault := MemoryOperands(A.Byte, rx, ry);
      var result, carry;
      if subtract {
        result, carry := SubtractDecimal(src, dst, x);
      } else {
        result, carry := AddDecimal(src, dst, x);
      }
      FlagsKept(sr, D.DecimalFlags(result, carry, FlagsOf(sr)));
      SetDecimalFlags(result, carry);
      ram := M.WriteMemory(ram, to, A.Byte, result);
    }

    // ----- decimal arithmetic

    method SetDecimalFlags(result: nat, carry: bool)
      modifies this`sr
      ensures sr == WithFlags(old(sr), D.DecimalFlags(result, carry, FlagsOf(old(sr))))
    {
      sr := sr[15 := carry][11 := carry][12 := result >= 0x80][14 := false];
      if result != 0 {
        sr := sr[13 := false];
      }
    }

    /** ABCD and SBCD on data registers: one byte of a chain. */
    method OpAbcdSbcd(subtract: bool, rx: nat, ry: nat)
      requires Valid() && rx < 8 && ry < 8
      modifies this`d, this`sr
      ensures Valid()
      ensures var limb := D.DecimalLimb(subtract, old(d[ry]) % 256, old(d[rx]) % 256, FlagsOf(old(sr)));
        d == old(d)[rx := Merged(old(d[rx]), A.Byte, limb.result)] && sr == WithFlags(old(sr), limb.flags)
    {
      hide D.AddNibbles, D.SubDecimal, D.DecimalFlags, Merged, Real, WithFlags, A.Bit;
      var src, dst, x := d[ry] % 256, d[rx] % 256, if sr[11] then 1 else 0;
      assert x == A.Bit(FlagsOf(sr).x) by {
        FlagBit(sr[11]);
      }
      var result, carry;
      if subtract {
        result, carry := SubtractDecimal(src, dst, x);
      } else {
        result, carry := AddDecimal(src, dst, x);
      }
      FlagsKept(sr, D.DecimalFlags(result, carry, FlagsOf(sr)));
      SetDecimalFlags(result, carry);
      WriteDataRegister(rx, result, A.Byte);
    }

    static method AddDecimal(src: nat, dst: nat, x: nat) returns (result: nat, carry: bool)
      ensures (result, carry) == D.AddDecimal(src, dst, x)
    {
      var sum: int := src % 16 + dst % 16 + x;
      if sum > 9 {
        sum := sum + 6;
      }
      sum := sum + 16 * (src / 16) + 16 * (dst / 16);
      carry := sum > 0x99;
      if carry {
        sum := sum - 0xA0;
      }
      result := D.Wrap32(sum) % 256;
    }

    static method SubtractDecimal(src: nat, dst: nat, x: nat) returns (result: nat, borrow: bool)
      ensures (result, borrow) == D.SubDecimal(src, dst, x)
    {
      result := D.Wrap32(dst % 16 - src % 16 - x);
      if result > 9 {
        result := D.Wrap32(result - 6);
      }
      result := D.Wrap32(result + (16 * (dst / 16) - 16 * (src / 16)));
      borrow := result > 0x99;
      if borrow {
        result := result + 0xA0;
      }
      result := D.Wrap32(result) % 256;
    }

    /** NBCD on a data register: 0 - value - X. */
    method OpNbcd(reg: nat)
      requires Valid() && reg < 8
      modifies this`d, this`sr
      ensures Valid()
      ensures var limb := D.DecimalLimb(true, old(d[reg]) % 256, 0, FlagsOf(old(sr)));
        d == old(d)[reg := Merged(old(d[reg]), A.Byte, limb.result)] && sr == WithFlags(old(sr), limb.flags)
    {
      hide D.SubDecimal, D.DecimalFlags, Merged, Real, WithFlags, A.Bit;
      var x := if sr[11] then 1 else 0;
      assert x == A.Bit(FlagsOf(sr).x) by {
        FlagBit(sr[11]);
      }
      var result, borrow := SubtractDecimal(d[reg] % 256, 0, x);
      FlagsKept(sr, D.DecimalFlags(result, borrow, FlagsOf(sr)));
      SetDecimalFlags(result, borrow);
      WriteDataRegister(reg, result, A.Byte);
    }

    /** NBCD on a byte in memory. */
    method OpNbcdMemory(address: int)
      requires Valid()
      modifies this`ram, this`sr
      ensures Valid()
      ensures var value := M.ReadMemory(old(ram), address, A.Byte);
        var limb := D.DecimalLimb(true, value, 0, FlagsOf(old(sr)));
        ram == M.WriteMemory(old(ram), address, A.Byte, limb.result) && sr == WithFlags(old(sr), limb.flags)
    {
      hide D.SubDecimal, D.DecimalFlags, Real, WithFlags, A.Bit, M.ReadMemory, M.WriteMemory;
      var x := if sr[11] then 1 else 0;
      assert x == A.Bit(FlagsOf(sr).x) by {
        FlagBit(sr[11]);
      }
      var result, borrow := SubtractDecimal(M.ReadMemory(ram, address, A.Byte), 0, x);
      FlagsKept(sr, D.DecimalFlags(result, borrow, FlagsOf(sr)));
      SetDecimalFlags(result, borrow);
      ram := M.WriteMemory(ram, address, A.Byte, result);
    }

    // ----- shifts

    /** Shifts and rotates of a data register, by an immediate count (0 means 8) or a register modulo 64. */
    method OpShiftRegister(kind: S.Kind, left: bool, size: A.Size, reg: nat, field: nat, byRegister: bool)
      requires Valid() && reg < 8 && field < 8
      modifies this`d, this`sr
      ensures Valid()
      ensures var count := if byRegister then old(d[field]) % 64 else if field == 0 then 8 else field;
        var r := S.Shifted(kind, left, ToBits(old(d[reg]) % size.Range(), BitWidth(size)), count, old(sr[11]));
        && d == old(d)[reg := Merged(old(d[reg]), size, Val(r.value))]
        && sr == WithFlags(old(sr), ShiftFlags(r))
    {
      hide S.Shifted, Merged, Real, WithFlags, ShiftFlags;
      var count := if byRegister then d[field] % 64 else if field == 0 then 8 else field;
      var r := S.Shift(kind, left, ToBits(d[reg] % size.Range(), BitWidth(size)), count, sr[11]);
      FlagsKept(sr, ShiftFlags(r));
      WriteDataRegister(reg, Val(r.value), size);
      SetShiftFlags(r);
    }

    method SetShiftFlags(r: S.ShiftResult)
      requires r.value != []
      modifies this`sr
      ensures sr == WithFlags(old(sr), ShiftFlags(r))
    {
      sr := sr[12 := r.value[0]][13 := Val(r.value) == 0][15 := r.carry][14 := r.overflow][11 := r.extend];
    }

    // ----- exceptions

    method SetStatus(value: Word)
      modifies this`sr, this`a7, this`otherSp
      ensures Context() == SetSr(old(Context()), value) && Real(sr)
      ensures {a7, otherSp} == old({a7, otherSp})
    {
      SetSrReal(Context(), value);
      var status := And(value, IMPLEMENTED);
      if sr[2] != status[2] {
        a7, otherSp := otherSp, a7;
      }
      sr := status;
    }

    /** A write at an odd stack pointer faults. */
    method PushWord(w: Word) returns (fault: Option<Fault>)
      requires Valid()
      modifies this`a7, this`ram
      ensures Valid() && fault.None? == (old(a7) % 2 == 0)
      ensures if fault.None? then Context() == Push16(old(Context()), w)
              else fault == Some(Fault(a7, false, false)) && a7 == (old(a7) - 2) % RANGE && ram == old(ram)
    {
      a7 := (a7 - 2) % RANGE;
      if a7 % 2 != 0 {
        return Some(Fault(a7, false, false));
      }
      ram := ram[a7 := w];
      return None;
    }

    method PushLong(l: Long) returns (fault: Option<Fault>)
      requires Valid()
      modifies this`a7, this`ram
      ensures Valid() && fault.None? == (old(a7) % 2 == 0) && a7 % 2 == old(a7) % 2
      ensures if fault.None? then Context() == Push32(old(Context()), l)
              else fault == Some(Fault(a7, false, false)) && a7 == (old(a7) - 4) % RANGE && ram == old(ram)
    {
      a7 := (a7 - 4) % RANGE;
      if a7 % 2 != 0 {
        return Some(Fault(a7, false, false));
      }
      ram := ram[a7 := l[..16]][(a7 + 2) % RANGE := l[16..]];
      return None;
    }

    /** What every entry begins with: supervisor mode, then the two values below SSP. */
    method StackFrame(status: Word, returnPc: Long, ghost c: Cause) returns (fault: Option<Fault>)
      requires Valid() && c.Valid() && status == c.Status(sr) && returnPc == c.Return(pc)
      modifies this`sr, this`a7, this`otherSp, this`ram
      ensures Valid() && fault.None? == (Ssp(old(Context())) % 2 == 0)
      ensures if fault.None?
              then a7 % 2 == 0
                && Context() == Push16(Push32(SetSr(old(Context()), c.Status(old(sr))), returnPc), old(sr))
              else NoFrame(old(Context()), c, fault)
    {
      hide Real, Cause.Status, Cause.Return, Push16, Push32;
      var oldSr := sr;
      assert Supervisor(And(status, IMPLEMENTED)) by {
        EnteredSupervisor(sr, c);
      }
      SetStatus(status);
      fault := PushLong(returnPc);
      if fault.Some? {
        return;
      }
      assert a7 % 2 == 0;
      fault := PushWord(oldSr);
      assert a7 % 2 == 0 by {
        EvenPush(Push32(SetSr(old(Context()), c.Status(oldSr)), returnPc), oldSr);
      }
    }

    /** With an odd SSP nothing is stacked: the CPU is in supervisor mode, and the write below SSP has faulted. */
    ghost predicate NoFrame(s: State, c: Cause, fault: Option<Fault>)
      requires c.Valid()
      reads this`pc, this`sr, this`a7, this`otherSp, this`ram
    {
      var sp := (Ssp(s) - 4) % RANGE;
      fault == Some(Fault(sp, false, false)) && Context() == SetSr(s, c.Status(s.sr)).(sp := sp)
    }

    /** The common part of interrupts and exceptions. */
    method EnterThrough(status: Word, returnPc: Long, vector: nat, ghost c: Cause) returns (fault: Option<Fault>)
      requires Valid() && c.Valid() && status == c.Status(sr) && returnPc == c.Return(pc) && vector == c.Vector()
      requires !c.AddressError?
      modifies this`sr, this`a7, this`otherSp, this`ram, this`pc
      ensures Valid() && fault.None? == (Ssp(old(Context())) % 2 == 0)
      ensures if fault.None? then Context() == Enter(old(Context()), c) else NoFrame(old(Context()), c, fault)
    {
      hide Real, Cause.Status, Push16, Push32, Read32, Cause.Vector, Cause.Return, SetSr;
      fault := StackFrame(status, returnPc, c);
      if fault.Some? {
        return;
      }
      pc := Read32(ram, vector * 4);
    }

    method TakeInterrupt(level: nat) returns (fault: Option<Fault>)
      requires Valid() && level < 8
      modifies this`sr, this`a7, this`otherSp, this`ram, this`pc
      ensures Valid() && fault.None? == (Ssp(old(Context())) % 2 == 0)
      ensures if fault.None? then Context() == Enter(old(Context()), Interrupt(level))
              else NoFrame(old(Context()), Interrupt(level), fault)
    {
      hide Enter, SetSr, Real;
      var status := sr[0 := false][2 := true][..5] + ToBits(level, 3) + sr[8..];
      assert status == Interrupted(sr, level);
      fault := EnterThrough(status, pc, 24 + level, Interrupt(level));
    }

    method Exception(vector: nat, returnPc: Long) returns (fault: Option<Fault>)
      requires Valid() && vector < 256
      modifies this`sr, this`a7, this`otherSp, this`ram, this`pc
      ensures Valid() && fault.None? == (Ssp(old(Context())) % 2 == 0)
      ensures if fault.None? then Context() == Enter(old(Context()), Cause.Exception(vector, returnPc))
              else NoFrame(old(Context()), Cause.Exception(vector, returnPc), fault)
    {
      hide Enter, SetSr, Real;
      fault := EnterThrough(sr[0 := false][2 := true], returnPc, vector, Cause.Exception(vector, returnPc));
    }

    /** An address error; false if stacking its frame faults again, and the CPU halts. */
    method AddressError(fault: Fault) returns (ok: bool)
      requires Valid() && 0 <= fault.address < RANGE
      modifies this`sr, this`a7, this`otherSp, this`ram, this`pc, this`stopped
      ensures Valid() && ok == (Ssp(old(Context())) % 2 == 0)
      ensures if ok then stopped == old(stopped)
                      && Context() == Enter(old(Context()), Cause.AddressError(fault, opcode, instructionPc))
              else stopped && ram == old(ram) && pc == old(pc)
    {
      hide Real, Push16, Push32, Read32, SetSr, Entered, Details, Address, NextWord, ToBits;
      ghost var c := Cause.AddressError(fault, opcode, instructionPc);
      var access := Zeros(11) + [fault.read, !fault.instruction, sr[2], fault.instruction, !fault.instruction];
      var returnPc := if fault.instruction then ToBits(fault.address, 32) else NextWord(instructionPc);
      assert access == c.Access(sr) && returnPc == c.Return(pc);
      hide Cause.Access, Cause.Return;
      SetSrKeeps(Context(), Entered(sr));
      var second := StackFrame(Entered(sr), returnPc, c);
      if second.Some? {
        stopped := true;
        return false;
      }
      StackDetails(fault, access, c, old(sr));
      pc := Read32(ram, 3 * 4);
      return true;
    }

    /** The opcode, the address and the kind of access. */
    method StackDetails(fault: Fault, access: Word, ghost c: Cause, ghost status: Word)
      requires Valid() && a7 % 2 == 0 && c == Cause.AddressError(fault, opcode, instructionPc) && c.Valid()
      requires access == c.Access(status)
      modifies this`a7, this`ram
      ensures Valid() && Context() == Details(old(Context()), c, status)
    {
      hide Real, Push16, Push32, Cause.Access, ToBits;
      ghost var s := Context();
      var second := PushWord(opcode);
      EvenPush(s, opcode);
      second := PushLong(ToBits(fault.address, 32));
      second := PushWord(access);
    }

    /** RTE; in user mode a privilege violation. */
    method OpRte() returns (fault: Option<Fault>)
      requires Valid()
      modifies this`sr, this`a7, this`otherSp, this`ram, this`pc
      ensures Valid() && fault.None? == (Ssp(old(Context())) % 2 == 0)
      ensures if Supervisor(old(sr))
              then if fault.None? then Context() == Rte(old(Context()))
                   else fault == Some(Fault(a7, true, false)) && Context() == old(Context())
              else var violation := Cause.Exception(8, instructionPc);
                   if fault.None? then Context() == Enter(old(Context()), violation)
                   else NoFrame(old(Context()), violation, fault)
    {
      hide Enter, Real, Peek, Read32, SetSr, NoFrame;
      if !sr[2] {
        fault := Exception(PRIVILEGE_VIOLATION, instructionPc);
        return;
      }
      if a7 % 2 != 0 {
        return Some(Fault(a7, true, false));
      }
      var newSr, newPc := PopFrame();
      SetStatus(newSr);
      pc := newPc;
      return None;
    }

    /** Pop SR and PC. */
    method PopFrame() returns (newSr: Word, newPc: Long)
      requires Valid() && a7 % 2 == 0
      modifies this`a7
      ensures Valid() && a7 == (old(a7) + 6) % RANGE
      ensures newSr == Peek(ram, old(a7)) && newPc == Read32(ram, (old(a7) + 2) % RANGE)
    {
      newSr := Peek(ram, a7);
      a7 := (a7 + 2) % RANGE;
      newPc := Read32(ram, a7);
      a7 := (a7 + 4) % RANGE;
    }

    // ----- one step

    method SetInterruptLevel(level: nat)
      requires Valid() && level < 8
      modifies this`ipl, this`nmiPending
      ensures Valid() && ipl == level && nmiPending == (old(nmiPending) || (level == 7 && old(ipl) != 7))
    {
      if level == 7 && ipl != 7 {
        nmiPending := true;
      }
      ipl := level;
    }

    /** What the start of a step comes to: level 7 is taken on its edge, other interrupts when above the mask, and
        a CPU that is stopped waits for one. */
    ghost function Coming(): Coming
      reads this`nmiPending, this`ipl, this`sr, this`stopped, this`pc
    {
      if nmiPending then Taking(7)
      else if ipl > Mask(sr) && ipl < 8 then Taking(ipl)
      else if stopped then Waiting
      else Fetching
    }

    /** An interrupt is taken if it is a level 7 whose edge was seen, or above bits 10 to 8 of SR; STOP ends with it. */
    lemma ComingMeans()
      ensures Coming().Taking? == (nmiPending || Val(sr) / 0x100 % 8 < ipl < 8)
      ensures Coming().Taking? ==> Coming().level == if nmiPending then 7 else ipl
      ensures Coming().Waiting? == (stopped && !Coming().Taking?)
    {
      hide Val, Mask;
      StatusBits(sr);
    }

    /** The start of a step: an interrupt, nothing, or the next opcode. */
    method Execute() returns (outcome: Outcome, fault: Option<Fault>)
      requires Valid()
      modifies this`sr, this`a7, this`otherSp, this`ram, this`pc
      modifies this`nmiPending, this`stopped, this`instructionPc, this`opcode
      ensures Valid() && (fault.Some? ==> 0 <= fault.value.address < RANGE)
      ensures match old(Coming())
        case Taking(level) =>
          && outcome == Took(level) && !stopped && !nmiPending
          && fault.None? == (Ssp(old(Context())) % 2 == 0)
          && (if fault.None? then Context() == Enter(old(Context()), Interrupt(level)) && Mask(sr) == level
              else NoFrame(old(Context()), Interrupt(level), fault))
        case Waiting => outcome == Idle && fault == None && Context() == old(Context()) && stopped && !nmiPending
        case Fetching =>
          && !stopped && !nmiPending && instructionPc == old(pc) && outcome == Instruction
          && (if old(pc)[31]
              then opcode == ZERO && Context() == old(Context()) && fault == Some(Fault(Address(old(pc)), true, true))
              else
                && opcode == Peek(ram, Address(old(pc))) && fault == None
                && Context() == old(Context()).(pc := NextWord(old(pc))))
    {
      hide Enter, Mask, Real, SetSr, NextWord, Peek, Address;
      fault := None;
      if nmiPending {
        nmiPending, stopped := false, false;
        EntersMask(Context(), Interrupt(7));
        fault := TakeInterrupt(7);
        return Took(7), fault;
      }
      if ipl > Mask(sr) {
        stopped := false;
        EntersMask(Context(), Interrupt(ipl));
        fault := TakeInterrupt(ipl);
        return Took(ipl), fault;
      }
      if stopped {
        return Idle, None;
      }
      instructionPc, opcode := pc, ZERO;
      fault := Fetch();
      return Instruction, fault;
    }

    method Fetch() returns (fault: Option<Fault>)
      requires Valid()
      modifies this`pc, this`opcode
      ensures Valid() && (fault.Some? ==> 0 <= fault.value.address < RANGE)
      ensures if old(pc)[31]
              then fault == Some(Fault(Address(pc), true, true)) && pc == old(pc) && opcode == old(opcode)
              else opcode == Peek(ram, Address(old(pc))) && fault == None && pc == NextWord(old(pc))
    {
      hide Real, Address, ToBits, Peek;
      var address := Address(pc);
      if address % 2 != 0 {
        return Some(Fault(address, true, true));
      }
      opcode := Peek(ram, address);
      pc := NextWord(pc);
      return None;
    }

    /** A step up to the decoded opcode: a fault becomes an address error, and one while the frame of an interrupt or
        of that address error is stacked halts the CPU. */
    method Step() returns (outcome: Outcome)
      requires Valid()
      modifies this`sr, this`a7, this`otherSp, this`ram, this`pc
      modifies this`nmiPending, this`stopped, this`instructionPc, this`opcode
      ensures Valid()
      ensures var s, odd := old(Context()), Ssp(old(Context())) % 2 != 0;
        match old(Coming())
        case Waiting => outcome == Idle && Context() == s && stopped && !nmiPending
        case Taking(level) =>
          if odd then outcome == Halted && stopped && ram == old(ram) && pc == old(pc)
          else outcome == Took(level) && !stopped && Context() == Enter(s, Interrupt(level)) && Mask(sr) == level
        case Fetching =>
          var fault := Fault(Address(old(pc)), true, true);
          if !old(pc)[31] then
            && outcome == Instruction && opcode == Peek(ram, Address(old(pc)))
            && Context() == s.(pc := NextWord(old(pc)))
          else if odd then
            outcome == Halted && stopped && ram == old(ram) && pc == old(pc)
          else
            && outcome == Faulted(fault) && !stopped
            && Context() == Enter(s, Cause.AddressError(fault, ZERO, old(pc)))
    {
      hide Enter, Mask, Real, NextWord, Peek, Address, SetSr, Cause.Status;
      ghost var s := Context();
      var fault;
      outcome, fault := Execute();
      if fault.Some? {
        if old(Coming()).Taking? {
          OddAgain(s, Interrupt(old(Coming()).level));
        }
        var ok := AddressError(fault.value);
        outcome := if ok then Faulted(fault.value) else Halted;
      }
    }
  }

  /** What a step begins with. */
  datatype Coming = Taking(level: nat) | Waiting | Fetching

  lemma EvenPush(s: State, w: Word)
    requires s.sp % 2 == 0
    ensures Push16(s, w).sp % 2 == 0
  {}

  /** In supervisor mode with an odd stack pointer, the next frame cannot be stacked either. */
  lemma OddAgain(s: State, c: Cause)
    requires c.Valid() && Ssp(s) % 2 != 0
    ensures var t := SetSr(s, c.Status(s.sr)).(sp := (Ssp(s) - 4) % RANGE);
      Ssp(t) % 2 != 0 && t.pc == s.pc && t.ram == s.ram
  {
    hide Cause.Status, And;
    EnteredSupervisor(s.sr, c);
    SetSrKeeps(s, c.Status(s.sr));
    OddBelow(Ssp(s));
  }

  lemma OddBelow(sp: int)
    requires sp % 2 != 0
    ensures (sp - 4) % RANGE % 2 != 0
  {
    var x, half := sp - 4, 0x8000_0000;
    HalfMod(x, half);
    DivMod(x % RANGE, 2, x / 2 % half, 1);
  }

  const PRIVILEGE_VIOLATION := 8

  lemma FlagBit(b: bool)
    ensures A.Bit(b) == if b then 1 else 0
  {}
}
