/** The Copper (src/core/copper.cpp): one step per slot, and the list of instructions that it carries out. */
module Copper {
  import opened Bits
  import opened ChipRam

  const COPCON := 0x02E
  const COP1LCH := 0x080
  const COP1LCL := 0x082
  const COP2LCH := 0x084
  const COP2LCL := 0x086
  const COPJMP1 := 0x088
  const COPJMP2 := 0x08A

  datatype Phase = Stopped | FetchIr1 | FetchIr2 | Waiting | Wake

  datatype State = State(
    cop1lc: int, cop2lc: int, danger: bool, pc: int, ir1: Word, ir2: Word, phase: Phase)

  /** A custom register write. */
  datatype Write = NoWrite | Write(offset: nat, value: Word)

  function Jumped(s: State, address: int): State { s.(pc := address, phase := FetchIr1) }

  /** A write to one of the Copper's own registers. */
  function Written(s: State, offset: nat, value: Word): State {
    if offset == COPCON then s.(danger := value[14])
    else if offset == COP1LCH then s.(cop1lc := WithHalf(s.cop1lc, true, value))
    else if offset == COP1LCL then s.(cop1lc := WithHalf(s.cop1lc, false, value))
    else if offset == COP2LCH then s.(cop2lc := WithHalf(s.cop2lc, true, value))
    else if offset == COP2LCL then s.(cop2lc := WithHalf(s.cop2lc, false, value))
    else if offset == COPJMP1 then Jumped(s, s.cop1lc)
    else if offset == COPJMP2 then Jumped(s, s.cop2lc)
    else s
  }

  /** The beam as IR1 has it: eight bits for the line, eight for the color clock. */
  function Beam(vpos: nat, hpos: nat): Word { ToBits(vpos, 8) + ToBits(hpos, 8) }

  /** At or past the position of IR1, as far as IR2 compares it: V7 always is, H0 never. */
  predicate BeamReached(ir1: Word, ir2: Word, vpos: nat, hpos: nat) {
    var mask := ir2[0 := true][15 := false];
    Val(And(Beam(vpos, hpos), mask)) >= Val(And(ir1, mask))
  }

  /** The register that a MOVE writes. */
  function Offset(ir1: Word): (offset: nat) { 2 * Val(ir1[7..15]) }

  predicate MoveAllowed(offset: nat, danger: bool) { offset >= 0x40 && (offset >= 0x80 || danger) }

  predicate IsMove(ir1: Word) { !ir1[15] }
  predicate IsWait(ir2: Word) { !ir2[15] }

  datatype Result = Result(s: State, write: Write)

  /** IR2 is there: carry out the instruction. */
  function Decoded(s: State, vpos: nat, hpos: nat): Result {
    if IsMove(s.ir1) then
      var offset := Offset(s.ir1);
      if MoveAllowed(offset, s.danger) then
        Result(Written(s.(phase := FetchIr1), offset, s.ir2), Write(offset, s.ir2))
      else Result(s.(phase := Stopped), NoWrite)
    else if IsWait(s.ir2) then Result(s.(phase := Waiting), NoWrite)
    else
      var pc := if BeamReached(s.ir1, s.ir2, vpos, hpos) then Mask(s.pc + 4) else s.pc;
      Result(s.(pc := pc, phase := FetchIr1), NoWrite)
  }

  /** One slot. */
  function Slot(s: State, ram: seq<Word>, vpos: nat, hpos: nat): Result
    requires |ram| == WORDS
  {
    match s.phase
    case Stopped => Result(s, NoWrite)
    case FetchIr1 => Result(s.(ir1 := Read(ram, s.pc), pc := Mask(s.pc + 2), phase := FetchIr2), NoWrite)
    case FetchIr2 => Decoded(s.(ir2 := Read(ram, s.pc), pc := Mask(s.pc + 2)), vpos, hpos)
    case Waiting => Result(if BeamReached(s.ir1, s.ir2, vpos, hpos) then s.(phase := Wake) else s, NoWrite)
    case Wake => Result(s.(phase := FetchIr1), NoWrite)
  }

  /** A color clock: where the beam is, and whether Copper DMA is on. */
  datatype Clock = Clock(vpos: nat, hpos: nat, dma: bool)

  predicate IsSlot(c: Clock) { c.dma && c.hpos % 2 == 0 }

  /** Nothing happens on odd color clocks or without DMA. */
  function Clocked(s: State, ram: seq<Word>, c: Clock): Result
    requires |ram| == WORDS
  {
    if IsSlot(c) then Slot(s, ram, c.vpos, c.hpos) else Result(s, NoWrite)
  }

  /** The Copper acts on even color clocks, with DMA on. */
  lemma SlotTimes(s: State, ram: seq<Word>, vpos: nat, hpos: nat, dma: bool)
    requires |ram| == WORDS
    ensures Clocked(s, ram, Clock(vpos, hpos, dma))
         == if dma && hpos % 2 == 0 then Slot(s, ram, vpos, hpos) else Result(s, NoWrite)
  {}

  class Copper {
    var cop1lc: int
    var cop2lc: int
    var danger: bool
    var pc: int
    var ir1: Word
    var ir2: Word
    var phase: Phase

    ghost function Now(): State
      reads this
    {
      State(cop1lc, cop2lc, danger, pc, ir1, ir2, phase)
    }

    constructor ()
      ensures Now() == State(0, 0, false, 0, ZERO, ZERO, Stopped)
    {
      cop1lc, cop2lc, danger, pc, ir1, ir2, phase := 0, 0, false, 0, ZERO, ZERO, Stopped;
    }

    method Jump(address: int)
      modifies this`pc, this`phase
      ensures Now() == Jumped(old(Now()), address)
    {
      pc := address;
      phase := FetchIr1;
    }

    method VerticalBlank()
      modifies this`pc, this`phase
      ensures Now() == Jumped(old(Now()), old(cop1lc))
    {
      Jump(cop1lc);
    }

    method WriteRegister(offset: nat, value: Word)
      modifies this
      ensures Now() == Written(old(Now()), offset, value)
    {
      hide WithHalf;
      if offset == COPCON {
        danger := value[14];
      } else if offset == COP1LCH {
        cop1lc := WithHalf(cop1lc, true, value);
      } else if offset == COP1LCL {
        cop1lc := WithHalf(cop1lc, false, value);
      } else if offset == COP2LCH {
        cop2lc := WithHalf(cop2lc, true, value);
      } else if offset == COP2LCL {
        cop2lc := WithHalf(cop2lc, false, value);
      } else if offset == COPJMP1 {
        Jump(cop1lc);
      } else if offset == COPJMP2 {
        Jump(cop2lc);
      }
    }

    method Fetch(ram: array<Word>) returns (word: Word)
      requires ram.Length == WORDS
      modifies this`pc
      ensures word == Read(ram[..], old(pc)) && pc == Mask(old(pc) + 2)
    {
      word := ram[pc / 2 % WORDS];
      pc := Mask(pc + 2);
    }

    /** One color clock. A MOVE comes out as a write, which has reached the Copper's own registers. */
    method Tick(ram: array<Word>, vpos: nat, hpos: nat, dma: bool) returns (write: Write)
      requires ram.Length == WORDS
      modifies this
      ensures Result(Now(), write) == Clocked(old(Now()), ram[..], Clock(vpos, hpos, dma))
    {
      hide BeamReached, Offset, Decoded, Mask, Read;
      write := NoWrite;
      if !dma || hpos % 2 != 0 {
        return;
      }
      match phase {
        case Stopped =>
        case FetchIr1 =>
          ir1 := Fetch(ram);
          phase := FetchIr2;
        case FetchIr2 =>
          ir2 := Fetch(ram);
          write := Decode(vpos, hpos);
        case Waiting =>
          if BeamReached(ir1, ir2, vpos, hpos) {
            phase := Wake;
          }
        case Wake =>
          phase := FetchIr1;
      }
    }

    method Decode(vpos: nat, hpos: nat) returns (write: Write)
      modifies this
      ensures Result(Now(), write) == Decoded(old(Now()), vpos, hpos)
    {
      hide BeamReached, Offset, MoveAllowed, Mask, Written;
      write := NoWrite;
      if !ir1[15] {
        var offset := Offset(ir1);
        if !MoveAllowed(offset, danger) {
          phase := Stopped;
          return;
        }
        phase := FetchIr1;
        write := Write(offset, ir2);
        WriteRegister(offset, ir2);
      } else if !ir2[15] {
        phase := Waiting;
      } else {
        if BeamReached(ir1, ir2, vpos, hpos) {
          pc := Mask(pc + 4);
        }
        phase := FetchIr1;
      }
    }
  }
}
