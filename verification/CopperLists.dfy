/** What the Copper does with a list, instruction by instruction. */
module CopperLists {
  import opened Bits
  import opened ChipRam
  import opened Copper
  import opened Wrappers

  /** A write at a slot. */
  datatype Timed = Timed(slot: nat, offset: nat, value: Word)

  /** Where the beam is at each slot: the Copper's even color clocks with DMA on. */
  type Slots = nat -> (nat, nat)

  /** The writes from slot `from` up to slot `end`, slot by slot. */
  function Trace(s: State, ram: seq<Word>, beam: Slots, from: nat, end: nat): seq<Timed>
    requires |ram| == WORDS
    decreases end - from
  {
    if from >= end then []
    else
      var r := Slot(s, ram, beam(from).0, beam(from).1);
      (if r.write.Write? then [Timed(from, r.write.offset, r.write.value)] else [])
      + Trace(r.s, ram, beam, from + 1, end)
  }

  // ----- the instructions in numbers

  /** A MOVE has an even first word; it goes to bits 8 to 1 of it. */
  lemma MoveBits(ir1: Word)
    ensures IsMove(ir1) == (Val(ir1) % 2 == 0)
    ensures IsMove(ir1) ==> Offset(ir1) == Val(ir1) % 512
  {
    hide Val, Pow2;
    PowersOfTwo();
    BitOf(ir1, 0);
    Field(ir1, 7, 15);
    Halved(Val(ir1));
  }

  lemma Halved(v: nat)
    ensures v % 2 == 0 ==> 2 * (v / 2 % 256) == v % 512
  {
    HalfMod(v, 256);
  }

  lemma WaitBits(ir2: Word)
    ensures IsWait(ir2) == (Val(ir2) % 2 == 0)
  {
    hide Val, Pow2;
    PowersOfTwo();
    BitOf(ir2, 0);
  }

  /** What becomes of an instruction, in numbers. */
  lemma DecodedMeans(s: State, vpos: nat, hpos: nat)
    ensures var offset := Val(s.ir1) % 512;
      Decoded(s, vpos, hpos)
        == if Val(s.ir1) % 2 == 0 then
             if offset < 0x40 || (offset < 0x80 && !s.danger) then Result(s.(phase := Stopped), NoWrite)
             else Result(Written(s.(phase := FetchIr1), offset, s.ir2), Write(offset, s.ir2))
           else if Val(s.ir2) % 2 == 0 then Result(s.(phase := Waiting), NoWrite)
           else
             var skips := BeamReached(s.ir1, s.ir2, vpos, hpos);
             Result(s.(pc := if skips then Mask(s.pc + 4) else s.pc, phase := FetchIr1), NoWrite)
  {
    hide Val, Written, BeamReached, Mask, Offset, IsMove, IsWait;
    MoveBits(s.ir1);
    WaitBits(s.ir2);
  }

  // ----- the list, one instruction at a time

  /** The first slot at which the beam has reached a position. */
  function FirstReached(ir1: Word, ir2: Word, beam: Slots, from: nat, end: nat): (w: Option<nat>)
    ensures w.Some? ==> from <= w.value < end && BeamReached(ir1, ir2, beam(w.value).0, beam(w.value).1)
    ensures forall k: nat | from <= k < end && (w.Some? ==> k < w.value) :: !BeamReached(ir1, ir2, beam(k).0, beam(k).1)
    decreases end - from
  {
    if from >= end then None
    else if BeamReached(ir1, ir2, beam(from).0, beam(from).1) then Some(from)
    else FirstReached(ir1, ir2, beam, from + 1, end)
  }

  /** The registers that a list can change. */
  datatype Registers = Registers(cop1lc: int, cop2lc: int, danger: bool)

  /** MOVE (an even first word) takes two slots and writes in the second one; WAIT (an even second word) takes two,
      then waits for the first slot at which the beam is there, and goes on after one slot more; SKIP takes two and
      looks at the beam in the second one. A MOVE below $40, or below $80 without CDANG, ends it all. */
  function Carried(regs: Registers, pc: int, ram: seq<Word>, beam: Slots, from: nat, end: nat): seq<Timed>
    requires |ram| == WORDS
    decreases end - from
  {
    if from + 2 > end then []
    else
      var ir1, ir2 := Read(ram, pc), Read(ram, Mask(pc + 2));
      var next := Mask(Mask(pc + 2) + 2);
      if Val(ir1) % 2 == 0 then
        var offset := Val(ir1) % 512;
        if offset < 0x40 || (offset < 0x80 && !regs.danger) then []
        else
          var (regs', pc') := Moved(regs, next, offset, ir2);
          [Timed(from + 1, offset, ir2)] + Carried(regs', pc', ram, beam, from + 2, end)
      else if Val(ir2) % 2 == 0 then
        var w := FirstReached(ir1, ir2, beam, from + 2, end);
        if w.None? then [] else Carried(regs, next, ram, beam, w.value + 2, end)
      else
        var skips := BeamReached(ir1, ir2, beam(from + 1).0, beam(from + 1).1);
        Carried(regs, if skips then Mask(next + 4) else next, ram, beam, from + 2, end)
  }

  /** A MOVE to a register of the Copper itself: it sets a location, or jumps. */
  function Moved(regs: Registers, next: int, offset: nat, value: Word): (Registers, int) {
    if offset == 0x80 then (regs.(cop1lc := WithHalf(regs.cop1lc, true, value)), next)
    else if offset == 0x82 then (regs.(cop1lc := WithHalf(regs.cop1lc, false, value)), next)
    else if offset == 0x84 then (regs.(cop2lc := WithHalf(regs.cop2lc, true, value)), next)
    else if offset == 0x86 then (regs.(cop2lc := WithHalf(regs.cop2lc, false, value)), next)
    else if offset == 0x88 then (regs, regs.cop1lc)
    else if offset == 0x8A then (regs, regs.cop2lc)
    else (regs, next)
  }

  function RegistersOf(s: State): Registers { Registers(s.cop1lc, s.cop2lc, s.danger) }

  lemma MovedWritten(s: State, offset: nat, value: Word)
    requires offset >= 0x40 && s.phase == FetchIr1
    ensures var t, (regs, pc) := Written(s, offset, value), Moved(RegistersOf(s), s.pc, offset, value);
      RegistersOf(t) == regs && t.pc == pc && t.phase == FetchIr1
  {
    hide WithHalf;
  }

  /** Slots without a write. */
  lemma OneSlot(s: State, ram: seq<Word>, beam: Slots, from: nat, end: nat)
    requires |ram| == WORDS && from < end
    ensures var r := Slot(s, ram, beam(from).0, beam(from).1);
      Trace(s, ram, beam, from, end)
        == (if r.write.Write? then [Timed(from, r.write.offset, r.write.value)] else [])
           + Trace(r.s, ram, beam, from + 1, end)
  {}

  lemma {:induction false} StoppedTrace(s: State, ram: seq<Word>, beam: Slots, from: nat, end: nat)
    requires |ram| == WORDS && s.phase == Stopped
    ensures Trace(s, ram, beam, from, end) == []
    decreases end - from
  {
    if from < end {
      StoppedTrace(s, ram, beam, from + 1, end);
    }
  }

  /** A WAIT: nothing until the beam is there, then one slot to wake up. */
  lemma {:induction false} WaitingTrace(s: State, ram: seq<Word>, beam: Slots, from: nat, end: nat)
    requires |ram| == WORDS && s.phase == Waiting
    ensures var w := FirstReached(s.ir1, s.ir2, beam, from, end);
      Trace(s, ram, beam, from, end)
        == if w.None? then [] else Trace(s.(phase := FetchIr1), ram, beam, w.value + 2, end)
    decreases end - from
  {
    hide BeamReached, Trace;
    if from >= end {
      NoSlots(s, ram, beam, from, end);
    } else {
      OneSlot(s, ram, beam, from, end);
      if BeamReached(s.ir1, s.ir2, beam(from).0, beam(from).1) {
        if from + 1 < end {
          OneSlot(s.(phase := Wake), ram, beam, from + 1, end);
        } else {
          NoSlots(s.(phase := Wake), ram, beam, from + 1, end);
          NoSlots(s.(phase := FetchIr1), ram, beam, from + 2, end);
        }
      } else {
        WaitingTrace(s, ram, beam, from + 1, end);
      }
    }
  }

  lemma NoSlots(s: State, ram: seq<Word>, beam: Slots, from: nat, end: nat)
    requires |ram| == WORDS && from >= end
    ensures Trace(s, ram, beam, from, end) == []
  {}

  /** The two fetches. */
  lemma TwoSlots(s: State, ram: seq<Word>, beam: Slots, from: nat, end: nat)
    requires |ram| == WORDS && s.phase == FetchIr1
    ensures from + 2 > end ==> Trace(s, ram, beam, from, end) == []
    ensures from + 2 <= end ==>
      var t := s.(ir1 := Read(ram, s.pc), ir2 := Read(ram, Mask(s.pc + 2)), pc := Mask(Mask(s.pc + 2) + 2),
                  phase := FetchIr2);
      var r := Decoded(t, beam(from + 1).0, beam(from + 1).1);
      Trace(s, ram, beam, from, end)
        == (if r.write.Write? then [Timed(from + 1, r.write.offset, r.write.value)] else [])
           + Trace(r.s, ram, beam, from + 2, end)
  {
    hide Decoded, Read, Mask;
    if from < end {
      OneSlot(s, ram, beam, from, end);
      if from + 1 < end {
        OneSlot(s.(ir1 := Read(ram, s.pc), pc := Mask(s.pc + 2), phase := FetchIr2), ram, beam, from + 1, end);
      }
    }
  }

  function Fetched(s: State, ram: seq<Word>): State
    requires |ram| == WORDS
  {
    s.(ir1 := Read(ram, s.pc), ir2 := Read(ram, Mask(s.pc + 2)), pc := Mask(Mask(s.pc + 2) + 2), phase := FetchIr2)
  }

  /** The two readings agree from here on. */
  ghost predicate Agrees(s: State, ram: seq<Word>, beam: Slots, from: nat, end: nat)
    requires |ram| == WORDS
  {
    Trace(s, ram, beam, from, end) == Carried(RegistersOf(s), s.pc, ram, beam, from, end)
  }

  lemma AfterMove(s: State, ram: seq<Word>, beam: Slots, from: nat, end: nat)
    requires |ram| == WORDS && s.phase == FetchIr1 && from + 2 <= end
    requires var t := Fetched(s, ram);
      var offset := Val(t.ir1) % 512;
      && Val(t.ir1) % 2 == 0 && (offset >= 0x80 || (offset >= 0x40 && s.danger))
      && Agrees(Written(t.(phase := FetchIr1), offset, t.ir2), ram, beam, from + 2, end)
    ensures Agrees(s, ram, beam, from, end)
  {
    hide Trace, Decoded, BeamReached, Read, Mask, Written, Moved, FirstReached, Val;
    TwoSlots(s, ram, beam, from, end);
    var t := Fetched(s, ram);
    DecodedMeans(t, beam(from + 1).0, beam(from + 1).1);
    MovedWritten(t.(phase := FetchIr1), Val(t.ir1) % 512, t.ir2);
  }

  lemma AfterStop(s: State, ram: seq<Word>, beam: Slots, from: nat, end: nat)
    requires |ram| == WORDS && s.phase == FetchIr1 && from + 2 <= end
    requires var t := Fetched(s, ram);
      var offset := Val(t.ir1) % 512;
      Val(t.ir1) % 2 == 0 && !(offset >= 0x80 || (offset >= 0x40 && s.danger))
    ensures Agrees(s, ram, beam, from, end)
  {
    hide Trace, Decoded, BeamReached, Read, Mask, Written, Moved, FirstReached, Val;
    TwoSlots(s, ram, beam, from, end);
    var t := Fetched(s, ram);
    DecodedMeans(t, beam(from + 1).0, beam(from + 1).1);
    StoppedTrace(t.(phase := Stopped), ram, beam, from + 2, end);
  }

  lemma AfterWait(s: State, ram: seq<Word>, beam: Slots, from: nat, end: nat)
    requires |ram| == WORDS && s.phase == FetchIr1 && from + 2 <= end
    requires var t := Fetched(s, ram);
      var w := FirstReached(t.ir1, t.ir2, beam, from + 2, end);
      && Val(t.ir1) % 2 == 1 && Val(t.ir2) % 2 == 0
      && (w.Some? ==> Agrees(t.(phase := FetchIr1), ram, beam, w.value + 2, end))
    ensures Agrees(s, ram, beam, from, end)
  {
    hide Trace, Decoded, BeamReached, Read, Mask, Written, Moved, FirstReached, Val;
    TwoSlots(s, ram, beam, from, end);
    var t := Fetched(s, ram);
    DecodedMeans(t, beam(from + 1).0, beam(from + 1).1);
    WaitingTrace(t.(phase := Waiting), ram, beam, from + 2, end);
  }

  lemma AfterSkip(s: State, ram: seq<Word>, beam: Slots, from: nat, end: nat)
    requires |ram| == WORDS && s.phase == FetchIr1 && from + 2 <= end
    requires var t := Fetched(s, ram);
      var skips := BeamReached(t.ir1, t.ir2, beam(from + 1).0, beam(from + 1).1);
      && Val(t.ir1) % 2 == 1 && Val(t.ir2) % 2 == 1
      && Agrees(t.(pc := if skips then Mask(t.pc + 4) else t.pc, phase := FetchIr1), ram, beam, from + 2, end)
    ensures Agrees(s, ram, beam, from, end)
  {
    hide Trace, Decoded, BeamReached, Read, Mask, Written, Moved, FirstReached, Val;
    TwoSlots(s, ram, beam, from, end);
    DecodedMeans(Fetched(s, ram), beam(from + 1).0, beam(from + 1).1);
  }

  /** Slot by slot, the Copper carries out the list, whatever the list and wherever the beam is. */
  lemma {:induction false} CarriesOut(s: State, ram: seq<Word>, beam: Slots, from: nat, end: nat)
    requires |ram| == WORDS && s.phase == FetchIr1
    ensures Trace(s, ram, beam, from, end) == Carried(RegistersOf(s), s.pc, ram, beam, from, end)
    decreases end - from
  {
    hide Trace, Carried, BeamReached, Read, Mask, FirstReached, Val;
    assert Agrees(s, ram, beam, from, end) by {
      if from + 2 > end {
        TooShort(s, ram, beam, from, end);
      } else {
        var t := Fetched(s, ram);
        var offset := Val(t.ir1) % 512;
        if Val(t.ir1) % 2 == 0 {
          if offset >= 0x80 || (offset >= 0x40 && s.danger) {
            CarriesOut(Written(t.(phase := FetchIr1), offset, t.ir2), ram, beam, from + 2, end);
            AfterMove(s, ram, beam, from, end);
          } else {
            AfterStop(s, ram, beam, from, end);
          }
        } else if Val(t.ir2) % 2 == 0 {
          var w := FirstReached(t.ir1, t.ir2, beam, from + 2, end);
          if w.Some? {
            CarriesOut(t.(phase := FetchIr1), ram, beam, w.value + 2, end);
          }
          AfterWait(s, ram, beam, from, end);
        } else {
          var skips := BeamReached(t.ir1, t.ir2, beam(from + 1).0, beam(from + 1).1);
          CarriesOut(t.(pc := if skips then Mask(t.pc + 4) else t.pc, phase := FetchIr1), ram, beam, from + 2, end);
          AfterSkip(s, ram, beam, from, end);
        }
      }
    }
  }

  lemma TooShort(s: State, ram: seq<Word>, beam: Slots, from: nat, end: nat)
    requires |ram| == WORDS && s.phase == FetchIr1 && from + 2 > end
    ensures Agrees(s, ram, beam, from, end)
  {
    hide Trace;
    TwoSlots(s, ram, beam, from, end);
  }

  /** A MOVE to a register from $80 on, or from $40 on with CDANG, is written in its second slot; any other MOVE ends
      the trace. */
  lemma MoveSlot(s: State, ram: seq<Word>, beam: Slots, from: nat, end: nat)
    requires |ram| == WORDS && s.phase == FetchIr1 && Val(Read(ram, s.pc)) % 2 == 0 && from + 2 <= end
    ensures var offset, trace := Val(Read(ram, s.pc)) % 512, Trace(s, ram, beam, from, end);
      if offset >= 0x80 || (offset >= 0x40 && s.danger)
      then trace != [] && trace[0] == Timed(from + 1, offset, Read(ram, Mask(s.pc + 2)))
      else trace == []
  {
    hide Trace, Decoded, Read, Mask, Val, Written;
    TwoSlots(s, ram, beam, from, end);
    var t := s.(ir1 := Read(ram, s.pc), ir2 := Read(ram, Mask(s.pc + 2)), pc := Mask(Mask(s.pc + 2) + 2),
                phase := FetchIr2);
    DecodedMeans(t, beam(from + 1).0, beam(from + 1).1);
    var r := Decoded(t, beam(from + 1).0, beam(from + 1).1);
    if r.write.NoWrite? {
      StoppedTrace(r.s, ram, beam, from + 2, end);
    }
  }

  /** The Copper's own registers: COPCON with CDANG in bit 1, the halves of COP1LC and COP2LC, and the two jumps. */
  lemma RegistersMean(s: State, value: Word)
    ensures Written(s, 0x2E, value) == s.(danger := Val(value) / 2 % 2 == 1)
    ensures Written(s, 0x80, value) == s.(cop1lc := WithHalf(s.cop1lc, true, value))
    ensures Written(s, 0x82, value) == s.(cop1lc := WithHalf(s.cop1lc, false, value))
    ensures Written(s, 0x84, value) == s.(cop2lc := WithHalf(s.cop2lc, true, value))
    ensures Written(s, 0x86, value) == s.(cop2lc := WithHalf(s.cop2lc, false, value))
    ensures Written(s, 0x88, value) == s.(pc := s.cop1lc, phase := FetchIr1)
    ensures Written(s, 0x8A, value) == s.(pc := s.cop2lc, phase := FetchIr1)
    ensures forall offset: nat | offset != 0x2E && (offset < 0x80 || offset > 0x8A || offset % 2 == 1) ::
      Written(s, offset, value) == s
  {
    hide WithHalf, Val, Pow2;
    PowersOfTwo();
    BitOf(value, 1);
  }

  // ----- forbidden registers

  predicate Permitted(trace: seq<Timed>, danger: bool) {
    forall i | 0 <= i < |trace| :: trace[i].offset >= 0x40 && (trace[i].offset >= 0x80 || danger)
  }

  /** In any state, no write ever goes below $40, nor below $80 without CDANG. */
  lemma {:induction false} NeverForbidden(s: State, ram: seq<Word>, beam: Slots, from: nat, end: nat)
    requires |ram| == WORDS
    ensures Permitted(Trace(s, ram, beam, from, end), s.danger)
    decreases end - from
  {
    hide BeamReached, Read, Mask, Offset;
    if from < end {
      var r := Slot(s, ram, beam(from).0, beam(from).1);
      KeepsDanger(s, ram, beam(from).0, beam(from).1);
      NeverForbidden(r.s, ram, beam, from + 1, end);
    }
  }

  /** COPCON is one of the forbidden registers, so that a list cannot set CDANG for itself. */
  lemma KeepsDanger(s: State, ram: seq<Word>, vpos: nat, hpos: nat)
    requires |ram| == WORDS
    ensures var r := Slot(s, ram, vpos, hpos);
      r.s.danger == s.danger && (r.write.Write? ==> r.write.offset >= 0x40 && (r.write.offset >= 0x80 || s.danger))
  {
    hide BeamReached, Read, Mask, Offset, WithHalf;
  }

  // ----- the end of a list

  const EVEN_BITS: Word :=
    [true, true, true, true, true, true, true, true, true, true, true, true, true, true, true, false]
  const ALL_BITS: Word := Not(ZERO)

  lemma EvenPart(b: Word)
    ensures And(b, EVEN_BITS) == b[15 := false]
    ensures Val(b[15 := false]) == 256 * Val(b[..8]) + 2 * Val(b[8..15])
  {
    hide Val;
    assert forall i | 0 <= i < 16 :: And(b, EVEN_BITS)[i] == b[15 := false][i];
    assert b[15 := false] == b[..8] + (b[8..15] + [false]);
    ValConcat(b[..8], b[8..15] + [false]);
    LowBit(b[8..15]);
    assert Pow2(8) == 256;
  }

  lemma BeamParts(vpos: nat, hpos: nat)
    requires hpos < 256
    ensures var b := Beam(vpos, hpos); Val(b[..8]) == vpos % 256 && Val(b[8..15]) == hpos / 2
  {
    hide Val;
    var b := Beam(vpos, hpos);
    assert b[..8] == ToBits(vpos, 8);
    assert b[8..15] == ToBits(hpos / 2, 7);
    ValToBitsMod(vpos, 8);
    ValToBitsMod(hpos / 2, 7);
    assert Pow2(8) == 256 && Pow2(7) == 128;
  }

  /** With all bits compared, a position is reached when the beam is at or past it: the line counts first, modulo
      256, then the color clock without its lowest bit. */
  lemma FullCompare(ir1: Word, vpos: nat, hpos: nat)
    requires hpos < 256
    ensures BeamReached(ir1, EVEN_BITS, vpos, hpos)
         == (256 * (vpos % 256) + 2 * (hpos / 2) >= 256 * Val(ir1[..8]) + 2 * Val(ir1[8..15]))
  {
    hide Beam, And, Val;
    assert EVEN_BITS[0 := true][15 := false] == EVEN_BITS;
    EvenPart(ir1);
    EvenPart(Beam(vpos, hpos));
    BeamParts(vpos, hpos);
  }

  lemma MaskedBits(w: Word, mask: Word)
    ensures var m := mask[0 := true][15 := false];
      And(w, m) == ([w[0]] + And(w[1..8], mask[1..8])) + (And(w[8..15], mask[8..15]) + [false])
  {
    var m := mask[0 := true][15 := false];
    var parts := ([w[0]] + And(w[1..8], mask[1..8])) + (And(w[8..15], mask[8..15]) + [false]);
    forall i | 0 <= i < 16
      ensures And(w, m)[i] == parts[i]
    {}
  }

  lemma MaskedValue(w: Word, mask: Word)
    ensures Val(And(w, mask[0 := true][15 := false]))
         == 256 * ((if w[0] then 128 else 0) + Val(And(w[1..8], mask[1..8]))) + 2 * Val(And(w[8..15], mask[8..15]))
    ensures Val(And(w[8..15], mask[8..15])) < 128
  {
    var line, column := And(w[1..8], mask[1..8]), And(w[8..15], mask[8..15]);
    assert |line| == 7 && |column| == 7;
    hide Val, And, Pow2;
    MaskedBits(w, mask);
    PowersOfTwo();
    ValConcat([w[0]] + line, column + [false]);
    ValConcat([w[0]], line);
    ValOne(w[0]);
    LowBit(column);
    ValBound(column);
  }

  /** The lines of a position that IR2 selects, V7 always among them, and its color clocks, H0 never. */
  function LinePart(w: Word, ir2: Word): nat { (if w[0] then 128 else 0) + Val(And(w[1..8], ir2[1..8])) }

  function ColumnPart(w: Word, ir2: Word): nat { Val(And(w[8..15], ir2[8..15])) }

  /** Any comparison: the selected bits of the line count first, then those of the color clock. */
  lemma MaskedCompare(ir1: Word, ir2: Word, vpos: nat, hpos: nat)
    ensures var line, column := LinePart(Beam(vpos, hpos), ir2), ColumnPart(Beam(vpos, hpos), ir2);
      BeamReached(ir1, ir2, vpos, hpos)
        == (line > LinePart(ir1, ir2) || (line == LinePart(ir1, ir2) && column >= ColumnPart(ir1, ir2)))
  {
    hide Val, And, Beam;
    MaskedValue(Beam(vpos, hpos), ir2);
    MaskedValue(ir1, ir2);
  }

  /** The beam in numbers: the line modulo 256 and the color clock modulo 256. */
  lemma BeamBits(vpos: nat, hpos: nat)
    ensures Val(Beam(vpos, hpos)) == 256 * (vpos % 256) + hpos % 256
  {
    hide Val;
    ValConcat(ToBits(vpos, 8), ToBits(hpos, 8));
    ValToBitsMod(vpos, 8);
    ValToBitsMod(hpos, 8);
    PowersOfTwo();
  }

  /** Color clocks go up to $E2. */
  ghost predicate OnScreen(beam: Slots) { forall k: nat {:trigger beam(k)} :: beam(k).1 <= 0xE2 }

  lemma NeverReached(vpos: nat, hpos: nat)
    requires hpos <= 0xE2
    ensures !BeamReached(ALL_BITS, EVEN_BITS, vpos, hpos)
  {
    hide Val, BeamReached;
    FullCompare(ALL_BITS, vpos, hpos);
    var high, low := ALL_BITS[..8], ALL_BITS[8..15];
    AllOnes(high);
    AllOnes(low);
    assert Pow2(8) == 256 && Pow2(7) == 128;
  }

  lemma {:induction false} AllOnes(b: Bits)
    requires forall i | 0 <= i < |b| :: b[i]
    ensures Val(b) == Pow2(|b|) - 1
  {
    if b != [] {
      AllOnes(b[..|b| - 1]);
    }
  }

  /** WAIT $FFFF,$FFFE ends a list: nothing more is written until a restart, however long it takes. */
  lemma Parks(s: State, ram: seq<Word>, beam: Slots, from: nat, end: nat)
    requires |ram| == WORDS && s.phase == FetchIr1 && OnScreen(beam)
    requires Read(ram, s.pc) == ALL_BITS && Read(ram, Mask(s.pc + 2)) == EVEN_BITS
    ensures Trace(s, ram, beam, from, end) == []
  {
    hide Trace, BeamReached, Read, Mask;
    CarriesOut(s, ram, beam, from, end);
    if from + 2 <= end {
      var w := FirstReached(ALL_BITS, EVEN_BITS, beam, from + 2, end);
      if w.Some? {
        NeverReached(beam(w.value).0, beam(w.value).1);
      }
    }
  }

  // ----- color clocks and slots

  /** The writes from color clock i on, each with the number of its color clock. */
  function Run(s: State, ram: seq<Word>, clocks: seq<Clock>, i: nat): (log: seq<Timed>)
    requires |ram| == WORDS && i <= |clocks|
    ensures forall k | 0 <= k < |log| :: i <= log[k].slot < |clocks|
    decreases |clocks| - i
  {
    if i == |clocks| then []
    else
      var r := Clocked(s, ram, clocks[i]);
      (if r.write.Write? then [Timed(i, r.write.offset, r.write.value)] else []) + Run(r.s, ram, clocks, i + 1)
  }

  /** How many of the first i color clocks are slots. */
  function SlotsBefore(clocks: seq<Clock>, i: nat): nat
    requires i <= |clocks|
  {
    if i == 0 then 0 else SlotsBefore(clocks, i - 1) + if IsSlot(clocks[i - 1]) then 1 else 0
  }

  /** The same writes, each with the number of its slot. */
  function BySlot(clocks: seq<Clock>, log: seq<Timed>): (r: seq<Timed>)
    requires forall k | 0 <= k < |log| :: log[k].slot < |clocks|
    ensures |r| == |log|
  {
    seq(|log|, k requires 0 <= k < |log| => log[k].(slot := SlotsBefore(clocks, log[k].slot)))
  }

  /** Where the beam is at the slots of these color clocks. */
  ghost predicate BeamAt(clocks: seq<Clock>, beam: Slots) {
    forall i: nat {:trigger SlotsBefore(clocks, i)} | i < |clocks| && IsSlot(clocks[i]) ::
      beam(SlotsBefore(clocks, i)) == (clocks[i].vpos, clocks[i].hpos)
  }

  /** Only the slots count: what happens in any color clocks, with DMA on or off, is what happens slot by slot. */
  lemma {:induction false} OnlySlots(s: State, ram: seq<Word>, clocks: seq<Clock>, beam: Slots, i: nat)
    requires |ram| == WORDS && i <= |clocks| && BeamAt(clocks, beam)
    ensures BySlot(clocks, Run(s, ram, clocks, i))
         == Trace(s, ram, beam, SlotsBefore(clocks, i), SlotsBefore(clocks, |clocks|))
    decreases |clocks| - i
  {
    hide Slot, Trace, BeamAt, BySlot;
    var from, end := SlotsBefore(clocks, i), SlotsBefore(clocks, |clocks|);
    SlotsGrow(clocks, i, |clocks|);
    if i == |clocks| {
      NoSlots(s, ram, beam, from, end);
      assert BySlot(clocks, []) == [];
    } else {
      var r, rest := Clocked(s, ram, clocks[i]), Run(Clocked(s, ram, clocks[i]).s, ram, clocks, i + 1);
      OnlySlots(r.s, ram, clocks, beam, i + 1);
      if r.write.Write? {
        BySlotNext(clocks, Timed(i, r.write.offset, r.write.value), rest);
      } else {
        assert [] + rest == rest;
      }
      if IsSlot(clocks[i]) {
        SlotsGrow(clocks, i + 1, |clocks|);
        BeamThere(clocks, beam, i);
        OneSlot(s, ram, beam, from, end);
      }
    }
  }

  lemma SlotsGrow(clocks: seq<Clock>, i: nat, j: nat)
    requires i <= j <= |clocks|
    ensures SlotsBefore(clocks, i) <= SlotsBefore(clocks, j)
  {
    if i < j {
      SlotsGrow(clocks, i, j - 1);
    }
  }

  lemma BeamThere(clocks: seq<Clock>, beam: Slots, i: nat)
    requires BeamAt(clocks, beam) && i < |clocks| && IsSlot(clocks[i])
    ensures beam(SlotsBefore(clocks, i)) == (clocks[i].vpos, clocks[i].hpos)
  {}

  lemma {:induction false} BySlotNext(clocks: seq<Clock>, e: Timed, rest: seq<Timed>)
    requires e.slot < |clocks| && forall k | 0 <= k < |rest| :: rest[k].slot < |clocks|
    ensures forall k | 0 <= k < |[e] + rest| :: ([e] + rest)[k].slot < |clocks|
    ensures BySlot(clocks, [e] + rest) == [e.(slot := SlotsBefore(clocks, e.slot))] + BySlot(clocks, rest)
  {
    hide SlotsBefore;
    var all, slots := [e] + rest, [e.(slot := SlotsBefore(clocks, e.slot))] + BySlot(clocks, rest);
    forall k | 0 <= k < |all|
      ensures BySlot(clocks, all)[k] == slots[k]
    {
      if k > 0 {
        assert all[k] == rest[k - 1];
      }
    }
  }

  /** A Copper that has just been started carries out its list in any color clocks. */
  lemma ClocksCarryOut(s: State, ram: seq<Word>, clocks: seq<Clock>, beam: Slots)
    requires |ram| == WORDS && BeamAt(clocks, beam) && s.phase == FetchIr1
    ensures BySlot(clocks, Run(s, ram, clocks, 0))
         == Carried(RegistersOf(s), s.pc, ram, beam, 0, SlotsBefore(clocks, |clocks|))
  {
    hide Run, Trace, Carried, BeamAt;
    OnlySlots(s, ram, clocks, beam, 0);
    CarriesOut(s, ram, beam, 0, SlotsBefore(clocks, |clocks|));
  }

  /** Color clock after color clock. */
  method RunClocks(copper: Copper, ram: array<Word>, clocks: seq<Clock>) returns (log: seq<Timed>)
    requires ram.Length == WORDS
    modifies copper
    ensures log == Run(old(copper.Now()), ram[..], clocks, 0)
  {
    hide Clocked;
    log := [];
    ghost var s := copper.Now();
    for i := 0 to |clocks|
      invariant log + Run(copper.Now(), ram[..], clocks, i) == Run(s, ram[..], clocks, 0)
    {
      ghost var before, now := log, copper.Now();
      var write := copper.Tick(ram, clocks[i].vpos, clocks[i].hpos, clocks[i].dma);
      if write.Write? {
        log := log + [Timed(i, write.offset, write.value)];
      }
      Assoc(before, if write.Write? then [Timed(i, write.offset, write.value)] else [],
            Run(copper.Now(), ram[..], clocks, i + 1));
    }
  }

  lemma Assoc<T>(a: seq<T>, b: seq<T>, c: seq<T>)
    ensures (a + b) + c == a + (b + c)
    ensures b == [] ==> a + b == a
  {}
}
