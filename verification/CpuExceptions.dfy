/** Exception entry and return on the 68000 (src/core/cpu68000.cpp): the status register, the two stack
    pointers and the frames on the supervisor stack. */
module CpuExceptions {
  import opened Bits

  const RANGE := 0x1_0000_0000

  /** T, S, the interrupt mask and X N Z V C: the bits of SR that exist. */
  const IMPLEMENTED: Word :=
    [true, false, true, false, false, true, true, true, false, false, false, true, true, true, true, true]

  /** The registers that exceptions change, and RAM: words at even addresses. `sp` is A7, `other` the stack
      pointer that is not in use. */
  datatype State = State(pc: Long, sr: Word, sp: int, other: int, ram: map<int, Word>)

  function Peek(ram: map<int, Word>, address: int): Word { if address in ram then ram[address] else ZERO }

  /** A long as an address: odd if its last bit is set. */
  function Address(l: Long): (a: nat)
    ensures a < RANGE && a % 2 == if l[31] then 1 else 0
  {
    AddressBound(l);
    Val(l)
  }

  lemma AddressBound(l: Long)
    ensures Val(l) < RANGE && Val(l) % 2 == if l[31] then 1 else 0
  {
    hide Pow2;
    ValBound(l);
    Powers();
  }

  /** The address of the next word. */
  function NextWord(l: Long): Long { ToBits((Address(l) + 2) % RANGE, 32) }

  predicate Supervisor(sr: Word) { sr[2] }

  /** The interrupt mask I2-I0. */
  function Mask(sr: Word): (m: nat)
    ensures m < 8
  {
    ValBound(sr[5..8]);
    assert Pow2(3) == 8;
    Val(sr[5..8])
  }

  function Ssp(s: State): int { if Supervisor(s.sr) then s.sp else s.other }

  function Usp(s: State): int { if Supervisor(s.sr) then s.other else s.sp }

  /** A7 is SSP or USP, depending on S. */
  function SetSr(s: State, value: Word): State {
    var sr := And(value, IMPLEMENTED);
    if Supervisor(s.sr) != Supervisor(sr) then s.(sr := sr, sp := s.other, other := s.sp) else s.(sr := sr)
  }

  /** SR on entry: supervisor mode and no trace; an interrupt also raises the mask to its level. */
  function Entered(sr: Word): Word { sr[0 := false][2 := true] }

  function Interrupted(sr: Word, level: nat): Word
    requires level < 8
  {
    var e := Entered(sr);
    e[..5] + ToBits(level, 3) + e[8..]
  }

  function Push16(s: State, w: Word): State {
    var sp := (s.sp - 2) % RANGE;
    s.(sp := sp, ram := s.ram[sp := w])
  }

  function Push32(s: State, l: Long): State {
    var sp := (s.sp - 4) % RANGE;
    s.(sp := sp, ram := s.ram[sp := l[..16]][(sp + 2) % RANGE := l[16..]])
  }

  function Read32(ram: map<int, Word>, address: int): Long { Peek(ram, address) + Peek(ram, (address + 2) % RANGE) }

  /** A word or long access at an odd address. */
  datatype Fault = Fault(address: int, read: bool, instruction: bool)

  /** What makes the CPU enter an exception: an interrupt stacks PC, the others an address of their own. An address
      error knows the word and the address of the instruction that caused it. */
  datatype Cause =
    | Interrupt(level: nat)
    | Exception(vector: nat, returnPc: Long)
    | AddressError(fault: Fault, opcode: Word, instructionPc: Long)
  {
    predicate Valid() {
      match this
      case Interrupt(level) => level < 8
      case Exception(vector, _) => vector < 256
      case AddressError(fault, _, _) => 0 <= fault.address < RANGE
    }

    function Status(sr: Word): Word
      requires Valid()
    {
      if Interrupt? then Interrupted(sr, level) else Entered(sr)
    }

    function Vector(): nat {
      match this
      case Interrupt(level) => 24 + level
      case Exception(vector, _) => vector
      case AddressError(_, _, _) => 3
    }

    function Return(pc: Long): Long
      requires Valid()
    {
      match this
      case Interrupt(_) => pc
      case Exception(_, returnPc) => returnPc
      case AddressError(fault, _, instructionPc) =>
        if fault.instruction then ToBits(fault.address, 32) else NextWord(instructionPc)
    }

    /** The bytes an address error stacks below SR, which its handler drops before RTE. */
    function Extra(): nat { if AddressError? then 8 else 0 }

    /** How an address error describes the access: R/W, I/N and the function code. */
    function Access(sr: Word): Word
      requires AddressError?
    {
      Zeros(11) + [fault.read, !fault.instruction, Supervisor(sr), fault.instruction, !fault.instruction]
    }
  }

  /** PC, SR, and for an address error the opcode, the address and the kind of access. */
  function Stacked(s: State, c: Cause): State
    requires c.Valid()
  {
    var t := Push16(Push32(SetSr(s, c.Status(s.sr)), c.Return(s.pc)), s.sr);
    if c.AddressError? then Details(t, c, s.sr) else t
  }

  function Details(s: State, c: Cause, sr: Word): State
    requires c.AddressError? && c.Valid()
  {
    Push16(Push32(Push16(s, c.opcode), ToBits(c.fault.address, 32)), c.Access(sr))
  }

  /** Entry: stack the frame and jump through the vector. */
  function Enter(s: State, c: Cause): State
    requires c.Valid()
  {
    var t := Stacked(s, c);
    t.(pc := Read32(t.ram, c.Vector() * 4))
  }

  /** RTE in supervisor mode: pop SR, then PC. */
  function Rte(s: State): State {
    var sr, pc := Peek(s.ram, s.sp), Read32(s.ram, (s.sp + 2) % RANGE);
    SetSr(s.(sp := (s.sp + 6) % RANGE), sr).(pc := pc)
  }

  // ----- handlers

  /** What a handler does between entry and RTE: it writes to RAM, changes SR or PC, moves A7 (saving registers,
      calling subroutines) and sets USP. */
  datatype Step = Poke(address: int, value: Word) | Status(sr: Word) | Jump(pc: Long) | Stack(sp: int) | User(usp: int)

  /** Steps, and more exceptions that are entered and left meanwhile. */
  datatype Activity = Done | Next(step: Step, rest: Activity) | Nested(cause: Cause, body: Activity, rest: Activity)

  function Do(s: State, step: Step): State {
    match step
    case Poke(address, value) => s.(ram := s.ram[address := value])
    case Status(sr) => SetSr(s, sr)
    case Jump(pc) => s.(pc := pc)
    case Stack(sp) => s.(sp := sp)
    case User(usp) => s.(other := usp)
  }

  predicate Causes(a: Activity) {
    match a
    case Done => true
    case Next(_, rest) => Causes(rest)
    case Nested(cause, body, rest) => cause.Valid() && Causes(body) && Causes(rest)
  }

  function Run(s: State, a: Activity): State
    requires Causes(a)
    decreases a
  {
    match a
    case Done => s
    case Next(step, rest) => Run(Do(s, step), rest)
    case Nested(cause, body, rest) => Run(Rte(Run(Enter(s, cause), body)), rest)
  }

  /** USP after a handler that found it at `usp`. */
  function UspAfter(usp: int, a: Activity): int
    decreases a
  {
    match a
    case Done => usp
    case Next(step, rest) => UspAfter(if step.User? then step.usp else usp, rest)
    case Nested(_, body, rest) => UspAfter(UspAfter(usp, body), rest)
  }

  /** Room for so many bytes below A7. */
  predicate Room(sp: int, bytes: nat) { sp % 2 == 0 && bytes <= sp < RANGE }

  /** A step of a handler whose SR and PC are stacked at `base`: it stays in supervisor mode, moves A7 below its
      frame only, and leaves memory from the frame up to `top` alone. */
  predicate Leaves(step: Step, base: int, top: int) {
    match step
    case Poke(address, _) => !(base <= address < top)
    case Status(sr) => Supervisor(sr)
    case Stack(sp) => sp <= base
    case _ => true
  }

  /** A handler that keeps its frame and comes back to it. What it has pushed when another exception comes is in
      the way of that one's handler too, being above its frame. */
  predicate LeavesFrames(s: State, a: Activity, base: int, top: int)
    requires Causes(a)
    decreases a
  {
    match a
    case Done => s.sp == base
    case Next(step, rest) => Leaves(step, base, top) && LeavesFrames(Do(s, step), rest, base, top)
    case Nested(cause, body, rest) =>
      var e := Enter(s, cause);
      && Room(s.sp, 6 + cause.Extra())
      && LeavesFrames(e, body, e.sp + cause.Extra(), top) && LeavesFrames(Rte(Run(e, body)), rest, base, top)
  }

  /** RAM holds the same from an address up to another. */
  predicate Same(ram: map<int, Word>, other: map<int, Word>, from: int, to: int) {
    forall a: int | from <= a < to :: Peek(ram, a) == Peek(other, a)
  }

  /** SR as it can be: no unimplemented bits. */
  predicate Real(sr: Word) { And(sr, IMPLEMENTED) == sr }

  lemma SetSrKeeps(s: State, value: Word)
    ensures var t := SetSr(s, value); t.pc == s.pc && t.ram == s.ram
  {}

  lemma SetSrReal(s: State, value: Word)
    ensures Real(SetSr(s, value).sr)
  {
    assert And(And(value, IMPLEMENTED), IMPLEMENTED) == And(value, IMPLEMENTED);
  }

  lemma Frame(s: State, l: Long, w: Word, top: int)
    requires Room(s.sp, 6)
    ensures var t := Push16(Push32(s, l), w);
      && t.sr == s.sr && t.sp == s.sp - 6 && t.other == s.other && Same(t.ram, s.ram, s.sp, top)
      && Peek(t.ram, s.sp - 6) == w && Peek(t.ram, s.sp - 4) + Peek(t.ram, s.sp - 2) == l
  {
    assert l == l[..16] + l[16..];
  }

  /** The lower part of the frame of an address error. */
  lemma DetailsFrame(s: State, c: Cause, sr: Word, top: int)
    requires c.AddressError? && c.Valid() && Room(s.sp, 8)
    ensures var t := Details(s, c, sr);
      && t.sr == s.sr && t.sp == s.sp - 8 && t.other == s.other && Same(t.ram, s.ram, s.sp, top)
      && Peek(t.ram, t.sp) == c.Access(sr) && Peek(t.ram, t.sp + 6) == c.opcode
      && Peek(t.ram, t.sp + 2) + Peek(t.ram, t.sp + 4) == ToBits(c.fault.address, 32)
  {
    hide ToBits, Cause.Access, Peek, Same;
    var u := Push16(s, c.opcode);
    assert Room(u.sp, 6) && u.sp == s.sp - 2 && Peek(u.ram, u.sp) == c.opcode && Same(u.ram, s.ram, s.sp, top) by {
      OneWord(s, c.opcode, top);
    }
    Frame(u, ToBits(c.fault.address, 32), c.Access(sr), s.sp);
    Frame(u, ToBits(c.fault.address, 32), c.Access(sr), top);
    var t := Details(s, c, sr);
    SameAt(t.ram, u.ram, u.sp, s.sp, u.sp);
    SameTwice(t.ram, u.ram, s.ram, u.sp, s.sp, top);
  }

  lemma OneWord(s: State, w: Word, top: int)
    requires Room(s.sp, 2)
    ensures var t := Push16(s, w); t.sp == s.sp - 2 && Peek(t.ram, t.sp) == w && Same(t.ram, s.ram, s.sp, top)
  {}

  lemma SameAt(a: map<int, Word>, b: map<int, Word>, from: int, to: int, address: int)
    requires Same(a, b, from, to) && from <= address < to
    ensures Peek(a, address) == Peek(b, address)
  {}

  lemma SameTwice(a: map<int, Word>, b: map<int, Word>, c: map<int, Word>, low: int, high: int, top: int)
    requires Same(a, b, low, top) && Same(b, c, high, top) && low <= high
    ensures Same(a, c, high, top)
  {}

  lemma EnteredSupervisor(sr: Word, c: Cause)
    requires c.Valid()
    ensures And(c.Status(sr), IMPLEMENTED)[2]
  {
    assert Entered(sr)[2];
  }

  /** Entry: SSP is lower by the frame, USP is as it was, everything above on the stack too, and SR and PC can be
      found in the frame. */
  lemma Enters(s: State, c: Cause, top: int)
    requires c.Valid() && Room(Ssp(s), 6 + c.Extra())
    ensures var t := Enter(s, c);
      var base := t.sp + c.Extra();
      && Supervisor(t.sr) && base == Ssp(s) - 6 && t.other == Usp(s) && Same(t.ram, s.ram, Ssp(s), top)
      && Peek(t.ram, base) == s.sr && Peek(t.ram, base + 2) + Peek(t.ram, base + 4) == c.Return(s.pc)
      && (c.AddressError? ==>
            && Peek(t.ram, t.sp) == c.Access(s.sr) && Peek(t.ram, t.sp + 6) == c.opcode
            && Peek(t.ram, t.sp + 2) + Peek(t.ram, t.sp + 4) == ToBits(c.fault.address, 32))
  {
    hide Push16, Push32, Cause.Status, Cause.Return, Cause.Access, Details, Same, Peek, Read32, ToBits;
    EnteredSupervisor(s.sr, c);
    var t := SetSr(s, c.Status(s.sr));
    var ssp := Ssp(s);
    var high := if top > ssp then top else ssp;
    Frame(t, c.Return(s.pc), s.sr, top);
    if c.AddressError? {
      var u := Push16(Push32(t, c.Return(s.pc)), s.sr);
      DetailsFrame(u, c, s.sr, high);
      var v := Details(u, c, s.sr);
      Frame(t, c.Return(s.pc), s.sr, high);
      SameAt(v.ram, u.ram, u.sp, high, u.sp);
      SameAt(v.ram, u.ram, u.sp, high, u.sp + 2);
      SameAt(v.ram, u.ram, u.sp, high, u.sp + 4);
      SameTwice(v.ram, u.ram, t.ram, u.sp, ssp, high);
      SameLess(v.ram, t.ram, ssp, top, high);
    }
  }

  lemma SameLess(a: map<int, Word>, b: map<int, Word>, from: int, to: int, more: int)
    requires Same(a, b, from, more) && to <= more
    ensures Same(a, b, from, to)
  {}

  /** RTE undoes an entry once A7 is back at the stacked SR, if the frame is as it was. */
  lemma Returns(s: State, c: Cause, t: State, top: int)
    requires c.Valid() && Real(s.sr) && Room(Ssp(s), 6 + c.Extra()) && Ssp(s) <= top
    requires var e := Enter(s, c);
      Supervisor(t.sr) && t.sp == e.sp + c.Extra() && Same(t.ram, e.ram, t.sp, top)
    ensures var u := Rte(t);
      && u.pc == c.Return(s.pc) && u.sr == s.sr && Ssp(u) == Ssp(s) && Usp(u) == t.other
      && Same(u.ram, s.ram, Ssp(s), top)
  {
    hide Enter, Peek, Same, Cause.Return;
    Enters(s, c, top);
    var e := Enter(s, c);
    SameAt(t.ram, e.ram, t.sp, top, t.sp);
    SameAt(t.ram, e.ram, t.sp, top, t.sp + 2);
    SameAt(t.ram, e.ram, t.sp, top, t.sp + 4);
    SameTwice(t.ram, e.ram, s.ram, t.sp, Ssp(s), top);
  }

  /** A handler in supervisor mode, its frame at `base`, ends with A7 there and the frame and everything above it
      as they were, however deep exceptions nest meanwhile. */
  lemma {:induction false} Handles(s: State, a: Activity, base: int, top: int)
    requires Causes(a) && LeavesFrames(s, a, base, top) && Supervisor(s.sr) && Real(s.sr) && s.sp <= base <= top
    ensures var t := Run(s, a);
      && Supervisor(t.sr) && Real(t.sr) && t.sp == base && t.other == UspAfter(s.other, a)
      && Same(t.ram, s.ram, base, top)
    decreases a
  {
    hide Enter, Rte, Real, Same;
    match a
    case Done => SameSelf(s.ram, base, top);
    case Next(step, rest) =>
      DoesStep(s, step, base, top);
      Handles(Do(s, step), rest, base, top);
      SameTwice(Run(s, a).ram, Do(s, step).ram, s.ram, base, base, top);
    case Nested(cause, body, rest) =>
      var e := Enter(s, cause);
      Enters(s, cause, top);
      EntersReal(s, cause);
      Handles(e, body, e.sp + cause.Extra(), top);
      Returns(s, cause, Run(e, body), top);
      var u := Rte(Run(e, body));
      SameFrom(u.ram, s.ram, s.sp, base, top);
      Handles(u, rest, base, top);
      SameTwice(Run(s, a).ram, u.ram, s.ram, base, base, top);
  }

  lemma SameFrom(a: map<int, Word>, b: map<int, Word>, from: int, later: int, to: int)
    requires Same(a, b, from, to) && from <= later
    ensures Same(a, b, later, to)
  {}

  lemma SameSelf(ram: map<int, Word>, from: int, to: int)
    ensures Same(ram, ram, from, to)
  {}

  lemma DoesStep(s: State, step: Step, base: int, top: int)
    requires Leaves(step, base, top) && Supervisor(s.sr) && Real(s.sr) && s.sp <= base
    ensures var t := Do(s, step);
      && Supervisor(t.sr) && Real(t.sr) && t.sp <= base && Same(t.ram, s.ram, base, top)
      && t.other == (if step.User? then step.usp else s.other)
  {
    if step.Status? {
      SetSrReal(s, step.sr);
    }
  }

  lemma EntersReal(s: State, c: Cause)
    requires c.Valid()
    ensures Real(Enter(s, c).sr)
  {
    SetSrReal(s, c.Status(s.sr));
  }

  /** Where an entry leads: to the long at $60 + 4 * level for an interrupt, at 4 * vector for the others, at $0C for an
      address error; if the frame does not reach down to the vectors, to the one that was there. */
  lemma EntersAt(s: State, c: Cause)
    requires c.Valid() && Room(Ssp(s), 6 + c.Extra())
    ensures var t := Enter(s, c);
      var at := match c
        case Interrupt(level) => 0x60 + 4 * level
        case Exception(vector, _) => 4 * vector
        case AddressError(_, _, _) => 0x0C;
      && t.pc == Peek(t.ram, at) + Peek(t.ram, at + 2)
      && (at + 2 < t.sp ==> t.pc == Peek(s.ram, at) + Peek(s.ram, at + 2))
  {
    hide Peek, Stacked;
    var at := 4 * c.Vector();
    StackedBelow(s, c, at);
    StackedBelow(s, c, at + 2);
  }

  lemma StackedBelow(s: State, c: Cause, a: int)
    requires c.Valid() && Room(Ssp(s), 6 + c.Extra())
    ensures a < Stacked(s, c).sp ==> Peek(Stacked(s, c).ram, a) == Peek(s.ram, a)
  {
    hide Peek, Cause.Status, Cause.Return, Cause.Access, Details, ToBits, And, Push16, Push32;
    EnteredSupervisor(s.sr, c);
    var t := SetSr(s, c.Status(s.sr));
    var u := Push16(Push32(t, c.Return(s.pc)), s.sr);
    BelowFrame(t, c.Return(s.pc), s.sr, a);
    Frame(t, c.Return(s.pc), s.sr, t.sp);
    if c.AddressError? {
      BelowDetails(u, c, s.sr, a);
      DetailsFrame(u, c, s.sr, u.sp);
    }
  }

  /** Pushing leaves the memory below the stack alone. */
  lemma BelowFrame(s: State, l: Long, w: Word, a: int)
    requires Room(s.sp, 6)
    ensures a < s.sp - 6 ==> Peek(Push16(Push32(s, l), w).ram, a) == Peek(s.ram, a)
  {}

  lemma BelowDetails(s: State, c: Cause, sr: Word, a: int)
    requires c.AddressError? && c.Valid() && Room(s.sp, 8)
    ensures a < s.sp - 8 ==> Peek(Details(s, c, sr).ram, a) == Peek(s.ram, a)
  {
    hide ToBits, Cause.Access, Push16, Push32, Peek;
    var low := Push16(s, c.opcode);
    BelowPush(s, c.opcode, a);
    BelowFrame(low, ToBits(c.fault.address, 32), c.Access(sr), a);
  }

  lemma BelowPush(s: State, w: Word, a: int)
    requires Room(s.sp, 2)
    ensures Push16(s, w).sp == s.sp - 2 && (a < s.sp - 2 ==> Peek(Push16(s, w).ram, a) == Peek(s.ram, a))
  {}

  /** SR in numbers: only $A71F of it exists; S is bit 13, T bit 15, the mask bits 10 to 8. */
  lemma StatusBits(sr: Word)
    ensures Val(IMPLEMENTED) == 0xA71F
    ensures Supervisor(sr) == (Val(sr) / 0x2000 % 2 == 1) && Mask(sr) == Val(sr) / 0x100 % 8
  {
    hide Pow2, Val;
    PowersOfTwo();
    BitOf(sr, 13);
    Field(sr, 5, 8);
    var a, b: Bits := [true, false, true, false], [false, true, true, true];
    var c, d: Bits := [false, false, false, true], [true, true, true, true];
    assert IMPLEMENTED == (a + b) + (c + d);
    ValConcat(a + b, c + d);
    ValConcat(a, b);
    ValConcat(c, d);
    Nibble(true, false, true, false);
    Nibble(false, true, true, true);
    Nibble(false, false, false, true);
    Nibble(true, true, true, true);
  }

  lemma Nibble(a: bool, b: bool, c: bool, d: bool)
    ensures Val([a, b, c, d])
         == (if a then 8 else 0) + (if b then 4 else 0) + (if c then 2 else 0) + (if d then 1 else 0)
  {
    assert [a, b, c, d] == [a, b] + [c, d];
    ValConcat([a, b], [c, d]);
    TwoBits(a, b);
    TwoBits(c, d);
    assert Pow2(2) == 4;
  }

  lemma TwoBits(a: bool, b: bool)
    ensures Val([a, b]) == (if a then 2 else 0) + if b then 1 else 0
  {
    assert [a, b][..1] == [a];
    ValOne(a);
  }

  /** SR on entry: S is set, T is cleared, an interrupt sets the mask, and all the other bits stay. */
  lemma EntersStatus(s: State, c: Cause, i: nat)
    requires c.Valid() && Real(s.sr) && i < 16
    ensures var sr := Enter(s, c).sr;
      && !sr[0] && sr[2] && (i != 0 && i != 2 && (i < 5 || i > 7 || !c.Interrupt?) ==> sr[i] == s.sr[i])
  {
    hide Push16, Push32, Details, Read32, Cause.Return, ToBits;
    var status := c.Status(s.sr);
    assert And(status, IMPLEMENTED)[i] == (status[i] && IMPLEMENTED[i]);
    assert And(s.sr, IMPLEMENTED)[i] == (s.sr[i] && IMPLEMENTED[i]);
    StackedStatus(s, c);
  }

  /** What an address error stacks, in numbers: as PC the address fetched from, or two past the instruction; as access
      R/W in bit 4, I/N in bit 3, and the function code: 4 for supervisor mode, 2 for an instruction, 1 for data. */
  lemma AddressErrorMeans(c: Cause, sr: Word, pc: Long)
    requires c.AddressError? && c.Valid()
    ensures Val(c.Return(pc))
         == if c.fault.instruction then c.fault.address else (Val(c.instructionPc) + 2) % 0x1_0000_0000
    ensures Val(c.Access(sr)) == (if c.fault.read then 16 else 0) + (if Supervisor(sr) then 4 else 0)
                               + if c.fault.instruction then 2 else 9
  {
    hide ToBits, Val, Pow2;
    Powers();
    PowersOfTwo();
    ValToBits(if c.fault.instruction then c.fault.address else (Address(c.instructionPc) + 2) % RANGE, 32);
    var f := c.fault;
    assert c.Access(sr) == Zeros(11) + ([f.read] + [!f.instruction, Supervisor(sr), f.instruction, !f.instruction]);
    ValConcat(Zeros(11), [f.read] + [!f.instruction, Supervisor(sr), f.instruction, !f.instruction]);
    ValConcat([f.read], [!f.instruction, Supervisor(sr), f.instruction, !f.instruction]);
    Nibble(!f.instruction, Supervisor(sr), f.instruction, !f.instruction);
    ValZeros(11);
    SingleBit([f.read]);
  }

  lemma StackedStatus(s: State, c: Cause)
    requires c.Valid()
    ensures Enter(s, c).sr == And(c.Status(s.sr), IMPLEMENTED)
  {
    hide ToBits, Cause.Return, Cause.Access, Cause.Status, And;
  }

  /** Any properly nested interrupts, exceptions and RTEs, begun in user or supervisor mode with an even SSP, return
      to the PC that was stacked with SR and SSP exactly as they were, whatever the handlers keep on the supervisor
      stack meanwhile; USP is what they last wrote there, and with no such write A7 is as it was. */
  lemma NestingReturns(s: State, c: Cause, body: Activity, top: int)
    requires c.Valid() && Causes(body) && Real(s.sr) && Room(Ssp(s), 6 + c.Extra()) && Ssp(s) <= top
    requires var e := Enter(s, c); LeavesFrames(e, body, e.sp + c.Extra(), top)
    ensures var t := Rte(Run(Enter(s, c), body));
      && t.pc == c.Return(s.pc) && t.sr == s.sr && Ssp(t) == Ssp(s) && Usp(t) == UspAfter(Usp(s), body)
      && (Usp(t) == Usp(s) ==> t.sp == s.sp && t.other == s.other)
      && Same(t.ram, s.ram, Ssp(s), top)
  {
    hide Enter, Rte, Real, Run, LeavesFrames, Same, UspAfter;
    Enters(s, c, top);
    EntersReal(s, c);
    var e := Enter(s, c);
    Handles(e, body, e.sp + c.Extra(), top);
    Returns(s, c, Run(e, body), top);
  }

  // ----- how deep interrupts nest

  /** As the CPU takes them: an interrupt comes above the mask, and handlers do not lower the mask. */
  predicate Taken(s: State, a: Activity)
    requires Causes(a)
    decreases a
  {
    match a
    case Done => true
    case Next(step, rest) =>
      (step.Status? ==> Mask(SetSr(s, step.sr).sr) >= Mask(s.sr)) && Taken(Do(s, step), rest)
    case Nested(cause, body, rest) =>
      && (cause.Interrupt? ==> Mask(s.sr) < cause.level <= 6)
      && Taken(Enter(s, cause), body) && Taken(Rte(Run(Enter(s, cause), body)), rest)
  }

  /** How many interrupts are being handled at once. */
  function Interrupts(a: Activity): nat {
    match a
    case Done => 0
    case Next(_, rest) => Interrupts(rest)
    case Nested(cause, body, rest) =>
      var d := Interrupts(body) + if cause.Interrupt? then 1 else 0;
      if d > Interrupts(rest) then d else Interrupts(rest)
  }

  lemma MaskBits(sr: Word)
    ensures Mask(And(sr, IMPLEMENTED)) == Mask(sr)
  {
    assert And(sr, IMPLEMENTED)[5..8] == sr[5..8];
  }

  /** An interrupt sets the mask to its level; other exceptions keep it. */
  lemma EntersMask(s: State, c: Cause)
    requires c.Valid()
    ensures Mask(Enter(s, c).sr) == if c.Interrupt? then c.level else Mask(s.sr)
  {
    hide Mask;
    MaskBits(c.Status(s.sr));
    StatusMask(s.sr, c);
  }

  lemma StatusMask(sr: Word, c: Cause)
    requires c.Valid()
    ensures Mask(c.Status(sr)) == if c.Interrupt? then c.level else Mask(sr)
  {
    hide ToBits, Val, Pow2;
    assert Entered(sr)[5..8] == sr[5..8];
    if c.Interrupt? {
      assert c.Status(sr)[5..8] == ToBits(c.level, 3);
      assert Pow2(3) == 8 by {
        EightValues();
      }
      ValToBits(c.level, 3);
    }
  }

  lemma EightValues()
    ensures Pow2(3) == 8
  {}

  /** Each interrupt taken raises the mask strictly, so that at most 6 - mask of them nest. */
  lemma {:induction false} NestingBounded(s: State, a: Activity, base: int, top: int)
    requires Causes(a) && Taken(s, a) && LeavesFrames(s, a, base, top) && Supervisor(s.sr) && Real(s.sr)
    requires s.sp <= base <= top
    ensures Interrupts(a) == 0 || Mask(s.sr) + Interrupts(a) <= 6
    decreases a
  {
    hide Enter, Rte, Real, Mask, Same;
    match a
    case Done =>
    case Next(step, rest) =>
      DoesStep(s, step, base, top);
      NestingBounded(Do(s, step), rest, base, top);
    case Nested(cause, body, rest) =>
      var e := Enter(s, cause);
      Enters(s, cause, top);
      EntersReal(s, cause);
      EntersMask(s, cause);
      NestingBounded(e, body, e.sp + cause.Extra(), top);
      Handles(e, body, e.sp + cause.Extra(), top);
      Returns(s, cause, Run(e, body), top);
      NestingBounded(Rte(Run(e, body)), rest, base, top);
  }
}
