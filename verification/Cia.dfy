/** The CIA 8520 (src/core/cia.cpp): cascaded timers, serial output and the time-of-day counter. */
module Cia {
  import opened Bits

  const SHIFT_OUT_UNDERFLOWS := 16
  const TOD_RANGE := 0x100_0000

  /** The bits of CRA and CRB. */
  predicate Start(control: Byte) { control[7] }
  predicate OneShot(control: Byte) { control[4] }
  predicate Load(control: Byte) { control[3] }
  predicate CountsCnt(cra: Byte) { cra[2] }
  predicate SerialOutput(cra: Byte) { cra[1] }
  /** Timer B counts the E clock, CNT (not emulated), or underflows of timer A. */
  predicate CountsClock(crb: Byte) { !crb[1] && !crb[2] }
  predicate CountsTimerA(crb: Byte) { crb[1] }
  predicate WritesAlarm(crb: Byte) { crb[0] }

  datatype Timer = Timer(counter: nat, latch: nat)

  /** One tick of a timer: whether it underflows, and whether it goes on. */
  function Counted(t: Timer, control: Byte): (Timer, Byte, bool) {
    if !Start(control) then (t, control, false)
    else if t.counter != 0 then (t.(counter := t.counter - 1), control, false)
    else (t.(counter := t.latch), if OneShot(control) then control[7 := false] else control, true)
  }

  /** The flags of ICR: serial port, alarm, timer B, timer A. */
  datatype Flags = Flags(flag: bool, sp: bool, alarm: bool, tb: bool, ta: bool)

  datatype State = State(a: Timer, b: Timer, cra: Byte, crb: Byte, icr: Flags, shiftOut: nat, pending: bool)

  datatype Result = Result(s: State, aUnderflow: bool, bUnderflow: bool, byteDone: bool)

  function TickedA(s: State): (State, bool) {
    if CountsCnt(s.cra) then (s, false)
    else
      var (a, cra, underflow) := Counted(s.a, s.cra);
      (s.(a := a, cra := cra, icr := s.icr.(ta := s.icr.ta || underflow)), underflow)
  }

  /** The serial port shifts on underflows of timer A, in continuous mode. */
  function ShiftedOut(s: State, aUnderflow: bool): (State, bool) {
    if !aUnderflow || s.shiftOut == 0 || OneShot(s.cra) then (s, false)
    else if s.shiftOut > 1 then (s.(shiftOut := s.shiftOut - 1), false)
    else
      (s.(shiftOut := if s.pending then SHIFT_OUT_UNDERFLOWS else 0, pending := false, icr := s.icr.(sp := true)),
       true)
  }

  function TickedB(s: State, aUnderflow: bool): (State, bool) {
    if !CountsClock(s.crb) && !(CountsTimerA(s.crb) && aUnderflow) then (s, false)
    else
      var (b, crb, underflow) := Counted(s.b, s.crb);
      (s.(b := b, crb := crb, icr := s.icr.(tb := s.icr.tb || underflow)), underflow)
  }

  /** One E clock. */
  function Ticked(s: State): Result {
    var (s1, aUnderflow) := TickedA(s);
    var (s2, done) := ShiftedOut(s1, aUnderflow);
    var (s3, bUnderflow) := TickedB(s2, aUnderflow);
    Result(s3, aUnderflow, bUnderflow, done)
  }

  // ----- time of day

  datatype Tod = Tod(value: nat, latch: nat, alarm: nat, latched: bool, halted: bool) {
    predicate Valid() { value < TOD_RANGE && latch < TOD_RANGE && alarm < TOD_RANGE }
  }

  function Pulsed(t: Tod): Tod {
    if t.halted then t else t.(value := (t.value + 1) % TOD_RANGE)
  }

  /** Byte `index` of a number: 0 is the low one. */
  function ByteOf(value: nat, index: nat): nat
    requires index < 3
  {
    if index == 0 then value % 0x100 else if index == 1 then value / 0x100 % 0x100 else value / 0x10000 % 0x100
  }

  /** Reading the high byte latches the counter until the low byte is read. */
  function ReadTod(t: Tod, index: nat): (Tod, nat)
    requires index < 3
  {
    if index == 2 then (t.(latch := t.value, latched := true), ByteOf(t.value, 2))
    else
      var value := ByteOf(if t.latched then t.latch else t.value, index);
      (if index == 0 then t.(latched := false) else t, value)
  }

  function WithByte(value: nat, index: nat, b: nat): nat
    requires index < 3
  {
    if index == 0 then value / 0x100 * 0x100 + b
    else if index == 1 then value / 0x10000 * 0x10000 + b * 0x100 + value % 0x100
    else b * 0x10000 + value % 0x10000
  }

  /** Writing the high byte halts the counter until the low byte is written; or the writes set the alarm. */
  function WriteTod(t: Tod, index: nat, b: nat, alarm: bool): Tod
    requires index < 3
  {
    if alarm then t.(alarm := WithByte(t.alarm, index, b))
    else t.(value := WithByte(t.value, index, b), halted := index == 2 || (index == 1 && t.halted))
  }

  // ----- the chip

  class Cia8520 {
    var timerA: Timer
    var timerB: Timer
    var cra: Byte
    var crb: Byte
    var icrData: Flags
    var sdr: Byte
    var shiftOut: nat
    var sdrPending: bool
    var tod: nat
    var todLatch: nat
    var alarm: nat
    var todLatched: bool
    var todHalted: bool

    ghost function Clocked(): State
      reads this
    {
      State(timerA, timerB, cra, crb, icrData, shiftOut, sdrPending)
    }

    ghost function Time(): Tod
      reads this
    {
      Tod(tod, todLatch, alarm, todLatched, todHalted)
    }

    constructor ()
      ensures Clocked() == State(Timer(0xFFFF, 0xFFFF), Timer(0xFFFF, 0xFFFF), Zeros(8), Zeros(8),
                                 Flags(false, false, false, false, false), 0, false)
      ensures Time() == Tod(0, 0, 0, false, false)
    {
      timerA, timerB, cra, crb := Timer(0xFFFF, 0xFFFF), Timer(0xFFFF, 0xFFFF), Zeros(8), Zeros(8);
      icrData, sdr, shiftOut, sdrPending := Flags(false, false, false, false, false), Zeros(8), 0, false;
      tod, todLatch, alarm, todLatched, todHalted := 0, 0, 0, false, false;
    }

    static method Count(timer: Timer, control: Byte) returns (t: Timer, c: Byte, underflow: bool)
      ensures (t, c, underflow) == Counted(timer, control)
    {
      t, c, underflow := timer, control, false;
      if !Start(control) {
        return;
      }
      if timer.counter != 0 {
        t := timer.(counter := timer.counter - 1);
        return;
      }
      t := timer.(counter := timer.latch);
      if OneShot(control) {
        c := control[7 := false];
      }
      underflow := true;
    }

    method Tick()
      modifies this`timerA, this`timerB, this`cra, this`crb, this`icrData, this`shiftOut, this`sdrPending
      ensures Clocked() == Ticked(old(Clocked())).s
    {
      hide TickedA, ShiftedOut, TickedB;
      var aUnderflow := TickA();
      ShiftOut(aUnderflow);
      TickB(aUnderflow);
    }

    method TickA() returns (underflow: bool)
      modifies this`timerA, this`cra, this`icrData
      ensures (Clocked(), underflow) == TickedA(old(Clocked()))
    {
      hide Counted;
      underflow := false;
      if !CountsCnt(cra) {
        timerA, cra, underflow := Count(timerA, cra);
        if underflow {
          icrData := icrData.(ta := true);
        }
      }
    }

    method ShiftOut(aUnderflow: bool)
      modifies this`icrData, this`shiftOut, this`sdrPending
      ensures Clocked() == ShiftedOut(old(Clocked()), aUnderflow).0
    {
      if aUnderflow && shiftOut != 0 && !OneShot(cra) {
        shiftOut := shiftOut - 1;
        if shiftOut == 0 {
          icrData := icrData.(sp := true);
          if sdrPending {
            sdrPending := false;
            shiftOut := SHIFT_OUT_UNDERFLOWS;
          }
        }
      }
    }

    method TickB(aUnderflow: bool)
      modifies this`timerB, this`crb, this`icrData
      ensures Clocked() == TickedB(old(Clocked()), aUnderflow).0
    {
      hide Counted;
      if CountsClock(crb) || (CountsTimerA(crb) && aUnderflow) {
        var underflow;
        timerB, crb, underflow := Count(timerB, crb);
        if underflow {
          icrData := icrData.(tb := true);
        }
      }
    }

    /** A byte for the serial port: it is sent at once, or after the one being sent. */
    method WriteSdr(value: Byte)
      modifies this`sdr, this`shiftOut, this`sdrPending
      ensures sdr == value
      ensures Clocked() == var s := old(Clocked());
        if !SerialOutput(s.cra) then s
        else if s.shiftOut == 0 then s.(shiftOut := SHIFT_OUT_UNDERFLOWS) else s.(pending := true)
    {
      sdr := value;
      if SerialOutput(cra) {
        if shiftOut == 0 {
          shiftOut := SHIFT_OUT_UNDERFLOWS;
        } else {
          sdrPending := true;
        }
      }
    }

    /** The upper half of timer A's latch: unless the timer runs it takes the latch over, and in one-shot mode it
        starts. */
    method WriteTimerAHigh(value: nat)
      modifies this`timerA, this`cra
      ensures var (t, c) := WrittenHigh(old(timerA), old(cra), value); timerA == t && cra == c
    {
      timerA := timerA.(latch := timerA.latch % 0x100 + value * 0x100);
      if OneShot(cra) {
        timerA := timerA.(counter := timerA.latch);
        cra := cra[7 := true];
      } else if !Start(cra) {
        timerA := timerA.(counter := timerA.latch);
      }
    }

    /** CRA: a strobe loads the timer, and a change of direction aborts a transfer. */
    method WriteCra(value: Byte)
      modifies this`timerA, this`cra, this`shiftOut, this`sdrPending
      ensures cra == value[3 := false]
      ensures timerA == if Load(value) then Timer(old(timerA).latch, old(timerA).latch) else old(timerA)
      ensures if SerialOutput(value) == SerialOutput(old(cra))
              then shiftOut == old(shiftOut) && sdrPending == old(sdrPending)
              else shiftOut == 0 && !sdrPending
    {
      if SerialOutput(cra) != SerialOutput(value) {
        shiftOut, sdrPending := 0, false;
      }
      if Load(value) {
        timerA := timerA.(counter := timerA.latch);
      }
      cra := value[3 := false];
    }

    /** Reading ICR clears all the flags. */
    method ReadIcr() returns (flags: Flags)
      modifies this`icrData
      ensures flags == old(icrData) && icrData == Flags(false, false, false, false, false)
    {
      flags := icrData;
      icrData := Flags(false, false, false, false, false);
    }

    method TodPulse()
      modifies this`tod, this`icrData
      ensures Time() == Pulsed(old(Time()))
      ensures icrData == if !todHalted && tod == alarm then old(icrData).(alarm := true) else old(icrData)
    {
      if todHalted {
        return;
      }
      tod := (tod + 1) % TOD_RANGE;
      if tod == alarm {
        icrData := icrData.(alarm := true);
      }
    }

    method ReadTodByte(index: nat) returns (b: nat)
      requires index < 3
      modifies this`todLatch, this`todLatched
      ensures (Time(), b) == ReadTod(old(Time()), index)
    {
      if index == 2 {
        todLatch, todLatched := tod, true;
        return ByteOf(todLatch, 2);
      }
      b := ByteOf(if todLatched then todLatch else tod, index);
      if index == 0 {
        todLatched := false;
      }
    }

    method WriteTodByte(index: nat, value: nat)
      requires index < 3
      modifies this`tod, this`alarm, this`todHalted
      ensures Time() == WriteTod(old(Time()), index, value, WritesAlarm(crb))
    {
      hide WithByte;
      if WritesAlarm(crb) {
        alarm := WithByte(alarm, index, value);
        return;
      }
      tod := WithByte(tod, index, value);
      if index == 2 {
        todHalted := true;
      }
      if index == 0 {
        todHalted := false;
      }
    }
  }

  function WrittenHigh(t: Timer, control: Byte, value: nat): (Timer, Byte) {
    var latch := t.latch % 0x100 + value * 0x100;
    if OneShot(control) then (Timer(latch, latch), control[7 := true])
    else if !Start(control) then (Timer(latch, latch), control)
    else (Timer(t.counter, latch), control)
  }

  /** A write to the high byte of a timer loads it if it is stopped or in one-shot mode, which also starts it. */
  lemma HighWritten(t: Timer, control: Byte, value: nat)
    ensures var (u, c) := WrittenHigh(t, control, value);
      var oneShot := Val(control) / 8 % 2 == 1;
      && u.latch == 0x100 * value + t.latch % 0x100
      && u.counter == (if oneShot || Val(control) % 2 == 0 then u.latch else t.counter)
      && Val(c) % 2 == (if oneShot then 1 else Val(control) % 2) && Val(c) / 2 == Val(control) / 2
  {
    hide Val;
    ControlBits(control);
    LastBit(control);
    LastBit(control[7 := true]);
    assert control[7 := true][..7] == control[..7];
  }

  lemma LastBit(c: Byte)
    ensures Val(c) / 2 == Val(c[..7]) && (Val(c) % 2 == 1) == c[7]
  {
    hide Pow2;
    assert c == c[..7] + [c[7]];
  }

  // ----- the cascade

  /** What has happened during k ticks. */
  datatype Run = Run(s: State, aUnderflows: nat, bUnderflows: nat, bytes: nat)

  function One(b: bool): nat { if b then 1 else 0 }

  function After(s: State, k: nat): Run {
    if k == 0 then Run(s, 0, 0, 0)
    else
      var before := After(s, k - 1);
      var r := Ticked(before.s);
      Run(r.s, before.aUnderflows + One(r.aUnderflow), before.bUnderflows + One(r.bUnderflow),
          before.bytes + One(r.byteDone))
  }

  /** Timer A runs continuously on the E clock. */
  predicate RunsA(s: State) { Start(s.cra) && !OneShot(s.cra) && !CountsCnt(s.cra) }

  /** Timer B runs continuously on the underflows of timer A. */
  predicate CascadesB(s: State) { Start(s.crb) && !OneShot(s.crb) && CountsTimerA(s.crb) }

  /** A timer that was loaded and has counted n ticks. */
  predicate CountedTo(t: Timer, latch: nat, n: nat) { t.latch == latch && t.counter == latch - n % (latch + 1) }

  lemma CountsOn(t: Timer, control: Byte, latch: nat, n: nat)
    requires Start(control) && !OneShot(control) && CountedTo(t, latch, n)
    ensures var (u, c, underflow) := Counted(t, control);
      && CountedTo(u, latch, n + 1) && c == control
      && (n + 1) / (latch + 1) == n / (latch + 1) + One(underflow)
  {
    NextQuotient(n, latch + 1);
  }

  lemma TickOfA(s: State)
    requires RunsA(s)
    ensures var r, (a, cra, underflow) := Ticked(s), Counted(s.a, s.cra);
      r.s.a == a && r.s.cra == cra && r.aUnderflow == underflow
  {
    hide Counted;
  }

  lemma TickOfB(s: State)
    requires CascadesB(s)
    ensures var r, (b, crb, underflow) := Ticked(s), Counted(s.b, s.crb);
      if r.aUnderflow then r.s.b == b && r.s.crb == crb && r.bUnderflow == underflow
      else r.s.b == s.b && r.s.crb == s.crb && !r.bUnderflow
  {
    hide Counted;
  }

  lemma TickOfSerial(s: State)
    requires RunsA(s)
    ensures var r := Ticked(s);
      && r.byteDone == (r.aUnderflow && s.shiftOut == 1)
      && r.s.shiftOut == (if !r.aUnderflow || s.shiftOut == 0 then s.shiftOut
                          else if r.byteDone && s.pending then SHIFT_OUT_UNDERFLOWS else s.shiftOut - 1)
      && r.s.pending == (s.pending && !r.byteDone) && r.s.icr.sp == (s.icr.sp || r.byteDone)
  {}

  /** After k ticks timer A has underflowed floor(k / (NA + 1)) times, and its counter is where that leaves it. */
  lemma {:induction false} TimerACounts(s: State, k: nat)
    requires RunsA(s) && s.a.counter == s.a.latch
    ensures var r := After(s, k);
      && RunsA(r.s) && r.s.cra == s.cra && CountedTo(r.s.a, s.a.latch, k) && r.aUnderflows == k / (s.a.latch + 1)
  {
    hide Ticked, CountedTo, Counted, Start, OneShot, CountsCnt;
    if k > 0 {
      TimerACounts(s, k - 1);
      var before := After(s, k - 1).s;
      TickOfA(before);
      CountsOn(before.a, before.cra, s.a.latch, k - 1);
    } else {
      Loaded(s.a);
    }
  }

  lemma Loaded(t: Timer)
    requires t.counter == t.latch
    ensures CountedTo(t, t.latch, 0) && 0 / (t.latch + 1) == 0
  {
    DivMod(0, t.latch + 1, 0, 0);
  }

  /** Timer B counts those underflows: it has underflowed floor(k / ((NA + 1)(NB + 1))) times. */
  lemma {:induction false} TimerBCounts(s: State, k: nat)
    requires RunsA(s) && CascadesB(s) && s.a.counter == s.a.latch && s.b.counter == s.b.latch
    ensures var r, u := After(s, k), k / (s.a.latch + 1);
      && CascadesB(r.s) && r.s.crb == s.crb && CountedTo(r.s.b, s.b.latch, u)
      && r.bUnderflows == u / (s.b.latch + 1) == k / ((s.a.latch + 1) * (s.b.latch + 1))
  {
    hide Ticked, CountedTo, Counted, Start, OneShot, CountsCnt, CountsTimerA, RunsA;
    Twice(k, s.a.latch + 1, s.b.latch + 1);
    if k > 0 {
      TimerBCounts(s, k - 1);
      TimerACounts(s, k - 1);
      var before := After(s, k - 1).s;
      TickOfA(before);
      TickOfB(before);
      CountsOn(before.a, before.cra, s.a.latch, k - 1) by {
        Continuous(before);
      }
      CountsOn(before.b, before.crb, s.b.latch, (k - 1) / (s.a.latch + 1));
    } else {
      Loaded(s.a);
      Loaded(s.b);
    }
  }

  lemma Continuous(s: State)
    requires RunsA(s)
    ensures Start(s.cra) && !OneShot(s.cra)
  {}

  lemma Twice(k: nat, m: nat, n: nat)
    requires m > 0 && n > 0
    ensures m * n > 0 && k / m / n == k / (m * n)
  {
    var q, r := k / m, k % m;
    assert k == m * q + r;
    Quotients(k, m, n, q, r, q / n, q % n);
  }

  lemma Quotients(k: nat, m: nat, n: nat, q: nat, r: nat, p: nat, t: nat)
    requires k == m * q + r && q == n * p + t && t < n && r < m
    ensures m * n > 0 && k / (m * n) == p
  {
    Digits(m, n, p, t, r);
    DivMod(k, m * n, p, m * t + r);
  }

  lemma Digits(m: nat, n: nat, p: nat, t: nat, r: nat)
    requires t < n && r < m
    ensures m * (n * p + t) + r == p * (m * n) + (m * t + r) && m * t + r < m * n && m * n > 0
  {
    MultipleBounds(n - t, m);
    assert (n - t) * m == m * n - m * t;
    assert m * (n * p + t) == p * (m * n) + m * t;
    assert m * t >= 0;
  }

  // ----- every mode

  /** The control registers in numbers: START, RUNMODE, LOAD, INMODE, SPMODE and ALARM. */
  lemma ControlBits(c: Byte)
    ensures Start(c) == (Val(c) % 2 == 1) && OneShot(c) == (Val(c) / 8 % 2 == 1) && Load(c) == (Val(c) / 16 % 2 == 1)
    ensures CountsCnt(c) == (Val(c) / 32 % 2 == 1) && SerialOutput(c) == (Val(c) / 64 % 2 == 1)
    ensures WritesAlarm(c) == (Val(c) / 128 % 2 == 1)
    ensures CountsClock(c) == (Val(c) / 32 % 4 == 0) && CountsTimerA(c) == (Val(c) / 32 % 4 >= 2)
  {
    hide Val, Pow2;
    PowersOfTwo();
    BitOf(c, 0);
    BitOf(c, 3);
    BitOf(c, 4);
    BitOf(c, 5);
    BitOf(c, 6);
    BitOf(c, 7);
    InMode(Val(c) / 32);
  }

  lemma InMode(v: nat)
    ensures v / 2 % 2 == v % 4 / 2 && v % 2 == v % 4 % 2
  {
    var q, r := v / 4, v % 4;
    assert v == 2 * (2 * q) + r && v / 2 == 2 * q + r / 2;
  }

  /** A timer after n ticks of its input: its state, its control register and its underflows. */
  function CountedTimes(t: Timer, control: Byte, n: nat): (Timer, Byte, nat) {
    if n == 0 then (t, control, 0)
    else
      var (u, c, underflows) := CountedTimes(t, control, n - 1);
      var (u', c', underflow) := Counted(u, c);
      (u', c', underflows + One(underflow))
  }

  lemma {:induction false} SameMode(t: Timer, control: Byte, n: nat)
    ensures var c := CountedTimes(t, control, n).1; c == control || c == control[7 := false]
  {
    if n > 0 {
      SameMode(t, control, n - 1);
    }
  }

  /** One tick, in numbers: timer A counts the E clock unless its INMODE is set; timer B counts the E clock, nothing
      (CNT) or the underflows of timer A, as its INMODE says; each underflow leaves its flag. Unless timer A is in
      one-shot mode, its underflows count down the bits of a byte on its way out, and a queued byte follows. */
  lemma TickMeans(s: State)
    ensures var r, modeA, modeB := Ticked(s), Val(s.cra) / 32 % 2, Val(s.crb) / 32 % 4;
      && (r.s.a, r.s.cra, r.aUnderflow) == (if modeA == 0 then Counted(s.a, s.cra) else (s.a, s.cra, false))
      && (r.s.b, r.s.crb, r.bUnderflow) == (if modeB == 0 || (modeB >= 2 && r.aUnderflow) then Counted(s.b, s.crb)
                                            else (s.b, s.crb, false))
      && r.s.icr == s.icr.(ta := s.icr.ta || r.aUnderflow, tb := s.icr.tb || r.bUnderflow, sp := s.icr.sp || r.byteDone)
      && (r.s.shiftOut, r.s.pending, r.byteDone)
           == (if !r.aUnderflow || s.shiftOut == 0 || Val(s.cra) / 8 % 2 == 1 then (s.shiftOut, s.pending, false)
               else if s.shiftOut > 1 then (s.shiftOut - 1, s.pending, false)
               else (if s.pending then 16 else 0, false, true))
  {
    hide Val, TickedA, ShiftedOut, TickedB, Counted;
    ControlBits(s.cra);
    var (s1, aUnderflow) := TickedA(s);
    var (s2, done) := ShiftedOut(s1, aUnderflow);
    TickMeansA(s);
    ShiftKeeps(s1, aUnderflow);
    TickMeansB(s2, aUnderflow);
  }

  lemma TickMeansA(s: State)
    ensures var (t, underflow) := TickedA(s);
      && (t.a, t.cra, underflow) == (if Val(s.cra) / 32 % 2 == 0 then Counted(s.a, s.cra) else (s.a, s.cra, false))
      && t == s.(a := t.a, cra := t.cra, icr := s.icr.(ta := s.icr.ta || underflow)) && OneShot(t.cra) == OneShot(s.cra)
  {
    hide Val;
    ControlBits(s.cra);
  }

  lemma ShiftKeeps(s: State, aUnderflow: bool)
    ensures var (t, done) := ShiftedOut(s, aUnderflow);
      && t == s.(shiftOut := t.shiftOut, pending := t.pending, icr := s.icr.(sp := s.icr.sp || done))
      && (t.shiftOut, t.pending, done)
           == if !aUnderflow || s.shiftOut == 0 || OneShot(s.cra) then (s.shiftOut, s.pending, false)
              else if s.shiftOut > 1 then (s.shiftOut - 1, s.pending, false)
              else (if s.pending then 16 else 0, false, true)
  {}

  lemma TickMeansB(s: State, aUnderflow: bool)
    ensures var (t, underflow) := TickedB(s, aUnderflow);
      var mode := Val(s.crb) / 32 % 4;
      && (t.b, t.crb, underflow)
           == (if mode == 0 || (mode >= 2 && aUnderflow) then Counted(s.b, s.crb) else (s.b, s.crb, false))
      && t == s.(b := t.b, crb := t.crb, icr := s.icr.(tb := s.icr.tb || underflow))
  {
    hide Val, Counted;
    ControlBits(s.crb);
  }

  lemma StoppedMode(c: Byte)
    ensures Val(c[7 := false]) / 32 == Val(c) / 32
  {
    hide Val, Pow2;
    PowersOfTwo();
    Field(c, 0, 3);
    Field(c[7 := false], 0, 3);
    assert c[0..3] == c[7 := false][0..3];
    ValBound(c);
    ValBound(c[7 := false]);
  }

  lemma ModeKept(t: Timer, control: Byte, n: nat)
    ensures Val(CountedTimes(t, control, n).1) / 32 == Val(control) / 32
  {
    hide Val, CountedTimes;
    SameMode(t, control, n);
    StoppedMode(control);
  }

  lemma {:induction false} TimerAModes(s: State, k: nat)
    ensures var r := After(s, k);
      && (r.s.a, r.s.cra, r.aUnderflows) == CountedTimes(s.a, s.cra, if Val(s.cra) / 32 % 2 == 0 then k else 0)
      && r.s.icr.ta == (s.icr.ta || r.aUnderflows > 0)
  {
    hide Val, Counted, Ticked;
    if k > 0 {
      TimerAModes(s, k - 1);
      TickMeans(After(s, k - 1).s);
      ModeKept(s.a, s.cra, if Val(s.cra) / 32 % 2 == 0 then k - 1 else 0);
    }
  }

  /** The ticks that reach timer B during k E clocks. */
  function InputsOfB(s: State, k: nat): nat {
    var mode := Val(s.crb) / 32 % 4;
    if mode == 0 then k else if mode == 1 then 0 else After(s, k).aUnderflows
  }

  lemma {:induction false} TimerBModes(s: State, k: nat)
    ensures var r := After(s, k);
      && (r.s.b, r.s.crb, r.bUnderflows) == CountedTimes(s.b, s.crb, InputsOfB(s, k))
      && r.s.icr.tb == (s.icr.tb || r.bUnderflows > 0)
  {
    hide Val, Counted, Ticked;
    if k > 0 {
      TimerBModes(s, k - 1);
      TickMeans(After(s, k - 1).s);
      ModeKept(s.b, s.crb, InputsOfB(s, k - 1));
    }
  }

  /** A freshly loaded timer with START set, after n ticks of its input. In one-shot mode it underflows once, reloads
      and stops; otherwise it underflows every N + 1 ticks. */
  lemma {:induction false} TimerRuns(t: Timer, control: Byte, n: nat)
    requires Val(control) % 2 == 1 && t.counter == t.latch
    ensures var (u, c, underflows) := CountedTimes(t, control, n);
      && u.latch == t.latch
      && if Val(control) / 8 % 2 == 1
         then underflows == (if n > t.latch then 1 else 0)
           && u.counter == (if n > t.latch then t.latch else t.latch - n)
           && c == if n > t.latch then control[7 := false] else control
         else underflows == n / (t.latch + 1) && u.counter == t.latch - n % (t.latch + 1) && c == control
  {
    hide Val;
    ControlBits(control);
    if n > 0 {
      TimerRuns(t, control, n - 1);
      NextQuotient(n - 1, t.latch + 1);
    } else {
      DivMod(0, t.latch + 1, 0, 0);
    }
  }

  // ----- serial output

  /** A byte takes exactly 16 underflows of timer A, and a queued one follows at once. */
  lemma {:induction false} SerialTakes16(s: State, k: nat)
    requires RunsA(s) && s.a.counter == s.a.latch && s.shiftOut == SHIFT_OUT_UNDERFLOWS
    ensures var r, u := After(s, k), k / (s.a.latch + 1);
      && r.bytes == (if u < 16 then 0 else if u < 32 || !s.pending then 1 else 2)
      && r.s.shiftOut == (if u < 16 then 16 - u else if s.pending && u < 32 then 32 - u else 0)
      && r.s.pending == (s.pending && u < 16)
      && r.s.icr.sp == (s.icr.sp || r.bytes > 0)
  {
    hide Ticked, Counted, CountedTo, RunsA;
    if k > 0 {
      SerialTakes16(s, k - 1);
      TickOfSerial(After(s, k - 1).s) by {
        TimerACounts(s, k - 1);
      }
      TimerACounts(s, k - 1);
      TimerACounts(s, k);
    } else {
      Loaded(s.a);
    }
  }

  // ----- time of day, read and written in three bytes

  function Pulses(t: Tod, n: nat): Tod { if n == 0 then t else Pulsed(Pulses(t, n - 1)) }

  lemma {:induction false} PulsesKeep(t: Tod, n: nat)
    requires t.Valid()
    ensures var u := Pulses(t, n);
      u == t.(value := u.value) && u.Valid() && u.value == if t.halted then t.value else (t.value + n) % TOD_RANGE
  {
    if n > 0 {
      PulsesKeep(t, n - 1);
    }
  }

  lemma WrapsTwice(value: nat, m: nat, n: nat)
    ensures ((value + m) % TOD_RANGE + n) % TOD_RANGE == (value + m + n) % TOD_RANGE
  {}

  lemma ThreeBytes(value: nat)
    requires value < TOD_RANGE
    ensures ByteOf(value, 2) * 0x10000 + ByteOf(value, 1) * 0x100 + ByteOf(value, 0) == value
  {}

  /** The three bytes read belong together, however many pulses come in between, and the counter runs on. */
  lemma TodReadsTogether(t: Tod, m: nat, n: nat)
    requires t.Valid()
    ensures var (t1, high) := ReadTod(t, 2);
      var (t2, mid) := ReadTod(Pulses(t1, m), 1);
      var (t3, low) := ReadTod(Pulses(t2, n), 0);
      && high * 0x10000 + mid * 0x100 + low == t.value && !t3.latched
      && t3.value == if t.halted then t.value else (t.value + m + n) % 0x100_0000
  {
    hide ByteOf, Pulses;
    var (t1, high) := ReadTod(t, 2);
    PulsesKeep(t1, m);
    var (t2, mid) := ReadTod(Pulses(t1, m), 1);
    PulsesKeep(t2, n);
    WrapsTwice(t.value, m, n);
    ThreeBytes(t.value);
  }

  /** Any read: byte 2 comes from the counter, bytes 1 and 0 from the latch while there is one. */
  lemma TodByteRead(t: Tod, index: nat)
    requires index < 3
    ensures var (u, b) := ReadTod(t, index);
      var v := if t.latched && index < 2 then t.latch else t.value;
      && b == (if index == 0 then v % 0x100 else if index == 1 then v / 0x100 % 0x100 else v / 0x10000 % 0x100)
      && u == t.(latched := index == 2 || (index == 1 && t.latched), latch := if index == 2 then t.value else t.latch)
  {}

  /** The three bytes written, high to low, set the counter however many pulses come in between. */
  lemma TodWritesTogether(t: Tod, v: nat, m: nat, n: nat)
    requires t.Valid() && v < TOD_RANGE
    ensures var t1 := WriteTod(t, 2, ByteOf(v, 2), false);
      var t2 := WriteTod(Pulses(t1, m), 1, ByteOf(v, 1), false);
      var t3 := WriteTod(Pulses(t2, n), 0, ByteOf(v, 0), false);
      t3 == t.(value := v, halted := false)
  {
    hide ByteOf, WithByte;
    var t1 := WriteTod(t, 2, ByteOf(v, 2), false);
    BytesFit(v);
    WritesHigh(t.value, ByteOf(v, 2));
    PulsesKeep(t1, m);
    var t2 := WriteTod(Pulses(t1, m), 1, ByteOf(v, 1), false);
    WritesMiddle(t1.value, ByteOf(v, 2), ByteOf(v, 1));
    PulsesKeep(t2, n);
    WritesLow(t2.value, ByteOf(v, 2) * 0x100 + ByteOf(v, 1), ByteOf(v, 0));
    ThreeBytes(v);
  }

  /** With ALARM set they set the alarm, and leave the counter alone. */
  lemma AlarmWritesTogether(t: Tod, v: nat)
    requires t.Valid() && v < 0x100_0000
    ensures WriteTod(WriteTod(WriteTod(t, 2, v / 0x10000, true), 1, v / 0x100 % 0x100, true), 0, v % 0x100, true)
         == t.(alarm := v)
  {
    hide WithByte;
    var t1 := WriteTod(t, 2, v / 0x10000, true);
    WritesHigh(t.alarm, v / 0x10000);
    var t2 := WriteTod(t1, 1, v / 0x100 % 0x100, true);
    WritesMiddle(t1.alarm, v / 0x10000, v / 0x100 % 0x100);
    WritesLow(t2.alarm, v / 0x100, v % 0x100);
    HighBytes(v);
  }

  lemma HighBytes(v: nat)
    requires v < 0x100_0000
    ensures v / 0x10000 < 0x100 && v / 0x10000 * 0x100 + v / 0x100 % 0x100 == v / 0x100
  {}

  lemma BytesFit(v: nat)
    requires v < TOD_RANGE
    ensures ByteOf(v, 2) < 0x100 && ByteOf(v, 1) < 0x100 && ByteOf(v, 0) < 0x100
  {}

  lemma WritesHigh(x: nat, b: nat)
    requires b < 0x100
    ensures WithByte(x, 2, b) / 0x10000 == b && WithByte(x, 2, b) < TOD_RANGE
  {
    DivMod(WithByte(x, 2, b), 0x10000, b, x % 0x10000);
  }

  lemma WritesMiddle(x: nat, high: nat, b: nat)
    requires x / 0x10000 == high < 0x100 && b < 0x100
    ensures WithByte(x, 1, b) / 0x100 == high * 0x100 + b && WithByte(x, 1, b) < TOD_RANGE
  {
    DivMod(WithByte(x, 1, b), 0x100, high * 0x100 + b, x % 0x100);
  }

  lemma WritesLow(x: nat, high: nat, b: nat)
    requires x / 0x100 == high
    ensures WithByte(x, 0, b) == high * 0x100 + b
  {}
}
