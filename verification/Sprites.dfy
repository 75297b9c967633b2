/** The hardware sprites (src/core/sprites.hpp): the log of register writes on a line, its replay,
    and the DMA channels. */
module Sprites {
  import opened Bits
  import opened ChipRam
  import opened Wrappers

  const COUNT := 8
  const MAX_EVENTS := 128
  const MAX_TRIGGERS := 16
  const FIRST_DMA_LINE := 25
  const DMA_HPOS := 0x15
  const POSITIONS := 512

  datatype Registers = Registers(pos: Word, ctl: Word, data: Word, datb: Word, armed: bool) {
    /** HSTART: a lowres position of nine bits. */
    function HStart(): (h: nat)
      ensures h < POSITIONS
    {
      ValBound(pos[8..]);
      assert Pow2(8) == 256;
      2 * Val(pos[8..]) + if ctl[15] then 1 else 0
    }

    function VStart(): nat { Val(pos[..8]) + if ctl[13] then 256 else 0 }

    function VStop(): nat { Val(ctl[..8]) + if ctl[14] then 256 else 0 }

    function Started(): Trigger { Trigger(HStart(), data, datb, ctl[8]) }

    /** POS, CTL (disarms), DATA (arms), DATB. */
    function Apply(reg: nat, value: Word): Registers {
      match reg
      case 0 => this.(pos := value)
      case 1 => this.(ctl := value, armed := false)
      case 2 => this.(data := value, armed := true)
      case _ => this.(datb := value)
    }
  }

  datatype Dma = Idle | WaitStart | Active

  datatype Sprite = Sprite(regs: Registers, pointer: int, dma: Dma)

  /** A register write at a color clock of the line. */
  datatype Event = Event(hpos: nat, sprite: nat, reg: nat, value: Word)

  /** A start of the 16 pixels of a sprite. */
  datatype Trigger = Trigger(hstart: nat, data: Word, datb: Word, attached: bool)

  // ----- the beam, position by position

  /** The registers of sprite n after all the writes of the log. */
  function Replay(start: Registers, n: nat, log: seq<Event>): Registers {
    if log == [] then start
    else
      var e := log[|log| - 1];
      var before := Replay(start, n, log[..|log| - 1]);
      if e.sprite == n then before.Apply(e.reg, e.value) else before
  }

  /** The registers of sprite n as the beam finds them at position p. There are two positions to a color clock, and
      a write counts from the first of its own. */
  function RegistersAt(start: Registers, n: nat, log: seq<Event>, p: nat): Registers {
    if log == [] then start
    else
      var e := log[|log| - 1];
      var before := RegistersAt(start, n, log[..|log| - 1], p);
      if e.sprite == n && 2 * e.hpos <= p then before.Apply(e.reg, e.value) else before
  }

  /** The sprite starts at position p when it is armed and HSTART is p. */
  predicate StartsAt(start: Registers, n: nat, log: seq<Event>, p: nat) {
    var s := RegistersAt(start, n, log, p);
    s.armed && s.HStart() == p
  }

  /** The starts that a beam visiting the first p positions one by one sees. */
  function Starts(start: Registers, n: nat, log: seq<Event>, p: nat): seq<Trigger> {
    if p == 0 then []
    else if StartsAt(start, n, log, p - 1) then
      Starts(start, n, log, p - 1) + [RegistersAt(start, n, log, p - 1).Started()]
    else Starts(start, n, log, p - 1)
  }

  predicate InBeamOrder(log: seq<Event>) {
    forall i, j | 0 <= i < j < |log| :: log[i].hpos <= log[j].hpos
  }

  function First<T>(s: seq<T>, max: nat): (r: seq<T>)
    ensures |r| <= max
  {
    if |s| <= max then s else s[..max]
  }

  predicate Below(s: seq<Trigger>, p: nat) {
    forall i | 0 <= i < |s| :: s[i].hstart < p
  }

  /** The starts of a line are in order from left to right, no two at the same position. */
  lemma {:induction false} StartsIncrease(start: Registers, n: nat, log: seq<Event>, p: nat)
    ensures var s := Starts(start, n, log, p);
      Below(s, p) && forall i, j | 0 <= i < j < |s| :: s[i].hstart < s[j].hstart
  {
    hide RegistersAt;
    if p > 0 {
      StartsIncrease(start, n, log, p - 1);
    }
  }

  /** No sprite starts beyond the last position that HSTART can name. */
  lemma {:induction false} NoMoreStarts(start: Registers, n: nat, log: seq<Event>, p: nat)
    requires p >= POSITIONS
    ensures Starts(start, n, log, p) == Starts(start, n, log, POSITIONS)
  {
    hide RegistersAt;
    if p > POSITIONS {
      NoMoreStarts(start, n, log, p - 1);
    }
  }

  lemma {:induction false} StartsSkip(start: Registers, n: nat, log: seq<Event>, from: nat, to: nat)
    requires from <= to && forall p: nat | from <= p < to :: !StartsAt(start, n, log, p)
    ensures Starts(start, n, log, to) == Starts(start, n, log, from)
  {
    hide StartsAt;
    if from < to {
      StartsSkip(start, n, log, from, to - 1);
    }
  }

  /** The beam is past the first e writes to this sprite and has not met the others. */
  predicate Between(n: nat, log: seq<Event>, e: nat, p: nat) {
    && e <= |log|
    && (forall i | 0 <= i < e :: log[i].sprite == n ==> 2 * log[i].hpos <= p)
    && (forall i | e <= i < |log| :: log[i].sprite == n ==> 2 * log[i].hpos > p)
  }

  lemma {:induction false} BetweenRegisters(start: Registers, n: nat, log: seq<Event>, e: nat, p: nat)
    requires Between(n, log, e, p)
    ensures RegistersAt(start, n, log, p) == Replay(start, n, log[..e])
  {
    if log != [] {
      var m := |log| - 1;
      if e == |log| {
        BetweenRegisters(start, n, log[..m], m, p);
        assert log[..m][..m] == log[..m];
        assert log[..e] == log;
      } else {
        BetweenRegisters(start, n, log[..m], e, p);
        assert log[..m][..e] == log[..e];
      }
    }
  }

  // ----- what the registers are, without replaying anything

  /** A write to one of these registers of sprite n that the beam has met at position p. */
  predicate Met(e: Event, n: nat, regs: set<nat>, p: nat) { e.sprite == n && e.reg in regs && 2 * e.hpos <= p }

  /** The last of them. */
  function LastMet(log: seq<Event>, n: nat, regs: set<nat>, p: nat): (i: Option<nat>)
    ensures i.Some? ==> i.value < |log| && Met(log[i.value], n, regs, p)
    ensures forall j | 0 <= j < |log| && (i.Some? ==> j > i.value) :: !Met(log[j], n, regs, p)
  {
    if log == [] then None
    else
      var m := |log| - 1;
      if Met(log[m], n, regs, p) then Some(m) else LastMet(log[..m], n, regs, p)
  }

  /** What was last written to a register, or what it held at the start of the line. */
  function LastValue(log: seq<Event>, n: nat, reg: nat, p: nat, before: Word): Word {
    var i := LastMet(log, n, {reg}, p);
    if i.Some? then log[i.value].value else before
  }

  /** Armed: the last write to CTL or DATA was one to DATA, or there was none and the sprite was armed. */
  predicate ArmedAt(log: seq<Event>, n: nat, p: nat, before: bool) {
    var i := LastMet(log, n, {1, 2}, p);
    if i.Some? then log[i.value].reg == 2 else before
  }

  /** There are four registers: POS, CTL, DATA and DATB. */
  predicate FourRegisters(log: seq<Event>) { forall i | 0 <= i < |log| :: log[i].reg < 4 }

  /** At any position each register holds what was last written to it there; POS and DATB do not arm or disarm. */
  lemma {:induction false} RegistersMean(start: Registers, n: nat, log: seq<Event>, p: nat)
    requires FourRegisters(log)
    ensures var s := RegistersAt(start, n, log, p);
      && s.pos == LastValue(log, n, 0, p, start.pos) && s.ctl == LastValue(log, n, 1, p, start.ctl)
      && s.data == LastValue(log, n, 2, p, start.data) && s.datb == LastValue(log, n, 3, p, start.datb)
      && s.armed == ArmedAt(log, n, p, start.armed)
  {
    if log != [] {
      hide LastMet, LastValue, ArmedAt;
      var m := |log| - 1;
      RegistersMean(start, n, log[..m], p);
      NextValue(log, n, 0, p, start.pos);
      NextValue(log, n, 1, p, start.ctl);
      NextValue(log, n, 2, p, start.data);
      NextValue(log, n, 3, p, start.datb);
      NextArmed(log, n, p, start.armed);
    } else {
      NothingMet(n, p);
    }
  }

  lemma NothingMet(n: nat, p: nat)
    ensures forall regs: set<nat> :: LastMet([], n, regs, p) == None
  {}

  lemma {:induction false} NextValue(log: seq<Event>, n: nat, reg: nat, p: nat, before: Word)
    requires log != []
    ensures var m := |log| - 1;
      LastValue(log, n, reg, p, before)
        == if log[m].sprite == n && log[m].reg == reg && 2 * log[m].hpos <= p then log[m].value
           else LastValue(log[..m], n, reg, p, before)
  {}

  lemma {:induction false} NextArmed(log: seq<Event>, n: nat, p: nat, before: bool)
    requires log != []
    ensures var m := |log| - 1;
      ArmedAt(log, n, p, before)
        == if log[m].sprite == n && (log[m].reg == 1 || log[m].reg == 2) && 2 * log[m].hpos <= p then log[m].reg == 2
           else ArmedAt(log[..m], n, p, before)
  {}

  /** A position as POS and CTL have it: HSTART is H8 to H1 of POS and H0 of CTL. */
  lemma HStartBits(s: Registers)
    ensures s.HStart() == 2 * (Val(s.pos) % 256) + Val(s.ctl) % 2
    ensures s.ctl[8] == (Val(s.ctl) / 128 % 2 == 1)
  {
    hide Val, Pow2;
    Field(s.pos, 8, 16);
    Field(s.ctl, 15, 16);
    Field(s.ctl, 8, 9);
    SingleBit(s.ctl[15..16]);
    SingleBit(s.ctl[8..9]);
    assert s.pos[8..16] == s.pos[8..];
    PowersOfTwo();
  }

  /** The lines: V7 to V0 of VSTART are in POS and those of VSTOP in CTL, which also has the V8 of both. */
  lemma VerticalBits(s: Registers)
    ensures s.VStart() == Val(s.pos) / 256 + Val(s.ctl) / 4 % 2 * 256
    ensures s.VStop() == Val(s.ctl) / 256 + Val(s.ctl) / 2 % 2 * 256
  {
    hide Val, Pow2;
    PowersOfTwo();
    assert s.pos == s.pos[..8] + s.pos[8..] && s.ctl == s.ctl[..8] + s.ctl[8..];
    ValConcat(s.pos[..8], s.pos[8..]);
    ValConcat(s.ctl[..8], s.ctl[8..]);
    ValBound(s.pos[8..]);
    ValBound(s.ctl[8..]);
    BitOf(s.ctl, 1);
    BitOf(s.ctl, 2);
  }

  /** A sprite starts at a position exactly if it is armed there and its HSTART names it; it starts with the words and
      the attach bit that it has there. */
  lemma StartsMean(start: Registers, n: nat, log: seq<Event>, end: nat, p: nat)
    requires FourRegisters(log) && p < end
    ensures var pos, ctl := LastValue(log, n, 0, p, start.pos), LastValue(log, n, 1, p, start.ctl);
      var data, datb := LastValue(log, n, 2, p, start.data), LastValue(log, n, 3, p, start.datb);
      if ArmedAt(log, n, p, start.armed) && 2 * (Val(pos) % 256) + Val(ctl) % 2 == p
      then Trigger(p, data, datb, Val(ctl) / 128 % 2 == 1) in Starts(start, n, log, end)
      else forall t | t in Starts(start, n, log, end) :: t.hstart != p
  {
    hide LastValue, ArmedAt, RegistersAt, FourRegisters, Registers.HStart, Val;
    RegistersMean(start, n, log, p);
    HStartBits(RegistersAt(start, n, log, p));
    StartsHave(start, n, log, end, p);
  }

  lemma {:induction false} StartsHave(start: Registers, n: nat, log: seq<Event>, end: nat, p: nat)
    requires p < end
    ensures if StartsAt(start, n, log, p) then RegistersAt(start, n, log, p).Started() in Starts(start, n, log, end)
            else forall t | t in Starts(start, n, log, end) :: t.hstart != p
  {
    hide RegistersAt;
    if p + 1 < end {
      StartsHave(start, n, log, end - 1, p);
    } else {
      StartsIncrease(start, n, log, p);
    }
  }

  // ----- the replay

  /** The next write to this sprite. */
  method NextEvent(n: nat, events: seq<Event>, e: nat) returns (next: nat)
    requires e <= |events|
    ensures e <= next <= |events| && (next < |events| ==> events[next].sprite == n)
    ensures forall i | e <= i < next :: events[i].sprite != n
  {
    next := e;
    while next < |events| && events[next].sprite != n
      invariant e <= next <= |events|
      invariant forall i | e <= i < next :: events[i].sprite != n
    {
      next := next + 1;
    }
  }

  lemma {:induction false} ReplaySkip(start: Registers, n: nat, log: seq<Event>, e: nat, next: nat)
    requires e <= next <= |log| && forall i | e <= i < next :: log[i].sprite != n
    ensures Replay(start, n, log[..next]) == Replay(start, n, log[..e])
  {
    if e < next {
      ReplaySkip(start, n, log, e, next - 1);
      assert log[..next][..next - 1] == log[..next - 1];
    }
  }

  /** All writes up to e have been met, and the next one (if any) is e. */
  predicate Reached(n: nat, log: seq<Event>, e: nat, position: nat) {
    && e <= |log| && InBeamOrder(log)
    && (forall i | 0 <= i < e :: log[i].sprite == n ==> 2 * log[i].hpos <= position)
    && (e < |log| ==> log[e].sprite == n)
  }

  lemma ReachedRegisters(start: Registers, n: nat, log: seq<Event>, e: nat, position: nat, p: nat)
    requires Reached(n, log, e, position) && position <= p && (e < |log| ==> p < 2 * log[e].hpos)
    ensures RegistersAt(start, n, log, p) == Replay(start, n, log[..e])
  {
    BetweenRegisters(start, n, log, e, p);
  }

  /** The sprite stays as it is up to the next write, so that it starts where HSTART says or nowhere. */
  lemma Skip(start: Registers, n: nat, log: seq<Event>, e: nat, position: nat, to: nat)
    requires Reached(n, log, e, position) && position <= to && (e < |log| ==> to <= 2 * log[e].hpos)
    requires var s := Replay(start, n, log[..e]); !(s.armed && position <= s.HStart() < to)
    ensures Starts(start, n, log, to) == Starts(start, n, log, position)
  {
    hide Reached, Replay, RegistersAt, Starts;
    forall p: nat | position <= p < to
      ensures !StartsAt(start, n, log, p)
    {
      ReachedRegisters(start, n, log, e, position, p);
    }
    StartsSkip(start, n, log, position, to);
  }

  lemma Shown(start: Registers, n: nat, log: seq<Event>, e: nat, position: nat)
    requires Reached(n, log, e, position)
    requires var s := Replay(start, n, log[..e]);
      s.armed && position <= s.HStart() && (e < |log| ==> s.HStart() < 2 * log[e].hpos)
    ensures var s := Replay(start, n, log[..e]);
      Starts(start, n, log, s.HStart() + 1) == Starts(start, n, log, position) + [s.Started()]
  {
    var s := Replay(start, n, log[..e]);
    Skip(start, n, log, e, position, s.HStart());
    hide Reached, Replay, RegistersAt;
    ReachedRegisters(start, n, log, e, position, s.HStart());
  }

  lemma ReachedBounds(n: nat, log: seq<Event>, e: nat, position: nat)
    requires Reached(n, log, e, position)
    ensures e <= |log| && (e < |log| ==> log[e].sprite == n)
  {}

  lemma Initially(start: Registers, n: nat, log: seq<Event>, e: nat)
    requires e <= |log| && InBeamOrder(log) && (e < |log| ==> log[e].sprite == n)
    requires forall i | 0 <= i < e :: log[i].sprite != n
    ensures Reached(n, log, e, 0) && Replay(start, n, log[..e]) == start && Starts(start, n, log, 0) == []
  {
    ReplaySkip(start, n, log, 0, e);
  }

  lemma ReachedLater(n: nat, log: seq<Event>, e: nat, position: nat, later: nat)
    requires Reached(n, log, e, position) && position <= later
    ensures Reached(n, log, e, later)
  {}

  /** Past the next write. */
  lemma Past(start: Registers, n: nat, log: seq<Event>, e: nat, position: nat, next: nat)
    requires Reached(n, log, e, position) && e < next <= |log| && (next < |log| ==> log[next].sprite == n)
    requires 2 * log[e].hpos <= position && forall i | e < i < next :: log[i].sprite != n
    ensures Reached(n, log, next, position)
    ensures Replay(start, n, log[..next]) == Replay(start, n, log[..e]).Apply(log[e].reg, log[e].value)
  {
    ReplaySkip(start, n, log, e + 1, next);
    assert log[..e + 1][..e] == log[..e];
  }

  /** The last write is past, and the sprite starts no more. */
  lemma Finished(start: Registers, n: nat, log: seq<Event>, position: nat)
    requires Reached(n, log, |log|, position)
    requires var s := Replay(start, n, log); !(s.armed && s.HStart() >= position)
    ensures Starts(start, n, log, POSITIONS) == Starts(start, n, log, position)
  {
    hide Reached, Replay, RegistersAt, Starts;
    assert log[..|log|] == log;
    if position < POSITIONS {
      Skip(start, n, log, |log|, position, POSITIONS);
    } else {
      NoMoreStarts(start, n, log, position);
    }
  }

  lemma NeverArmed(start: Registers, n: nat, p: nat)
    requires !start.armed
    ensures Starts(start, n, [], p) == []
  {
    if p > 0 {
      NeverArmed(start, n, p - 1);
    }
  }

  // ----- DMA

  const FIRST_REGISTER := 0x120
  const FIRST_POSITION := 0x140
  const LAST_REGISTER := 0x17E

  /** The next POS and CTL: the next use of the sprite, or the end of its list. */
  function Control(ram: seq<Word>, s: Sprite): Sprite
    requires |ram| == WORDS
  {
    var regs := s.regs.Apply(0, Read(ram, s.pointer)).Apply(1, Read(ram, s.pointer + 2));
    Sprite(regs, Mask(s.pointer + 4), if regs.VStop() > regs.VStart() then WaitStart else Idle)
  }

  function Begun(s: Sprite, vpos: nat): Sprite {
    if s.dma == WaitStart && vpos == s.regs.VStart() then s.(dma := Active) else s
  }

  /** The DATA and DATB of one line; DATA arms the sprite. */
  function LineData(ram: seq<Word>, s: Sprite): Sprite
    requires |ram| == WORDS
  {
    s.(regs := s.regs.Apply(3, Read(ram, s.pointer + 2)).Apply(2, Read(ram, s.pointer)), pointer := Mask(s.pointer + 4))
  }

  /** One channel on one line. */
  function DmaStep(ram: seq<Word>, s: Sprite, vpos: nat): Sprite
    requires |ram| == WORDS
  {
    var s1 := Begun(if vpos == FIRST_DMA_LINE then Control(ram, s) else s, vpos);
    if s1.dma == Active then ActiveStep(ram, s1, vpos) else s1
  }

  /** The line of a channel that shows its sprite: at VSTOP the next use, which may begin at once. */
  function ActiveStep(ram: seq<Word>, s: Sprite, vpos: nat): Sprite
    requires |ram| == WORDS
  {
    if vpos != s.regs.VStop() then LineData(ram, s)
    else
      var s2 := Begun(Control(ram, s), vpos);
      if s2.dma == Active then LineData(ram, s2) else s2
  }

  function DmaSteps(ram: seq<Word>, sprites: seq<Sprite>, vpos: nat): (r: seq<Sprite>)
    requires |ram| == WORDS && |sprites| == COUNT
    ensures |r| == COUNT
  {
    seq(COUNT, n requires 0 <= n < COUNT => DmaStep(ram, sprites[n], vpos))
  }

  /** All of these writes are at one color clock. */
  predicate AllAt(log: seq<Event>, hpos: nat) { forall i | 0 <= i < |log| :: log[i].hpos == hpos }

  /** What a channel writes when it fetches POS and CTL, or DATB and DATA. */
  function ControlEvents(ram: seq<Word>, s: Sprite, n: nat): (log: seq<Event>)
    requires |ram| == WORDS
    ensures AllAt(log, DMA_HPOS)
  {
    [Event(DMA_HPOS, n, 0, Read(ram, s.pointer)), Event(DMA_HPOS, n, 1, Read(ram, s.pointer + 2))]
  }

  function DataEvents(ram: seq<Word>, s: Sprite, n: nat): (log: seq<Event>)
    requires |ram| == WORDS
    ensures AllAt(log, DMA_HPOS)
  {
    [Event(DMA_HPOS, n, 3, Read(ram, s.pointer + 2)), Event(DMA_HPOS, n, 2, Read(ram, s.pointer))]
  }

  /** What channel n writes on one line: a new use of the sprite where there is one, then the data of the line. */
  function DmaEvents(ram: seq<Word>, s: Sprite, vpos: nat, n: nat): (log: seq<Event>)
    requires |ram| == WORDS
    ensures AllAt(log, DMA_HPOS)
  {
    var first := if vpos == FIRST_DMA_LINE then ControlEvents(ram, s, n) else [];
    var s1 := Begun(if vpos == FIRST_DMA_LINE then Control(ram, s) else s, vpos);
    if s1.dma == Active then first + ActiveEvents(ram, s1, vpos, n) else first
  }

  function ActiveEvents(ram: seq<Word>, s: Sprite, vpos: nat, n: nat): (log: seq<Event>)
    requires |ram| == WORDS
    ensures AllAt(log, DMA_HPOS)
  {
    if vpos != s.regs.VStop() then DataEvents(ram, s, n)
    else
      var s2 := Begun(Control(ram, s), vpos);
      ControlEvents(ram, s, n) + if s2.dma == Active then DataEvents(ram, s2, n) else []
  }

  /** What the first n channels write on one line. */
  function LineEvents(ram: seq<Word>, sprites: seq<Sprite>, vpos: nat, n: nat): (log: seq<Event>)
    requires |ram| == WORDS && n <= |sprites|
    ensures AllAt(log, 0x15)
  {
    if n == 0 then [] else LineEvents(ram, sprites, vpos, n - 1) + DmaEvents(ram, sprites[n - 1], vpos, n - 1)
  }

  lemma {:induction false} ReplayJoined(start: Registers, n: nat, a: seq<Event>, b: seq<Event>)
    ensures Replay(start, n, a + b) == Replay(Replay(start, n, a), n, b)
  {
    if b == [] {
      assert a + b == a;
    } else {
      var k := |b| - 1;
      assert (a + b)[..|a| + k] == a + b[..k];
      ReplayJoined(start, n, a, b[..k]);
    }
  }

  lemma ReplayTwo(start: Registers, n: nat, e: Event, f: Event)
    requires e.sprite == f.sprite
    ensures Replay(start, n, [e, f])
         == if e.sprite == n then start.Apply(e.reg, e.value).Apply(f.reg, f.value) else start
  {
    hide Registers.Apply;
    assert [e, f][..1] == [e];
    assert Replay(start, n, [e][..0]) == start;
    assert Replay(start, n, [e]) == if e.sprite == n then start.Apply(e.reg, e.value) else start;
  }

  /** A replay of what DMA logs on a line gives the registers that DMA has written: those of one channel, ... */
  lemma DmaReplays(ram: seq<Word>, s: Sprite, vpos: nat, n: nat, start: Registers, k: nat)
    requires |ram| == WORDS && (k == n ==> start == s.regs)
    ensures Replay(start, k, DmaEvents(ram, s, vpos, n)) == if k == n then DmaStep(ram, s, vpos).regs else start
  {
    hide Registers.Apply, Replay, Read, Registers.VStop, Registers.VStart;
    var first := if vpos == 25 then ControlEvents(ram, s, n) else [];
    var s1 := Begun(if vpos == 25 then Control(ram, s) else s, vpos);
    var regs := if k == n then s1.regs else start;
    assert Replay(start, k, []) == start by {
      NothingReplayed(start, k);
    }
    ControlReplays(ram, s, n, start, k);
    ReplayJoined(start, k, first, ActiveEvents(ram, s1, vpos, n));
    ActiveReplays(ram, s1, vpos, n, regs, k);
  }

  lemma NothingReplayed(start: Registers, n: nat)
    ensures Replay(start, n, []) == start
  {}

  lemma ControlReplays(ram: seq<Word>, s: Sprite, n: nat, start: Registers, k: nat)
    requires |ram| == WORDS && (k == n ==> start == s.regs)
    ensures Replay(start, k, ControlEvents(ram, s, n)) == if k == n then Control(ram, s).regs else start
  {
    hide Registers.Apply, Replay, Read;
    ReplayTwo(start, k, ControlEvents(ram, s, n)[0], ControlEvents(ram, s, n)[1]);
  }

  lemma DataReplays(ram: seq<Word>, s: Sprite, n: nat, start: Registers, k: nat)
    requires |ram| == WORDS && (k == n ==> start == s.regs)
    ensures Replay(start, k, DataEvents(ram, s, n)) == if k == n then LineData(ram, s).regs else start
  {
    hide Registers.Apply, Replay, Read;
    ReplayTwo(start, k, DataEvents(ram, s, n)[0], DataEvents(ram, s, n)[1]);
  }

  lemma ActiveReplays(ram: seq<Word>, s: Sprite, vpos: nat, n: nat, start: Registers, k: nat)
    requires |ram| == WORDS && (k == n ==> start == s.regs)
    ensures Replay(start, k, ActiveEvents(ram, s, vpos, n)) == if k == n then ActiveStep(ram, s, vpos).regs else start
  {
    hide Control, ControlEvents, DataEvents, LineData, Replay, Registers.VStop, Registers.VStart;
    var s2 := Begun(Control(ram, s), vpos);
    var regs := if k == n then s2.regs else start;
    NothingReplayed(regs, k);
    ControlReplays(ram, s, n, start, k);
    DataReplays(ram, s, n, start, k);
    DataReplays(ram, s2, n, regs, k);
    ReplayJoined(start, k, ControlEvents(ram, s, n), if s2.dma == Active then DataEvents(ram, s2, n) else []);
  }

  /** ... and those of all of them: no channel writes to the sprite of another. */
  lemma {:induction false} LineReplays(ram: seq<Word>, sprites: seq<Sprite>, vpos: nat, n: nat, k: nat)
    requires |ram| == WORDS && k < |sprites| == COUNT && n <= COUNT
    ensures Replay(sprites[k].regs, k, LineEvents(ram, sprites, vpos, n))
         == if k < n then DmaSteps(ram, sprites, vpos)[k].regs else sprites[k].regs
  {
    hide DmaEvents, DmaStep, Replay;
    if n == 0 {
      NothingReplayed(sprites[k].regs, k);
    } else {
      var before := LineEvents(ram, sprites, vpos, n - 1);
      LineReplays(ram, sprites, vpos, n - 1, k);
      ReplayJoined(sprites[k].regs, k, before, DmaEvents(ram, sprites[n - 1], vpos, n - 1));
      DmaReplays(ram, sprites[n - 1], vpos, n - 1, Replay(sprites[k].regs, k, before), k);
    }
  }

  /** The sprites after a write to a register. */
  function SpritesWritten(sprites: seq<Sprite>, offset: nat, value: Word): (r: seq<Sprite>)
    requires |sprites| == COUNT
    ensures |r| == COUNT
  {
    if FIRST_REGISTER <= offset < FIRST_POSITION then
      var n := (offset - FIRST_REGISTER) / 4;
      sprites[n := sprites[n].(pointer := WithHalf(sprites[n].pointer, offset % 4 < 2, value))]
    else if FIRST_POSITION <= offset <= LAST_REGISTER then
      var n := (offset - FIRST_POSITION) / 8;
      sprites[n := sprites[n].(regs := sprites[n].regs.Apply(offset % 8 / 2, value))]
    else sprites
  }

  /** What is logged of it: POS, CTL, DATA and DATB, but not the pointers. */
  function WriteEvents(offset: nat, value: Word, hpos: nat): (log: seq<Event>)
    ensures AllAt(log, hpos)
  {
    if FIRST_POSITION <= offset <= LAST_REGISTER
    then [Event(hpos, (offset - FIRST_POSITION) / 8, offset % 8 / 2, value)]
    else []
  }

  /** POS, CTL, DATA and DATB of sprite n are at $140 + 8n, its pointer is at $120 + 4n, high half first. */
  lemma OffsetsMean(sprites: seq<Sprite>, n: nat, reg: nat, value: Word, hpos: nat)
    requires |sprites| == COUNT && n < 8 && reg < 4
    ensures var s, written := sprites[n], SpritesWritten(sprites, 0x140 + 8 * n + 2 * reg, value);
      && WriteEvents(0x140 + 8 * n + 2 * reg, value, hpos) == [Event(hpos, n, reg, value)]
      && written == sprites[n := s.(regs := s.regs.Apply(reg, value))]
    ensures var high := SpritesWritten(sprites, 0x120 + 4 * n, value);
      var low := SpritesWritten(sprites, 0x122 + 4 * n, value);
      && WriteEvents(0x120 + 4 * n, value, hpos) == [] == WriteEvents(0x122 + 4 * n, value, hpos)
      && high == sprites[n := sprites[n].(pointer := WithHalf(sprites[n].pointer, true, value))]
      && low == sprites[n := sprites[n].(pointer := WithHalf(sprites[n].pointer, false, value))]
  {
    hide Registers.Apply, WithHalf;
  }

  lemma Twice<T>(s: seq<T>, n: nat, x: T, y: T)
    requires n < |s|
    ensures s[n := x][n := y] == s[n := y]
  {}

  lemma Joins<T>(a: seq<T>, ab: seq<T>, b: seq<T>, c: seq<T>)
    requires ab == a + b
    ensures ab + c == a + (b + c)
  {}

  class Sprites {
    var sprites: seq<Sprite>
    var lineStart: seq<Sprite>
    var events: seq<Event>
    /** Every write since the line began, logged or not. */
    ghost var written: seq<Event>

    /** The log holds the first writes of the line, and the writes lead from the start of the line to now. */
    ghost predicate Valid()
      reads this
    {
      && |sprites| == |lineStart| == COUNT
      && events == First(written, MAX_EVENTS)
      && forall n: nat | n < COUNT :: sprites[n].regs == Replay(lineStart[n].regs, n, written)
    }

    constructor ()
      ensures Valid()
    {
      var idle := Sprite(Registers(ZERO, ZERO, ZERO, ZERO, false), 0, Idle);
      sprites, lineStart := seq(COUNT, _ => idle), seq(COUNT, _ => idle);
      events, written := [], [];
    }

    method BeginLine()
      requires Valid()
      modifies this
      ensures Valid() && written == [] && sprites == lineStart == old(sprites)
    {
      lineStart := sprites;
      events, written := [], [];
    }

    method Set(n: nat, reg: nat, value: Word, hpos: nat)
      requires Valid() && n < COUNT
      modifies this`sprites, this`events, this`written
      ensures Valid() && written == old(written) + [Event(hpos, n, reg, value)] && events == First(written, 128)
      ensures sprites == old(sprites)[n := old(sprites[n]).(regs := old(sprites[n]).regs.Apply(reg, value))]
    {
      var e := Event(hpos, n, reg, value);
      sprites := sprites[n := sprites[n].(regs := sprites[n].regs.Apply(reg, value))];
      if |events| < MAX_EVENTS {
        events := events + [e];
      }
      assert (written + [e])[..|written|] == written;
      written := written + [e];
    }

    /** The starts of sprite n on this line: exactly those that a beam visiting every position sees, as far as
        there is room for them. */
    method Triggers(n: nat, out: array<Trigger>) returns (count: nat)
      requires Valid() && n < COUNT && out.Length == MAX_TRIGGERS && InBeamOrder(events)
      modifies out
      ensures count <= 16 && out[..count] == First(Starts(lineStart[n].regs, n, events, 512), 16)
    {
      hide InBeamOrder, Replay, Starts, Reached;
      ghost var start := lineStart[n].regs;
      var state := lineStart[n].regs;
      var position: nat := 0;
      count := 0;
      var e := NextEvent(n, events, 0);
      Initially(start, n, events, e);
      while true
        invariant e <= |events| && Reached(n, events, e, position) && state == Replay(start, n, events[..e])
        invariant count <= MAX_TRIGGERS && out[..count] == First(Starts(start, n, events, position), MAX_TRIGGERS)
        decreases |events| - e, POSITIONS - position
      {
        ReachedBounds(n, events, e, position);
        var h := state.HStart();
        if state.armed && h >= position && (e == |events| || h < 2 * events[e].hpos) {
          Shown(start, n, events, e, position);
          ReachedLater(n, events, e, position, h + 1);
          if count < MAX_TRIGGERS {
            out[count] := state.Started();
            count := count + 1;
          }
          position := h + 1;
        } else if e == |events| {
          assert events[..e] == events;
          Finished(start, n, events, position);
          break;
        } else {
          ghost var before := position;
          if 2 * events[e].hpos > position {
            position := 2 * events[e].hpos;
            Skip(start, n, events, e, before, position);
            ReachedLater(n, events, e, before, position);
          }
          state := state.Apply(events[e].reg, events[e].value);
          var next := NextEvent(n, events, e + 1);
          Past(start, n, events, e, position, next);
          e := next;
        }
      }
    }

    /** A negative answer rules out every start on this line. */
    method ActiveOnLine() returns (active: bool)
      requires Valid()
      ensures !active ==> forall n: nat | n < COUNT :: Starts(lineStart[n].regs, n, events, POSITIONS) == []
    {
      if events != [] {
        return true;
      }
      for i := 0 to COUNT
        invariant forall n: nat | n < i :: Starts(lineStart[n].regs, n, events, POSITIONS) == []
      {
        if lineStart[i].regs.armed {
          return true;
        }
        NeverArmed(lineStart[i].regs, i, POSITIONS);
      }
      return false;
    }

    /** A write by the CPU or the Copper; false for a register that is not a sprite register. */
    method WriteRegister(offset: nat, value: Word, hpos: nat) returns (known: bool)
      requires Valid()
      modifies this`sprites, this`events, this`written
      ensures Valid() && known == (0x120 <= offset <= 0x17E)
      ensures written == old(written) + WriteEvents(offset, value, hpos)
      ensures sprites == SpritesWritten(old(sprites), offset, value)
    {
      if offset < FIRST_REGISTER || offset > LAST_REGISTER {
        return false;
      }
      if offset < FIRST_POSITION {
        var n := (offset - FIRST_REGISTER) / 4;
        sprites := sprites[n := sprites[n].(pointer := WithHalf(sprites[n].pointer, offset % 4 < 2, value))];
        return true;
      }
      Set((offset - FIRST_POSITION) / 8, offset % 8 / 2, value, hpos);
      return true;
    }

    // ----- DMA

    method FetchControl(ram: array<Word>, n: nat)
      requires Valid() && n < COUNT && ram.Length == WORDS
      modifies this`sprites, this`events, this`written
      ensures Valid() && written == old(written) + ControlEvents(ram[..], old(sprites[n]), n)
      ensures sprites == old(sprites)[n := Control(ram[..], old(sprites[n]))]
    {
      var pointer := sprites[n].pointer;
      Set(n, 0, ram[pointer / 2 % WORDS], DMA_HPOS);
      Set(n, 1, ram[(pointer + 2) / 2 % WORDS], DMA_HPOS);
      var s := sprites[n];
      var dma := if s.regs.VStop() > s.regs.VStart() then WaitStart else Idle;
      sprites := sprites[n := Sprite(s.regs, Mask(pointer + 4), dma)];
    }

    /** One line of one channel. */
    method DmaChannel(ram: array<Word>, vpos: nat, n: nat)
      requires Valid() && n < COUNT && ram.Length == WORDS
      modifies this`sprites, this`events, this`written
      ensures Valid() && written == old(written) + DmaEvents(ram[..], old(sprites[n]), vpos, n)
      ensures sprites == old(sprites)[n := DmaStep(ram[..], old(sprites[n]), vpos)]
    {
      assert |sprites| == COUNT;
      hide Valid, Control, Begun, ControlEvents, ActiveStep, ActiveEvents, AllAt;
      if vpos == FIRST_DMA_LINE {
        FetchControl(ram, n);
      }
      Begin(vpos, n);
      ghost var first, s1 := written, sprites[n];
      assert s1 == Begun(if vpos == FIRST_DMA_LINE then Control(ram[..], old(sprites[n])) else old(sprites[n]), vpos);
      assert sprites == old(sprites)[n := s1];
      if sprites[n].dma == Active {
        ActiveLine(ram, vpos, n);
        Twice(old(sprites), n, s1, ActiveStep(ram[..], s1, vpos));
        Joins(old(written), first, if vpos == FIRST_DMA_LINE then ControlEvents(ram[..], old(sprites[n]), n) else [],
              ActiveEvents(ram[..], s1, vpos, n));
      }
    }

    method ActiveLine(ram: array<Word>, vpos: nat, n: nat)
      requires Valid() && n < |sprites| == COUNT && ram.Length == WORDS
      modifies this`sprites, this`events, this`written
      ensures Valid() && written == old(written) + ActiveEvents(ram[..], old(sprites[n]), vpos, n)
      ensures sprites == old(sprites)[n := ActiveStep(ram[..], old(sprites[n]), vpos)]
    {
      hide Valid, Control, Begun, ControlEvents, DataEvents, LineData, Registers.VStop;
      if vpos == sprites[n].regs.VStop() {
        FetchControl(ram, n);
        Begin(vpos, n);
        assert sprites == old(sprites)[n := sprites[n]];
        if sprites[n].dma != Active {
          return;
        }
      }
      FetchData(ram, n);
    }

    method Begin(vpos: nat, n: nat)
      requires Valid() && n < COUNT
      modifies this`sprites
      ensures Valid() && sprites == old(sprites)[n := Begun(old(sprites[n]), vpos)]
    {
      if sprites[n].dma == WaitStart && vpos == sprites[n].regs.VStart() {
        sprites := sprites[n := sprites[n].(dma := Active)];
      }
    }

    method FetchData(ram: array<Word>, n: nat)
      requires Valid() && n < COUNT && ram.Length == WORDS
      modifies this`sprites, this`events, this`written
      ensures Valid() && written == old(written) + DataEvents(ram[..], old(sprites[n]), n)
      ensures sprites == old(sprites)[n := LineData(ram[..], old(sprites[n]))]
    {
      var pointer := sprites[n].pointer;
      Set(n, 3, ram[(pointer + 2) / 2 % WORDS], DMA_HPOS);
      Set(n, 2, ram[pointer / 2 % WORDS], DMA_HPOS);
      sprites := sprites[n := sprites[n].(pointer := Mask(pointer + 4))];
    }

    /** All the channels on one line, from line 25 on. */
    method DmaLine(ram: array<Word>, vpos: nat, enabled: bool)
      requires Valid() && ram.Length == WORDS
      modifies this`sprites, this`events, this`written
      ensures Valid()
      ensures if enabled && vpos >= 25
              then sprites == DmaSteps(ram[..], old(sprites), vpos)
                && written == old(written) + LineEvents(ram[..], old(sprites), vpos, COUNT)
              else sprites == old(sprites) && written == old(written)
    {
      hide DmaStep, DmaEvents;
      if !enabled || vpos < FIRST_DMA_LINE {
        return;
      }
      for i := 0 to COUNT
        invariant Valid() && written == old(written) + LineEvents(ram[..], old(sprites), vpos, i)
        invariant forall n: nat | n < COUNT ::
          sprites[n] == if n < i then DmaStep(ram[..], old(sprites[n]), vpos) else old(sprites[n])
      {
        DmaChannel(ram, vpos, i);
      }
    }
  }
}
