/** The order of the chips within a color clock (src/core/chipset.cpp), as far as the sprites see it. */
module Chipset {
  import opened Bits
  import opened ChipRam
  import Agnus
  import Copper
  import opened Sprites

  /** The log is in beam order and the beam has not passed any of it twice. */
  predicate UpTo(log: seq<Event>, hpos: nat) {
    InBeamOrder(log) && forall i | 0 <= i < |log| :: log[i].hpos <= hpos
  }

  lemma UpToLater(log: seq<Event>, hpos: nat, later: nat)
    requires UpTo(log, hpos) && hpos <= later
    ensures UpTo(log, later)
  {}

  lemma UpToMore(before: seq<Event>, more: seq<Event>, hpos: nat)
    requires UpTo(before, hpos) && AllAt(more, hpos)
    ensures UpTo(before + more, hpos)
  {}

  lemma FirstInOrder(log: seq<Event>, hpos: nat)
    requires UpTo(log, hpos)
    ensures InBeamOrder(First(log, MAX_EVENTS))
  {}

  /** The sprites as they are, as they were at the start of the line, and what has been written since. */
  datatype Line = Line(sprites: seq<Sprite>, start: seq<Sprite>, written: seq<Event>) {
    predicate Valid() { |sprites| == |start| == COUNT }

    function Write(offset: nat, value: Word, hpos: nat): (l: Line)
      requires Valid()
      ensures l.Valid()
    {
      Line(SpritesWritten(sprites, offset, value), start, written + WriteEvents(offset, value, hpos))
    }

    /** A write by the Copper, if there is one. */
    function Copper(write: Copper.Write, hpos: nat): (l: Line)
      requires Valid()
      ensures l.Valid()
    {
      if write.Write? then Write(write.offset, write.value, hpos) else this
    }

    /** The log starts afresh with each line, after the Copper's write in its first color clock. */
    function Begin(hpos: nat): (l: Line)
      requires Valid()
      ensures l.Valid()
    {
      if hpos == 0 then Line(sprites, sprites, []) else this
    }

    /** Sprite DMA, at one color clock of each line. */
    function Dma(ram: seq<Word>, vpos: nat, hpos: nat, enabled: bool): (l: Line)
      requires Valid() && |ram| == WORDS
      ensures l.Valid()
    {
      if hpos == DMA_HPOS && enabled && vpos >= FIRST_DMA_LINE
      then Line(DmaSteps(ram, sprites, vpos), start, written + LineEvents(ram, sprites, vpos, COUNT))
      else this
    }
  }

  /** When the log starts and when sprite DMA comes: at color clocks 0 and $15, the latter from line 25 on. */
  lemma LineTimes(l: Line, ram: seq<Word>, vpos: nat, hpos: nat, enabled: bool)
    requires l.Valid() && |ram| == WORDS
    ensures l.Begin(hpos) == if hpos == 0 then Line(l.sprites, l.sprites, []) else l
    ensures l.Dma(ram, vpos, hpos, enabled)
         == if hpos == 0x15 && enabled && vpos >= 25
            then Line(seq(8, n requires 0 <= n < 8 => DmaStep(ram, l.sprites[n], vpos)), l.start,
                      l.written + LineEvents(ram, l.sprites, vpos, 8))
            else l
  {
    hide DmaStep, LineEvents;
  }

  /** The Copper as it goes into a color clock: it restarts at the top of the frame. */
  function Restarted(s: Copper.State, vpos: nat, hpos: nat): Copper.State {
    if vpos == 0 && hpos == 0 then Copper.Jumped(s, s.cop1lc) else s
  }

  /** In the first color clock of a frame the Copper begins its first list; at all other times it goes on. */
  lemma Restarts(s: Copper.State, vpos: nat, hpos: nat)
    ensures var t := Restarted(s, vpos, hpos);
      if vpos == 0 && hpos == 0 then t == s.(pc := s.cop1lc, phase := Copper.FetchIr1) else t == s
  {}

  /** A write to POS, CTL, DATA or DATB of sprite n is logged, at $140 + 8n, and so is one by the Copper; any other
      write is not. The start of the line stays what it was. */
  lemma LogGrows(l: Line, n: nat, reg: nat, value: Word, hpos: nat)
    requires l.Valid() && n < 8 && reg < 4
    ensures var offset := 0x140 + 8 * n + 2 * reg;
      var m := l.Write(offset, value, hpos);
      && m.start == l.start && m.written == l.written + [Event(hpos, n, reg, value)]
      && l.Copper(Copper.Write(offset, value), hpos) == m && l.Copper(Copper.NoWrite, hpos) == l
    ensures var m := l.Write(0x120 + 4 * n + reg, value, hpos); m.start == l.start && m.written == l.written
    ensures forall offset: nat | offset < 0x120 || offset > 0x17E :: l.Write(offset, value, hpos) == l
  {
    hide Registers.Apply, WithHalf;
    OffsetsMean(l.sprites, n, reg, value, hpos);
    assert l.written + [] == l.written;
  }

  /** The starts of all sprites that a beam visiting every position sees, as far as there is room for them. */
  predicate AreStarts(starts: seq<seq<Trigger>>, start: seq<Sprite>, log: seq<Event>) {
    && |starts| == |start| == COUNT
    && forall n: nat | n < COUNT :: starts[n] == First(Starts(start[n].regs, n, log, 512), 16)
  }

  class Chipset {
    const agnus: Agnus.Agnus
    const copper: Copper.Copper
    const sprites: Sprites

    /** Once a line has begun, all the writes of the line so far are in beam order. */
    ghost predicate Valid()
      reads this, agnus, sprites
    {
      && agnus.Valid() && sprites.Valid()
      && (agnus.hpos > 0 ==> UpTo(sprites.written, agnus.hpos))
    }

    ghost function Now(): Line
      reads this, sprites
    {
      Line(sprites.sprites, sprites.lineStart, sprites.written)
    }

    constructor ()
      ensures Valid() && fresh(agnus) && fresh(copper) && fresh(sprites)
    {
      agnus := new Agnus.Agnus();
      copper := new Copper.Copper();
      sprites := new Sprites();
    }

    /** A write to a sprite register by the Copper or the CPU, logged with the color clock; false for others. */
    method WriteSprites(offset: nat, value: Word) returns (known: bool)
      requires Valid()
      modifies sprites`sprites, sprites`events, sprites`written
      ensures Valid() && Now().Valid() && Now() == old(Now()).Write(offset, value, agnus.hpos)
      ensures known == (FIRST_REGISTER <= offset <= LAST_REGISTER)
    {
      hide InBeamOrder, SpritesWritten, WriteEvents, First, Replay;
      known := sprites.WriteRegister(offset, value, agnus.hpos);
      if agnus.hpos > 0 {
        UpToMore(old(sprites.written), WriteEvents(offset, value, agnus.hpos), agnus.hpos);
      }
    }

    /** A write by the CPU between two color clocks. */
    method WriteCustom(offset: nat, value: Word)
      requires Valid()
      modifies sprites`sprites, sprites`events, sprites`written, copper
      ensures Valid() && Now().Valid() && Now() == old(Now()).Write(offset, value, agnus.hpos)
      ensures copper.Now() == if FIRST_REGISTER <= offset <= LAST_REGISTER then old(copper.Now())
                              else Copper.Written(old(copper.Now()), offset, value)
    {
      hide UpTo, Copper.Written, SpritesWritten, WriteEvents;
      var known := WriteSprites(offset, value);
      if !known {
        copper.WriteRegister(offset, value);
      }
    }

    /** The display of a line: the starts of each sprite. */
    method SpriteStarts() returns (starts: seq<seq<Trigger>>)
      requires sprites.Valid() && InBeamOrder(sprites.events)
      ensures AreStarts(starts, sprites.lineStart, sprites.events)
    {
      hide InBeamOrder, Replay;
      var active := sprites.ActiveOnLine();
      if !active {
        return seq(COUNT, _ => []);
      }
      starts := [];
      for i := 0 to COUNT
        invariant |starts| == i
        invariant forall n: nat | n < i ::
          starts[n] == First(Starts(sprites.lineStart[n].regs, n, sprites.events, POSITIONS), MAX_TRIGGERS)
      {
        var out := new Trigger[MAX_TRIGGERS](_ => Trigger(0, ZERO, ZERO, false));
        var count := sprites.Triggers(i, out);
        starts := starts + [out[..count]];
      }
    }

    /** One color clock, in the order of the source: the Copper, the start of a line, sprite DMA, the display at the
        end of a line, the beam. The starts shown are those that a beam visiting every position sees, given the
        first 128 writes since the line began (and that is all of them, unless there are more). */
    method Tick(ram: array<Word>, copperDma: bool, spriteDma: bool) returns (frame: bool, starts: seq<seq<Trigger>>)
      requires Valid() && ram.Length == WORDS
      modifies agnus, sprites, copper
      ensures Valid() && agnus.hpos == (old(agnus.hpos) + 1) % 227
      ensures agnus.Position() == (old(agnus.Position()) + 1) % 71051
      ensures frame == (agnus.Position() == 0)
      ensures var vpos, hpos, s := old(agnus.vpos), old(agnus.hpos), old(copper.Now());
        var r := Copper.Clocked(Restarted(s, vpos, hpos), ram[..], Copper.Clock(vpos, hpos, copperDma));
        && copper.Now() == r.s && old(Now()).Valid()
        && Now() == old(Now()).Copper(r.write, hpos).Begin(hpos).Dma(ram[..], vpos, hpos, spriteDma)
      ensures if old(agnus.hpos) == 226
              then AreStarts(starts, sprites.lineStart, First(sprites.written, 128)) else starts == []
    {
      hide InBeamOrder, Starts, Replay, DmaSteps, LineEvents, SpritesWritten, WriteEvents, Copper.Clocked, Restarted;
      TickCopper(ram, copperDma);
      TickLine(ram, spriteDma);
      starts := [];
      if agnus.hpos == Agnus.CLOCKS_PER_LINE - 1 {
        FirstInOrder(sprites.written, agnus.hpos);
        starts := SpriteStarts();
      }
      UpToLater(sprites.written, agnus.hpos, agnus.hpos + 1);
      frame := agnus.AdvanceBeam();
    }

    /** What the Copper writes goes to the sprites like any other write. */
    method TickCopper(ram: array<Word>, copperDma: bool)
      requires Valid() && ram.Length == WORDS
      modifies copper, sprites`sprites, sprites`events, sprites`written
      ensures Valid()
      ensures var s := Restarted(old(copper.Now()), agnus.vpos, agnus.hpos);
        var r := Copper.Clocked(s, ram[..], Copper.Clock(agnus.vpos, agnus.hpos, copperDma));
        copper.Now() == r.s && old(Now()).Valid() && Now() == old(Now()).Copper(r.write, agnus.hpos)
    {
      hide Copper.Clocked, UpTo, SpritesWritten, WriteEvents;
      if agnus.vpos == 0 && agnus.hpos == 0 {
        copper.VerticalBlank();
      }
      var write := copper.Tick(ram, agnus.vpos, agnus.hpos, copperDma);
      if write.Write? {
        var known := WriteSprites(write.offset, write.value);
      }
    }

    method TickLine(ram: array<Word>, spriteDma: bool)
      requires Valid() && ram.Length == WORDS
      modifies sprites
      ensures Valid() && UpTo(sprites.written, agnus.hpos) && old(Now()).Valid()
      ensures Now() == old(Now()).Begin(agnus.hpos).Dma(ram[..], agnus.vpos, agnus.hpos, spriteDma)
    {
      hide InBeamOrder, Starts, Replay, DmaSteps, LineEvents;
      if agnus.hpos == 0 {
        sprites.BeginLine();
        Empty();
      }
      if agnus.hpos == DMA_HPOS {
        UpToMore(sprites.written, LineEvents(ram[..], sprites.sprites, agnus.vpos, COUNT), agnus.hpos);
        sprites.DmaLine(ram, agnus.vpos, spriteDma);
      }
    }
  }

  lemma Empty()
    ensures UpTo([], 0)
  {}
}
