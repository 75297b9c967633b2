/** Paula's audio channels (src/core/paula_audio.hpp). */
module PaulaAudio {
  import opened Bits
  import opened ChipRam

  const CHANNELS := 4

  datatype Channel = Channel(
    location: int, length: nat, period: nat, volume: nat, data: Word, pointer: int, remaining: nat, countdown: nat,
    output: int, lowByte: bool, dma: bool, manual: bool)
  {
    /** Counters that are about to be counted down are not zero; outputs are signed bytes, volumes at most 64. */
    predicate Valid() { countdown > 0 && (dma ==> remaining > 0) && -128 <= output <= 127 && volume <= 64 }

    predicate Silent() { !dma && !manual && output == 0 }

    /** 0 stands for 65536. */
    function Period(): (p: nat)
      ensures p > 0
    {
      if period == 0 then 65536 else period
    }

    function Length(): (l: nat)
      ensures l > 0
    {
      if length == 0 then 65536 else length
    }
  }

  /** A channel after one color clock, and whether it asks for an interrupt. */
  datatype Result = Result(ch: Channel, interrupt: bool)

  function StartBuffer(ch: Channel): Channel { ch.(pointer := ch.location, remaining := ch.Length()) }

  function Fetch(ch: Channel, ram: seq<Word>): Result
    requires |ram| == WORDS && ch.remaining > 0
  {
    var data := Read(ram, ch.pointer);
    var c := ch.(data := data, pointer := Mask(ch.pointer + 2), remaining := ch.remaining - 1,
                 lowByte := false, countdown := ch.Period(), output := Signed(data[..8]));
    if c.remaining == 0 then Result(StartBuffer(c), true) else Result(c, false)
  }

  /** One color clock of a channel. */
  function TickChannel(ch: Channel, ram: seq<Word>, dma: bool): Result
    requires |ram| == WORDS && ch.Valid()
  {
    if dma && !ch.dma then
      Result(Fetch(StartBuffer(ch.(dma := true, manual := false)), ram).ch, true)
    else if !dma && ch.dma then Result(ch.(dma := false, output := 0), false)
    else if !ch.dma && !ch.manual then Result(ch, false)
    else if ch.countdown > 1 then Result(ch.(countdown := ch.countdown - 1), false)
    else if !ch.lowByte then
      Result(ch.(countdown := ch.Period(), lowByte := true, output := Signed(ch.data[8..])), false)
    else if ch.dma then Fetch(ch, ram)
    else Result(ch.(countdown := ch.Period(), lowByte := false, output := Signed(ch.data[..8])), true)
  }

  lemma TickValid(ch: Channel, ram: seq<Word>, dma: bool)
    requires |ram| == WORDS && ch.Valid()
    ensures TickChannel(ch, ram, dma).ch.Valid()
  {
    hide Signed, Read;
    SignedByte(ch.data[..8]);
    SignedByte(ch.data[8..]);
    SignedByte(Read(ram, ch.pointer)[..8]);
    SignedByte(Read(ram, ch.location)[..8]);
  }

  /** DMACON: the master switch and the bits of the four channels. */
  datatype DmaCon = DmaCon(master: bool, channels: seq<bool>) {
    predicate Valid() { |channels| == CHANNELS }

    predicate Enabled(x: nat)
      requires Valid() && x < CHANNELS
    {
      master && channels[x]
    }
  }

  class PaulaAudio {
    var channels: seq<Channel>
    var idle: bool

    /** The fast path is taken in silence only. */
    ghost predicate Valid()
      reads this
    {
      && |channels| == CHANNELS && (forall x | 0 <= x < CHANNELS :: channels[x].Valid())
      && (idle ==> forall x | 0 <= x < CHANNELS :: channels[x].Silent())
    }

    constructor ()
      ensures Valid() && idle
    {
      channels := seq(CHANNELS, _ => Channel(0, 0, 0, 0, ZERO, 0, 0, 1, 0, false, false, false));
      idle := true;
    }

    method StartBufferOf(x: nat)
      requires |channels| == CHANNELS && x < CHANNELS
      modifies this`channels
      ensures channels == old(channels)[x := StartBuffer(old(channels[x]))]
    {
      var ch := channels[x];
      channels := channels[x := ch.(pointer := ch.location, remaining := if ch.length == 0 then 65536 else ch.length)];
    }

    method FetchOf(x: nat, ram: array<Word>) returns (interrupt: bool)
      requires |channels| == CHANNELS && x < CHANNELS && channels[x].remaining > 0 && ram.Length == WORDS
      modifies this`channels
      ensures channels == old(channels)[x := Fetch(old(channels[x]), ram[..]).ch]
      ensures interrupt == Fetch(old(channels[x]), ram[..]).interrupt
    {
      hide Signed;
      var ch := channels[x];
      ch := ch.(data := ram[ch.pointer / 2 % WORDS], pointer := Mask(ch.pointer + 2), remaining := ch.remaining - 1);
      interrupt := ch.remaining == 0;
      channels := channels[x := ch];
      if interrupt {
        StartBufferOf(x);
      }
      ch := channels[x];
      channels := channels[x := ch.(lowByte := false, countdown := ch.Period(), output := Signed(ch.data[..8]))];
    }

    /** The body of the loop over the channels. */
    method TickOne(x: nat, ram: array<Word>, dma: bool) returns (interrupt: bool)
      requires |channels| == CHANNELS && x < CHANNELS && channels[x].Valid() && ram.Length == WORDS
      modifies this`channels
      ensures channels == old(channels)[x := TickChannel(old(channels[x]), ram[..], dma).ch]
      ensures interrupt == TickChannel(old(channels[x]), ram[..], dma).interrupt
    {
      hide Fetch, Signed;
      var ch := channels[x];
      if dma && !ch.dma {
        channels := channels[x := ch.(dma := true, manual := false)];
        StartBufferOf(x);
        interrupt := FetchOf(x, ram);
        return true;
      }
      if !dma && ch.dma {
        channels := channels[x := ch.(dma := false, output := 0)];
        return false;
      }
      if !ch.dma && !ch.manual {
        return false;
      }
      if ch.countdown > 1 {
        channels := channels[x := ch.(countdown := ch.countdown - 1)];
        return false;
      }
      interrupt := NextByte(x, ram);
    }

    /** The countdown is over. */
    method NextByte(x: nat, ram: array<Word>) returns (interrupt: bool)
      requires |channels| == CHANNELS && x < CHANNELS && channels[x].Valid() && ram.Length == WORDS
      requires channels[x].countdown == 1 && (channels[x].dma || channels[x].manual)
      modifies this`channels
      ensures channels == old(channels)[x := TickChannel(old(channels[x]), ram[..], old(channels[x]).dma).ch]
      ensures interrupt == TickChannel(old(channels[x]), ram[..], old(channels[x]).dma).interrupt
    {
      hide Fetch, Signed;
      var ch := channels[x];
      if !ch.lowByte {
        channels := channels[x := ch.(countdown := ch.Period(), lowByte := true, output := Signed(ch.data[8..]))];
        return false;
      }
      if ch.dma {
        interrupt := FetchOf(x, ram);
        return;
      }
      channels := channels[x := ch.(countdown := ch.Period(), lowByte := false, output := Signed(ch.data[..8]))];
      return true;
    }

    /** One color clock. With the fast path or without it, every channel does its tick. */
    method Tick(ram: array<Word>, dmacon: DmaCon) returns (requests: seq<bool>)
      requires Valid() && dmacon.Valid() && ram.Length == WORDS
      modifies this
      ensures Valid() && |channels| == |requests| == 4
      ensures forall x: nat | x < 4 ::
        Result(channels[x], requests[x]) == TickChannel(old(channels[x]), ram[..], dmacon.master && dmacon.channels[x])
    {
      hide TickChannel;
      if idle && (!dmacon.master || forall x | 0 <= x < CHANNELS :: !dmacon.channels[x]) {
        forall x: nat | x < CHANNELS
          ensures TickChannel(channels[x], ram[..], dmacon.Enabled(x)) == Result(channels[x], false)
        {
          StaysSilent(channels[x], ram[..], dmacon.Enabled(x));
        }
        return seq(CHANNELS, _ => false);
      }
      idle := false;
      requests := TickAll(ram, dmacon);
      idle := true;
      ghost var after := channels;
      for x := 0 to CHANNELS
        invariant channels == after
        invariant idle ==> forall y | 0 <= y < x :: channels[y].Silent()
      {
        if channels[x].dma || channels[x].manual || channels[x].output != 0 {
          idle := false;
        }
      }
    }

    /** The loop over the channels. */
    method TickAll(ram: array<Word>, dmacon: DmaCon) returns (requests: seq<bool>)
      requires Valid() && dmacon.Valid() && ram.Length == WORDS && !idle
      modifies this`channels
      ensures Valid() && |requests| == CHANNELS
      ensures forall x: nat | x < CHANNELS ::
        Result(channels[x], requests[x]) == TickChannel(old(channels[x]), ram[..], dmacon.Enabled(x))
    {
      hide TickChannel, Channel.Valid, DmaCon.Enabled;
      requests := [];
      for x := 0 to CHANNELS
        invariant Valid() && |requests| == x
        invariant forall y: nat | y < x ::
          Result(channels[y], requests[y]) == TickChannel(old(channels[y]), ram[..], dmacon.Enabled(y))
        invariant forall y | x <= y < CHANNELS :: channels[y] == old(channels[y])
      {
        TickValid(channels[x], ram[..], dmacon.Enabled(x));
        var interrupt := TickOne(x, ram, dmacon.Enabled(x));
        requests := requests + [interrupt];
      }
    }

    /** AUDxDAT: without DMA the word is played by hand. */
    method WriteData(x: nat, value: Word)
      requires Valid() && x < CHANNELS
      modifies this
      ensures Valid()
      ensures var ch := old(channels[x]).(data := value);
        channels == old(channels)[x := if ch.dma then ch
                                       else ch.(manual := true, lowByte := false, countdown := ch.Period(),
                                                output := Signed(value[..8]))]
    {
      hide Signed;
      SignedByte(value[..8]);
      var ch := channels[x].(data := value);
      if !ch.dma {
        idle := false;
        ch := ch.(manual := true, lowByte := false, countdown := ch.Period(), output := Signed(value[..8]));
      }
      channels := channels[x := ch];
    }

    /** The other registers: LCH, LCL, LEN, PER, VOL. */
    method WriteRegister(x: nat, reg: nat, value: Word)
      requires Valid() && x < CHANNELS && reg < 5
      modifies this`channels
      ensures Valid() && channels == old(channels)[x := Written(old(channels[x]), reg, value)]
    {
      hide Val, WithHalf;
      assert Val(value[10..]) < 64 by {
        SixBits(value[10..]);
      }
      channels := channels[x := Written(channels[x], reg, value)];
    }

    /** The output of a channel, scaled by its volume. */
    function ChannelOutput(x: nat): (level: int)
      requires Valid() && x < CHANNELS
      reads this
      ensures -8192 <= level <= 8128
    {
      var ch := channels[x];
      VolumeScales(ch.output, ch.volume);
      ch.output * ch.volume
    }

    function Left(): (level: int)
      requires Valid()
      reads this
      ensures -16384 <= level <= 16256
      ensures level == channels[0].output * channels[0].volume + channels[3].output * channels[3].volume
    {
      ChannelOutput(0) + ChannelOutput(3)
    }

    function Right(): (level: int)
      requires Valid()
      reads this
      ensures -16384 <= level <= 16256
      ensures level == channels[1].output * channels[1].volume + channels[2].output * channels[2].volume
    {
      ChannelOutput(1) + ChannelOutput(2)
    }
  }

  lemma VolumeScales(output: int, volume: nat)
    requires -128 <= output <= 127 && volume <= 64
    ensures -8192 <= output * volume <= 8128
  {
    assert (output + 128) * volume >= 0 && (127 - output) * volume >= 0;
  }

  lemma SixBits(b: Bits)
    requires |b| == 6
    ensures Val(b) < 64
  {
    ValBound(b);
    assert Pow2(6) == 64;
  }

  function Written(ch: Channel, reg: nat, value: Word): Channel {
    match reg
    case 0 => ch.(location := WithHalf(ch.location, true, value))
    case 1 => ch.(location := WithHalf(ch.location, false, value))
    case 2 => ch.(length := Val(value))
    case 3 => ch.(period := Val(value))
    case _ => ch.(volume := if value[9] then 64 else Val(value[10..]))
  }

  /** The registers in numbers: AUDxLC comes in two halves, and bit 6 of AUDxVOL is the full volume of 64. */
  lemma WrittenMeans(ch: Channel, value: Word)
    ensures Written(ch, 0, value) == ch.(location := WithHalf(ch.location, true, value))
    ensures Written(ch, 1, value) == ch.(location := WithHalf(ch.location, false, value))
    ensures Written(ch, 2, value) == ch.(length := Val(value)) && Written(ch, 3, value) == ch.(period := Val(value))
    ensures Written(ch, 4, value) == ch.(volume := if Val(value) / 64 % 2 == 1 then 64 else Val(value) % 64)
  {
    hide Val, Pow2, WithHalf;
    PowersOfTwo();
    BitOf(value, 6);
    Field(value, 10, 16);
    assert value[10..16] == value[10..];
  }

  lemma StaysSilent(ch: Channel, ram: seq<Word>, dma: bool)
    requires |ram| == WORDS && ch.Valid() && ch.Silent() && !dma
    ensures TickChannel(ch, ram, dma) == Result(ch, false)
  {}

  // ----- playing a buffer

  /** The channel at color clock t after DMA was switched on, with registers and RAM as they are. */
  function Playing(ch: Channel, ram: seq<Word>, t: nat): (r: Result)
    requires |ram| == WORDS && ch.Valid()
    ensures r.ch.Valid()
  {
    var before := if t == 0 then ch else Playing(ch, ram, t - 1).ch;
    TickValid(before, ram, true);
    TickChannel(before, ram, true)
  }

  /** Byte i of the buffer: two in each word, the high one first. */
  function ByteAt(ch: Channel, ram: seq<Word>, i: nat): Byte
    requires |ram| == WORDS
  {
    var w := Read(ram, ch.location + 2 * (i / 2));
    if i % 2 == 0 then w[..8] else w[8..]
  }

  /** DMA plays with these registers. */
  predicate Settings(c: Channel, ch: Channel) {
    c.dma && !c.manual && c.location == ch.location && c.length == ch.length && c.period == ch.period
    && c.volume == ch.volume
  }

  /** r color clocks after fetch j: word j mod L is being played, and the next word is the one after it. */
  predicate Fetched(ch: Channel, c: Channel, ram: seq<Word>, j: nat, r: nat)
    requires |ram| == WORDS && r < 2 * ch.Period()
  {
    var p, l := ch.Period(), ch.Length();
    && Settings(c, ch)
    && c.data == Read(ram, ch.location + 2 * (j % l))
    && c.remaining == l - (j + 1) % l
    && c.pointer == Mask(ch.location + 2 * ((j + 1) % l))
    && c.lowByte == (r >= p) && c.countdown == (if r < p then p - r else 2 * p - r)
    && c.output == Signed(if r < p then c.data[..8] else c.data[8..])
  }

  /** AUDxLC is an even address in chip RAM. */
  predicate Located(ch: Channel) { Mask(ch.location) == ch.location }

  /** A fetch: word k of the buffer, and after the last one the buffer starts again. */
  lemma Fetches(ch: Channel, c: Channel, ram: seq<Word>, j: nat)
    requires |ram| == WORDS && Located(ch)
    requires var k := j % ch.Length();
      Settings(c, ch) && c.remaining == ch.Length() - k && c.pointer == Mask(ch.location + 2 * k)
    ensures var f := Fetch(c, ram);
      Fetched(ch, f.ch, ram, j, 0) && f.interrupt == ((j + 1) % ch.Length() == 0)
  {
    hide Mask, Read, Signed;
    NextQuotient(j, ch.Length());
    var from := ch.location + 2 * (j % ch.Length());
    MaskAdds(from, 2);
    ReadMasked(ram, from, 0);
    assert Mask(from) + 0 == Mask(from);
    assert ch.location + 2 * 0 == ch.location;
  }

  lemma FirstFetch(ch: Channel, ram: seq<Word>)
    requires |ram| == WORDS && ch.Valid() && Located(ch) && !ch.dma
    ensures var r := TickChannel(ch, ram, true);
      Fetched(ch, r.ch, ram, 0, 0) && r.interrupt
  {
    hide Fetch, Fetched;
    DivMod(0, ch.Length(), 0, 0);
    Fetches(ch, StartBuffer(ch.(dma := true, manual := false)), ram, 0);
  }

  lemma NextClock(ch: Channel, c: Channel, ram: seq<Word>, j: nat, r: nat)
    requires |ram| == WORDS && c.Valid() && Located(ch) && r < 2 * ch.Period() && Fetched(ch, c, ram, j, r)
    ensures var t := TickChannel(c, ram, true);
      if r + 1 < 2 * ch.Period() then Fetched(ch, t.ch, ram, j, r + 1) && !t.interrupt
      else Fetched(ch, t.ch, ram, j + 1, 0) && t.interrupt == ((j + 2) % ch.Length() == 0)
  {
    hide Fetch, Mask, Read, Signed;
    if r + 1 == 2 * ch.Period() {
      Fetches(ch, c, ram, j + 1);
    }
  }

  /** One more color clock, in the next quotient and remainder. */
  lemma PlaysOn(ch: Channel, ram: seq<Word>, t: nat, j: nat, r: nat)
    requires |ram| == WORDS && ch.Valid() && Located(ch) && r < 2 * ch.Period()
    requires Fetched(ch, Playing(ch, ram, t).ch, ram, j, r)
    ensures var next := Playing(ch, ram, t + 1);
      if r + 1 == 2 * ch.Period() then Fetched(ch, next.ch, ram, j + 1, 0)
                                    && next.interrupt == ((j + 2) % ch.Length() == 0)
      else Fetched(ch, next.ch, ram, j, r + 1) && !next.interrupt
  {
    hide TickChannel, Fetched, Located, Channel.Period, Channel.Length;
    NextClock(ch, Playing(ch, ram, t).ch, ram, j, r);
  }

  /** A fetch happens every two periods. */
  lemma FetchTimes(ch: Channel, ram: seq<Word>, t: nat)
    requires |ram| == WORDS && ch.Valid() && Located(ch) && !ch.dma
    ensures var j, r := t / (2 * ch.Period()), t % (2 * ch.Period());
      && Fetched(ch, Playing(ch, ram, t).ch, ram, j, r)
      && (t > 0 ==> Playing(ch, ram, t).interrupt == (r == 0 && (j + 1) % ch.Length() == 0))
  {
    hide Playing, Fetched, Located, Channel.Period, Channel.Length;
    var j, r := LastFetch(ch, ram, t);
    DivMod(t, 2 * ch.Period(), j, r);
  }

  lemma {:induction false} LastFetch(ch: Channel, ram: seq<Word>, t: nat) returns (j: nat, r: nat)
    requires |ram| == WORDS && ch.Valid() && Located(ch) && !ch.dma
    ensures t == j * (2 * ch.Period()) + r && r < 2 * ch.Period()
    ensures Fetched(ch, Playing(ch, ram, t).ch, ram, j, r)
    ensures t > 0 ==> Playing(ch, ram, t).interrupt == (r == 0 && (j + 1) % ch.Length() == 0)
  {
    if t == 0 {
      hide Fetched, Located;
      FirstFetch(ch, ram);
      j, r := 0, 0;
    } else {
      hide *;
      var i, q := LastFetch(ch, ram, t - 1);
      PlaysOn(ch, ram, t - 1, i, q);
      assert (i + 1) * (2 * ch.Period()) == i * (2 * ch.Period()) + 2 * ch.Period();
      j, r := if q + 1 == 2 * ch.Period() then i + 1 else i, if q + 1 == 2 * ch.Period() then 0 else q + 1;
    }
  }

  /** The whole state of a channel t color clocks after DMA was switched on, from its registers alone: a word is
      fetched every two periods, in the order of the buffer and around it; 0 stands for 65536. */
  lemma Plays(ch: Channel, ram: seq<Word>, t: nat)
    requires |ram| == WORDS && ch.Valid() && Located(ch) && !ch.dma
    ensures var p, l := if ch.period == 0 then 65536 else ch.period, if ch.length == 0 then 65536 else ch.length;
      var j, r, c := t / (2 * p), t % (2 * p), Playing(ch, ram, t).ch;
      && Settings(c, ch)
      && c.data == Read(ram, ch.location + 2 * (j % l)) && c.pointer == Mask(ch.location + 2 * ((j + 1) % l))
      && c.remaining == l - (j + 1) % l && c.lowByte == (r >= p) && c.countdown == (if r < p then p - r else 2 * p - r)
  {
    hide Playing, Located, Read, Mask, Signed;
    FetchTimes(ch, ram, t);
  }

  /** The output at color clock t is byte floor(t / p) mod 2l of the buffer, high bytes first, as a signed number. */
  lemma OutputIsByte(ch: Channel, ram: seq<Word>, t: nat)
    requires |ram| == WORDS && ch.Valid() && Located(ch) && !ch.dma
    ensures var p, l := if ch.period == 0 then 65536 else ch.period, if ch.length == 0 then 65536 else ch.length;
      var b := t / p % (2 * l);
      var w := Val(Read(ram, ch.location + 2 * (b / 2)));
      var v := if b % 2 == 0 then w / 256 else w % 256;
      Playing(ch, ram, t).ch.output == if v >= 128 then v - 256 else v
  {
    hide Playing, Located, Read, Signed, Val;
    OutputByte(ch, ram, t);
    var p, l := ch.Period(), ch.Length();
    var b := t / p % (2 * l);
    BytesOf(Read(ram, ch.location + 2 * (b / 2)));
  }

  /** The bytes of a word as signed numbers. */
  lemma BytesOf(w: Word)
    ensures var high, low := Val(w) / 256, Val(w) % 256;
      && Signed(w[..8]) == (if high >= 128 then high - 256 else high)
      && Signed(w[8..]) == if low >= 128 then low - 256 else low
  {
    hide Val, Pow2;
    PowersOfTwo();
    assert w == w[..8] + w[8..];
    ValConcat(w[..8], w[8..]);
    TopBit(w[..8]);
    TopBit(w[8..]);
    ValBound(w[..8]);
  }

  lemma OutputByte(ch: Channel, ram: seq<Word>, t: nat)
    requires |ram| == WORDS && ch.Valid() && Located(ch) && !ch.dma
    ensures Playing(ch, ram, t).ch.output == Signed(ByteAt(ch, ram, t / ch.Period() % (2 * ch.Length())))
  {
    hide Playing, Located, Read, Signed, Channel.Period, Channel.Length;
    FetchTimes(ch, ram, t);
    var p, l := ch.Period(), ch.Length();
    var j, r := t / (2 * p), t % (2 * p);
    var half := if r < p then 0 else 1;
    BytePosition(t, p, l);
    assert (2 * (j % l) + half) / 2 == j % l && (2 * (j % l) + half) % 2 == half;
  }

  lemma BytePosition(t: nat, p: nat, l: nat)
    requires p > 0 && l > 0
    ensures t / p % (2 * l) == 2 * (t / (2 * p) % l) + if t % (2 * p) < p then 0 else 1
  {
    var half := if t % (2 * p) < p then 0 else 1;
    HalfPeriod(t, p, t / (2 * p), half);
    Doubled(t / (2 * p), l, half);
  }

  lemma HalfPeriod(t: nat, p: nat, j: nat, half: nat)
    requires p > 0 && j == t / (2 * p) && half == if t % (2 * p) < p then 0 else 1
    ensures t / p == 2 * j + half
  {
    var r := t % (2 * p);
    assert t == (2 * p) * j + r;
    assert (2 * j + half) * p == (2 * p) * j + half * p;
    DivMod(t, p, 2 * j + half, r - half * p);
  }

  lemma Doubled(j: nat, l: nat, half: nat)
    requires l > 0 && half <= 1
    ensures (2 * j + half) % (2 * l) == 2 * (j % l) + half
  {
    var q, k := j / l, j % l;
    assert j == l * q + k;
    assert q * (2 * l) == 2 * (l * q);
    DivMod(2 * j + half, 2 * l, q, 2 * k + half);
  }

  /** Interrupts come at t = 0 and at t = 2p(ml - 1) for m >= 1, and at no other time. */
  lemma InterruptTimes(ch: Channel, ram: seq<Word>, t: nat)
    requires |ram| == WORDS && ch.Valid() && Located(ch) && !ch.dma
    ensures var p, l := if ch.period == 0 then 65536 else ch.period, if ch.length == 0 then 65536 else ch.length;
      && Playing(ch, ram, t).interrupt == (t == 0 || (t % (2 * p) == 0 && (t / (2 * p) + 1) % l == 0))
      && ((t % (2 * p) == 0 && (t / (2 * p) + 1) % l == 0)
          <==> exists m: nat {:trigger m * l} :: m >= 1 && t == 2 * p * (m * l - 1))
  {
    hide Playing, Located;
    InterruptsAt(ch, ram, t);
    BufferEnds(t, ch.Period(), ch.Length());
  }

  lemma BufferEnds(t: nat, p: nat, l: nat)
    requires p > 0 && l > 0
    ensures t % (2 * p) == 0 && (t / (2 * p) + 1) % l == 0
       <==> exists m: nat {:trigger m * l} :: m >= 1 && t == 2 * p * (m * l - 1)
  {
    var j, r := t / (2 * p), t % (2 * p);
    assert t == 2 * p * j + r;
    if r == 0 && (j + 1) % l == 0 {
      var m := (j + 1) / l;
      assert j + 1 == l * m;
      assert m >= 1 && m * l - 1 == j;
    }
    forall m: nat {:trigger m * l} | m >= 1 && t == 2 * p * (m * l - 1)
      ensures r == 0 && (j + 1) % l == 0
    {
      MultipleBounds(m, l);
      DivMod(t, 2 * p, m * l - 1, 0);
      DivMod(j + 1, l, m, 0);
    }
  }

  lemma InterruptsAt(ch: Channel, ram: seq<Word>, t: nat)
    requires |ram| == WORDS && ch.Valid() && Located(ch) && !ch.dma
    ensures var p, l := ch.Period(), ch.Length();
      Playing(ch, ram, t).interrupt == (t == 0 || (t % (2 * p) == 0 && (t / (2 * p) + 1) % l == 0))
  {
    hide Playing, Located, Channel.Period, Channel.Length, Fetched;
    if t == 0 {
      FirstInterrupt(ch, ram);
    } else {
      FetchTimes(ch, ram, t);
    }
  }

  lemma FirstInterrupt(ch: Channel, ram: seq<Word>)
    requires |ram| == WORDS && ch.Valid() && Located(ch) && !ch.dma
    ensures Playing(ch, ram, 0).interrupt
  {
    hide Fetch;
  }

  /** When DMA is switched off the channel is silent, and stays so; its registers and counters stay as they are. */
  lemma SwitchedOff(ch: Channel, ram: seq<Word>)
    requires |ram| == WORDS && ch.Valid() && ch.dma && !ch.manual
    ensures var r := TickChannel(ch, ram, false);
      r == Result(ch.(dma := false, output := 0), false) && TickChannel(r.ch, ram, false) == r
  {}

  // ----- a word played by hand

  /** The channel t color clocks later, without DMA. */
  function ByHand(ch: Channel, ram: seq<Word>, t: nat): (r: Result)
    requires |ram| == WORDS && ch.Valid()
    ensures r.ch.Valid()
  {
    if t == 0 then Result(ch, false)
    else
      TickValid(ByHand(ch, ram, t - 1).ch, ram, false);
      TickChannel(ByHand(ch, ram, t - 1).ch, ram, false)
  }

  /** r color clocks after the word began. */
  function Within(ch: Channel, r: nat): Channel
    requires r < 2 * ch.Period()
  {
    var p := ch.Period();
    ch.(lowByte := r >= p, countdown := if r < p then p - r else 2 * p - r,
        output := Signed(if r < p then ch.data[..8] else ch.data[8..]))
  }

  lemma WithinNext(ch: Channel, ram: seq<Word>, r: nat)
    requires |ram| == WORDS && ch.Valid() && ch.manual && !ch.dma && r < 2 * ch.Period() && Within(ch, r).Valid()
    ensures TickChannel(Within(ch, r), ram, false)
         == if r + 1 < 2 * ch.Period() then Result(Within(ch, r + 1), false) else Result(Within(ch, 0), true)
  {
    hide Signed;
  }

  lemma {:induction false} LastRepeat(ch: Channel, ram: seq<Word>, t: nat) returns (j: nat, r: nat)
    requires |ram| == WORDS && ch.Valid() && ch.manual && !ch.dma && ch == Within(ch, 0)
    ensures t == j * (2 * ch.Period()) + r && r < 2 * ch.Period()
    ensures ByHand(ch, ram, t) == Result(Within(ch, r), t > 0 && r == 0)
  {
    j, r := 0, 0;
    if t > 0 {
      hide TickChannel, Within, Channel.Period, Channel.Valid;
      var i, q := LastRepeat(ch, ram, t - 1);
      WithinNext(ch, ram, q);
      assert (i + 1) * (2 * ch.Period()) == i * (2 * ch.Period()) + 2 * ch.Period();
      j, r := if q + 1 == 2 * ch.Period() then i + 1 else i, if q + 1 == 2 * ch.Period() then 0 else q + 1;
    }
  }

  /** From a write to AUDxDAT on: the high byte for p color clocks, the low byte for p color clocks, an interrupt, and
      the word again; nothing but the output and its clock changes. */
  lemma WordRepeats(ch: Channel, ram: seq<Word>, t: nat)
    requires |ram| == WORDS && ch.Valid() && ch.manual && !ch.dma && !ch.lowByte
    requires ch.countdown == ch.Period() && ch.output == Signed(ch.data[..8])
    ensures var p := if ch.period == 0 then 65536 else ch.period;
      var r := ByHand(ch, ram, t);
      var v := if t / p % 2 == 0 then Val(ch.data) / 256 else Val(ch.data) % 256;
      && r.ch == ch.(output := r.ch.output, lowByte := r.ch.lowByte, countdown := r.ch.countdown)
      && r.ch.output == (if v >= 128 then v - 256 else v) && r.interrupt == (t > 0 && t % (2 * p) == 0)
  {
    hide ByHand, Signed, Val;
    var p := ch.Period();
    var j, r := LastRepeat(ch, ram, t);
    DivMod(t, 2 * p, j, r);
    HalfPeriod(t, p, j, if r < p then 0 else 1);
    BytesOf(ch.data);
  }
}
