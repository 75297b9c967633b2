/** The scheduler (src/core/machine.cpp): the CPU and the color clock on one timeline, and what is clocked
    along with it. */
module Machine {
  import opened Bits
  import A = Agnus

  const CLOCKS_PER_E := 5
  const CLOCKS_PER_SAMPLE := 74
  const MAX_SAMPLES := 1024
  const CYCLES_PER_CLOCK := 2

  /** What a CPU step gives: a number of cycles, or a panic that halts the CPU. */
  datatype Step = Cycles(n: nat) | Panic

  /** The range of Paula's output on one side: two channels of -8192 to 8128. */
  predicate InRange(level: int) { -16384 <= level <= 16256 }

  /** Division that rounds towards zero. */
  function Truncated(n: int, d: nat): int
    requires d > 0
  {
    if n >= 0 then n / d else 0 - (0 - n) / d
  }

  /** The sum of a level over the color clocks from one up to another. */
  function Total(level: nat -> int, from: nat, end: nat): int
    requires from <= end
  {
    if from == end then 0 else Total(level, from, end - 1) + level(end - 1)
  }

  lemma {:induction false} TotalInRange(level: nat -> int, from: nat, end: nat)
    requires from <= end && forall t: nat :: InRange(level(t))
    ensures -16384 * (end - from) <= Total(level, from, end) <= 16256 * (end - from)
  {
    if from < end {
      TotalInRange(level, from, end - 1);
      assert InRange(level(end - 1));
    }
  }

  /** The sample that ends a period: the average of the level, twice as large, in 16 bits. */
  function Sample(level: nat -> int, i: nat): int {
    Truncated(2 * Total(level, CLOCKS_PER_SAMPLE * i, CLOCKS_PER_SAMPLE * i + CLOCKS_PER_SAMPLE), CLOCKS_PER_SAMPLE)
  }

  /** It covers 74 color clocks, rounds towards zero, and is the 16-bit sample of the average level twice as large. */
  lemma SampleMeans(level: nat -> int, i: nat)
    ensures var total := Total(level, 74 * i, 74 * i + 74);
      var rest := 2 * total - 74 * Sample(level, i);
      -74 < rest < 74 && (total >= 0 ==> rest >= 0) && (total <= 0 ==> rest <= 0)
  {
    hide Total;
  }

  /** A sum, from its first clock on. */
  lemma {:induction false} TotalMeans(level: nat -> int, from: nat, end: nat)
    requires from < end
    ensures Total(level, from, end) == level(from) + Total(level, from + 1, end)
    ensures Total(level, end, end) == 0
  {
    if from + 1 < end {
      TotalMeans(level, from, end - 1);
    }
  }

  class Machine {
    const agnus: A.Agnus
    /** What the CPU steps cost, one after the other. */
    const steps: nat -> Step
    /** Paula's output in each color clock. */
    const left: nat -> int
    const right: nat -> int

    var cpuTime: nat
    var chipTime: nat
    var stepCount: nat
    var cpuHalted: bool
    var eDivider: nat
    var audioClocks: nat
    var audioFrames: nat
    var sumLeft: int
    var sumRight: int
    var buffer: seq<(int, int)>

    /** Color clocks since the start. */
    var clocks: nat
    /** E clocks, samples, and pulses for lines and frames since the start. */
    ghost var eTicks: nat
    ghost var samples: nat
    ghost var linePulses: nat
    ghost var framePulses: nat
    /** The color clock that the frame began with. */
    ghost var frameStart: nat

    /** Every instruction takes time. */
    ghost predicate Takes() { forall i: nat :: steps(i).Cycles? ==> steps(i).n > 0 }

    ghost predicate Levels() { (forall t: nat :: InRange(left(t))) && (forall t: nat :: InRange(right(t))) }

    ghost predicate Valid()
      reads this, agnus
    {
      && Takes() && Levels()
      && agnus.Valid() && agnus.Position() == clocks % A.CLOCKS_PER_FRAME && agnus.hpos == clocks % A.CLOCKS_PER_LINE
      && Clocked(clocks) && Sampled(clocks) && InStep()
    }

    /** The dividers have counted n color clocks. */
    ghost predicate Clocked(n: nat)
      reads this`eDivider, this`eTicks, this`linePulses, this`framePulses
    {
      && eDivider == n % CLOCKS_PER_E && eTicks == n / CLOCKS_PER_E
      && linePulses == n / A.CLOCKS_PER_LINE && framePulses == n / A.CLOCKS_PER_FRAME
    }

    /** Every period of n color clocks has given its sample. */
    ghost predicate Sampled(n: nat)
      reads this`audioClocks, this`samples, this`sumLeft, this`sumRight, this`audioFrames, this`buffer,
            this`frameStart
    {
      && audioClocks == n % CLOCKS_PER_SAMPLE && samples == n / CLOCKS_PER_SAMPLE
      && sumLeft == Total(left, n - audioClocks, n) && sumRight == Total(right, n - audioClocks, n)
      && frameStart <= n && Buffered()
    }

    /** The buffer holds the samples since the frame began. */
    ghost predicate Buffered()
      reads this`samples, this`audioFrames, this`buffer, this`frameStart
    {
      && samples == frameStart / CLOCKS_PER_SAMPLE + |buffer| && audioFrames == |buffer|
      && forall i: nat | i < |buffer| ::
           var k := frameStart / CLOCKS_PER_SAMPLE + i;
           buffer[i] == (Sample(left, k), Sample(right, k))
    }

    /** The cycles of the first n steps. */
    ghost function Spent(n: nat): nat {
      if n == 0 then 0 else Spent(n - 1) + if steps(n - 1).Cycles? then steps(n - 1).n else 0
    }

    /** The CPU's time is that of its instructions, never a whole color clock behind, nor ahead by more than the last
        instruction. */
    ghost predicate InStep()
      reads this`cpuTime, this`chipTime, this`stepCount, this`cpuHalted
    {
      !cpuHalted ==>
        && cpuTime == Spent(stepCount) && chipTime < cpuTime + CYCLES_PER_CLOCK
        && (cpuTime <= chipTime || AheadByOne())
    }

    ghost predicate AheadByOne()
      reads this`cpuTime, this`chipTime, this`stepCount
    {
      stepCount > 0 && steps(stepCount - 1).Cycles? && cpuTime <= chipTime + steps(stepCount - 1).n
    }

    constructor (steps: nat -> Step, left: nat -> int, right: nat -> int)
      requires forall i: nat :: steps(i).Cycles? ==> steps(i).n > 0
      requires (forall t: nat :: InRange(left(t))) && (forall t: nat :: InRange(right(t)))
      ensures Valid() && clocks == 0 && fresh(agnus)
    {
      agnus := new A.Agnus();
      this.steps, this.left, this.right := steps, left, right;
      cpuTime, chipTime, stepCount, cpuHalted := 0, 0, 0, false;
      eDivider, audioClocks, audioFrames, sumLeft, sumRight, buffer := 0, 0, 0, 0, 0, [];
      clocks, eTicks, samples, linePulses, framePulses, frameStart := 0, 0, 0, 0, 0, 0;
    }

    /** One sample; the clamp to 16 bits never acts. */
    static method Scale(sum: int) returns (value: int)
      requires -16384 * CLOCKS_PER_SAMPLE <= sum <= 16256 * CLOCKS_PER_SAMPLE
      ensures value == Truncated(2 * sum, CLOCKS_PER_SAMPLE) && -32768 <= value <= 32767
    {
      value := Truncated(2 * sum, CLOCKS_PER_SAMPLE);
      if value > 32767 {
        value := 32767;
      } else if value < -32768 {
        value := -32768;
      }
    }

    method TickAudio(n: nat)
      requires Sampled(n) && n < frameStart + A.CLOCKS_PER_FRAME
      requires Levels()
      modifies this`audioClocks, this`audioFrames, this`sumLeft, this`sumRight, this`buffer, this`samples
      ensures Sampled(n + 1)
    {
      hide InRange, Sample;
      NextQuotient(n, CLOCKS_PER_SAMPLE);
      sumLeft := sumLeft + left(n);
      sumRight := sumRight + right(n);
      audioClocks := audioClocks + 1;
      if audioClocks == CLOCKS_PER_SAMPLE {
        EndPeriod(n);
      }
    }

    /** The period that color clock n ends. */
    method EndPeriod(ghost n: nat)
      requires Levels()
      requires frameStart <= n < frameStart + A.CLOCKS_PER_FRAME && n % CLOCKS_PER_SAMPLE == CLOCKS_PER_SAMPLE - 1
      requires sumLeft == Total(left, n + 1 - CLOCKS_PER_SAMPLE, n + 1)
      requires sumRight == Total(right, n + 1 - CLOCKS_PER_SAMPLE, n + 1)
      requires samples == n / CLOCKS_PER_SAMPLE && Buffered()
      modifies this`audioClocks, this`audioFrames, this`sumLeft, this`sumRight, this`buffer, this`samples
      ensures sumLeft == sumRight == 0 && audioClocks == 0 && samples == n / CLOCKS_PER_SAMPLE + 1 && Buffered()
    {
      hide InRange, Truncated, Sample, Total;
      PeriodSum(left, samples, n, sumLeft);
      PeriodSum(right, samples, n, sumRight);
      SamplesPerFrame(frameStart, n);
      if audioFrames < MAX_SAMPLES {
        var l := Scale(sumLeft);
        var r := Scale(sumRight);
        buffer := buffer + [(l, r)];
        audioFrames := audioFrames + 1;
      }
      sumLeft, sumRight := 0, 0;
      audioClocks := 0;
      samples := samples + 1;
    }

    /** What is clocked along with the beam, after color clock n. */
    method TickDividers(ghost n: nat)
      requires agnus.Valid() && agnus.Position() == (n + 1) % A.CLOCKS_PER_FRAME
      requires agnus.hpos == (n + 1) % A.CLOCKS_PER_LINE
      requires Clocked(n)
      modifies this`eDivider, this`eTicks, this`linePulses, this`framePulses
      ensures Clocked(n + 1)
    {
      NextQuotient(n, CLOCKS_PER_E);
      NextQuotient(n, A.CLOCKS_PER_LINE);
      NextQuotient(n, A.CLOCKS_PER_FRAME);
      if agnus.hpos == 0 {
        linePulses := linePulses + 1;
        if agnus.vpos == 0 {
          framePulses := framePulses + 1;
        }
      }
      eDivider := eDivider + 1;
      if eDivider == CLOCKS_PER_E {
        eDivider := 0;
        eTicks := eTicks + 1;
      }
    }

    method PassTime()
      requires InStep() && (cpuHalted || cpuTime > chipTime)
      modifies this`chipTime
      ensures InStep() && chipTime == old(chipTime) + CYCLES_PER_CLOCK
    {
      hide Spent;
      chipTime := chipTime + CYCLES_PER_CLOCK;
    }

    /** One color clock; the result tells whether it was the last of the frame. */
    method TickChips() returns (frame: bool)
      requires Valid() && clocks < frameStart + A.CLOCKS_PER_FRAME && (cpuHalted || cpuTime > chipTime)
      modifies this`chipTime, this`audioClocks, this`audioFrames, this`sumLeft, this`sumRight, this`buffer,
        this`samples, this`eDivider, this`eTicks, this`linePulses, this`framePulses, this`clocks, agnus
      ensures Valid() && clocks == old(clocks) + 1 && chipTime == old(chipTime) + CYCLES_PER_CLOCK
      ensures frame == (clocks % A.CLOCKS_PER_FRAME == 0)
    {
      hide Sampled, Clocked, Takes, Levels, InStep, A.Agnus.Valid, A.Agnus.Position;
      NextPosition(clocks);
      frame := agnus.AdvanceBeam();
      PassTime();
      TickAudio(clocks);
      TickDividers(clocks);
      clocks := clocks + 1;
    }

    /** One CPU step; a panic halts the CPU. */
    method StepCpu()
      requires Valid() && !cpuHalted && cpuTime <= chipTime
      modifies this`cpuTime, this`stepCount, this`cpuHalted
      ensures Valid() && stepCount == old(stepCount) + 1
      ensures match steps(old(stepCount))
        case Cycles(n) => cpuTime == old(cpuTime) + n && n > 0 && !cpuHalted
        case Panic => cpuTime == old(cpuTime) && cpuHalted
    {
      hide Sampled, Clocked, Levels;
      match steps(stepCount) {
        case Cycles(n) => cpuTime := cpuTime + n;
        case Panic => cpuHalted := true;
      }
      stepCount := stepCount + 1;
    }

    /** Steps to go before the next color clock, at most. */
    ghost function Behind(): nat
      reads this`cpuTime, this`chipTime, this`cpuHalted
    {
      if cpuHalted || cpuTime > chipTime then 0 else chipTime - cpuTime + 1
    }

    /** Runs until the beam completes the frame, however long the instructions are; a frame that starts at the top
        runs exactly CLOCKS_PER_FRAME color clocks and gives at most 961 samples. */
    method RunFrame()
      requires Valid()
      modifies this, agnus
      ensures Valid() && clocks == (old(clocks) / 71051 + 1) * 71051
      ensures chipTime == old(chipTime) + 2 * (clocks - old(clocks))
      ensures frameStart == old(clocks) && audioFrames <= 961 && (cpuHalted ==> cpuTime == chipTime)
    {
      hide Machine.Valid, ToGo;
      BeginFrame();
      FrameEnds(clocks, clocks);
      while true
        invariant Valid() && frameStart == old(clocks) <= clocks < frameStart + ToGo(frameStart)
        invariant chipTime == old(chipTime) + CYCLES_PER_CLOCK * (clocks - frameStart)
        decreases frameStart + ToGo(frameStart) - clocks, Behind()
      {
        FrameEnds(frameStart, clocks);
        if !cpuHalted && cpuTime <= chipTime {
          StepCpu();
          continue;
        }
        var frameDone := TickChips();
        FrameEnds(frameStart, clocks);
        if frameDone {
          break;
        }
      }
      WholeFrame(old(clocks));
      EndFrame();
    }

    lemma SampleCount()
      requires Sampled(clocks)
      ensures samples == clocks / CLOCKS_PER_SAMPLE
    {}

    method BeginFrame()
      requires Valid()
      modifies this`audioFrames, this`buffer, this`frameStart
      ensures Valid() && frameStart == clocks
    {
      hide Levels, Takes, Sample, Total;
      audioFrames, buffer := 0, [];
      frameStart := clocks;
    }

    method EndFrame()
      requires Valid() && clocks <= frameStart + A.CLOCKS_PER_FRAME
      modifies this`cpuTime
      ensures Valid() && audioFrames <= 961 && (cpuHalted ==> cpuTime == chipTime)
    {
      hide Levels, Takes, Sample, Total;
      SamplesPerFrame(frameStart, clocks);
      if cpuHalted {
        cpuTime := chipTime;
      }
    }

    /** Frames in a row: after k of them 71,051 k color clocks have passed, with floor(71051 k / 5) E clocks,
        floor(71051 k / 74) samples, 313 k line pulses and k frame pulses. */
    method RunFrames(k: nat)
      requires Valid() && clocks == 0
      modifies this, agnus
      ensures Valid() && clocks == k * 71051 && eTicks == k * 71051 / 5 && samples == k * 71051 / 74
      ensures linePulses == k * 313 && framePulses == k
    {
      hide InStep, Sampled, Levels, Takes;
      for i := 0 to k
        invariant Valid() && clocks == i * A.CLOCKS_PER_FRAME
      {
        WholeFrames(i);
        RunFrame();
        WholeFrames(i + 1);
      }
      WholeFrames(k);
      assert Clocked(clocks) && Sampled(clocks);
      SampleCount();
    }
  }

  lemma PeriodSum(level: nat -> int, i: nat, n: nat, sum: int)
    requires (forall t: nat :: InRange(level(t))) && n % CLOCKS_PER_SAMPLE == CLOCKS_PER_SAMPLE - 1
    requires i == n / CLOCKS_PER_SAMPLE && sum == Total(level, n + 1 - CLOCKS_PER_SAMPLE, n + 1)
    ensures -16384 * CLOCKS_PER_SAMPLE <= sum <= 16256 * CLOCKS_PER_SAMPLE
    ensures Truncated(2 * sum, CLOCKS_PER_SAMPLE) == Sample(level, i)
  {
    hide Truncated, InRange;
    assert n + 1 - CLOCKS_PER_SAMPLE == CLOCKS_PER_SAMPLE * i;
    TotalInRange(level, n + 1 - CLOCKS_PER_SAMPLE, n + 1);
  }

  /** There is room for all the samples of a frame. */
  lemma SamplesPerFrame(start: nat, n: nat)
    requires start <= n <= start + A.CLOCKS_PER_FRAME
    ensures n / CLOCKS_PER_SAMPLE - start / CLOCKS_PER_SAMPLE <= 961
  {
    var p, q := start / CLOCKS_PER_SAMPLE, n / CLOCKS_PER_SAMPLE;
    assert start < CLOCKS_PER_SAMPLE * p + CLOCKS_PER_SAMPLE && CLOCKS_PER_SAMPLE * q <= n;
  }

  /** The color clocks to the end of the frame; the beam is at n modulo the frame. */
  function ToGo(n: nat): (t: nat)
    ensures 0 < t <= A.CLOCKS_PER_FRAME
  {
    A.CLOCKS_PER_FRAME - n % A.CLOCKS_PER_FRAME
  }

  lemma WholeFrame(n: nat)
    ensures n + ToGo(n) == (n / 71051 + 1) * 71051
  {
    assert n == 71051 * (n / 71051) + n % 71051;
  }

  lemma FrameEnds(start: nat, n: nat)
    requires start <= n <= start + ToGo(start)
    ensures n > start ==> (n % A.CLOCKS_PER_FRAME == 0) == (n == start + ToGo(start))
  {
    var p, q := start / A.CLOCKS_PER_FRAME, n / A.CLOCKS_PER_FRAME;
    var r := start % A.CLOCKS_PER_FRAME;
    assert start == A.CLOCKS_PER_FRAME * p + r;
    if n == start + ToGo(start) {
      DivMod(n, A.CLOCKS_PER_FRAME, p + 1, 0);
    } else {
      DivMod(n, A.CLOCKS_PER_FRAME, p, r + (n - start));
    }
  }

  lemma NextPosition(n: nat)
    ensures (n % A.CLOCKS_PER_FRAME + 1) % A.CLOCKS_PER_FRAME == (n + 1) % A.CLOCKS_PER_FRAME
    ensures (n % A.CLOCKS_PER_LINE + 1) % A.CLOCKS_PER_LINE == (n + 1) % A.CLOCKS_PER_LINE
  {
    ModNext(n, A.CLOCKS_PER_FRAME);
    ModNext(n, A.CLOCKS_PER_LINE);
  }

  lemma WholeFrames(k: nat)
    ensures k * A.CLOCKS_PER_FRAME % A.CLOCKS_PER_FRAME == 0 && k * A.CLOCKS_PER_FRAME / A.CLOCKS_PER_FRAME == k
    ensures k * A.CLOCKS_PER_FRAME / A.CLOCKS_PER_LINE == k * A.LINES_PER_FRAME
  {
    DivMod(k * A.CLOCKS_PER_FRAME, A.CLOCKS_PER_FRAME, k, 0);
    DivMod(k * A.CLOCKS_PER_FRAME, A.CLOCKS_PER_LINE, k * A.LINES_PER_FRAME, 0);
  }
}
