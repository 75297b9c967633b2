/** What a line blit means: with the standard set-up it visits the points nearest to the ideal
    line, in every octant, and its 16-bit error term never overflows. */
module BlitterLine {
  import opened Bits
  import opened ChipRam
  import opened Wrappers
  import opened Blitter

  const BITS := 0x400000

  /** A line that moves dmin on the minor axis while it moves dmax on the major one. */
  predicate Standard(r: LineRegs, s: Line, dmin: int, dmax: int) {
    && 0 <= dmin <= dmax && 0 < dmax <= 1023
    && r.aMod == 4 * (dmin - dmax) && r.bMod == 4 * dmin && r.row % 2 == 0
    && s.error == 4 * dmin - 2 * dmax && s.sign == (s.error < 0)
    && s.Valid() && OnWord(s) && !s.dot
  }

  /** BLTCPT and BLTDPT point at the same word of chip RAM. */
  predicate OnWord(s: Line) {
    0 <= s.address < BYTES && s.address % 2 == 0 && s.dAddress == s.address
  }

  /** How far the line has moved on the minor axis after k pixels: k * dmin / dmax, rounded to the nearest. */
  function Minor(dmin: nat, dmax: nat, k: nat): nat
    requires dmax > 0
  {
    (2 * (k * dmin) + dmax) / (2 * dmax)
  }

  /** Rounding is within half a pixel of the ideal line. */
  lemma HalfPixel(dmin: nat, dmax: nat, k: nat)
    requires dmax > 0
    ensures 0 - dmax <= 2 * (k * dmin - Minor(dmin, dmax, k) * dmax) < dmax
  {
    var x, m := 2 * (k * dmin) + dmax, 2 * dmax;
    assert x == m * (x / m) + x % m;
    assert m * (x / m) == 2 * (Minor(dmin, dmax, k) * dmax);
  }

  lemma HalfPixelUnique(dmin: nat, dmax: nat, k: nat, n: nat)
    requires dmax > 0 && 0 - dmax <= 2 * (k * dmin - n * dmax) < dmax
    ensures n == Minor(dmin, dmax, k)
  {
    var x, m := 2 * (k * dmin) + dmax, 2 * dmax;
    assert n * m == 2 * (n * dmax);
    DivMod(x, m, n, x - n * m);
  }

  // ----- the error term

  /** The error term after k pixels, in terms of the rounded position. */
  function ErrorAfter(dmin: nat, dmax: nat, k: nat): int
    requires dmax > 0
  {
    4 * (k * dmin - Minor(dmin, dmax, k) * dmax) + 4 * dmin - 2 * dmax
  }

  lemma MinorNext(dmin: nat, dmax: nat, k: nat)
    requires 0 < dmax && dmin <= dmax
    ensures Minor(dmin, dmax, k + 1) == Minor(dmin, dmax, k) + if ErrorAfter(dmin, dmax, k) < 0 then 0 else 1
    ensures ErrorAfter(dmin, dmax, k + 1)
         == ErrorAfter(dmin, dmax, k) + if ErrorAfter(dmin, dmax, k) < 0 then 4 * dmin else 4 * (dmin - dmax)
  {
    HalfPixel(dmin, dmax, k);
    var n := Minor(dmin, dmax, k);
    var n' := if ErrorAfter(dmin, dmax, k) < 0 then n else n + 1;
    assert (k + 1) * dmin == k * dmin + dmin && (n + 1) * dmax == n * dmax + dmax;
    HalfPixelUnique(dmin, dmax, k + 1, n');
  }

  lemma ErrorBounds(dmin: nat, dmax: nat, k: nat)
    requires dmax > 0
    ensures 4 * dmin - 4 * dmax <= ErrorAfter(dmin, dmax, k) < 4 * dmin
  {
    HalfPixel(dmin, dmax, k);
    hide Minor;
  }

  lemma Fits16(x: int)
    requires -0x8000 <= x < 0x8000
    ensures Signed16(x) == x
  {}

  /** The error term stays in [4 dmin - 4 dmax, 4 dmin), far inside 16 bits, and tells where the line is. */
  lemma {:induction false} LineError(r: LineRegs, s: Line, dmin: int, dmax: int, k: nat)
    requires Standard(r, s, dmin, dmax)
    ensures var t := LineAfter(r, s, k);
      && t.error == ErrorAfter(dmin, dmax, k) && t.sign == (t.error < 0)
      && 4 * dmin - 4 * dmax <= t.error < 4 * dmin
  {
    hide Dot, Moved2, Mask, Minor, ErrorAfter, Signed16;
    ErrorBounds(dmin, dmax, k);
    if k > 0 {
      LineError(r, s, dmin, dmax, k - 1);
      MinorNext(dmin, dmax, k - 1);
      Fits16(ErrorAfter(dmin, dmax, k));
    } else {
      ErrorStart(dmin, dmax);
    }
  }

  lemma ErrorStart(dmin: nat, dmax: nat)
    requires dmax > 0
    ensures ErrorAfter(dmin, dmax, 0) == 4 * dmin - 2 * dmax
  {
    HalfPixelUnique(dmin, dmax, 0, 0);
  }

  // ----- the position

  /** The offset of point k in the octant that SUD, SUL and AUL select. */
  function X(r: LineRegs, dmin: nat, dmax: nat, k: nat): int
    requires dmax > 0
  {
    if r.sud then (if r.aul then -(k as int) else k)
    else if r.sul then -(Minor(dmin, dmax, k) as int) else Minor(dmin, dmax, k)
  }

  function Y(r: LineRegs, dmin: nat, dmax: nat, k: nat): int
    requires dmax > 0
  {
    if !r.sud then (if r.aul then -(k as int) else k)
    else if r.sul then -(Minor(dmin, dmax, k) as int) else Minor(dmin, dmax, k)
  }

  /** The position of a pixel in chip RAM, in bits: word address and pixel shift together. */
  function Position(address: int, shift: nat): int { 8 * address + shift }

  /** Point k: x pixels to the right of and y rows below the first one. */
  function Point(r: LineRegs, start: int, dmin: nat, dmax: nat, k: nat): (p: nat)
    requires dmax > 0
    ensures p < BITS
  {
    (start + Along(r, dmin, dmax, k)) % BITS
  }

  function Along(r: LineRegs, dmin: nat, dmax: nat, k: nat): int
    requires dmax > 0
  {
    X(r, dmin, dmax, k) + 8 * (r.row * Y(r, dmin, dmax, k))
  }

  /** How far one step goes, to the right and down, when the error term had this sign. */
  function StepRight(r: LineRegs, sign: bool): int {
    if r.sud then (if r.aul then -1 else 1) else if sign then 0 else if r.sul then -1 else 1
  }

  function StepDown(r: LineRegs, sign: bool): int {
    if !r.sud then (if r.aul then -1 else 1) else if sign then 0 else if r.sul then -1 else 1
  }

  function StepBy(r: LineRegs, sign: bool): int {
    StepRight(r, sign) + 8 * (r.row * StepDown(r, sign))
  }

  lemma OneStep(r: LineRegs, s: Line)
    requires s.Valid() && s.address % 2 == 0 && r.row % 2 == 0
    ensures var p := Moved2(r, s);
      && p.1 % 2 == 0
      && Position(p.1, p.0) == Position(s.address, s.shift) + StepBy(r, s.sign)
  {}

  lemma MaskPosition(address: int, shift: nat)
    requires address % 2 == 0 && shift < 16
    ensures Mask(address) % 2 == 0 && 0 <= Mask(address) < BYTES
    ensures Position(Mask(address), shift) == Position(address, shift) % BITS
  {
    var q, m := address / 2 / WORDS, address / 2 % WORDS;
    assert address == 2 * (WORDS * q + m);
    Remainder(Position(address, shift), q, 16 * m + shift);
  }

  lemma Remainder(x: int, q: int, r: int)
    requires x == BITS * q + r && 0 <= r < BITS
    ensures x % BITS == r
  {}

  lemma OffsetNext(r: LineRegs, dmin: nat, dmax: nat, k: nat)
    requires 0 < dmax && dmin <= dmax
    ensures var sign := ErrorAfter(dmin, dmax, k) < 0;
      && X(r, dmin, dmax, k + 1) == X(r, dmin, dmax, k) + StepRight(r, sign)
      && Y(r, dmin, dmax, k + 1) == Y(r, dmin, dmax, k) + StepDown(r, sign)
  {
    MinorNext(dmin, dmax, k);
    hide Minor, ErrorAfter;
  }

  lemma AlongNext(r: LineRegs, dmin: nat, dmax: nat, k: nat)
    requires 0 < dmax && dmin <= dmax
    ensures Along(r, dmin, dmax, k + 1) == Along(r, dmin, dmax, k) + StepBy(r, ErrorAfter(dmin, dmax, k) < 0)
  {
    hide X, Y, StepRight, StepDown, ErrorAfter;
    OffsetNext(r, dmin, dmax, k);
    var dy := StepDown(r, ErrorAfter(dmin, dmax, k) < 0);
    assert r.row * (Y(r, dmin, dmax, k) + dy) == r.row * Y(r, dmin, dmax, k) + r.row * dy;
  }

  lemma ModAdd(a: int, b: int)
    ensures (a % BITS + b) % BITS == (a + b) % BITS
  {}

  lemma PointNext(r: LineRegs, start: int, dmin: nat, dmax: nat, k: nat)
    requires 0 < dmax && dmin <= dmax
    ensures Point(r, start, dmin, dmax, k + 1)
         == (Point(r, start, dmin, dmax, k) + StepBy(r, ErrorAfter(dmin, dmax, k) < 0)) % BITS
  {
    hide Along, StepBy, ErrorAfter;
    AlongNext(r, dmin, dmax, k);
    ModAdd(start + Along(r, dmin, dmax, k), StepBy(r, ErrorAfter(dmin, dmax, k) < 0));
  }

  /** Word address and pixel shift follow the points of the line, modulo the size of chip RAM. */
  lemma {:induction false} LinePosition(r: LineRegs, s: Line, dmin: int, dmax: int, k: nat)
    requires Standard(r, s, dmin, dmax)
    ensures var t := LineAfter(r, s, k);
      OnWord(t) && Position(t.address, t.shift) == Point(r, Position(s.address, s.shift), dmin, dmax, k)
  {
    hide Dot, Moved2, Mask, ErrorAfter, StepBy, Point, Position, Signed16;
    var start := Position(s.address, s.shift);
    if k > 0 {
      LinePosition(r, s, dmin, dmax, k - 1);
      LineError(r, s, dmin, dmax, k - 1);
      var before := LineAfter(r, s, k - 1);
      OneStep(r, Draw(r, before));
      PointNext(r, start, dmin, dmax, k - 1);
      var p := Moved2(r, Draw(r, before));
      MaskPosition(p.1, p.0);
    } else {
      StartPoint(r, s, dmin, dmax);
    }
  }

  lemma StartPoint(r: LineRegs, s: Line, dmin: int, dmax: int)
    requires Standard(r, s, dmin, dmax)
    ensures Position(s.address, s.shift) == Point(r, Position(s.address, s.shift), dmin, dmax, 0)
  {
    HalfPixelUnique(dmin, dmax, 0, 0);
  }

  // ----- the picture

  predicate Bit(ram: seq<Word>, p: nat)
    requires |ram| == WORDS && p < BITS
  {
    ram[p / 16][p % 16]
  }

  /** A line over what is there: LF $CA (B where A is, C elsewhere) and one pixel in A. */
  predicate Pen(r: LineRegs) {
    && r.lf == [true, true, false, false, true, false, true, false]
    && r.a == [true] + Zeros(15)
  }

  /** In single-dot mode a line that is wider than high draws only the first point of each row. */
  predicate Dotted(r: LineRegs, dmin: nat, dmax: nat, k: nat)
    requires dmax > 0
  {
    !(r.single && r.sud && k > 0 && Minor(dmin, dmax, k) == Minor(dmin, dmax, k - 1))
  }

  /** Any dot, bit by bit: A moved to the pixel, the texture bit that is at the right end, and C. */
  lemma DotMeans(r: LineRegs, s: Line, i: nat)
    requires s.Valid() && i < 16
    ensures var a, c := i >= s.shift && r.a[i - s.shift], Read(s.ram, s.address);
      Dot(r, s)[i]
        == if r.single && s.dot then c[i]
           else r.lf[7 - ((if a then 4 else 0) + (if s.texture[15] then 2 else 0) + (if c[i] then 1 else 0))]
  {
    hide Read;
  }

  lemma OnePixel(r: LineRegs, s: Line)
    requires Pen(r) && s.Valid()
    ensures Dot(r, s)
         == var c := Read(s.ram, s.address); if r.single && s.dot then c else c[s.shift := s.texture[15]]
  {
    hide Dot, Read;
    var c := Read(s.ram, s.address);
    forall i | 0 <= i < 16
      ensures Dot(r, s)[i] == if r.single && s.dot then c[i] else c[s.shift := s.texture[15]][i]
    {
      DotMeans(r, s, i);
    }
  }

  lemma DrawSets(r: LineRegs, s: Line, p: nat)
    requires Pen(r) && s.Valid() && OnWord(s) && p < BITS
    ensures Bit(Draw(r, s).ram, p)
         == if p == Position(s.address, s.shift) && !(r.single && s.dot) then s.texture[15] else Bit(s.ram, p)
  {
    hide Dot;
    OnePixel(r, s);
    assert s.address / 2 % WORDS == s.address / 2;
  }

  /** What BZERO and BLTDDAT look at: one word for each pixel, the one written there. */
  lemma {:induction false} DrawnWords(r: LineRegs, s: Line, n: nat, k: nat)
    requires s.Valid() && s.drawn == [] && k < n
    ensures |LineAfter(r, s, n).drawn| == n
    ensures var t := LineAfter(r, s, k);
      && LineAfter(r, s, n).drawn[k] == Dot(r, t)
      && LineAfter(r, s, k + 1).ram == t.ram[t.dAddress / 2 % WORDS := Dot(r, t)]
  {
    hide Dot, Moved2, Mask, Signed16;
    if k < n - 1 {
      DrawnWords(r, s, n - 1, k);
    } else if k > 0 {
      DrawnWords(r, s, k, k - 1);
    }
  }

  /** The texture turns left: pixel k has bit k from the left of the texture turned right by one. */
  lemma {:induction false} TextureTurns(r: LineRegs, s: Line, k: nat)
    requires s.Valid()
    ensures forall i: nat {:trigger LineAfter(r, s, k).texture[i]} | i < 16 ::
      LineAfter(r, s, k).texture[i] == s.texture[(i + k) % 16]
  {
    hide Dot, Moved2, Mask, Signed16;
    if k > 0 {
      TextureTurns(r, s, k - 1);
      var t, before := LineAfter(r, s, k).texture, LineAfter(r, s, k - 1).texture;
      forall i: nat | i < 16
        ensures t[i] == s.texture[(i + k) % 16]
      {
        TurnedBit(before, t, i);
        ModTurn(i, k - 1);
      }
    }
  }

  lemma TurnedBit(before: Word, after: Word, i: nat)
    requires after == before[1..] + [before[0]] && i < 16
    ensures after[i] == before[(i + 1) % 16]
  {}

  lemma ModTurn(i: nat, k: nat)
    ensures ((i + 1) % 16 + k) % 16 == (i + k + 1) % 16
  {}

  lemma DotFlag(r: LineRegs, s: Line, dmin: int, dmax: int, k: nat)
    requires Standard(r, s, dmin, dmax)
    ensures (r.single && LineAfter(r, s, k).dot) == !Dotted(r, dmin, dmax, k)
  {
    hide Dot, Minor, Moved2, Mask, ErrorAfter, Signed16;
    if k > 0 {
      LineError(r, s, dmin, dmax, k - 1);
      MinorNext(dmin, dmax, k - 1);
    }
  }

  predicate Drawn(r: LineRegs, start: int, dmin: nat, dmax: nat, k: nat, p: nat)
    requires dmax > 0
  {
    p == Point(r, start, dmin, dmax, k) && Dotted(r, dmin, dmax, k)
  }

  /** The last of the first n points of a line that is drawn at bit p. */
  function LastDrawn(r: LineRegs, start: int, dmin: nat, dmax: nat, n: nat, p: nat): (k: Option<nat>)
    requires dmax > 0
    ensures k.Some? ==> k.value < n && Drawn(r, start, dmin, dmax, k.value, p)
    ensures forall j: nat | j < n && (k.Some? ==> j > k.value) :: !Drawn(r, start, dmin, dmax, j, p)
  {
    if n == 0 then None
    else if Drawn(r, start, dmin, dmax, n - 1, p) then Some(n - 1)
    else LastDrawn(r, start, dmin, dmax, n - 1, p)
  }

  /** A line of n pixels, whatever its texture: a bit of chip RAM is the texture bit of the last point drawn there,
      bit (16 - k) mod 16 of the texture for point k, and every other bit is as it was. */
  lemma {:induction false} LinePaints(r: LineRegs, s: Line, dmin: int, dmax: int, n: nat, p: nat)
    requires Standard(r, s, dmin, dmax) && Pen(r) && p < BITS
    ensures var k := LastDrawn(r, Position(s.address, s.shift), dmin, dmax, n, p);
      Bit(LineAfter(r, s, n).ram, p) == if k.Some? then s.texture[(15 + k.value) % 16] else Bit(s.ram, p)
  {
    hide Dot, Minor, Moved2, Mask, Draw, Pen, Bit, Point, Dotted, Position;
    if n > 0 {
      var start := Position(s.address, s.shift);
      var before := LineAfter(r, s, n - 1);
      LinePaints(r, s, dmin, dmax, n - 1, p);
      LinePosition(r, s, dmin, dmax, n - 1);
      DotFlag(r, s, dmin, dmax, n - 1);
      TextureTurns(r, s, n - 1);
      DrawSets(r, before, p);
      assert Bit(LineAfter(r, s, n).ram, p)
          == if Drawn(r, start, dmin, dmax, n - 1, p) then before.texture[15] else Bit(before.ram, p);
    }
  }

  /** With a texture of ones a line of n pixels sets exactly the bits of its points, and leaves every other bit of chip
      RAM alone. */
  lemma LineDraws(r: LineRegs, s: Line, dmin: int, dmax: int, n: nat, p: nat)
    requires Standard(r, s, dmin, dmax) && Pen(r) && s.texture == Not(ZERO) && p < BITS
    ensures var start := Position(s.address, s.shift);
      Bit(LineAfter(r, s, n).ram, p)
        == (Bit(s.ram, p) || exists k: nat :: k < n && Drawn(r, start, dmin, dmax, k, p))
  {
    hide Bit, Drawn, LineAfter;
    LinePaints(r, s, dmin, dmax, n, p);
  }
}
