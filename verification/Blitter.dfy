/** The blitter (src/core/blitter.cpp): registers, area mode and line mode. */
module Blitter {
  import opened Bits
  import opened ChipRam

  /** The barrel shifter: a word moves by `shift` places, and its gap is filled from the word before. */
  function Barrel(previous: Word, current: Word, shift: nat, descending: bool): Word
    requires shift < 16
  {
    if shift == 0 then current
    else if descending then Or(Shl(current, shift), Shr(previous, 16 - shift))
    else Or(Shr(current, shift), Shl(previous, 16 - shift))
  }

  /** The term that LF selects for one bit of A, B and C. */
  function Term(a: bool, b: bool, c: bool): (t: nat)
    ensures t < 8
  {
    (if a then 4 else 0) + (if b then 2 else 0) + (if c then 1 else 0)
  }

  /** Bit i of the result is bit 4a + 2b + c of LF. */
  function Minterm(lf: Byte, a: Word, b: Word, c: Word): (d: Word) {
    seq(16, i requires 0 <= i < 16 => lf[7 - Term(a[i], b[i], c[i])])
  }

  /** The AND of the sources, each as it is or inverted, for one term. */
  function Product(term: nat, a: Word, b: Word, c: Word): (d: Word)
    requires term < 8
    ensures forall i | 0 <= i < 16 :: d[i] == (Term(a[i], b[i], c[i]) == term)
  {
    var ta := if term / 4 % 2 == 1 then a else Not(a);
    var tb := if term / 2 % 2 == 1 then b else Not(b);
    var tc := if term % 2 == 1 then c else Not(c);
    And(And(ta, tb), tc)
  }

  /** The loop over the eight terms computes it. */
  method ComputeMinterm(lf: Byte, a: Word, b: Word, c: Word) returns (d: Word)
    ensures d == Minterm(lf, a, b, c)
  {
    hide Term, Product;
    d := ZERO;
    for term := 0 to 8
      invariant forall i | 0 <= i < 16 :: d[i] == (Term(a[i], b[i], c[i]) < term && lf[7 - Term(a[i], b[i], c[i])])
    {
      if lf[7 - term] {
        var product := Product(term, a, b, c);
        d := Or(d, product);
      }
    }
  }

  // ----- filling

  /** The fill runs from the rightmost pixel leftwards; each edge toggles it. */
  predicate FillCarry(carry: bool, edges: Bits) {
    if edges == [] then carry else FillCarry(carry, edges[..|edges| - 1]) != edges[|edges| - 1]
  }

  function Filled(carry: bool, edges: Bits, exclusive: bool): (r: Bits)
    ensures |r| == |edges|
  {
    if edges == [] then []
    else
      var n := |edges| - 1;
      Filled(carry, edges[..n], exclusive) + [FillCarry(carry, edges) || (!exclusive && edges[n])]
  }

  lemma FillNext(carry: bool, edges: Bits, exclusive: bool, i: nat)
    requires i < |edges|
    ensures FillCarry(carry, edges[..i + 1]) == (FillCarry(carry, edges[..i]) != edges[i])
    ensures Filled(carry, edges[..i + 1], exclusive)
         == Filled(carry, edges[..i], exclusive) + [FillCarry(carry, edges[..i + 1]) || (!exclusive && edges[i])]
  {
    assert edges[..i + 1][..i] == edges[..i];
  }

  /** The bits of a word from the rightmost one on, and back. */
  function Reversed(w: Bits): (r: Bits)
    ensures |r| == |w|
  {
    seq(|w|, i requires 0 <= i < |w| => w[|w| - 1 - i])
  }

  method FillWord(d: Word, carry: bool, exclusive: bool) returns (filled: Word, next: bool)
    ensures filled == Reversed(Filled(carry, Reversed(d), exclusive)) && next == FillCarry(carry, Reversed(d))
  {
    next := carry;
    filled := ZERO;
    ghost var edges := Reversed(d);
    for bit := 0 to 16
      invariant next == FillCarry(carry, edges[..bit])
      invariant forall j | 0 <= j < 16 ::
        filled[j] == (15 - j < bit && Filled(carry, edges[..bit], exclusive)[15 - j])
    {
      var edge := d[15 - bit];
      FillNext(carry, edges, exclusive, bit);
      if edge {
        next := !next;
      }
      if (if exclusive then next else next || edge) {
        filled := filled[15 - bit := true];
      }
    }
    assert edges[..16] == edges;
  }

  // ----- area mode

  /** The control registers of an area blit. */
  datatype Regs = Regs(
    useA: bool, useB: bool, useC: bool, useD: bool, aShift: nat, bShift: nat, lf: Byte,
    desc: bool, fill: bool, exclusive: bool, fci: bool, afwm: Word, alwm: Word,
    aMod: int, bMod: int, cMod: int, dMod: int)
  {
    predicate Valid() { aShift < 16 && bShift < 16 }

    function Step(): int { if desc then -2 else 2 }
  }

  /** What happened to one word: masked A and B before and after the shifters, C, and D before
      and after the fill. */
  datatype Entry = Entry(a: Word, aShifted: Word, b: Word, bShifted: Word, c: Word, d: Word, out: Word)

  /** The registers that change during an area blit, chip RAM, and the words done so far. */
  datatype Area = Area(
    aPt: int, bPt: int, cPt: int, dPt: int, aData: Word, bData: Word, cData: Word,
    aPrev: Word, bPrev: Word, carry: bool, ram: seq<Word>, log: seq<Entry>)

  function Masked(r: Regs, a: Word, first: bool, last: bool): Word {
    var a1 := if first then And(a, r.afwm) else a;
    if last then And(a1, r.alwm) else a1
  }

  /** One word of a row. */
  function WordEntry(r: Regs, s: Area, first: bool, last: bool): Entry
    requires r.Valid() && |s.ram| == WORDS
  {
    var a := Masked(r, if r.useA then Read(s.ram, s.aPt) else s.aData, first, last);
    var b := Read(s.ram, s.bPt);
    var aShifted := Barrel(s.aPrev, a, r.aShift, r.desc);
    var bShifted := if r.useB then Barrel(s.bPrev, b, r.bShift, r.desc) else s.bData;
    var c := if r.useC then Read(s.ram, s.cPt) else s.cData;
    var d := Minterm(r.lf, aShifted, bShifted, c);
    Entry(a, aShifted, b, bShifted, c, d, if r.fill then Reversed(Filled(s.carry, Reversed(d), r.exclusive)) else d)
  }

  function WordStep(r: Regs, s: Area, first: bool, last: bool): (t: Area)
    requires r.Valid() && |s.ram| == WORDS
    ensures |t.ram| == WORDS
  {
    Apply(r, s, WordEntry(r, s, first, last))
  }

  function Apply(r: Regs, s: Area, e: Entry): (t: Area)
    requires |s.ram| == WORDS
    ensures |t.ram| == WORDS
  {
    Area(if r.useA then s.aPt + r.Step() else s.aPt,
         if r.useB then s.bPt + r.Step() else s.bPt,
         if r.useC then s.cPt + r.Step() else s.cPt,
         if r.useD then s.dPt + r.Step() else s.dPt,
         if r.useA then Read(s.ram, s.aPt) else s.aData, s.bData, e.c,
         e.a, if r.useB then e.b else s.bPrev,
         if r.fill then FillCarry(s.carry, Reversed(e.d)) else s.carry,
         if r.useD then s.ram[s.dPt / 2 % WORDS := e.out] else s.ram,
         s.log + [e])
  }

  function RowStart(r: Regs, s: Area): Area { s.(carry := r.fci) }

  /** Modulos: added ascending, subtracted descending, on the enabled channels. */
  function Moved(r: Regs, use: bool, pt: int, mod: int): int {
    if !use then pt else if r.desc then pt - mod else pt + mod
  }

  function RowEnd(r: Regs, s: Area): Area {
    s.(aPt := Moved(r, r.useA, s.aPt, r.aMod), bPt := Moved(r, r.useB, s.bPt, r.bMod),
       cPt := Moved(r, r.useC, s.cPt, r.cMod), dPt := Moved(r, r.useD, s.dPt, r.dMod))
  }

  /** The first k words of a row of w. */
  function Words(r: Regs, s: Area, w: nat, k: nat): (t: Area)
    requires r.Valid() && |s.ram| == WORDS
    ensures |t.ram| == WORDS
  {
    if k == 0 then s else WordStep(r, Words(r, s, w, k - 1), k == 1, k == w)
  }

  /** The first h rows. */
  function Rows(r: Regs, s: Area, w: nat, h: nat): (t: Area)
    requires r.Valid() && |s.ram| == WORDS
    ensures |t.ram| == WORDS
  {
    if h == 0 then s else RowEnd(r, Words(r, RowStart(r, Rows(r, s, w, h - 1)), w, w))
  }

  predicate AllZero(log: seq<Entry>) {
    forall i | 0 <= i < |log| :: log[i].out == ZERO
  }

  lemma AllZeroNext(log: seq<Entry>, e: Entry)
    ensures AllZero(log + [e]) == (AllZero(log) && e.out == ZERO)
  {
    if AllZero(log + [e]) {
      forall i | 0 <= i < |log|
        ensures log[i].out == ZERO
      {
        assert (log + [e])[i].out == ZERO;
      }
      assert (log + [e])[|log|].out == ZERO;
    }
  }

  // ----- line mode

  /** The control registers of a line blit; row is BLTCMOD, the size of a row in bytes. */
  datatype LineRegs = LineRegs(
    lf: Byte, single: bool, a: Word, sud: bool, sul: bool, aul: bool, aMod: int, bMod: int, row: int)

  /** The variables of a line blit, chip RAM, and the words written so far. */
  datatype Line = Line(
    error: int, sign: bool, shift: nat, address: int, dAddress: int, texture: Word, dot: bool,
    ram: seq<Word>, drawn: seq<Word>)
  {
    predicate Valid() { shift < 16 && |ram| == WORDS }
  }

  /** The cast to a signed 16-bit integer. */
  function Signed16(x: int): int { (x + 0x8000) % 0x10000 - 0x8000 }

  lemma SignedCast(x: int)
    ensures -0x8000 <= Signed16(x) < 0x8000 && (Signed16(x) - x) % 0x10000 == 0
  {
    var q := (x + 0x8000) / 0x10000;
    assert Signed16(x) - x == 0 - q * 0x10000;
  }

  /** One pixel to the left or right: the pixel within the word, and the address of the word. */
  function StepX(shift: nat, address: int, left: bool): (nat, int)
    requires shift < 16
  {
    if left then
      if shift == 0 then (15, address - 2) else (shift - 1, address)
    else
      if shift == 15 then (0, address + 2) else (shift + 1, address)
  }

  function StepY(address: int, row: int, up: bool): int {
    if up then address - row else address + row
  }

  function Dot(r: LineRegs, s: Line): Word
    requires s.Valid()
  {
    var c := Read(s.ram, s.address);
    if r.single && s.dot then c
    else Minterm(r.lf, Shr(r.a, s.shift), if s.texture[15] then Not(ZERO) else ZERO, c)
  }

  function Draw(r: LineRegs, s: Line): (t: Line)
    requires s.Valid()
    ensures t.Valid()
  {
    var d := Dot(r, s);
    s.(ram := s.ram[s.dAddress / 2 % WORDS := d], drawn := s.drawn + [d])
  }

  /** The pixel within the word and the address after the sometimes step (if any) and the always step. */
  function Moved2(r: LineRegs, s: Line): (p: (nat, int))
    requires s.Valid()
    ensures p.0 < 16
  {
    if r.sud then
      StepX(s.shift, if s.sign then s.address else StepY(s.address, r.row, r.sul), r.aul)
    else
      var p := if s.sign then (s.shift, s.address) else StepX(s.shift, s.address, r.sul);
      (p.0, StepY(p.1, r.row, r.aul))
  }

  function Move(r: LineRegs, s: Line): (t: Line)
    requires s.Valid()
    ensures t.Valid()
  {
    var error := Signed16(s.error + if s.sign then r.bMod else r.aMod);
    var p := Moved2(r, s);
    Line(error, error < 0, p.0, Mask(p.1), Mask(p.1), s.texture[1..] + [s.texture[0]], r.sud && s.sign, s.ram, s.drawn)
  }

  /** After k pixels. */
  function LineAfter(r: LineRegs, s: Line, k: nat): (t: Line)
    requires s.Valid()
    ensures t.Valid()
  {
    if k == 0 then s else Move(r, Draw(r, LineAfter(r, s, k - 1)))
  }

  predicate NoneSet(drawn: seq<Word>) {
    forall i | 0 <= i < |drawn| :: drawn[i] == ZERO
  }

  lemma NoneSetEmpty()
    ensures NoneSet([])
  {}

  lemma NoneSetNext(drawn: seq<Word>, d: Word)
    ensures NoneSet(drawn + [d]) == (NoneSet(drawn) && d == ZERO)
  {
    if NoneSet(drawn + [d]) {
      forall i | 0 <= i < |drawn|
        ensures drawn[i] == ZERO
      {
        assert (drawn + [d])[i] == ZERO;
      }
      assert (drawn + [d])[|drawn|] == ZERO;
    }
  }

  lemma TurnedRight(w: Word, n: nat, i: nat)
    requires n < 16 && i < 16
    ensures (w[16 - n..] + w[..16 - n])[i] == w[(i + 16 - n) % 16]
  {}

  /** The upper four bits of a control register, and its lower half. */
  lemma ConBits(w: Word)
    ensures Val(w[..4]) == Val(w) / 0x1000 < 16 && Val(w[8..]) == Val(w) % 0x100
  {
    hide Val, Pow2;
    PowersOfTwo();
    assert w == w[..4] + w[4..] && w == w[..8] + w[8..];
    ValConcat(w[..4], w[4..]);
    ValConcat(w[..8], w[8..]);
    ValBound(w[..4]);
    ValBound(w[4..]);
    ValBound(w[8..]);
  }

  class Blitter {
    var bltcon0: Word
    var bltcon1: Word
    var afwm: Word
    var alwm: Word
    var aPt: int
    var bPt: int
    var cPt: int
    var dPt: int
    var aMod: int
    var bMod: int
    var cMod: int
    var dMod: int
    var aData: Word
    var bData: Word
    var cData: Word
    var width: nat   // words
    var height: nat  // rows
    var dData: Word
    var zero: bool

    constructor ()
    {
      bltcon0, bltcon1, afwm, alwm := ZERO, ZERO, Not(ZERO), Not(ZERO);
      aPt, bPt, cPt, dPt, aMod, bMod, cMod, dMod := 0, 0, 0, 0, 0, 0, 0, 0;
      aData, bData, cData, dData := ZERO, ZERO, ZERO, ZERO;
      width, height, zero := 0, 0, false;
    }

    /** BLTCON0 and BLTCON1, decoded for area mode. */
    function AreaRegs(): (r: Regs)
      reads this
      ensures r.Valid()
    {
      ValBound(bltcon0[..4]);
      ValBound(bltcon1[..4]);
      assert Pow2(4) == 16;
      Regs(bltcon0[4], bltcon0[5], bltcon0[6], bltcon0[7], Val(bltcon0[..4]), Val(bltcon1[..4]), bltcon0[8..],
           bltcon1[14], bltcon1[14] && (bltcon1[12] || bltcon1[11]), bltcon1[11], bltcon1[13], afwm, alwm,
           aMod, bMod, cMod, dMod)
    }

    /** BLTCON0 and BLTCON1 in numbers: ASH, USEA to USED and LF; BSH, EFE, IFE, FCI and DESC. */
    lemma AreaBits()
      ensures var r, v0, v1 := AreaRegs(), Val(bltcon0), Val(bltcon1);
        && r.aShift == v0 / 0x1000 && r.useA == (v0 / 0x800 % 2 == 1) && r.useB == (v0 / 0x400 % 2 == 1)
        && r.useC == (v0 / 0x200 % 2 == 1) && r.useD == (v0 / 0x100 % 2 == 1) && Val(r.lf) == v0 % 0x100
        && r.bShift == v1 / 0x1000 && r.desc == (v1 / 2 % 2 == 1) && r.fci == (v1 / 4 % 2 == 1)
        && r.exclusive == (v1 / 16 % 2 == 1) && r.fill == (r.desc && (v1 / 8 % 2 == 1 || v1 / 16 % 2 == 1))
        && r.afwm == afwm && r.alwm == alwm
        && r.aMod == aMod && r.bMod == bMod && r.cMod == cMod && r.dMod == dMod
    {
      hide Val, Pow2;
      PowersOfTwo();
      ConBits(bltcon0);
      ConBits(bltcon1);
      BitOf(bltcon0, 11);
      BitOf(bltcon0, 10);
      BitOf(bltcon0, 9);
      BitOf(bltcon0, 8);
      BitOf(bltcon1, 1);
      BitOf(bltcon1, 2);
      BitOf(bltcon1, 3);
      BitOf(bltcon1, 4);
    }

    /** The registers and RAM are those of an area blit that has got this far. */
    ghost predicate Agrees(s: Area, aPrev: Word, bPrev: Word, carry: bool, ram: array<Word>)
      reads this`aPt, this`bPt, this`cPt, this`dPt, this`aData, this`bData, this`cData, ram
    {
      && ram.Length == WORDS && ram[..] == s.ram
      && aPt == s.aPt && bPt == s.bPt && cPt == s.cPt && dPt == s.dPt
      && aData == s.aData && bData == s.bData && cData == s.cData
      && aPrev == s.aPrev && bPrev == s.bPrev && carry == s.carry
    }

    /** Channel A, masked; from memory or from BLTADAT. */
    method SourceA(r: Regs, first: bool, last: bool, ram: array<Word>) returns (a: Word)
      requires ram.Length == WORDS
      modifies this`aPt, this`aData
      ensures aData == (if r.useA then Read(ram[..], old(aPt)) else old(aData)) && a == Masked(r, aData, first, last)
      ensures aPt == if r.useA then old(aPt) + r.Step() else old(aPt)
    {
      a := aData;
      if r.useA {
        a := ram[aPt / 2 % WORDS];
        aPt := aPt + r.Step();
        aData := a;
      }
      if first {
        a := And(a, r.afwm);
      }
      if last {
        a := And(a, r.alwm);
      }
    }

    method SourceB(r: Regs, bPrev: Word, ram: array<Word>) returns (bShifted: Word, bNext: Word)
      requires r.Valid() && ram.Length == WORDS
      modifies this`bPt
      ensures bShifted == if r.useB then Barrel(bPrev, Read(ram[..], old(bPt)), r.bShift, r.desc) else bData
      ensures bNext == if r.useB then Read(ram[..], old(bPt)) else bPrev
      ensures bPt == if r.useB then old(bPt) + r.Step() else old(bPt)
    {
      bShifted, bNext := bData, bPrev;
      if r.useB {
        var b := ram[bPt / 2 % WORDS];
        bPt := bPt + r.Step();
        bShifted := Barrel(bPrev, b, r.bShift, r.desc);
        bNext := b;
      }
    }

    method SourceC(r: Regs, ram: array<Word>) returns (c: Word)
      requires ram.Length == WORDS
      modifies this`cPt, this`cData
      ensures c == cData == if r.useC then Read(ram[..], old(cPt)) else old(cData)
      ensures cPt == if r.useC then old(cPt) + r.Step() else old(cPt)
    {
      c := cData;
      if r.useC {
        c := ram[cPt / 2 % WORDS];
        cPt := cPt + r.Step();
        cData := c;
      }
    }

    method Destination(r: Regs, out: Word, ram: array<Word>)
      requires ram.Length == WORDS
      modifies this`dPt, ram
      ensures ram[..] == if r.useD then old(ram[..])[old(dPt) / 2 % WORDS := out] else old(ram[..])
      ensures dPt == if r.useD then old(dPt) + r.Step() else old(dPt)
    {
      if r.useD {
        ram[dPt / 2 % WORDS] := out;
        dPt := dPt + r.Step();
      }
    }

    /** The body of the inner loop, up to the destination. */
    method AreaSources(r: Regs, first: bool, last: bool, aPrev: Word, bPrev: Word, carry: bool, ram: array<Word>,
                       ghost s: Area)
      returns (e: Entry, bNext: Word, carryNext: bool)
      requires r.Valid() && Agrees(s, aPrev, bPrev, carry, ram)
      modifies this`aPt, this`bPt, this`cPt, this`aData, this`cData
      ensures e.(b := Read(s.ram, s.bPt)) == WordEntry(r, s, first, last)
      ensures aPt == (if r.useA then s.aPt + r.Step() else s.aPt) && bPt == (if r.useB then s.bPt + r.Step() else s.bPt)
      ensures cPt == (if r.useC then s.cPt + r.Step() else s.cPt)
      ensures aData == (if r.useA then Read(s.ram, s.aPt) else s.aData) && cData == e.c
      ensures bNext == if r.useB then Read(s.ram, s.bPt) else bPrev
      ensures carryNext == if r.fill then FillCarry(carry, Reversed(e.d)) else carry
    {
      hide Barrel, Minterm, Masked, Filled, FillCarry, Reversed, Read;
      var a := SourceA(r, first, last, ram);
      var aShifted := Barrel(aPrev, a, r.aShift, r.desc);
      var bShifted;
      bShifted, bNext := SourceB(r, bPrev, ram);
      var c := SourceC(r, ram);
      var d := ComputeMinterm(r.lf, aShifted, bShifted, c);
      var out := d;
      carryNext := carry;
      if r.fill {
        out, carryNext := FillWord(d, carry, r.exclusive);
      }
      e := Entry(a, aShifted, bNext, bShifted, c, d, out);
    }

    /** The body of the inner loop. */
    method AreaWord(r: Regs, first: bool, last: bool, aPrev: Word, bPrev: Word, carry: bool, ram: array<Word>,
                    ghost s: Area)
      returns (aNext: Word, bNext: Word, carryNext: bool, out: Word, ghost t: Area)
      requires r.Valid() && Agrees(s, aPrev, bPrev, carry, ram)
      modifies this`aPt, this`bPt, this`cPt, this`dPt, this`aData, this`cData, ram
      ensures Agrees(t, aNext, bNext, carryNext, ram)
      ensures t == WordStep(r, s, first, last)
      ensures |t.log| == |s.log| + 1 && t.log == s.log + [t.log[|s.log|]] && out == t.log[|s.log|].out
    {
      var e;
      e, bNext, carryNext := AreaSources(r, first, last, aPrev, bPrev, carry, ram, s);
      aNext, out := e.a, e.out;
      Destination(r, out, ram);
      t := Apply(r, s, e.(b := Read(s.ram, s.bPt)));
    }

    ghost function Start(ram: seq<Word>): Area
      reads this
    {
      Area(aPt, bPt, cPt, dPt, aData, bData, cData, ZERO, ZERO, false, ram, [])
    }

    /** BZERO and BLTDDAT so far. */
    ghost predicate Flags(log: seq<Entry>, anySet: bool)
      reads this`dData
    {
      anySet == !AllZero(log) && (log != [] ==> dData == log[|log| - 1].out)
    }

    method RunArea(ram: array<Word>)
      requires ram.Length == WORDS && width >= 1
      modifies this`aPt, this`bPt, this`cPt, this`dPt, this`aData, this`cData, this`dData, this`zero, ram
      ensures var t := Rows(old(AreaRegs()), old(Start(ram[..])), width, height);
        && ram[..] == t.ram && aData == t.aData && cData == t.cData
        && aPt == Mask(t.aPt) && bPt == Mask(t.bPt) && cPt == Mask(t.cPt) && dPt == Mask(t.dPt)
        && zero == AllZero(t.log) && (t.log != [] ==> dData == t.log[|t.log| - 1].out)
    {
      hide Rows, AllZero, AreaRegs, Mask;
      var r := AreaRegs();
      var anySet;
      ghost var t;
      anySet, t := AreaRows(r, ram, Start(ram[..]));
      aPt, bPt, cPt, dPt := Mask(aPt), Mask(bPt), Mask(cPt), Mask(dPt);
      zero := !anySet;
    }

    /** The loop over the rows. */
    method AreaRows(r: Regs, ram: array<Word>, ghost s0: Area) returns (anySet: bool, ghost s: Area)
      requires r.Valid() && width >= 1 && s0.log == [] && Agrees(s0, ZERO, ZERO, s0.carry, ram)
      modifies this`aPt, this`bPt, this`cPt, this`dPt, this`aData, this`cData, this`dData, ram
      ensures s == Rows(r, s0, width, height) && Agrees(s, s.aPrev, s.bPrev, s.carry, ram) && Flags(s.log, anySet)
    {
      hide WordStep, WordEntry, Apply, Words;
      var aPrev, bPrev := ZERO, ZERO;
      anySet, s := false, s0;
      for row := 0 to height
        invariant s == Rows(r, s0, width, row) && Agrees(s, aPrev, bPrev, s.carry, ram) && Flags(s.log, anySet)
      {
        var carry;
        aPrev, bPrev, carry, anySet, s := AreaRow(r, aPrev, bPrev, anySet, ram, s);
        Modulos(r);
        s := RowEnd(r, s);
      }
    }

    method Modulos(r: Regs)
      modifies this`aPt, this`bPt, this`cPt, this`dPt
      ensures aPt == Moved(r, r.useA, old(aPt), r.aMod) && bPt == Moved(r, r.useB, old(bPt), r.bMod)
      ensures cPt == Moved(r, r.useC, old(cPt), r.cMod) && dPt == Moved(r, r.useD, old(dPt), r.dMod)
    {
      if r.useA {
        aPt := if r.desc then aPt - r.aMod else aPt + r.aMod;
      }
      if r.useB {
        bPt := if r.desc then bPt - r.bMod else bPt + r.bMod;
      }
      if r.useC {
        cPt := if r.desc then cPt - r.cMod else cPt + r.cMod;
      }
      if r.useD {
        dPt := if r.desc then dPt - r.dMod else dPt + r.dMod;
      }
    }

    /** The loop over the words of a row. */
    method AreaRow(r: Regs, aPrev0: Word, bPrev0: Word, anySet0: bool, ram: array<Word>, ghost s0: Area)
      returns (aPrev: Word, bPrev: Word, carry: bool, anySet: bool, ghost s: Area)
      requires r.Valid() && width >= 1 && Agrees(s0, aPrev0, bPrev0, s0.carry, ram) && Flags(s0.log, anySet0)
      modifies this`aPt, this`bPt, this`cPt, this`dPt, this`aData, this`cData, this`dData, ram
      ensures s == Words(r, RowStart(r, s0), width, width) && Agrees(s, aPrev, bPrev, carry, ram)
      ensures Flags(s.log, anySet)
    {
      hide WordStep, WordEntry, Apply, AllZero;
      aPrev, bPrev, carry, anySet := aPrev0, bPrev0, r.fci, anySet0;
      ghost var row := RowStart(r, s0);
      s := row;
      for word := 0 to width
        invariant s == Words(r, row, width, word) && Agrees(s, aPrev, bPrev, carry, ram) && Flags(s.log, anySet)
      {
        aPrev, bPrev, carry, anySet, s := AreaStep(r, word, aPrev, bPrev, carry, anySet, ram, row, s);
      }
    }

    method AreaStep(r: Regs, word: nat, aPrev0: Word, bPrev0: Word, carry0: bool, anySet0: bool, ram: array<Word>,
                    ghost row: Area, ghost s0: Area)
      returns (aPrev: Word, bPrev: Word, carry: bool, anySet: bool, ghost s: Area)
      requires r.Valid() && |row.ram| == WORDS && s0 == Words(r, row, width, word)
      requires Agrees(s0, aPrev0, bPrev0, carry0, ram) && Flags(s0.log, anySet0)
      modifies this`aPt, this`bPt, this`cPt, this`dPt, this`aData, this`cData, this`dData, ram
      ensures s == Words(r, row, width, word + 1) && Agrees(s, aPrev, bPrev, carry, ram) && Flags(s.log, anySet)
    {
      hide WordStep, AllZero, Agrees;
      var out;
      aPrev, bPrev, carry, out, s := AreaWord(r, word == 0, word == width - 1, aPrev0, bPrev0, carry0, ram, s0);
      AllZeroNext(s0.log, s.log[|s0.log|]);
      anySet := anySet0 || out != ZERO;
      dData := out;
    }

    // ----- line mode

    /** BLTCON0 and BLTCON1, decoded for line mode. */
    function LineRegisters(): LineRegs
      reads this
    {
      LineRegs(bltcon0[8..], bltcon1[14], And(aData, afwm), bltcon1[11], bltcon1[12], bltcon1[13], aMod, bMod, cMod)
    }

    /** ASH: the pixel within the word. */
    function PixelShift(): (shift: nat)
      reads this`bltcon0
      ensures shift < 16
    {
      ValBound(bltcon0[..4]);
      assert Pow2(4) == 16;
      Val(bltcon0[..4])
    }

    /** BLTBDAT rotated right by BSH. */
    function Texture(): Word
      reads this`bltcon1, this`bData
    {
      ValBound(bltcon1[..4]);
      assert Pow2(4) == 16;
      var shift := Val(bltcon1[..4]);
      bData[16 - shift..] + bData[..16 - shift]
    }

    ghost function LineStart(ram: seq<Word>): (s: Line)
      requires |ram| == WORDS
      reads this
      ensures s.Valid()
    {
      Line(Signed16(aPt), bltcon1[9], PixelShift(), cPt, dPt, Texture(), false, ram, [])
    }

    /** The same for a line: LF; SUD, SUL, AUL and SING; A is BLTADAT masked by BLTAFWM. */
    lemma LineBits()
      ensures var r, v0, v1 := LineRegisters(), Val(bltcon0), Val(bltcon1);
        && Val(r.lf) == v0 % 0x100 && r.single == (v1 / 2 % 2 == 1) && r.aul == (v1 / 4 % 2 == 1)
        && r.sul == (v1 / 8 % 2 == 1) && r.sud == (v1 / 16 % 2 == 1)
        && (forall i | 0 <= i < 16 :: r.a[i] == (aData[i] && afwm[i]))
        && r.aMod == aMod && r.bMod == bMod && r.row == cMod
    {
      hide Val, Pow2;
      PowersOfTwo();
      ConBits(bltcon0);
      BitOf(bltcon1, 1);
      BitOf(bltcon1, 2);
      BitOf(bltcon1, 3);
      BitOf(bltcon1, 4);
    }

    /** A line starts with the error term of BLTAPT, the SIGN bit, the pixel of ASH, and BLTBDAT turned right by BSH. */
    lemma StartBits(ram: seq<Word>, i: nat)
      requires |ram| == WORDS && i < 16
      ensures var s, v0, v1 := LineStart(ram), Val(bltcon0), Val(bltcon1);
        && -0x8000 <= s.error < 0x8000 && (s.error - aPt) % 0x10000 == 0 && s.sign == (v1 / 64 % 2 == 1)
        && s.shift == v0 / 0x1000 && s.address == cPt && s.dAddress == dPt && !s.dot && s.ram == ram && s.drawn == []
        && s.texture[i] == bData[(i + 16 - v1 / 0x1000) % 16]
    {
      hide Val, Pow2, Signed16;
      PowersOfTwo();
      ConBits(bltcon0);
      ConBits(bltcon1);
      SignedCast(aPt);
      BitOf(bltcon1, 6);
      TurnedRight(bData, Val(bltcon1[..4]), i);
    }

    /** The word for one pixel: read through C, written through D. */
    method DrawDot(r: LineRegs, shift: nat, address: int, dAddress: int, texture: Word, dot: bool, ram: array<Word>,
                   ghost s: Line)
      returns (d: Word)
      requires ram.Length == WORDS && s.Valid() && ram[..] == s.ram
      requires s.shift == shift && s.address == address && s.dAddress == dAddress
      requires s.texture == texture && s.dot == dot
      modifies this`dData, ram
      ensures ram[..] == Draw(r, s).ram && d == Dot(r, s) && dData == d
    {
      hide Minterm;
      var c := ram[address / 2 % WORDS];
      d := ComputeMinterm(r.lf, Shr(r.a, shift), if texture[15] then Not(ZERO) else ZERO, c);
      if r.single && dot {
        d := c;
      }
      dData := d;
      ram[dAddress / 2 % WORDS] := d;
    }

    /** The error term, the sometimes step and the always step. */
    method MoveOn(r: LineRegs, error0: int, sign0: bool, shift0: nat, address0: int, ghost s: Line)
      returns (error: int, sign: bool, shift: nat, address: int, dot: bool)
      requires s.Valid() && s.shift == shift0 && s.address == address0 && s.error == error0 && s.sign == sign0
      ensures var t := Move(r, s);
        && t.error == error && t.sign == sign && t.shift == shift && t.address == t.dAddress == address && t.dot == dot
    {
      error, shift, address, dot := error0, shift0, address0, true;
      if !sign0 {
        error := Signed16(error + r.aMod);
        if r.sud {
          address, dot := StepY(address, r.row, r.sul), false;
        } else {
          var p := StepX(shift, address, r.sul);
          shift, address := p.0, p.1;
        }
      } else {
        error := Signed16(error + r.bMod);
      }
      if r.sud {
        var p := StepX(shift, address, r.aul);
        shift, address := p.0, p.1;
      } else {
        address, dot := StepY(address, r.row, r.aul), false;
      }
      sign := error < 0;
      address := Mask(address);
    }

    method RunLine(ram: array<Word>)
      requires ram.Length == WORDS
      modifies this`aPt, this`cPt, this`dPt, this`bltcon0, this`bltcon1, this`dData, this`zero, ram
      ensures var t := LineAfter(old(LineRegisters()), old(LineStart(ram[..])), height);
        && ram[..] == t.ram && aPt == old(aPt) / 0x10000 * 0x10000 + t.error % 0x10000
        && cPt == t.address && dPt == t.dAddress
        && bltcon0 == ToBits(t.shift, 4) + old(bltcon0)[4..] && bltcon1 == old(bltcon1)[9 := t.sign]
        && zero == NoneSet(t.drawn) && (t.drawn != [] ==> dData == t.drawn[|t.drawn| - 1])
    {
      hide LineAfter, Signed16, ToBits, NoneSet, LineRegisters;
      var r, shift, texture := LineRegisters(), PixelShift(), Texture();
      ghost var s0 := LineStart(ram[..]);
      var error, sign, address, dAddress, anySet;
      error, sign, shift, address, dAddress, anySet := Dots(r, shift, texture, ram, s0);
      aPt := aPt / 0x10000 * 0x10000 + error % 0x10000;
      cPt, dPt := address, dAddress;
      bltcon0 := ToBits(shift, 4) + bltcon0[4..];
      bltcon1 := bltcon1[9 := sign];
      zero := !anySet;
    }

    /** The loop over the pixels. */
    method Dots(r: LineRegs, shift0: nat, texture0: Word, ram: array<Word>, ghost s0: Line)
      returns (error: int, sign: bool, shift: nat, address: int, dAddress: int, anySet: bool)
      requires ram.Length == WORDS && s0.Valid() && s0.drawn == []
      requires s0 == Line(Signed16(aPt), bltcon1[9], shift0, cPt, dPt, texture0, false, ram[..], [])
      modifies this`dData, ram
      ensures var t := LineAfter(r, s0, height);
        && ram[..] == t.ram && error == t.error && sign == t.sign && shift == t.shift && address == t.address
        && dAddress == t.dAddress
        && anySet == !NoneSet(t.drawn) && (t.drawn != [] ==> dData == t.drawn[|t.drawn| - 1])
    {
      hide Dot, Moved2, Mask, Signed16, NoneSet;
      ghost var s := s0;
      NoneSetEmpty();
      var texture, dot := texture0, false;
      error, sign, shift, address, dAddress, anySet := Signed16(aPt), bltcon1[9], shift0, cPt, dPt, false;
      for pixel := 0 to height
        invariant s == LineAfter(r, s0, pixel)
        invariant s == Line(error, sign, shift, address, dAddress, texture, dot, s.ram, s.drawn)
        invariant ram[..] == s.ram && anySet == !NoneSet(s.drawn) && (s.drawn != [] ==> dData == s.drawn[|s.drawn| - 1])
      {
        var d := DrawDot(r, shift, address, dAddress, texture, dot, ram, s);
        NoneSetNext(s.drawn, d);
        anySet := anySet || d != ZERO;
        s := Draw(r, s);
        error, sign, shift, address, dot := MoveOn(r, error, sign, shift, address, s);
        texture := texture[1..] + [texture[0]];
        dAddress := address;
        s := Move(r, s);
      }
    }
  }
}
