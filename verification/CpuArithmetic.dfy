/** Addition and subtraction on the 68000 (src/core/cpu68000.cpp): the flags, and chains of ADDX and SUBX. */
module CpuArithmetic {
  import opened Bits

  datatype Size = Byte | Word | Long {
    /** Half of the range of values. */
    function Half(): (h: nat)
      ensures h > 0
    {
      match this
      case Byte => 0x80
      case Word => 0x8000
      case Long => 0x8000_0000
    }

    function Range(): nat { 2 * Half() }
  }

  lemma SizesAre()
    ensures Size.Byte.Range() == 0x100 && Size.Word.Range() == 0x10000 && Size.Long.Range() == 0x1_0000_0000
  {}

  datatype Flags = Flags(x: bool, n: bool, z: bool, v: bool, c: bool)

  datatype Alu = Alu(result: nat, flags: Flags)

  /** A value of a range of 2h as a signed number. */
  function AsSigned(v: int, h: nat): int { if v < h then v else v - 2 * h }

  predicate Fits(v: int, h: nat) { 0 - h <= v < h }

  function Bit(b: bool): nat { if b then 1 else 0 }

  /** dst + src (+ X): C and X are the carry, V says that the signed sum does not fit, and Z is only ever
      cleared when extending. */
  function Sum(h: nat, src: nat, dst: nat, extend: bool, f: Flags): Alu
    requires h > 0
  {
    var x := Bit(extend && f.x);
    var r := (dst + src + x) % (2 * h);
    var carry := dst + src + x >= 2 * h;
    Alu(r, Flags(carry, r >= h, r == 0 && (extend ==> f.z), !Fits(AsSigned(dst, h) + AsSigned(src, h) + x, h), carry))
  }

  /** dst - src (- X): C and X are the borrow. */
  function Difference(h: nat, src: nat, dst: nat, extend: bool, f: Flags): Alu
    requires h > 0
  {
    var x := Bit(extend && f.x);
    var r := (dst - src - x) % (2 * h);
    var borrow := dst - src - x < 0;
    Alu(r, Flags(borrow, r >= h, r == 0 && (extend ==> f.z), !Fits(AsSigned(dst, h) - AsSigned(src, h) - x, h), borrow))
  }

  function Limb(subtract: bool, h: nat, src: nat, dst: nat, f: Flags): Alu
    requires h > 0
  {
    if subtract then Difference(h, src, dst, true, f) else Sum(h, src, dst, true, f)
  }

  // ----- comparing

  /** The sixteen conditions. */
  predicate Condition(cc: nat, f: Flags)
    requires cc < 16
  {
    match cc
    case 0 => true
    case 1 => false
    case 2 => !f.c && !f.z
    case 3 => f.c || f.z
    case 4 => !f.c
    case 5 => f.c
    case 6 => !f.z
    case 7 => f.z
    case 8 => !f.v
    case 9 => f.v
    case 10 => !f.n
    case 11 => f.n
    case 12 => f.n == f.v
    case 13 => f.n != f.v
    case 14 => !f.z && f.n == f.v
    case _ => f.z || f.n != f.v
  }

  /** After CMP src,dst the conditions compare dst with src, as unsigned and as signed numbers. */
  lemma ConditionsCompare(h: nat, src: nat, dst: nat, f: Flags)
    requires src < 2 * h && dst < 2 * h
    ensures var g := Difference(h, src, dst, false, f).flags.(x := f.x);
      && Condition(0, g) && !Condition(1, g)
      && Condition(8, g) == Fits(AsSigned(dst, h) - AsSigned(src, h), h) != Condition(9, g)
      && Condition(10, g) == ((dst - src) % (2 * h) < h) != Condition(11, g)
      && Condition(2, g) == (dst > src) && Condition(3, g) == (dst <= src)
      && Condition(4, g) == (dst >= src) && Condition(5, g) == (dst < src)
      && Condition(6, g) == (dst != src) && Condition(7, g) == (dst == src)
      && Condition(12, g) == (AsSigned(dst, h) >= AsSigned(src, h))
      && Condition(13, g) == (AsSigned(dst, h) < AsSigned(src, h))
      && Condition(14, g) == (AsSigned(dst, h) > AsSigned(src, h))
      && Condition(15, g) == (AsSigned(dst, h) <= AsSigned(src, h))
  {
    hide Condition;
    ConditionsUnsigned(h, src, dst, f);
    ConditionsSigned(h, src, dst, f);
  }

  lemma ConditionsUnsigned(h: nat, src: nat, dst: nat, f: Flags)
    requires src < 2 * h && dst < 2 * h
    ensures var g := Difference(h, src, dst, false, f).flags.(x := f.x);
      && Condition(0, g) && !Condition(1, g)
      && Condition(10, g) == ((dst - src) % (2 * h) < h) != Condition(11, g)
      && Condition(2, g) == (dst > src) && Condition(3, g) == (dst <= src)
      && Condition(4, g) == (dst >= src) && Condition(5, g) == (dst < src)
      && Condition(6, g) == (dst != src) && Condition(7, g) == (dst == src)
  {
    Wrap(dst - src, 2 * h);
  }

  lemma ConditionsSigned(h: nat, src: nat, dst: nat, f: Flags)
    requires src < 2 * h && dst < 2 * h
    ensures var g := Difference(h, src, dst, false, f).flags.(x := f.x);
      && Condition(8, g) == Fits(AsSigned(dst, h) - AsSigned(src, h), h) != Condition(9, g)
      && Condition(12, g) == (AsSigned(dst, h) >= AsSigned(src, h))
      && Condition(13, g) == (AsSigned(dst, h) < AsSigned(src, h))
      && Condition(14, g) == (AsSigned(dst, h) > AsSigned(src, h))
      && Condition(15, g) == (AsSigned(dst, h) <= AsSigned(src, h))
  {
    Wrap(dst - src, 2 * h);
  }

  lemma Wrap(v: int, m: nat)
    requires m > 0 && -2 * m <= v < 2 * m
    ensures v % m == if v < 0 - m then v + 2 * m else if v < 0 then v + m else if v < m then v else v - m
  {
    if v < 0 - m {
      DivMod(v, m, -2, v + 2 * m);
    } else if v < 0 {
      DivMod(v, m, -1, v + m);
    } else if v < m {
      DivMod(v, m, 0, v);
    } else {
      DivMod(v, m, 1, v - m);
    }
  }

  /** The sign bits of the operands and the result tell whether the signed result fits. */
  lemma SumOverflow(h: nat, src: nat, dst: nat, x: nat)
    requires src < 2 * h && dst < 2 * h && x <= 1
    ensures var n := (src + dst + x) % (2 * h) >= h;
      (((src >= h) != n) && ((dst >= h) != n)) == !Fits(AsSigned(dst, h) + AsSigned(src, h) + x, h)
  {
    Wrap(src + dst + x, 2 * h);
  }

  lemma DifferenceOverflow(h: nat, src: nat, dst: nat, x: nat)
    requires src < 2 * h && dst < 2 * h && x <= 1
    ensures var n := (dst - src - x) % (2 * h) >= h;
      (((src >= h) != (dst >= h)) && (n != (dst >= h))) == !Fits(AsSigned(dst, h) - AsSigned(src, h) - x, h)
  {
    Wrap(dst - src - x, 2 * h);
  }

  // ----- chains

  function Power(m: nat, n: nat): (p: nat)
    requires m > 0
    ensures p > 0
  {
    if n == 0 then 1
    else
      MultipleBounds(m, Power(m, n - 1));
      m * Power(m, n - 1)
  }

  predicate Limbs(m: nat, limbs: seq<nat>) {
    forall i | 0 <= i < |limbs| :: limbs[i] < m
  }

  /** The number that limbs make up, least significant limb first. */
  function Number(m: nat, limbs: seq<nat>): nat
    requires m > 0
  {
    if limbs == [] then 0
    else var n := |limbs| - 1; Number(m, limbs[..n]) + limbs[n] * Power(m, n)
  }

  /** One ADDX or SUBX after the other, from the least significant limb on. */
  function Chain(subtract: bool, h: nat, src: seq<nat>, dst: seq<nat>, f: Flags): (c: (seq<nat>, Flags))
    requires h > 0 && |src| == |dst|
    ensures |c.0| == |src|
  {
    if src == [] then ([], f)
    else
      var n := |src| - 1;
      var before := Chain(subtract, h, src[..n], dst[..n], f);
      var a := Limb(subtract, h, src[n], dst[n], before.1);
      (before.0 + [a.result], a.flags)
  }

  lemma TopBound(m: nat, p: nat, top: nat)
    requires top < m
    ensures top * p + p <= m * p
  {
    MultipleBounds(m - 1 - top, p + 1);
    assert (m - 1 - top) * p == m * p - p - top * p;
    assert (m - 1 - top) * p >= 0;
  }

  lemma {:induction false} NumberBound(m: nat, limbs: seq<nat>)
    requires m > 0 && Limbs(m, limbs)
    ensures Number(m, limbs) < Power(m, |limbs|)
  {
    if limbs != [] {
      var n := |limbs| - 1;
      NumberBound(m, limbs[..n]);
      var p, top := Power(m, n), limbs[n];
      TopBound(m, p, top);
    }
  }

  /** The top limb decides. */
  lemma Decides(p: nat, low: nat, top: int, h: int)
    requires low < p
    ensures (low + top * p >= h * p) == (top >= h)
  {
    MultipleBounds(top - h, p);
    assert (top - h) * p == top * p - h * p;
  }

  function Direction(subtract: bool): int { if subtract then -1 else 1 }

  /** What a limb operation computes: the carry or borrow counts for the whole range. */
  lemma LimbExact(subtract: bool, h: nat, src: nat, dst: nat, f: Flags)
    requires h > 0 && src < 2 * h && dst < 2 * h
    ensures var a, e := Limb(subtract, h, src, dst, f), Direction(subtract);
      && dst + e * (src + Bit(f.x)) == a.result + e * (Bit(a.flags.x) * (2 * h))
      && a.result < 2 * h && a.flags.c == a.flags.x && a.flags.z == (f.z && a.result == 0)
      && a.flags.n == (a.result >= h)
      && a.flags.v == !Fits(AsSigned(dst, h) + e * (AsSigned(src, h) + Bit(f.x)), h)
  {
    Wrap(dst + src + Bit(f.x), 2 * h);
    Wrap(dst - src - Bit(f.x), 2 * h);
  }

  /** Two exact results, of the low limbs and of the next one, make an exact result. */
  lemma Together(p: int, m: int, d0: int, s0: int, x0: int, r0: int, x: int, d: int, s: int, r: int, y: int, e: int)
    requires d0 + e * (s0 + x0) == r0 + e * (x * p) && d + e * (s + x) == r + e * (y * m) && (e == 1 || e == -1)
    ensures (d0 + d * p) + e * ((s0 + s * p) + x0) == (r0 + r * p) + e * (y * (m * p))
  {
    assert (d + e * (s + x)) * p == d * p + e * (s * p) + e * (x * p);
    assert (r + e * (y * m)) * p == r * p + e * (y * (m * p));
  }

  /** A chain adds or subtracts whole numbers: X is the carry or borrow, C is X, and Z says that all of the result
      is zero. */
  lemma {:induction false} ChainExact(subtract: bool, h: nat, src: seq<nat>, dst: seq<nat>, f: Flags)
    requires h > 0 && |src| == |dst| && Limbs(2 * h, src) && Limbs(2 * h, dst)
    ensures var (r, g) := Chain(subtract, h, src, dst, f);
      var e, m := Direction(subtract), 2 * h;
      && Limbs(m, r) && g.z == (f.z && Number(m, r) == 0) && (src != [] ==> g.c == g.x)
      && Number(m, dst) + e * (Number(m, src) + Bit(f.x)) == Number(m, r) + e * (Bit(g.x) * Power(m, |src|))
  {
    hide Limb, Direction, Bit, Number, Power, Limbs, Chain;
    var e, m, n := Direction(subtract), 2 * h, |src| - 1;
    if src == [] {
      NothingYet(m);
      NoChain(subtract, h, f);
    } else {
      var (r, g) := Chain(subtract, h, src[..n], dst[..n], f);
      LowLimbs(m, src, n);
      LowLimbs(m, dst, n);
      ChainExact(subtract, h, src[..n], dst[..n], f);
      LimbExact(subtract, h, src[n], dst[n], g);
      ChainLast(subtract, h, src, dst, f);
      var a, p := Limb(subtract, h, src[n], dst[n], g), Power(m, n);
      DirectionIs(subtract);
      Together(p, m, Number(m, dst[..n]), Number(m, src[..n]), Bit(f.x), Number(m, r), Bit(g.x),
               dst[n], src[n], a.result, Bit(a.flags.x), e);
      assert src == src[..n] + [src[n]] && dst == dst[..n] + [dst[n]];
      NumberNext(m, src[..n], src[n]);
      NumberNext(m, dst[..n], dst[n]);
      NumberNext(m, r, a.result);
      MoreLimbs(m, r, a.result);
      PowerNext(m, n);
    }
  }

  lemma NoChain(subtract: bool, h: nat, f: Flags)
    requires h > 0
    ensures Chain(subtract, h, [], [], f) == ([], f) && Limbs(2 * h, [])
  {}

  lemma MoreLimbs(m: nat, limbs: seq<nat>, top: nat)
    requires Limbs(m, limbs) && top < m
    ensures Limbs(m, limbs + [top])
  {}

  lemma NothingYet(m: nat)
    requires m > 0
    ensures Number(m, []) == 0 && Power(m, 0) == 1
  {}

  lemma PowerNext(m: nat, n: nat)
    requires m > 0
    ensures Power(m, n + 1) == m * Power(m, n)
  {}

  lemma NumberNext(m: nat, limbs: seq<nat>, top: nat)
    requires m > 0
    ensures Number(m, limbs + [top]) == Number(m, limbs) + top * Power(m, |limbs|)
    ensures (Number(m, limbs + [top]) == 0) == (Number(m, limbs) == 0 && top == 0)
  {
    assert (limbs + [top])[..|limbs|] == limbs;
    MultipleBounds(top, Power(m, |limbs|));
  }

  lemma DirectionIs(subtract: bool)
    ensures Direction(subtract) == 1 || Direction(subtract) == -1
  {}

  /** Two's complement of the number as a whole: the low limbs and the signed top limb. */
  lemma SignedTop(h: nat, limbs: seq<nat>)
    requires h > 0 && limbs != [] && Limbs(2 * h, limbs)
    ensures var n, v := |limbs| - 1, Number(2 * h, limbs);
      var p := Power(2 * h, n);
      && Number(2 * h, limbs[..n]) < p && (v >= h * p) == (limbs[n] >= h)
      && AsSigned(v, h * p) == Number(2 * h, limbs[..n]) + AsSigned(limbs[n], h) * p
  {
    var m, n := 2 * h, |limbs| - 1;
    var p, top := Power(m, n), limbs[n];
    NumberBound(m, limbs[..n]);
    assert limbs == limbs[..n] + [top];
    NumberNext(m, limbs[..n], top);
    hide Number, Power, AsSigned;
    SignedDecides(p, Number(m, limbs[..n]), top, h);
  }

  lemma SignedDecides(p: nat, low: nat, top: int, h: nat)
    requires low < p
    ensures (low + top * p >= h * p) == (top >= h) && AsSigned(low + top * p, h * p) == low + AsSigned(top, h) * p
  {
    Decides(p, low, top, h);
    assert (top - 2 * h) * p == top * p - 2 * (h * p);
  }

  lemma FitsScaled(p: nat, low: nat, top: int, h: nat)
    requires low < p
    ensures Fits(low + top * p, h * p) == Fits(top, h)
  {
    Decides(p, low, top, h);
    Decides(p, low, top, 0 - h);
    assert (0 - h) * p == 0 - h * p;
  }

  lemma SignedStep(p: int, d0: int, s0: int, x0: int, r0: int, c0: int, d: int, s: int, e: int)
    requires d0 + e * (s0 + x0) == r0 + e * (c0 * p) && (e == 1 || e == -1)
    ensures (d0 + d * p) + e * ((s0 + s * p) + x0) == r0 + (d + e * (s + c0)) * p
  {
    assert (d + e * (s + c0)) * p == d * p + e * (s * p) + e * (c0 * p);
  }

  lemma ChainLast(subtract: bool, h: nat, src: seq<nat>, dst: seq<nat>, f: Flags)
    requires h > 0 && src != [] && |src| == |dst|
    ensures var n := |src| - 1;
      var (r, g) := Chain(subtract, h, src[..n], dst[..n], f);
      var a := Limb(subtract, h, src[n], dst[n], g);
      Chain(subtract, h, src, dst, f) == (r + [a.result], a.flags)
  {}

  /** The signed sum or difference of the numbers, in terms of that of the top limbs. */
  lemma ChainTop(subtract: bool, h: nat, src: seq<nat>, dst: seq<nat>, f: Flags) returns (low: nat, top: int)
    requires h > 0 && src != [] && |src| == |dst| && Limbs(2 * h, src) && Limbs(2 * h, dst)
    ensures var g, p := Chain(subtract, h, src, dst, f).1, Power(2 * h, |src| - 1);
      && low < p && g.v == !Fits(top, h)
      && AsSigned(Number(2 * h, dst), h * p) + Direction(subtract) * (AsSigned(Number(2 * h, src), h * p) + Bit(f.x))
           == low + top * p
  {
    hide Number, Power, Limb, Direction, Bit, Fits, AsSigned, Chain, Limbs;
    var m, n, e := 2 * h, |src| - 1, Direction(subtract);
    var (r, g) := Chain(subtract, h, src[..n], dst[..n], f);
    LowLimbs(m, src, n);
    LowLimbs(m, dst, n);
    ChainExact(subtract, h, src[..n], dst[..n], f);
    NumberBound(m, r);
    ChainLast(subtract, h, src, dst, f);
    LimbExact(subtract, h, src[n], dst[n], g);
    SignedTop(h, src);
    SignedTop(h, dst);
    DirectionIs(subtract);
    low, top := Number(m, r), AsSigned(dst[n], h) + e * (AsSigned(src[n], h) + Bit(g.x));
    SignedStep(Power(m, n), Number(m, dst[..n]), Number(m, src[..n]), Bit(f.x), low, Bit(g.x),
               AsSigned(dst[n], h), AsSigned(src[n], h), e);
  }

  lemma LowLimbs(m: nat, limbs: seq<nat>, n: nat)
    requires Limbs(m, limbs) && n < |limbs|
    ensures Limbs(m, limbs[..n]) && limbs[n] < m
  {}

  /** After the last limb, N is the sign of the result, V says that the signed result does not fit in all the
      limbs together, and C is X. */
  lemma ChainSigned(subtract: bool, h: nat, src: seq<nat>, dst: seq<nat>, f: Flags)
    requires h > 0 && src != [] && |src| == |dst| && Limbs(2 * h, src) && Limbs(2 * h, dst)
    ensures var (r, g) := Chain(subtract, h, src, dst, f);
      var half, e := h * Power(2 * h, |src| - 1), Direction(subtract);
      && g.n == (Number(2 * h, r) >= half) && g.c == g.x
      && g.v == !Fits(AsSigned(Number(2 * h, dst), half) + e * (AsSigned(Number(2 * h, src), half) + Bit(f.x)), half)
  {
    hide Number, Power, Limb, Direction, Bit, Fits, AsSigned, Chain, Limbs;
    var low, top := ChainTop(subtract, h, src, dst, f);
    FitsScaled(Power(2 * h, |src| - 1), low, top, h);
    ChainExact(subtract, h, src, dst, f);
    ChainLast(subtract, h, src, dst, f);
    var n := |src| - 1;
    LowLimbs(2 * h, src, n);
    LowLimbs(2 * h, dst, n);
    LimbExact(subtract, h, src[n], dst[n], Chain(subtract, h, src[..n], dst[..n], f).1);
    SignedTop(h, Chain(subtract, h, src, dst, f).0);
  }
}
