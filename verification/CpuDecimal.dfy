/** Packed decimal arithmetic on the 68000: ABCD, SBCD and NBCD (src/core/cpu68000.cpp). */
module CpuDecimal {
  import opened Bits
  import opened CpuArithmetic

  /** 32-bit unsigned arithmetic. */
  function Wrap32(v: int): nat { v % 0x1_0000_0000 }

  /** The byte and the carry of ABCD, from the low digits and the high ones. */
  function AddNibbles(srcLow: nat, srcHigh: nat, dstLow: nat, dstHigh: nat, x: nat): (nat, bool) {
    var low := srcLow + dstLow + x;
    var adjusted := if low > 9 then low + 6 else low;
    var sum := adjusted + 16 * srcHigh + 16 * dstHigh;
    var carry := sum > 0x99;
    (Wrap32(if carry then sum - 0xA0 else sum) % 256, carry)
  }

  function AddDecimal(src: nat, dst: nat, x: nat): (nat, bool) {
    AddNibbles(src % 16, src / 16, dst % 16, dst / 16, x)
  }

  /** The low digits: a negative difference has wrapped, so that 6 is taken off it. */
  function SubLow(srcLow: nat, dstLow: nat, x: nat): nat {
    var low := Wrap32(dstLow - srcLow - x);
    if low > 9 then Wrap32(low - 6) else low
  }

  /** The byte and the borrow of SBCD: a difference below zero has wrapped to a large number. */
  function SubHigh(difference: nat): (nat, bool) {
    var borrow := difference > 0x99;
    (Wrap32(if borrow then difference + 0xA0 else difference) % 256, borrow)
  }

  function SubDecimal(src: nat, dst: nat, x: nat): (nat, bool) {
    SubHigh(Wrap32(SubLow(src % 16, dst % 16, x) + (16 * (dst / 16) - 16 * (src / 16))))
  }

  /** The flags of the decimal instructions: Z is only ever cleared. */
  function DecimalFlags(result: nat, carry: bool, f: Flags): Flags {
    Flags(carry, result >= 0x80, f.z && result == 0, false, carry)
  }

  function DecimalLimb(subtract: bool, src: nat, dst: nat, f: Flags): Alu {
    var (r, c) := if subtract then SubDecimal(src, dst, Bit(f.x)) else AddDecimal(src, dst, Bit(f.x));
    Alu(r, DecimalFlags(r, c, f))
  }

  predicate Packed(b: nat) { b < 256 && b % 16 < 10 && b / 16 < 10 }

  /** The two digits of a byte. */
  function Digits(b: nat): nat { b / 16 * 10 + b % 16 }

  lemma OfDigits(high: nat, low: nat)
    requires high < 10 && low < 10
    ensures var b := 16 * high + low;
      Packed(b) && Digits(b) == 10 * high + low && Wrap32(b) % 256 == b
  {}

  lemma WrapsBelow(v: int)
    requires -0x1000 <= v < 0x1000
    ensures Wrap32(v) == if v < 0 then v + 0x1_0000_0000 else v
  {}

  lemma WrapsOnce(v: int, w: int)
    requires -0x1000 <= v < 0x1000 && -0x1000 <= w < 0x1000
    ensures Wrap32(Wrap32(v) + w) == Wrap32(v + w)
  {}

  lemma AddsNibbles(sl: nat, sh: nat, dl: nat, dh: nat, x: nat)
    requires sl < 10 && sh < 10 && dl < 10 && dh < 10 && x <= 1
    ensures var (r, c) := AddNibbles(sl, sh, dl, dh, x);
      Packed(r) && (10 * dh + dl) + (10 * sh + sl) + x == Digits(r) + Bit(c) * 100 && (r == 0) == (Digits(r) == 0)
  {
    var low := sl + dl + x;
    var digit, carry := if low > 9 then low - 10 else low, if low > 9 then 1 else 0;
    var high := sh + dh + carry;
    OfDigits(if high > 9 then high - 10 else high, digit);
    hide Wrap32, Digits, Packed;
  }

  /** Any two bytes, packed decimal or not: the binary sum, corrected by 6 when the low digits together are not a digit,
      and by $A0 when the whole is not below 100. */
  lemma AnySum(src: nat, dst: nat, x: nat)
    requires src < 256 && dst < 256 && x <= 1
    ensures var sum := dst + src + x + if dst % 16 + src % 16 + x > 9 then 6 else 0;
      AddDecimal(src, dst, x) == ((sum - if sum > 0x99 then 0xA0 else 0) % 256, sum > 0x99)
  {
    var sum := dst + src + x + if dst % 16 + src % 16 + x > 9 then 6 else 0;
    hide Wrap32;
    Bytes32(sum - 0xA0);
    Bytes32(sum);
  }

  /** The same for differences, also below zero. */
  lemma AnyDifference(src: nat, dst: nat, x: nat)
    requires src < 256 && dst < 256 && x <= 1
    ensures var low := dst % 16 - src % 16 - x;
      var difference := dst - src - x - if low < 0 || low > 9 then 6 else 0;
      var borrow := difference < 0 || difference > 0x99;
      SubDecimal(src, dst, x) == ((difference + if borrow then 0xA0 else 0) % 256, borrow)
  {
    hide Wrap32;
    var low := dst % 16 - src % 16 - x;
    var corrected := if low < 0 || low > 9 then low - 6 else low;
    var high := 16 * (dst / 16) - 16 * (src / 16);
    WrapsBelow(low);
    WrapsOnce(low, -6);
    assert SubLow(src % 16, dst % 16, x) == Wrap32(corrected);
    WrapsOnce(corrected, high);
    AnyHigh(corrected + high);
  }

  lemma AnyHigh(difference: int)
    requires -0x800 <= difference < 0x800
    ensures var borrow := difference < 0 || difference > 0x99;
      SubHigh(Wrap32(difference)) == ((difference + if borrow then 0xA0 else 0) % 256, borrow)
  {
    WrapsBelow(difference);
    WrapsOnce(difference, 0xA0);
    hide Wrap32;
    Bytes32(difference + 0xA0);
    Bytes32(difference);
  }

  lemma Bytes32(v: int)
    requires -0x1000 <= v < 0x1000
    ensures Wrap32(v) % 256 == v % 256
  {
    WrapsBelow(v);
    DivMod(v + 0x1_0000_0000, 256, v / 256 + 0x100_0000, v % 256);
  }

  /** The flags of one byte: X and C are the carry, N is bit 7, V is clear, Z is only ever cleared. */
  lemma ByteFlags(subtract: bool, src: nat, dst: nat, f: Flags)
    requires src < 256 && dst < 256
    ensures var a := DecimalLimb(subtract, src, dst, f);
      a.flags.c == a.flags.x && a.flags.n == (a.result / 128 % 2 == 1) && !a.flags.v
      && a.flags.z == (f.z && a.result == 0)
  {
    hide SubLow, Wrap32;
  }

  lemma AddsDigits(src: nat, dst: nat, x: nat)
    requires Packed(src) && Packed(dst) && x <= 1
    ensures var (r, c) := AddDecimal(src, dst, x);
      Packed(r) && Digits(dst) + Digits(src) + x == Digits(r) + Bit(c) * 100 && (r == 0) == (Digits(r) == 0)
  {
    hide AddNibbles;
    AddsNibbles(src % 16, src / 16, dst % 16, dst / 16, x);
  }

  lemma SubtractsLow(sl: nat, dl: nat, x: nat)
    requires sl < 10 && dl < 10 && x <= 1
    ensures SubLow(sl, dl, x) == Wrap32(if dl - sl - x < 0 then dl - sl - x - 6 else dl - sl - x)
  {
    WrapsBelow(dl - sl - x);
    WrapsOnce(dl - sl - x, -6);
    hide Wrap32;
  }

  lemma SubtractsHigh(high: int, digit: nat)
    requires -10 <= high < 10 && digit < 10
    ensures var (r, c) := SubHigh(Wrap32(16 * high + digit));
      c == (high < 0) && r == 16 * (if high < 0 then high + 10 else high) + digit
  {
    OfDigits(if high < 0 then high + 10 else high, digit);
    WrapsBelow(16 * high + digit);
    WrapsOnce(16 * high + digit, 0xA0);
    hide Wrap32, Packed, Digits;
  }

  lemma SubtractsNibbles(sl: nat, sh: nat, dl: nat, dh: nat, x: nat)
    requires sl < 10 && sh < 10 && dl < 10 && dh < 10 && x <= 1
    ensures var (r, c) := SubHigh(Wrap32(SubLow(sl, dl, x) + (16 * dh - 16 * sh)));
      Packed(r) && (10 * dh + dl) - (10 * sh + sl) - x == Digits(r) - Bit(c) * 100 && (r == 0) == (Digits(r) == 0)
  {
    hide Wrap32, SubLow, SubHigh, Packed, Digits;
    var low := dl - sl - x;
    var digit, borrow := if low < 0 then low + 10 else low, if low < 0 then 1 else 0;
    var high := dh - sh - borrow;
    SubtractsLow(sl, dl, x);
    WrapsOnce(if low < 0 then low - 6 else low, 16 * dh - 16 * sh);
    SubtractsHigh(high, digit);
    OfDigits(if high < 0 then high + 10 else high, digit);
  }

  lemma SubtractsDigits(src: nat, dst: nat, x: nat)
    requires Packed(src) && Packed(dst) && x <= 1
    ensures var (r, c) := SubDecimal(src, dst, x);
      Packed(r) && Digits(dst) - Digits(src) - x == Digits(r) - Bit(c) * 100 && (r == 0) == (Digits(r) == 0)
  {
    hide Wrap32, SubLow, SubHigh;
    SubtractsNibbles(src % 16, src / 16, dst % 16, dst / 16, x);
  }

  // ----- chains

  predicate AllPacked(bytes: seq<nat>) {
    forall i | 0 <= i < |bytes| :: Packed(bytes[i])
  }

  /** The digit pairs of a list of bytes. */
  function Pairs(bytes: seq<nat>): (p: seq<nat>)
    ensures |p| == |bytes|
  {
    seq(|bytes|, i requires 0 <= i < |bytes| => Digits(bytes[i]))
  }

  /** The number that packed bytes make up, least significant byte first. */
  function Decimal(bytes: seq<nat>): nat { Number(100, Pairs(bytes)) }

  /** One ABCD or SBCD after the other, from the least significant byte on. */
  function DecimalChain(subtract: bool, src: seq<nat>, dst: seq<nat>, f: Flags): (c: (seq<nat>, Flags))
    requires |src| == |dst|
    ensures |c.0| == |src|
  {
    if src == [] then ([], f)
    else
      var n := |src| - 1;
      var before := DecimalChain(subtract, src[..n], dst[..n], f);
      var a := DecimalLimb(subtract, src[n], dst[n], before.1);
      (before.0 + [a.result], a.flags)
  }

  lemma PairsNext(bytes: seq<nat>, top: nat)
    ensures Pairs(bytes + [top]) == Pairs(bytes) + [Digits(top)]
  {
    hide Digits;
  }

  lemma DecimalNext(bytes: seq<nat>, top: nat)
    ensures Decimal(bytes + [top]) == Decimal(bytes) + Digits(top) * Power(100, |bytes|)
    ensures (Decimal(bytes + [top]) == 0) == (Decimal(bytes) == 0 && Digits(top) == 0)
  {
    hide Number, Power, Digits, Pairs;
    PairsNext(bytes, top);
    NumberNext(100, Pairs(bytes), Digits(top));
  }

  lemma LimbDigits(subtract: bool, src: nat, dst: nat, f: Flags)
    requires Packed(src) && Packed(dst)
    ensures var a, e := DecimalLimb(subtract, src, dst, f), Direction(subtract);
      && Packed(a.result) && Digits(dst) + e * (Digits(src) + Bit(f.x)) == Digits(a.result) + e * (Bit(a.flags.x) * 100)
      && a.flags.c == a.flags.x && a.flags.z == (f.z && Digits(a.result) == 0)
  {
    hide AddDecimal, SubDecimal, Digits, Packed;
    AddsDigits(src, dst, Bit(f.x));
    SubtractsDigits(src, dst, Bit(f.x));
  }

  /** A chain of ABCD or SBCD adds or subtracts whole decimal numbers: X is the carry or borrow, and Z says that
      all of the result is zero. */
  lemma {:induction false} DecimalChainExact(subtract: bool, src: seq<nat>, dst: seq<nat>, f: Flags)
    requires |src| == |dst| && AllPacked(src) && AllPacked(dst)
    ensures var (r, g) := DecimalChain(subtract, src, dst, f);
      var e := Direction(subtract);
      && AllPacked(r) && g.z == (f.z && Decimal(r) == 0) && (src != [] ==> g.c == g.x)
      && Decimal(dst) + e * (Decimal(src) + Bit(f.x)) == Decimal(r) + e * (Bit(g.x) * Power(100, |src|))
  {
    hide DecimalLimb, Direction, Bit, Decimal, Power, Digits, Packed;
    var e, n := Direction(subtract), |src| - 1;
    if src == [] {
      NoDigits();
    } else {
      var (r, g) := DecimalChain(subtract, src[..n], dst[..n], f);
      DecimalChainExact(subtract, src[..n], dst[..n], f);
      LimbDigits(subtract, src[n], dst[n], g);
      var a, p := DecimalLimb(subtract, src[n], dst[n], g), Power(100, n);
      DirectionIs(subtract);
      Together(p, 100, Decimal(dst[..n]), Decimal(src[..n]), Bit(f.x), Decimal(r), Bit(g.x),
               Digits(dst[n]), Digits(src[n]), Digits(a.result), Bit(a.flags.x), e);
      assert src == src[..n] + [src[n]] && dst == dst[..n] + [dst[n]];
      DecimalNext(src[..n], src[n]);
      DecimalNext(dst[..n], dst[n]);
      DecimalNext(r, a.result);
      PowerNext(100, n);
    }
  }

  lemma NoDigits()
    ensures Decimal([]) == 0 && Power(100, 0) == 1
  {}
}
