/** The shifts and rotates of the 68000 (src/core/cpu68000.cpp): the loop that moves one bit at a time
    computes products, quotients and rotations. */
module CpuShift {
  import opened Bits

  /** AS, LS, ROX, RO. */
  datatype Kind = Arithmetic | Logical | RotateX | Rotate

  datatype ShiftResult = ShiftResult(value: Bits, carry: bool, extend: bool, overflow: bool)

  /** One bit to the left or right. */
  function OneLeft(kind: Kind, s: ShiftResult): (t: ShiftResult)
    requires s.value != []
    ensures |t.value| == |s.value|
  {
    var out := s.value[0];
    var next := s.value[1..] + [if kind == RotateX then s.extend else kind == Rotate && out];
    ShiftResult(next, out, if kind == RotateX then out else s.extend,
                s.overflow || (kind == Arithmetic && next[0] != out))
  }

  function OneRight(kind: Kind, s: ShiftResult): (t: ShiftResult)
    requires s.value != []
    ensures |t.value| == |s.value|
  {
    var n := |s.value| - 1;
    var out := s.value[n];
    var fill := match kind
      case Arithmetic => s.value[0]
      case Logical => false
      case RotateX => s.extend
      case Rotate => out;
    ShiftResult([fill] + s.value[..n], out, if kind == RotateX then out else s.extend, s.overflow)
  }

  function Repeated(kind: Kind, left: bool, w: Bits, count: nat, x: bool): (t: ShiftResult)
    requires w != []
    ensures |t.value| == |w|
  {
    if count == 0 then ShiftResult(w, false, x, false)
    else
      var s := Repeated(kind, left, w, count - 1, x);
      if left then OneLeft(kind, s) else OneRight(kind, s)
  }

  /** X takes the last bit out, except in RO and when nothing moves; then C is 0, or X in ROX. */
  function Shifted(kind: Kind, left: bool, w: Bits, count: nat, x: bool): (t: ShiftResult)
    requires w != []
    ensures |t.value| == |w|
  {
    var t := Repeated(kind, left, w, count, x);
    if count == 0 then t.(carry := kind == RotateX && x)
    else if kind == Rotate then t
    else t.(extend := t.carry)
  }

  method StepLeft(kind: Kind, value: Bits, overflow0: bool, x: bool, ghost s: ShiftResult)
    returns (next: Bits, out: bool, overflow: bool)
    requires value != [] && s.value == value && s.extend == x && s.overflow == overflow0
    ensures ShiftResult(next, out, if kind == RotateX then out else x, overflow) == OneLeft(kind, s)
  {
    out := value[0];
    next := value[1..] + [false];
    if kind == RotateX {
      next := value[1..] + [x];
    }
    if kind == Rotate {
      next := value[1..] + [out];
    }
    overflow := overflow0 || (kind == Arithmetic && next[0] != value[0]);
  }

  method StepRight(kind: Kind, value: Bits, x: bool, ghost s: ShiftResult) returns (next: Bits, out: bool)
    requires value != [] && s.value == value && s.extend == x
    ensures ShiftResult(next, out, if kind == RotateX then out else x, s.overflow) == OneRight(kind, s)
  {
    var n := |value| - 1;
    out := value[n];
    next := [false] + value[..n];
    if kind == Arithmetic {
      next := [value[0]] + value[..n];
    }
    if kind == RotateX {
      next := [x] + value[..n];
    }
    if kind == Rotate {
      next := [out] + value[..n];
    }
  }

  method Shift(kind: Kind, left: bool, w: Bits, count: nat, x0: bool) returns (r: ShiftResult)
    requires w != []
    ensures r == Shifted(kind, left, w, count, x0)
  {
    hide OneLeft, OneRight;
    var value, carry, overflow, x := w, false, false, x0;
    for i := 0 to count
      invariant ShiftResult(value, carry, x, overflow) == Repeated(kind, left, w, i, x0)
    {
      ghost var s := Repeated(kind, left, w, i, x0);
      if left {
        value, carry, overflow := StepLeft(kind, value, overflow, x, s);
      } else {
        value, carry := StepRight(kind, value, x, s);
      }
      if kind == RotateX {
        x := carry;
      }
    }
    if count == 0 {
      carry := if kind == RotateX then x else false;
    } else if kind != Rotate {
      x := carry;
    }
    return ShiftResult(value, carry, x, overflow);
  }

  // ----- left: multiplication

  /** The bits that have left the word on the left, oldest first. */
  function Out(w: Bits, count: nat): (b: Bits)
    requires w != []
    ensures |b| == count
  {
    (w + Zeros(count))[..count]
  }

  lemma OutNext(w: Bits, count: nat, v: Bits)
    requires w != [] && v != [] && Out(w, count) + v == w + Zeros(count)
    ensures Out(w, count + 1) == Out(w, count) + [v[0]]
    ensures Out(w, count + 1) + (v[1..] + [false]) == w + Zeros(count + 1)
  {
    var out := Out(w, count);
    assert w + Zeros(count + 1) == (w + Zeros(count)) + [false];
    assert (out + v) + [false] == (out + [v[0]]) + (v[1..] + [false]);
    assert ((out + [v[0]]) + (v[1..] + [false]))[..count + 1] == out + [v[0]];
  }

  lemma {:induction false} LeftMoves(kind: Kind, w: Bits, count: nat, x: bool)
    requires w != [] && (kind == Arithmetic || kind == Logical)
    ensures var t := Repeated(kind, true, w, count, x);
      && Out(w, count) + t.value == w + Zeros(count) && (count > 0 ==> t.carry == Out(w, count)[count - 1])
  {
    hide Out;
    if count > 0 {
      LeftMoves(kind, w, count - 1, x);
      OutNext(w, count - 1, Repeated(kind, true, w, count - 1, x).value);
    } else {
      assert Zeros(0) == [] && Out(w, 0) == [];
    }
  }

  lemma {:induction false} LastBit(b: Bits)
    requires b != []
    ensures b[|b| - 1] == (Val(b) % 2 == 1)
  {
    Parity(Val(b[..|b| - 1]), b[|b| - 1]);
  }

  lemma Parity(high: nat, low: bool)
    ensures ((2 * high + if low then 1 else 0) % 2 == 1) == low
  {}

  /** ASL and LSL multiply modulo 2^n; C is the last bit pushed out. */
  lemma LeftMultiplies(kind: Kind, w: Bits, count: nat, x: bool)
    requires w != [] && (kind == Arithmetic || kind == Logical)
    ensures var t := Shifted(kind, true, w, count, x);
      && Val(t.value) == Val(w) * Pow2(count) % Pow2(|w|)
      && t.carry == (count > 0 && Val(w) * Pow2(count) / Pow2(|w|) % 2 == 1)
      && t.extend == if count > 0 then t.carry else x
  {
    hide OneLeft, Pow2;
    LeftMoves(kind, w, count, x);
    var t, out := Repeated(kind, true, w, count, x), Out(w, count);
    ValConcat(out, t.value);
    ValConcat(w, Zeros(count));
    ValZeros(count);
    ValBound(t.value);
    DivMod(Val(w) * Pow2(count), Pow2(|w|), Val(out), Val(t.value));
    if count > 0 {
      LastBit(out);
    }
  }

  // ----- right: division

  /** The sign bit, or zero, count times. */
  function Fill(b: bool, count: nat): (r: Bits)
    ensures |r| == count
  {
    seq(count, _ => b)
  }

  predicate FillBit(kind: Kind, w: Bits)
    requires w != []
  {
    kind == Arithmetic && w[0]
  }

  /** The bits that have left the word on the right, newest first. */
  function OutRight(kind: Kind, w: Bits, count: nat): (b: Bits)
    requires w != []
    ensures |b| == count
  {
    (Fill(FillBit(kind, w), count) + w)[|w|..]
  }

  lemma OutRightNext(f: bool, w: Bits, count: nat, v: Bits, out: Bits)
    requires v != [] && |v| == |w| && v + out == Fill(f, count) + w
    ensures ([f] + v[..|v| - 1]) + ([v[|v| - 1]] + out) == Fill(f, count + 1) + w
    ensures count > 0 ==> v[0] == f
    ensures count == 0 ==> v == w
  {
    assert Fill(f, count + 1) + w == [f] + (Fill(f, count) + w);
    assert v == v[..|v| - 1] + [v[|v| - 1]];
    if count > 0 {
      assert (v + out)[0] == v[0];
    } else {
      assert out == [] && v + out == v && Fill(f, 0) + w == w;
    }
  }

  lemma {:induction false} RightMoves(kind: Kind, w: Bits, count: nat, x: bool)
    requires w != [] && (kind == Arithmetic || kind == Logical)
    ensures var t := Repeated(kind, false, w, count, x);
      && t.value + OutRight(kind, w, count) == Fill(FillBit(kind, w), count) + w
      && (count > 0 ==> t.carry == OutRight(kind, w, count)[0])
  {
    hide Fill, OneRight, FillBit;
    var f := FillBit(kind, w);
    if count > 0 {
      RightMoves(kind, w, count - 1, x);
      var s, out := Repeated(kind, false, w, count - 1, x), OutRight(kind, w, count - 1);
      OutRightNext(f, w, count - 1, s.value, out);
      FillsIn(kind, w, s);
      var t := OneRight(kind, s);
      Split(t.value, [t.carry] + out, Fill(f, count) + w);
    } else {
      Split(w, [], Fill(f, 0) + w);
      FillNone(f, w);
    }
  }

  lemma FillsIn(kind: Kind, w: Bits, s: ShiftResult)
    requires w != [] && |s.value| == |w| && (kind == Arithmetic || kind == Logical)
    requires s.value[0] == FillBit(kind, w) || s.value == w
    ensures var t := OneRight(kind, s);
      t.value == [FillBit(kind, w)] + s.value[..|w| - 1] && t.carry == s.value[|w| - 1]
  {}

  lemma FillNone(f: bool, w: Bits)
    ensures Fill(f, 0) + w == w
  {}

  lemma Split(a: Bits, b: Bits, c: Bits)
    ensures a + b == c ==> c[..|a|] == a && c[|a|..] == b
  {}

  lemma {:induction false} ValFill(b: bool, count: nat)
    ensures Val(Fill(b, count)) == if b then Pow2(count) - 1 else 0
  {
    if count > 0 {
      ValFill(b, count - 1);
      assert Fill(b, count)[..count - 1] == Fill(b, count - 1);
    }
  }

  /** What is left, times 2^count, and what was pushed out make up the word. */
  lemma RightParts(kind: Kind, w: Bits, count: nat, x: bool)
    requires w != [] && (kind == Arithmetic || kind == Logical)
    ensures var t, out := Repeated(kind, false, w, count, x).value, Val(OutRight(kind, w, count));
      if kind == Logical then Val(t) * Pow2(count) + out == Val(w) else Signed(t) * Pow2(count) + out == Signed(w)
  {
    hide OneRight, OutRight, Pow2, Val, Fill, Signed;
    RightMoves(kind, w, count, x);
    var f := FillBit(kind, w);
    var t, out := Repeated(kind, false, w, count, x).value, OutRight(kind, w, count);
    ValConcat(t, out);
    ValConcat(Fill(f, count), w);
    ValFill(f, count);
    FirstBit(f, w, t, out);
    Borrowed(Val(t), Pow2(|w|), Pow2(count));
    assert kind == Arithmetic && !f ==> Signed(t) == Val(t) && Signed(w) == Val(w) by {
      NotNegative(t);
      NotNegative(w);
    }
    assert f ==> Signed(t) == Val(t) - Pow2(|w|) && Signed(w) == Val(w) - Pow2(|w|) by {
      Negative(t);
      Negative(w);
    }
  }

  lemma Borrowed(v: int, m: int, p: int)
    ensures (p - 1) * m == m * p - m && (v - m) * p == v * p - m * p
  {}

  lemma NotNegative(w: Bits)
    requires w != []
    ensures !w[0] ==> Signed(w) == Val(w)
  {}

  lemma Negative(w: Bits)
    requires w != []
    ensures w[0] ==> Signed(w) == Val(w) - Pow2(|w|)
  {}

  lemma FirstBit(f: bool, w: Bits, t: Bits, out: Bits)
    requires w != [] && t != [] && t + out == Fill(f, |out|) + w
    ensures out == [] ==> t[0] == w[0]
    ensures out != [] ==> t[0] == f
  {
    assert (t + out)[0] == t[0];
    if out != [] {
      assert (Fill(f, |out|) + w)[0] == f;
    } else {
      FillNone(f, w);
    }
  }

  /** C is the highest of the bits pushed out. */
  lemma TopOfOut(t: int, out: Bits)
    requires out != []
    ensures (t * Pow2(|out|) + Val(out)) / Pow2(|out| - 1) % 2 == if out[0] then 1 else 0
  {
    hide Val, Pow2;
    var rest, bit := out[1..], if out[0] then 1 else 0;
    assert out == [out[0]] + rest;
    ValConcat([out[0]], rest);
    ValOne(out[0]);
    ValBound(rest);
    PowTwice(|rest|);
    HalfWay(t, Pow2(|rest|), bit, Val(rest));
  }

  lemma HalfWay(t: int, p: nat, bit: nat, rest: nat)
    requires bit <= 1 && rest < p
    ensures (t * (2 * p) + (bit * p + rest)) / p % 2 == bit
  {
    assert t * (2 * p) + (bit * p + rest) == (2 * t + bit) * p + rest;
    DivMod(t * (2 * p) + (bit * p + rest), p, 2 * t + bit, rest);
  }

  /** LSR divides, ASR divides the signed value rounding down; C is the last bit pushed out. */
  lemma RightDivides(kind: Kind, w: Bits, count: nat, x: bool)
    requires w != [] && (kind == Arithmetic || kind == Logical)
    ensures var t, v := Shifted(kind, false, w, count, x), if kind == Logical then Val(w) else Signed(w);
      && (if kind == Logical then Val(t.value) else Signed(t.value)) == v / Pow2(count)
      && t.carry == (count > 0 && v / Pow2(count - 1) % 2 == 1)
      && t.extend == if count > 0 then t.carry else x
  {
    hide OneRight, OutRight, Pow2, Val, Signed;
    RightParts(kind, w, count, x);
    RightMoves(kind, w, count, x);
    var t, out := Repeated(kind, false, w, count, x).value, OutRight(kind, w, count);
    ValBound(out);
    var q := if kind == Logical then Val(t) else Signed(t);
    DivMod(q * Pow2(count) + Val(out), Pow2(count), q, Val(out));
    if count > 0 {
      TopOfOut(q, out);
    }
  }

  // ----- the overflow of ASL

  predicate FitsSigned(v: int, n: nat)
    requires n > 0
  {
    0 - Pow2(n - 1) <= v < Pow2(n - 1)
  }

  /** Doubling keeps the sign bit exactly when the product fits. */
  lemma Doubling(v: Bits)
    requires v != []
    ensures var next := v[1..] + [false];
      && (next[0] == v[0]) == FitsSigned(2 * Signed(v), |v|)
      && (next[0] == v[0] ==> Signed(next) == 2 * Signed(v))
  {
    hide Val;
    var next, low := v[1..] + [false], v[1..];
    TopBit(v);
    LowBit(low);
    if |v| > 1 {
      TopBit(low);
      hide Pow2;
      assert Pow2(|v|) == 2 * Pow2(|v| - 1) && Pow2(|v| - 1) == 2 * Pow2(|v| - 2) by {
        PowTwice(|v| - 1);
        PowTwice(|v| - 2);
      }
    }
  }

  lemma PowTwice(n: nat)
    ensures Pow2(n + 1) == 2 * Pow2(n)
  {}

  /** ASL sets V exactly when the product does not fit as a signed number, and otherwise leaves the product. */
  lemma {:induction false} AslOverflow(w: Bits, count: nat, x: bool)
    requires w != []
    ensures var t, v := Shifted(Arithmetic, true, w, count, x), Signed(w) * Pow2(count);
      t.overflow == !FitsSigned(v, |w|) && (!t.overflow ==> Signed(t.value) == v)
  {
    hide Val, Signed;
    if count > 0 {
      AslOverflow(w, count - 1, x);
      var s := Repeated(Arithmetic, true, w, count - 1, x);
      Doubling(s.value);
      var before := Signed(w) * Pow2(count - 1);
      assert Signed(w) * Pow2(count) == 2 * before by {
        PowTwice(count - 1);
      }
    } else {
      SignedFits(w);
    }
  }

  lemma SignedFits(w: Bits)
    requires w != []
    ensures FitsSigned(Signed(w), |w|)
  {
    TopBit(w);
    PowTwice(|w| - 1);
  }

  /** Only ASL can set V. */
  lemma {:induction false} NoOverflow(kind: Kind, left: bool, w: Bits, count: nat, x: bool)
    requires w != [] && !(kind == Arithmetic && left)
    ensures !Shifted(kind, left, w, count, x).overflow && !Repeated(kind, left, w, count, x).overflow
  {
    if count > 0 {
      NoOverflow(kind, left, w, count - 1, x);
    }
  }

  // ----- rotation

  /** The bits that a rotate turns: X is one of them in ROX. */
  function Ring(kind: Kind, value: Bits, x: bool): Bits {
    if kind == RotateX then [x] + value else value
  }

  function Turned(b: Bits, left: bool, k: nat): (r: Bits)
    requires k <= |b|
    ensures |r| == |b|
  {
    if left then b[k..] + b[..k] else b[|b| - k..] + b[..|b| - k]
  }

  lemma TurnedOnce(b: Bits, left: bool, k: nat)
    requires k < |b|
    ensures Turned(Turned(b, left, k), left, 1) == Turned(b, left, (k + 1) % |b|)
  {
    var n := |b|;
    hide Turned;
    if left {
      LeftOnce(b, k);
    } else {
      RightOnce(b, k);
    }
    if k + 1 < n {
      DivMod(k + 1, n, 0, k + 1);
    } else {
      DivMod(n, n, 1, 0);
      TurnedNot(b, left);
      TurnedAll(b, left);
    }
  }

  lemma LeftOnce(b: Bits, k: nat)
    requires k < |b|
    ensures Turned(Turned(b, true, k), true, 1) == Turned(b, true, k + 1)
  {
    var c := b[k..] + b[..k];
    assert c[..1] == [b[k]] && c[1..] == b[k + 1..] + b[..k];
    assert b[..k + 1] == b[..k] + [b[k]];
  }

  lemma RightOnce(b: Bits, k: nat)
    requires k < |b|
    ensures Turned(Turned(b, false, k), false, 1) == Turned(b, false, k + 1)
  {
    var m := |b| - k;
    var x, y, e := b[m..], b[..m - 1], b[m - 1];
    assert b[..m] == y + [e] && b[m - 1..] == [e] + x;
    MoveLast(x, y, e);
  }

  lemma MoveLast(x: Bits, y: Bits, e: bool)
    ensures Turned(x + (y + [e]), false, 1) == ([e] + x) + y
  {
    var c := x + (y + [e]);
    assert c == (x + y) + [e];
    assert c[|c| - 1..] == [e] && c[..|c| - 1] == x + y;
  }

  lemma TurnedAll(b: Bits, left: bool)
    ensures Turned(b, left, |b|) == b
  {}

  lemma OneTurn(kind: Kind, left: bool, s: ShiftResult)
    requires s.value != [] && (kind == Rotate || kind == RotateX)
    ensures var t := if left then OneLeft(kind, s) else OneRight(kind, s);
      Ring(kind, t.value, t.extend) == Turned(Ring(kind, s.value, s.extend), left, 1)
  {
    hide Turned;
    var v := s.value;
    var n := |v| - 1;
    if left {
      assert v == [v[0]] + v[1..];
      if kind == Rotate {
        TurnFirst(v[0], v[1..]);
      } else {
        TurnFirst(s.extend, v);
        assert ([v[0]] + v[1..]) + [s.extend] == [v[0]] + (v[1..] + [s.extend]);
      }
    } else {
      assert v == v[..n] + [v[n]];
      if kind == Rotate {
        TurnLast(v[..n], v[n]);
      } else {
        TurnLast([s.extend] + v[..n], v[n]);
        assert [s.extend] + (v[..n] + [v[n]]) == ([s.extend] + v[..n]) + [v[n]];
      }
    }
  }

  lemma TurnFirst(e: bool, rest: Bits)
    ensures Turned([e] + rest, true, 1) == rest + [e]
  {
    var b := [e] + rest;
    assert b[1..] == rest && b[..1] == [e];
  }

  lemma TurnLast(rest: Bits, e: bool)
    ensures Turned(rest + [e], false, 1) == [e] + rest
  {
    var b := rest + [e];
    assert b[|rest|..] == [e] && b[..|rest|] == rest;
  }

  /** RO turns the n bits of the word, ROX turns n + 1 bits: the word and X. */
  lemma {:induction false} Rotates(kind: Kind, left: bool, w: Bits, count: nat, x: bool)
    requires w != [] && (kind == Rotate || kind == RotateX)
    ensures var t, ring := Shifted(kind, left, w, count, x), Ring(kind, w, x);
      && Ring(kind, t.value, t.extend) == Turned(ring, left, count % |ring|)
      && (kind == Rotate ==> t.extend == x)
      && t.carry == if kind == RotateX then t.extend else count > 0 && (if left then t.value[|w| - 1] else t.value[0])
  {
    hide Turned;
    var ring := Ring(kind, w, x);
    if count > 0 {
      Rotates(kind, left, w, count - 1, x);
      var s := Repeated(kind, left, w, count - 1, x);
      OneTurn(kind, left, s);
      TurnedOnce(ring, left, (count - 1) % |ring|);
      ModNext(count - 1, |ring|);
    } else {
      TurnedNot(ring, left);
    }
  }

  lemma TurnedNot(b: Bits, left: bool)
    ensures Turned(b, left, 0) == b
  {}

  lemma TurnedBack(b: Bits, left: bool, k: nat)
    requires k <= |b|
    ensures Turned(Turned(b, left, k), !left, k) == b
  {}

  /** A rotate and the opposite rotate by the same count restore the word and X. */
  lemma RotatesBack(kind: Kind, left: bool, w: Bits, count: nat, x: bool)
    requires w != [] && (kind == Rotate || kind == RotateX)
    ensures var t := Shifted(kind, left, w, count, x);
      var u := Shifted(kind, !left, t.value, count, t.extend);
      u.value == w && u.extend == x
  {
    hide Turned, Shifted;
    Rotates(kind, left, w, count, x);
    var t := Shifted(kind, left, w, count, x);
    Rotates(kind, !left, t.value, count, t.extend);
    var ring := Ring(kind, w, x);
    TurnedBack(ring, left, count % |ring|);
    var u := Shifted(kind, !left, t.value, count, t.extend);
    var before, after := [x] + w, [u.extend] + u.value;
    assert kind == RotateX ==> before[1..] == after[1..] && before[0] == after[0];
  }
}
