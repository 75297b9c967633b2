/** Machine words as bit strings, most significant bit first: the shifts and
    bitwise operators of the C++ code, and the numbers the strings stand for. */
module Bits {
  type Bits = seq<bool>
  type Byte = b: seq<bool> | |b| == 8 witness seq(8, _ => false)
  type Word = w: seq<bool> | |w| == 16 witness seq(16, _ => false)
  type Long = l: seq<bool> | |l| == 32 witness seq(32, _ => false)

  function Zeros(n: nat): Bits { seq(n, _ => false) }

  const ZERO: Word := Zeros(16)

  function And(a: Bits, b: Bits): (r: Bits)
    requires |a| == |b|
  {
    seq(|a|, i requires 0 <= i < |a| => a[i] && b[i])
  }

  function Or(a: Bits, b: Bits): (r: Bits)
    requires |a| == |b|
  {
    seq(|a|, i requires 0 <= i < |a| => a[i] || b[i])
  }

  function Xor(a: Bits, b: Bits): (r: Bits)
    requires |a| == |b|
  {
    seq(|a|, i requires 0 <= i < |a| => a[i] != b[i])
  }

  function Not(a: Bits): (r: Bits) {
    seq(|a|, i requires 0 <= i < |a| => !a[i])
  }

  function Shl(a: Bits, n: nat): (r: Bits)
    requires n <= |a|
  {
    a[n..] + Zeros(n)
  }

  function Shr(a: Bits, n: nat): (r: Bits)
    requires n <= |a|
  {
    Zeros(n) + a[..|a| - n]
  }

  function Pow2(n: nat): (r: nat)
    ensures r >= 1
  {
    if n == 0 then 1 else 2 * Pow2(n - 1)
  }

  /** The number a bit string stands for. */
  function Val(b: Bits): nat {
    if b == [] then 0 else 2 * Val(b[..|b| - 1]) + (if b[|b| - 1] then 1 else 0)
  }

  /** The low `len` bits of n. */
  function ToBits(n: nat, len: nat): (b: Bits)
    ensures |b| == len
  {
    if len == 0 then [] else ToBits(n / 2, len - 1) + [n % 2 == 1]
  }

  /** A bit string as a two's complement number. */
  function Signed(w: Bits): int
    requires w != []
  {
    Val(w) - if w[0] then Pow2(|w|) else 0
  }

  lemma {:induction false} ValBound(b: Bits)
    ensures Val(b) < Pow2(|b|)
  {
    if b != [] {
      ValBound(b[..|b| - 1]);
    }
  }

  lemma {:induction false} ValToBits(n: nat, len: nat)
    requires n < Pow2(len)
    ensures Val(ToBits(n, len)) == n
  {
    if len > 0 {
      ValToBits(n / 2, len - 1);
      assert ToBits(n, len)[..len - 1] == ToBits(n / 2, len - 1);
    }
  }

  lemma {:induction false} ValToBitsMod(n: nat, len: nat)
    ensures Val(ToBits(n, len)) == n % Pow2(len)
  {
    if len > 0 {
      ValToBitsMod(n / 2, len - 1);
      assert ToBits(n, len)[..len - 1] == ToBits(n / 2, len - 1);
      HalfMod(n, Pow2(len - 1));
    }
  }

  lemma HalfMod(n: int, m: nat)
    requires m > 0
    ensures n % (2 * m) == 2 * (n / 2 % m) + n % 2
  {
    var q, r := n / 2 / m, n / 2 % m;
    assert n / 2 == m * q + r;
    assert q * (2 * m) == 2 * (m * q);
    DivMod(n, 2 * m, q, 2 * r + n % 2);
  }

  lemma LowBit(low: Bits)
    ensures Val(low + [false]) == 2 * Val(low)
  {
    assert (low + [false])[..|low|] == low;
  }

  lemma {:induction false} Pow2Add(m: nat, n: nat)
    ensures Pow2(m + n) == Pow2(m) * Pow2(n)
  {
    if n > 0 {
      Pow2Add(m, n - 1);
    }
  }

  lemma Powers()
    ensures Pow2(8) == 0x100 && Pow2(16) == 0x10000 && Pow2(32) == 0x1_0000_0000
  {
    assert Pow2(8) == 0x100;
    Pow2Add(8, 8);
    Pow2Add(16, 16);
  }

  lemma {:induction false} ValConcat(a: Bits, b: Bits)
    ensures Val(a + b) == Val(a) * Pow2(|b|) + Val(b)
  {
    if b == [] {
      assert a + b == a;
    } else {
      var c := b[..|b| - 1];
      ValConcat(a, c);
      assert (a + b)[..|a + b| - 1] == a + c;
      assert Pow2(|b|) == 2 * Pow2(|c|);
      assert Val(a) * Pow2(|b|) == 2 * (Val(a) * Pow2(|c|));
    }
  }

  /** A field of a word, as a number. */
  lemma Field(w: Bits, i: nat, j: nat)
    requires i <= j <= |w|
    ensures Val(w[i..j]) == Val(w) / Pow2(|w| - j) % Pow2(j - i)
  {
    hide Val, Pow2;
    var high, field, low := w[..i], w[i..j], w[j..];
    assert w == w[..j] + low && w[..j] == high + field;
    ValConcat(w[..j], low);
    ValConcat(high, field);
    ValBound(field);
    ValBound(low);
    DivMod(Val(w), Pow2(|low|), Val(w[..j]), Val(low));
    DivMod(Val(w[..j]), Pow2(|field|), Val(high), Val(field));
  }

  lemma SingleBit(b: Bits)
    requires |b| == 1
    ensures b[0] == (Val(b) == 1) && Val(b) == if b[0] then 1 else 0
  {
    assert b == [b[0]];
    ValOne(b[0]);
  }

  /** Bit n of a word, counted from the right. */
  lemma BitOf(w: Bits, n: nat)
    requires n < |w|
    ensures w[|w| - 1 - n] == (Val(w) / Pow2(n) % 2 == 1)
  {
    hide Val;
    var i := |w| - 1 - n;
    Field(w, i, i + 1);
    SingleBit(w[i..i + 1]);
    assert Pow2(1) == 2 * Pow2(0);
  }

  lemma PowersOfTwo()
    ensures Pow2(0) == 1 && Pow2(1) == 2 && Pow2(2) == 4 && Pow2(3) == 8 && Pow2(4) == 16 && Pow2(5) == 32
    ensures Pow2(6) == 64 && Pow2(7) == 128 && Pow2(8) == 256 && Pow2(9) == 512 && Pow2(10) == 0x400
    ensures Pow2(11) == 0x800 && Pow2(12) == 0x1000 && Pow2(13) == 0x2000 && Pow2(14) == 0x4000 && Pow2(15) == 0x8000
  {
    assert Pow2(4) == 16;
    Pow2Add(4, 4);
    Pow2Add(8, 4);
    assert Pow2(8) == 256 && Pow2(12) == 0x1000;
  }

  lemma ValOne(b: bool)
    ensures Val([b]) == if b then 1 else 0
  {
    assert [b][..0] == [];
  }

  /** The top bit and the others. */
  lemma TopBit(v: Bits)
    requires v != []
    ensures Val(v) == (if v[0] then Pow2(|v| - 1) else 0) + Val(v[1..]) && Val(v[1..]) < Pow2(|v| - 1)
  {
    hide Val, Pow2;
    assert v == [v[0]] + v[1..];
    ValConcat([v[0]], v[1..]);
    ValOne(v[0]);
    ValBound(v[1..]);
  }

  lemma SignedByte(b: Byte)
    ensures -128 <= Signed(b) <= 127
  {
    TopBit(b);
    assert Pow2(8) == 256 && Pow2(7) == 128;
  }

  lemma {:induction false} ValZeros(n: nat)
    ensures Val(Zeros(n)) == 0
  {
    if n > 0 {
      ValZeros(n - 1);
      assert Zeros(n)[..n - 1] == Zeros(n - 1);
    }
  }

  lemma MultipleBounds(d: int, m: int)
    requires m > 0
    ensures d >= 1 ==> d * m >= m
    ensures d <= -1 ==> d * m <= 0 - m
  {
    if d >= 1 {
      assert (d - 1) * m >= 0;
      assert d * m == (d - 1) * m + m;
    } else if d <= -1 {
      assert (-1 - d) * m >= 0;
      assert d * m == 0 - (-1 - d) * m - m;
    }
  }

  /** Quotient and remainder are unique. */
  lemma DivMod(x: int, m: nat, q: int, r: nat)
    requires m > 0 && x == q * m + r && r < m
    ensures x / m == q && x % m == r
  {
    var k, s := x / m, x % m;
    assert x == m * k + s;
    assert (k - q) * m == r - s by {
      assert k * m == m * k;
      assert (k - q) * m == k * m - q * m;
    }
    MultipleBounds(k - q, m);
  }

  /** Counting up: the quotient and the remainder of the next number. */
  lemma NextQuotient(t: nat, m: nat)
    requires m > 0
    ensures (t + 1) / m == t / m + (if t % m + 1 == m then 1 else 0)
    ensures (t + 1) % m == if t % m + 1 == m then 0 else t % m + 1
  {
    var q, r := t / m, t % m;
    assert t == m * q + r;
    if r + 1 == m {
      assert (q + 1) * m == q * m + m;
      DivMod(t + 1, m, q + 1, 0);
    } else {
      DivMod(t + 1, m, q, r + 1);
    }
  }

  lemma ModNext(k: nat, n: nat)
    requires n > 0
    ensures (k % n + 1) % n == (k + 1) % n
  {
    var r := k % n;
    DivMod(r, n, 0, r);
    NextQuotient(r, n);
    NextQuotient(k, n);
  }
}
