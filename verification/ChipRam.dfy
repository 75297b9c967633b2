/** Chip RAM as the DMA channels see it: words at even addresses, modulo 2^19. */
module ChipRam {
  import opened Bits

  const BYTES := 0x80000
  const WORDS := 0x40000

  /** The even address in chip RAM that a pointer stands for. */
  function Mask(address: int): int { address / 2 % WORDS * 2 }

  function Read(ram: seq<Word>, address: int): Word
    requires |ram| == WORDS
  {
    ram[address / 2 % WORDS]
  }

  /** A pointer after a write to the register of its high or low half. */
  function WithHalf(pointer: int, high: bool, value: Word): int {
    if high then Mask(Val(value) * 0x10000 + pointer % 0x10000) else Mask(pointer / 0x10000 * 0x10000 + Val(value))
  }

  /** Both halves written, in either order, make up the pointer, whatever it was before. */
  lemma BothHalves(pointer: int, high: Word, low: Word)
    ensures WithHalf(WithHalf(pointer, true, high), false, low) == Mask(Val(high) * 0x10000 + Val(low))
    ensures WithHalf(WithHalf(pointer, false, low), true, high) == Mask(Val(high) * 0x10000 + Val(low))
  {
    hide Mask, Val;
    ValBound(low);
    assert Pow2(16) == 0x10000 by {
      Pow2Add(8, 8);
      assert Pow2(8) == 0x100;
    }
    HighPart(Val(high), pointer % 0x10000);
    LowPart(pointer / 0x10000, Val(low));
    MaskHigh(Val(high), Val(high) % 8, Val(low));
    MaskLow(Val(high), Val(low));
  }

  lemma MaskIs(x: int, q: int, r: nat)
    requires x == q * BYTES + r && r < BYTES
    ensures Mask(x) == r / 2 * 2
  {
    assert x / 2 == q * WORDS + r / 2;
    DivMod(x / 2, WORDS, q, r / 2);
  }

  lemma HighPart(high: nat, low: nat)
    requires low < 0x10000
    ensures Mask(high * 0x10000 + low) / 0x10000 == high % 8
  {
    hide Mask;
    var q, b := high / 8, high % 8;
    MaskIs(high * 0x10000 + low, q, b * 0x10000 + low);
    DivMod((b * 0x10000 + low) / 2 * 2, 0x10000, b, low / 2 * 2);
  }

  lemma LowPart(high: int, low: nat)
    requires low < 0x10000
    ensures Mask(high * 0x10000 + low) % 0x10000 == low / 2 * 2
  {
    hide Mask;
    var q, b := high / 8, high % 8;
    MaskIs(high * 0x10000 + low, q, b * 0x10000 + low);
    DivMod((b * 0x10000 + low) / 2 * 2, 0x10000, b, low / 2 * 2);
  }

  lemma MaskHigh(a: int, b: int, low: nat)
    requires low < 0x10000 && a % 8 == b
    ensures Mask(a * 0x10000 + low) == Mask(b * 0x10000 + low)
  {
    hide Mask;
    MaskIs(a * 0x10000 + low, a / 8, b * 0x10000 + low);
    MaskIs(b * 0x10000 + low, 0, b * 0x10000 + low);
  }

  lemma MaskLow(high: int, low: nat)
    ensures Mask(high * 0x10000 + low / 2 * 2) == Mask(high * 0x10000 + low)
  {
    assert (high * 0x10000 + low / 2 * 2) / 2 == (high * 0x10000 + low) / 2 by {
      HalfOf(high * 0x8000, low);
    }
  }

  lemma HalfOf(h: int, low: nat)
    ensures (2 * h + low / 2 * 2) / 2 == h + low / 2 && (2 * h + low) / 2 == h + low / 2
  {}

  /** RAM with a list of words stored from word w on. */
  function Store(ram: seq<Word>, w: nat, words: seq<Word>): (r: seq<Word>)
    requires |ram| == WORDS
    ensures |r| == WORDS
  {
    if words == [] then ram
    else
      var n := |words| - 1;
      Store(ram, w, words[..n])[(w + n) % WORDS := words[n]]
  }

  /** What is stored can be read back, and nothing else changes. */
  lemma {:induction false} StoreReads(ram: seq<Word>, w: nat, words: seq<Word>, i: nat)
    requires |ram| == WORDS && |words| <= WORDS && i < WORDS
    ensures Store(ram, w, words)[(w + i) % WORDS] == if i < |words| then words[i] else ram[(w + i) % WORDS]
  {
    if words != [] {
      var n := |words| - 1;
      StoreReads(ram, w, words[..n], i);
      if i != n {
        Distinct(w, i, n);
      }
    }
  }

  lemma Distinct(w: nat, i: nat, j: nat)
    requires i < WORDS && j < WORDS && i != j
    ensures (w + i) % WORDS != (w + j) % WORDS
  {}

  lemma Wraps(w: nat, n: nat)
    ensures (w % WORDS + n) % WORDS == (w + n) % WORDS
  {}

  /** Storing more words where the first ones ended is storing them all. */
  lemma {:induction false} StoreConcat(ram: seq<Word>, w: nat, a: seq<Word>, b: seq<Word>)
    requires |ram| == WORDS
    ensures Store(Store(ram, w, a), (w + |a|) % WORDS, b) == Store(ram, w, a + b)
  {
    if b == [] {
      assert a + b == a;
    } else {
      hide Store;
      var n := |b| - 1;
      StoreConcat(ram, w, a, b[..n]);
      StoreLast(Store(ram, w, a), (w + |a|) % WORDS, b);
      StoreLast(ram, w, a + b);
      assert (a + b)[..|a| + n] == a + b[..n];
      Wraps(w + |a|, n);
    }
  }

  lemma StoreLast(ram: seq<Word>, w: nat, words: seq<Word>)
    requires |ram| == WORDS && words != []
    ensures var n := |words| - 1; Store(ram, w, words) == Store(ram, w, words[..n])[(w + n) % WORDS := words[n]]
  {}

  /** A pointer may be masked after every step or not at all. */
  lemma MaskAdds(x: int, n: int)
    requires n % 2 == 0
    ensures Mask(Mask(x) + n) == Mask(x + n) && (Mask(x) + n) / 2 % WORDS == (x + n) / 2 % WORDS
  {
    var a, q := x / 2 % WORDS, x / 2 / WORDS;
    assert x / 2 == WORDS * q + a;
    assert (x + n) / 2 == WORDS * q + (a + n / 2);
    assert (2 * a + n) / 2 == a + n / 2;
  }

  lemma ReadMasked(ram: seq<Word>, x: int, n: int)
    requires |ram| == WORDS && n % 2 == 0
    ensures Read(ram, Mask(x) + n) == Read(ram, x + n)
  {
    MaskAdds(x, n);
  }
}
