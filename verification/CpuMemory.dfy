/** Operands in memory on the 68000 (src/core/cpu68000.cpp): bytes, words and longs in RAM, and chains of
    ADDX -(Ay),-(Ax) and their like. */
module CpuMemory {
  import opened Bits
  import opened CpuArithmetic
  import opened CpuExceptions
  import D = CpuDecimal

  /** The bytes of an operand. */
  function Width(size: Size): (w: nat)
    ensures w in {1, 2, 4}
  {
    match size
    case Byte => 1
    case Word => 2
    case Long => 4
  }

  /** Words and longs are at even addresses. */
  predicate Aligned(address: int, size: Size) { size == Byte || address % 2 == 0 }

  function High(w: Word): Byte { w[..8] }
  function Low(w: Word): Byte { w[8..] }

  function ReadByte(ram: map<int, Word>, address: int): Byte {
    if address % 2 == 0 then High(Peek(ram, address)) else Low(Peek(ram, address - 1))
  }

  function WriteByte(ram: map<int, Word>, address: int, b: Byte): map<int, Word> {
    if address % 2 == 0 then ram[address := b + Low(Peek(ram, address))]
    else ram[address - 1 := High(Peek(ram, address - 1)) + b]
  }

  function ReadMemory(ram: map<int, Word>, address: int, size: Size): nat {
    match size
    case Byte => Val(ReadByte(ram, address))
    case Word => Val(Peek(ram, address))
    case Long => Val(Peek(ram, address) + Peek(ram, address + 2))
  }

  function WriteMemory(ram: map<int, Word>, address: int, size: Size, value: nat): map<int, Word> {
    match size
    case Byte => WriteByte(ram, address, ToBits(value, 8))
    case Word => ram[address := ToBits(value, 16)]
    case Long => var l := ToBits(value, 32); ram[address := l[..16]][address + 2 := l[16..]]
  }

  lemma ReadRange(ram: map<int, Word>, address: int, size: Size)
    ensures ReadMemory(ram, address, size) < size.Range()
  {
    match size
    case Byte => ValBound(ReadByte(ram, address)); Powers();
    case Word => ValBound(Peek(ram, address)); Powers();
    case Long => ValBound(Peek(ram, address) + Peek(ram, address + 2)); Powers();
  }

  /** What is written can be read back. */
  lemma ReadsBack(ram: map<int, Word>, address: int, size: Size, value: nat)
    requires value < size.Range()
    ensures ReadMemory(WriteMemory(ram, address, size, value), address, size) == value
  {
    hide ToBits, Val;
    Powers();
    match size
    case Byte => ValToBits(value, 8);
    case Word => ValToBits(value, 16);
    case Long =>
      ValToBits(value, 32);
      var l := ToBits(value, 32);
      assert l[..16] + l[16..] == l;
  }

  /** Operands that do not overlap the one written are as they were. */
  lemma ReadsOther(ram: map<int, Word>, address: int, size: Size, value: nat, other: int, n: Size)
    requires Aligned(address, size) && Aligned(other, n)
    requires other + Width(n) <= address || address + Width(size) <= other
    ensures ReadMemory(WriteMemory(ram, address, size, value), other, n) == ReadMemory(ram, other, n)
  {
    hide ToBits, Val;
  }

  /** Memory is big-endian: the first byte of a word and the first word of a long are the high ones. */
  lemma BigEndian(ram: map<int, Word>, address: int)
    requires address % 2 == 0
    ensures ReadMemory(ram, address, Word)
         == 0x100 * ReadMemory(ram, address, Byte) + ReadMemory(ram, address + 1, Byte)
    ensures ReadMemory(ram, address, Long)
         == 0x10000 * ReadMemory(ram, address, Word) + ReadMemory(ram, address + 2, Word)
  {
    hide Val, Pow2;
    Powers();
    var w, v := Peek(ram, address), Peek(ram, address + 2);
    assert w == w[..8] + w[8..];
    ValConcat(w[..8], w[8..]);
    ValConcat(w, v);
  }

  // ----- chains in memory

  /** ADDX or SUBX of a size, or ABCD or SBCD of bytes. */
  datatype Operation = Binary(subtract: bool, size: Size) | Decimal(subtract: bool) {
    function Size(): Size { if Binary? then size else Byte }

    function Limb(src: nat, dst: nat, f: Flags): Alu {
      if Binary? then CpuArithmetic.Limb(subtract, size.Half(), src, dst, f) else D.DecimalLimb(subtract, src, dst, f)
    }
  }

  /** RAM, the two address registers and the flags. */
  datatype Chained = Chained(ram: map<int, Word>, ax: int, ay: int, flags: Flags)

  /** One instruction: both addresses are decremented first. */
  function Step(op: Operation, c: Chained): Chained {
    var ay, ax := c.ay - Width(op.Size()), c.ax - Width(op.Size());
    var limb := op.Limb(ReadMemory(c.ram, ay, op.Size()), ReadMemory(c.ram, ax, op.Size()), c.flags);
    Chained(WriteMemory(c.ram, ax, op.Size(), limb.result), ax, ay, limb.flags)
  }

  function Steps(op: Operation, c: Chained, n: nat): Chained {
    if n == 0 then c else Step(op, Steps(op, c, n - 1))
  }

  /** The limbs below an address, least significant first: the highest addresses. */
  function LimbsBelow(ram: map<int, Word>, end: int, size: Size, n: nat): (limbs: seq<nat>)
    ensures |limbs| == n
  {
    seq(n, i requires 0 <= i < n => LimbAt(ram, end, size, i))
  }

  function LimbAt(ram: map<int, Word>, end: int, size: Size, i: nat): nat {
    ReadMemory(ram, end - Width(size) * (i + 1), size)
  }

  /** The results and flags of the operations on lists of limbs. */
  function Results(op: Operation, src: seq<nat>, dst: seq<nat>, f: Flags): (r: (seq<nat>, Flags))
    requires |src| == |dst|
    ensures |r.0| == |src|
  {
    if op.Binary? then Chain(op.subtract, op.size.Half(), src, dst, f) else D.DecimalChain(op.subtract, src, dst, f)
  }

  lemma ResultsNext(op: Operation, src: seq<nat>, dst: seq<nat>, f: Flags, s: nat, d: nat)
    requires |src| == |dst|
    ensures var before := Results(op, src, dst, f);
      var limb := op.Limb(s, d, before.1);
      Results(op, src + [s], dst + [d], f) == (before.0 + [limb.result], limb.flags)
  {
    assert (src + [s])[..|src|] == src && (dst + [d])[..|dst|] == dst;
  }

  /** The address n operands below another. */
  function Below(end: int, size: Size, n: nat): int { end - Width(size) * n }

  lemma BelowNext(end: int, size: Size, n: nat)
    ensures Below(end, size, n + 1) == Below(end, size, n) - Width(size)
    ensures Aligned(end, size) ==> Aligned(Below(end, size, n), size)
  {}

  lemma BelowUnder(end: int, size: Size, n: nat)
    ensures Below(end, size, n) <= end
  {
    MultipleBounds(n, Width(size));
  }

  lemma BelowOrder(end: int, size: Size, i: nat, j: nat)
    requires i < j
    ensures Below(end, size, j) + Width(size) <= Below(end, size, i)
  {
    MultipleBounds(j - i, Width(size));
    assert Width(size) * j == Width(size) * i + Width(size) * (j - i);
  }

  lemma LimbRange(op: Operation, ram: map<int, Word>, ax: int, ay: int, f: Flags)
    ensures op.Limb(ReadMemory(ram, ay, op.Size()), ReadMemory(ram, ax, op.Size()), f).result < op.Size().Range()
  {
    hide ReadMemory, D.AddNibbles;
    ReadRange(ram, ay, op.Size());
    ReadRange(ram, ax, op.Size());
    if op.Binary? {
      LimbExact(op.subtract, op.size.Half(), ReadMemory(ram, ay, op.size), ReadMemory(ram, ax, op.size), f);
    } else {
      ByteResult(op.subtract, ReadMemory(ram, ay, Byte), ReadMemory(ram, ax, Byte), f);
    }
  }

  lemma ByteResult(subtract: bool, src: nat, dst: nat, f: Flags)
    ensures D.DecimalLimb(subtract, src, dst, f).result < 256
  {}

  lemma Addresses(op: Operation, c: Chained, n: nat)
    ensures var t := Steps(op, c, n);
      t.ax == Below(c.ax, op.Size(), n) && t.ay == Below(c.ay, op.Size(), n)
  {
    hide ReadMemory, WriteMemory;
    if n > 0 {
      Addresses(op, c, n - 1);
      BelowNext(c.ax, op.Size(), n - 1);
      BelowNext(c.ay, op.Size(), n - 1);
    }
  }

  /** Memory outside the destination is as it was. */
  lemma {:induction false} Kept(op: Operation, c: Chained, n: nat, address: int, m: Size)
    requires Aligned(c.ax, op.Size()) && Aligned(address, m)
    requires address + Width(m) <= Below(c.ax, op.Size(), n) || c.ax <= address
    ensures ReadMemory(Steps(op, c, n).ram, address, m) == ReadMemory(c.ram, address, m)
  {
    hide ReadMemory, WriteMemory, Below, Aligned, Operation.Limb;
    var size := op.Size();
    if n > 0 {
      BelowOrder(c.ax, size, n - 1, n);
      Kept(op, c, n - 1, address, m);
      var before := Steps(op, c, n - 1);
      Addresses(op, c, n - 1);
      BelowNext(c.ax, size, n - 1);
      BelowAligned(c.ax, size, n);
      BelowStart(c.ax, size, n);
      var ay := before.ay - Width(size);
      var to := Below(c.ax, size, n);
      var limb := op.Limb(ReadMemory(before.ram, ay, size), ReadMemory(before.ram, to, size), before.flags);
      ReadsOther(before.ram, to, size, limb.result, address, m);
    }
  }

  lemma BelowAligned(end: int, size: Size, n: nat)
    requires Aligned(end, size)
    ensures Aligned(Below(end, size, n), size)
  {}

  lemma BelowStart(end: int, size: Size, n: nat)
    requires n > 0
    ensures Below(end, size, n) + Width(size) <= end
  {
    BelowOrder(end, size, 0, n);
  }

  /** The two blocks of n operands are the same one or do not overlap. */
  predicate Apart(ax: int, ay: int, size: Size, n: nat) {
    ax == ay || ay <= Below(ax, size, n) || ax <= Below(ay, size, n)
  }

  /** One more step adds one more limb to the result. */
  lemma OneMore(op: Operation, c: Chained, n: nat, k: nat)
    requires k < n && Aligned(c.ax, op.Size()) && Aligned(c.ay, op.Size()) && Apart(c.ax, c.ay, op.Size(), n)
    ensures var size, before, t := op.Size(), Steps(op, c, k), Steps(op, c, k + 1);
      var limb := op.Limb(LimbAt(c.ram, c.ay, size, k), LimbAt(c.ram, c.ax, size, k), before.flags);
      && t.flags == limb.flags && LimbAt(t.ram, c.ax, size, k) == limb.result
      && forall i: nat | i < k :: LimbAt(t.ram, c.ax, size, i) == LimbAt(before.ram, c.ax, size, i)
  {
    hide ReadMemory, WriteMemory, Below, Aligned, Operation.Limb;
    var size, before := op.Size(), Steps(op, c, k);
    var from, to := Below(c.ay, size, k + 1), Below(c.ax, size, k + 1);
    Addresses(op, c, k);
    BelowNext(c.ax, size, k);
    BelowNext(c.ay, size, k);
    BelowAligned(c.ax, size, k + 1);
    BelowAligned(c.ay, size, k + 1);
    SourceApart(c.ax, c.ay, size, n, k);
    Kept(op, c, k, from, size);
    Kept(op, c, k, to, size);
    LimbIs(c.ram, c.ay, size, k);
    LimbIs(c.ram, c.ax, size, k);
    LimbRange(op, before.ram, to, from, before.flags);
    var limb := op.Limb(ReadMemory(before.ram, from, size), ReadMemory(before.ram, to, size), before.flags);
    var t := Steps(op, c, k + 1);
    assert t.ram == WriteMemory(before.ram, to, size, limb.result);
    ReadsBack(before.ram, to, size, limb.result);
    LimbIs(t.ram, c.ax, size, k);
    forall i: nat | i < k
      ensures LimbAt(t.ram, c.ax, size, i) == LimbAt(before.ram, c.ax, size, i)
    {
      LimbIs(t.ram, c.ax, size, i);
      LimbIs(before.ram, c.ax, size, i);
      BelowOrder(c.ax, size, i + 1, k + 1);
      BelowAligned(c.ax, size, i + 1);
      ReadsOther(before.ram, to, size, limb.result, Below(c.ax, size, i + 1), size);
    }
  }

  lemma LimbIs(ram: map<int, Word>, end: int, size: Size, i: nat)
    ensures LimbAt(ram, end, size, i) == ReadMemory(ram, Below(end, size, i + 1), size)
  {}

  lemma SourceApart(ax: int, ay: int, size: Size, n: nat, k: nat)
    requires k < n && Apart(ax, ay, size, n)
    ensures Below(ay, size, k + 1) + Width(size) <= Below(ax, size, k) || ax <= Below(ay, size, k + 1)
    ensures Below(ax, size, k + 1) + Width(size) <= Below(ax, size, k)
  {
    BelowOrder(ax, size, k, n);
    BelowOrder(ax, size, k, k + 1);
    BelowStart(ay, size, k + 1);
    if k + 1 < n {
      BelowOrder(ay, size, k + 1, n);
    }
  }

  /** n instructions in memory are a chain over n limbs. */
  lemma {:induction false} ChainInMemory(op: Operation, c: Chained, n: nat, k: nat)
    requires k <= n && Aligned(c.ax, op.Size()) && Aligned(c.ay, op.Size()) && Apart(c.ax, c.ay, op.Size(), n)
    ensures var size, t := op.Size(), Steps(op, c, k);
      (LimbsBelow(t.ram, c.ax, size, k), t.flags)
        == Results(op, LimbsBelow(c.ram, c.ay, size, k), LimbsBelow(c.ram, c.ax, size, k), c.flags)
  {
    hide Step, LimbAt, Apart, Aligned, Results, Operation.Limb;
    var size := op.Size();
    if k == 0 {
      NoResults(op, c.flags);
      assert LimbsBelow(c.ram, c.ay, size, 0) == [] && LimbsBelow(c.ram, c.ax, size, 0) == [];
    } else {
      ChainInMemory(op, c, n, k - 1);
      OneMore(op, c, n, k - 1);
      var before, t := Steps(op, c, k - 1), Steps(op, c, k);
      var src, dst := LimbsBelow(c.ram, c.ay, size, k - 1), LimbsBelow(c.ram, c.ax, size, k - 1);
      var s, d := LimbAt(c.ram, c.ay, size, k - 1), LimbAt(c.ram, c.ax, size, k - 1);
      ResultsNext(op, src, dst, c.flags, s, d);
      assert LimbsBelow(c.ram, c.ay, size, k) == src + [s] && LimbsBelow(c.ram, c.ax, size, k) == dst + [d];
      assert LimbsBelow(t.ram, c.ax, size, k)
          == LimbsBelow(before.ram, c.ax, size, k - 1) + [LimbAt(t.ram, c.ax, size, k - 1)];
    }
  }

  lemma NoResults(op: Operation, f: Flags)
    ensures Results(op, [], [], f) == ([], f)
  {}

  lemma LimbsInRange(ram: map<int, Word>, end: int, size: Size, n: nat)
    ensures Limbs(size.Range(), LimbsBelow(ram, end, size, n))
  {
    hide ReadMemory;
    forall i: nat | i < n
      ensures LimbsBelow(ram, end, size, n)[i] < size.Range()
    {
      ReadRange(ram, Below(end, size, i + 1), size);
    }
  }

  /** n times ADDX or SUBX -(Ay),-(Ax) adds or subtracts the big-endian numbers of n operands below Ay and Ax: X is
      the carry or borrow, and Z says that all of the result is zero. */
  lemma MemoryAdds(subtract: bool, size: Size, c: Chained, n: nat)
    requires Aligned(c.ax, size) && Aligned(c.ay, size) && Apart(c.ax, c.ay, size, n)
    ensures var t, m, e := Steps(Binary(subtract, size), c, n), size.Range(), Direction(subtract);
      var src, dst := Number(m, LimbsBelow(c.ram, c.ay, size, n)), Number(m, LimbsBelow(c.ram, c.ax, size, n));
      var result := Number(m, LimbsBelow(t.ram, c.ax, size, n));
      && dst + e * (src + Bit(c.flags.x)) == result + e * (Bit(t.flags.x) * Power(m, n))
      && t.flags.z == (c.flags.z && result == 0) && (n > 0 ==> t.flags.c == t.flags.x)
  {
    hide Steps, LimbsBelow, Aligned, Apart, Chain, Number, Power, Direction, Bit;
    ChainInMemory(Binary(subtract, size), c, n, n);
    LimbsInRange(c.ram, c.ay, size, n);
    LimbsInRange(c.ram, c.ax, size, n);
    ChainExact(subtract, size.Half(), LimbsBelow(c.ram, c.ay, size, n), LimbsBelow(c.ram, c.ax, size, n), c.flags);
  }

  /** The same for ABCD and SBCD on packed decimal numbers. */
  lemma MemoryAddsDecimal(subtract: bool, c: Chained, n: nat)
    requires Apart(c.ax, c.ay, Byte, n)
    requires D.AllPacked(LimbsBelow(c.ram, c.ay, Byte, n)) && D.AllPacked(LimbsBelow(c.ram, c.ax, Byte, n))
    ensures var t, e := Steps(Decimal(subtract), c, n), Direction(subtract);
      var src, dst := D.Decimal(LimbsBelow(c.ram, c.ay, Byte, n)), D.Decimal(LimbsBelow(c.ram, c.ax, Byte, n));
      var result := D.Decimal(LimbsBelow(t.ram, c.ax, Byte, n));
      && D.AllPacked(LimbsBelow(t.ram, c.ax, Byte, n))
      && dst + e * (src + Bit(c.flags.x)) == result + e * (Bit(t.flags.x) * Power(100, n))
      && t.flags.z == (c.flags.z && result == 0) && (n > 0 ==> t.flags.c == t.flags.x)
  {
    hide Steps, LimbsBelow, Apart, D.DecimalChain, D.Decimal, Power, Direction, Bit, D.AllPacked;
    ChainInMemory(Decimal(subtract), c, n, n);
    D.DecimalChainExact(subtract, LimbsBelow(c.ram, c.ay, Byte, n), LimbsBelow(c.ram, c.ax, Byte, n), c.flags);
  }
}
