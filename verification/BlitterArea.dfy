/** What an area blit means: shifting is division or multiplication of the joined
    words, filling is running parity, and a copy moves a rectangle even onto itself. */
module BlitterArea {
  import opened Bits
  import opened ChipRam
  import opened Blitter

  // ----- the log of a blit

  /** Each shifted word comes from the word and the one before it, over all rows. */
  ghost predicate Shifts(r: Regs, s: Area)
    requires r.Valid()
  {
    && s.aPrev == (if s.log == [] then ZERO else s.log[|s.log| - 1].a)
    && (forall k: nat {:trigger ShiftAt(r, s.log, k)} | k < |s.log| :: ShiftAt(r, s.log, k))
    && (r.useB ==> s.bPrev == if s.log == [] then ZERO else s.log[|s.log| - 1].b)
  }

  predicate ShiftAt(r: Regs, log: seq<Entry>, k: nat)
    requires r.Valid()
  {
    && k < |log|
    && log[k].aShifted == Barrel(if k == 0 then ZERO else log[k - 1].a, log[k].a, r.aShift, r.desc)
    && (r.useB ==> log[k].bShifted == Barrel(if k == 0 then ZERO else log[k - 1].b, log[k].b, r.bShift, r.desc))
  }

  lemma ShiftsWord(r: Regs, s: Area, first: bool, last: bool)
    requires r.Valid() && |s.ram| == WORDS && Shifts(r, s)
    ensures Shifts(r, WordStep(r, s, first, last))
  {
    hide Barrel, Minterm, Masked, Filled, FillCarry, Reversed, Read;
    var t := WordStep(r, s, first, last);
    forall k: nat | k < |t.log|
      ensures ShiftAt(r, t.log, k)
    {
      if k < |s.log| {
        assert ShiftAt(r, s.log, k);
      }
    }
  }

  lemma {:induction false} ShiftsWords(r: Regs, s: Area, w: nat, k: nat)
    requires r.Valid() && |s.ram| == WORDS && Shifts(r, s)
    ensures Shifts(r, Words(r, s, w, k))
  {
    hide WordStep, Shifts;
    if k > 0 {
      ShiftsWords(r, s, w, k - 1);
      ShiftsWord(r, Words(r, s, w, k - 1), k == 1, k == w);
    }
  }

  lemma {:induction false} ShiftsRows(r: Regs, s: Area, w: nat, h: nat)
    requires r.Valid() && |s.ram| == WORDS && Shifts(r, s)
    ensures Shifts(r, Rows(r, s, w, h))
  {
    hide Words;
    if h > 0 {
      ShiftsRows(r, s, w, h - 1);
      var before := Rows(r, s, w, h - 1);
      ShiftsWords(r, RowStart(r, before), w, w);
    }
  }

  /** A row adds its words to the log, one by one. */
  lemma {:induction false} WordsLog(r: Regs, s: Area, w: nat, k: nat, m: nat)
    requires r.Valid() && |s.ram| == WORDS && m <= k
    ensures |Words(r, s, w, k).log| == |s.log| + k && Words(r, s, w, k).log[..|s.log| + m] == Words(r, s, w, m).log
  {
    hide WordEntry;
    if m < k {
      WordsLog(r, s, w, k - 1, m);
    } else if k > 0 {
      WordsLog(r, s, w, k - 1, k - 1);
    }
  }

  lemma {:induction false} RowsLength(r: Regs, s: Area, w: nat, h: nat)
    requires r.Valid() && |s.ram| == WORDS && s.log == []
    ensures |Rows(r, s, w, h).log| == h * w
  {
    hide Words;
    if h > 0 {
      RowsLength(r, s, w, h - 1);
      WordsLog(r, RowStart(r, Rows(r, s, w, h - 1)), w, w, 0);
      assert h * w == (h - 1) * w + w;
    }
  }

  /** The log begins with that of the first j rows. */
  lemma {:induction false} RowsLog(r: Regs, s: Area, w: nat, h: nat, j: nat)
    requires r.Valid() && |s.ram| == WORDS && s.log == [] && j <= h
    ensures 0 <= j * w <= |Rows(r, s, w, h).log|
    ensures Rows(r, s, w, h).log[..j * w] == Rows(r, s, w, j).log
    decreases h
  {
    hide Rows, Words;
    RowsLength(r, s, w, h);
    RowsLength(r, s, w, j);
    if j < h {
      RowsLog(r, s, w, h - 1, j);
      RowsLength(r, s, w, h - 1);
      NextRow(r, s, w, h - 1);
      var start := RowStart(r, Rows(r, s, w, h - 1));
      WordsLog(r, start, w, w, 0);
      NoWords(r, start, w);
      assert h * w == (h - 1) * w + w;
      Prefixes(Rows(r, s, w, h).log, start.log, j * w);
    }
  }

  lemma NextRow(r: Regs, s: Area, w: nat, j: nat)
    requires r.Valid() && |s.ram| == WORDS
    ensures Rows(r, s, w, j + 1) == RowEnd(r, Words(r, RowStart(r, Rows(r, s, w, j)), w, w))
  {}

  lemma NoWords(r: Regs, s: Area, w: nat)
    requires r.Valid() && |s.ram| == WORDS
    ensures Words(r, s, w, 0) == s
  {}

  lemma Prefixes<T>(s: seq<T>, t: seq<T>, n: nat)
    requires n <= |t| <= |s| && s[..|t|] == t
    ensures s[..n] == t[..n]
  {}

  // ----- joined words

  /** Words joined in memory order: the first word of an ascending blit is the most
      significant one, that of a descending blit the least. */
  function Joined(words: seq<Word>, desc: bool): (b: Bits)
    ensures |b| == 16 * |words|
  {
    if words == [] then []
    else
      var n := |words| - 1;
      if desc then words[n] + Joined(words[..n], desc) else Joined(words[..n], desc) + words[n]
  }

  /** The words out of a shifter that starts empty. */
  function Shifted(words: seq<Word>, shift: nat, desc: bool): (out: seq<Word>)
    requires shift < 16
    ensures |out| == |words|
  {
    if words == [] then []
    else
      var n := |words| - 1;
      Shifted(words[..n], shift, desc) + [Barrel(if n == 0 then ZERO else words[n - 1], words[n], shift, desc)]
  }

  lemma BarrelAscending(p: Word, c: Word, shift: nat)
    requires shift < 16
    ensures Barrel(p, c, shift, false) == p[16 - shift..] + c[..16 - shift]
  {
    if shift > 0 {
      var high, low := Shl(p, 16 - shift), Shr(c, shift);
      assert forall i | 0 <= i < 16 :: Or(low, high)[i] == (p[16 - shift..] + c[..16 - shift])[i];
    }
  }

  lemma BarrelDescending(p: Word, c: Word, shift: nat)
    requires shift < 16
    ensures Barrel(p, c, shift, true) == c[shift..] + p[..shift]
  {
    if shift > 0 {
      var high, low := Shl(c, shift), Shr(p, 16 - shift);
      assert forall i | 0 <= i < 16 :: Or(high, low)[i] == (c[shift..] + p[..shift])[i];
    }
  }

  /** One more word: what the shifter held comes before it, and its last bits stay. */
  lemma StepRight(j1: Bits, p: Word, c: Word, shift: nat, z: Bits, j0: Bits)
    requires shift < 16 && j1 + p[16 - shift..] == z + j0
    ensures (j1 + (p[16 - shift..] + c[..16 - shift])) + c[16 - shift..] == z + (j0 + c)
  {
    Regroup(j1, p[16 - shift..], c[..16 - shift], c[16 - shift..], z, j0);
    assert c[..16 - shift] + c[16 - shift..] == c;
  }

  lemma Regroup(j1: Bits, pt: Bits, ch: Bits, ct: Bits, z: Bits, j0: Bits)
    requires j1 + pt == z + j0
    ensures (j1 + (pt + ch)) + ct == z + (j0 + (ch + ct))
  {
    assert (j1 + (pt + ch)) + ct == (j1 + pt) + (ch + ct);
    assert (z + j0) + (ch + ct) == z + (j0 + (ch + ct));
  }

  lemma StepLeft(j1: Bits, p: Word, c: Word, shift: nat, z: Bits, j0: Bits)
    requires shift < 16 && p[..shift] + j1 == j0 + z
    ensures c[..shift] + ((c[shift..] + p[..shift]) + j1) == (c + j0) + z
  {
    RegroupLeft(j1, p[..shift], c[shift..], c[..shift], z, j0);
    assert c[..shift] + c[shift..] == c;
  }

  lemma RegroupLeft(j1: Bits, ph: Bits, ct: Bits, ch: Bits, z: Bits, j0: Bits)
    requires ph + j1 == j0 + z
    ensures ch + ((ct + ph) + j1) == ((ch + ct) + j0) + z
  {
    assert ch + ((ct + ph) + j1) == (ch + ct) + (ph + j1);
    assert (ch + ct) + (j0 + z) == ((ch + ct) + j0) + z;
  }

  lemma JoinedNext(words: seq<Word>, c: Word, desc: bool)
    ensures Joined(words + [c], desc) == if desc then c + Joined(words, desc) else Joined(words, desc) + c
  {
    assert (words + [c])[..|words|] == words;
  }

  /** The word before, or zeros at the start. */
  function Last(words: seq<Word>): Word { if words == [] then ZERO else words[|words| - 1] }

  lemma ShiftedNext(words: seq<Word>, c: Word, shift: nat, desc: bool)
    requires shift < 16
    ensures Shifted(words + [c], shift, desc) == Shifted(words, shift, desc) + [Barrel(Last(words), c, shift, desc)]
  {
    assert (words + [c])[..|words|] == words;
  }

  /** Ascending, the joined words move right; the first bits are zeros and the last ones stay in the shifter. */
  predicate MovesRight(words: seq<Word>, shift: nat)
    requires shift < 16
  {
    Joined(Shifted(words, shift, false), false) + Tail(words, shift) == Zeros(shift) + Joined(words, false)
  }

  lemma {:induction false} AscendingShift(words: seq<Word>, shift: nat)
    requires shift < 16
    ensures MovesRight(words, shift)
  {
    if words == [] {
      assert Tail(words, shift) == Zeros(shift);
    } else {
      hide MovesRight;
      var n := |words| - 1;
      AscendingShift(words[..n], shift);
      NextRight(words[..n], words[n], shift);
      assert words[..n] + [words[n]] == words;
    }
  }

  lemma NextRight(words: seq<Word>, c: Word, shift: nat)
    requires shift < 16 && MovesRight(words, shift)
    ensures MovesRight(words + [c], shift)
  {
    hide Joined, Shifted, Last;
    NextShifted(words, c, shift, false);
    StepRight(Joined(Shifted(words, shift, false), false), Last(words), c, shift, Zeros(shift), Joined(words, false));
    LastIs(words, c);
  }

  /** The next word of a blit, shifted and not. */
  lemma NextShifted(words: seq<Word>, c: Word, shift: nat, desc: bool)
    requires shift < 16
    ensures Joined(words + [c], desc) == if desc then c + Joined(words, desc) else Joined(words, desc) + c
    ensures var before, p := Joined(Shifted(words, shift, desc), desc), Last(words);
      Joined(Shifted(words + [c], shift, desc), desc)
        == if desc then (c[shift..] + p[..shift]) + before else before + (p[16 - shift..] + c[..16 - shift])
  {
    hide Barrel, Joined, Shifted, Last;
    ShiftedNext(words, c, shift, desc);
    JoinedNext(words, c, desc);
    JoinedNext(Shifted(words, shift, desc), Barrel(Last(words), c, shift, desc), desc);
    if desc {
      BarrelDescending(Last(words), c, shift);
    } else {
      BarrelAscending(Last(words), c, shift);
    }
  }

  lemma LastIs(words: seq<Word>, c: Word)
    ensures Last(words + [c]) == c
  {}

  /** What is left in the shifter. */
  function Tail(words: seq<Word>, shift: nat): (b: Bits)
    requires shift < 16
    ensures |b| == shift
  {
    Last(words)[16 - shift..]
  }

  /** Descending, they move left: zeros come in on the right, and the first bits stay in the shifter. */
  predicate MovesLeft(words: seq<Word>, shift: nat)
    requires shift < 16
  {
    Head(words, shift) + Joined(Shifted(words, shift, true), true) == Joined(words, true) + Zeros(shift)
  }

  lemma {:induction false} DescendingShift(words: seq<Word>, shift: nat)
    requires shift < 16
    ensures MovesLeft(words, shift)
  {
    if words == [] {
      assert Head(words, shift) == Zeros(shift);
    } else {
      hide MovesLeft;
      var n := |words| - 1;
      DescendingShift(words[..n], shift);
      NextLeft(words[..n], words[n], shift);
      assert words[..n] + [words[n]] == words;
    }
  }

  lemma NextLeft(words: seq<Word>, c: Word, shift: nat)
    requires shift < 16 && MovesLeft(words, shift)
    ensures MovesLeft(words + [c], shift)
  {
    hide Joined, Shifted, Last;
    NextShifted(words, c, shift, true);
    StepLeft(Joined(Shifted(words, shift, true), true), Last(words), c, shift, Zeros(shift), Joined(words, true));
    LastIs(words, c);
  }

  function Head(words: seq<Word>, shift: nat): (b: Bits)
    requires shift < 16
    ensures |b| == shift
  {
    Last(words)[..shift]
  }

  /** Ascending: division by 2^shift, rounding down, of all the words as one number. */
  lemma ShiftDivides(words: seq<Word>, shift: nat)
    requires shift < 16
    ensures Val(Joined(Shifted(words, shift, false), false)) == Val(Joined(words, false)) / Pow2(shift)
  {
    var before, after, tail := Joined(words, false), Joined(Shifted(words, shift, false), false), Tail(words, shift);
    AscendingShift(words, shift);
    ValConcat(after, tail);
    ValConcat(Zeros(shift), before);
    ValZeros(shift);
    ValBound(tail);
    DivMod(Val(before), Pow2(shift), Val(after), Val(tail));
  }

  /** Descending: multiplication by 2^shift, modulo the length. */
  lemma ShiftMultiplies(words: seq<Word>, shift: nat)
    requires shift < 16
    ensures Val(Joined(Shifted(words, shift, true), true))
            == Val(Joined(words, true)) * Pow2(shift) % Pow2(16 * |words|)
  {
    var before, after, head := Joined(words, true), Joined(Shifted(words, shift, true), true), Head(words, shift);
    DescendingShift(words, shift);
    ValConcat(head, after);
    ValConcat(before, Zeros(shift));
    ValZeros(shift);
    ValBound(after);
    DivMod(Val(before) * Pow2(shift), Pow2(16 * |words|), Val(head), Val(after));
  }

  /** The masked words of channel A in the order they were done, and what the shifter made of them. */
  function InA(log: seq<Entry>): (r: seq<Word>) { seq(|log|, k requires 0 <= k < |log| => log[k].a) }
  function OutA(log: seq<Entry>): (r: seq<Word>) { seq(|log|, k requires 0 <= k < |log| => log[k].aShifted) }
  function InB(log: seq<Entry>): (r: seq<Word>) { seq(|log|, k requires 0 <= k < |log| => log[k].b) }
  function OutB(log: seq<Entry>): (r: seq<Word>) { seq(|log|, k requires 0 <= k < |log| => log[k].bShifted) }

  lemma {:induction false} LogShifts(r: Regs, log: seq<Entry>, n: nat)
    requires r.Valid() && n <= |log|
    requires forall k: nat {:trigger ShiftAt(r, log, k)} | k < |log| :: ShiftAt(r, log, k)
    ensures OutA(log)[..n] == Shifted(InA(log)[..n], r.aShift, r.desc)
    ensures r.useB ==> OutB(log)[..n] == Shifted(InB(log)[..n], r.bShift, r.desc)
  {
    hide Barrel;
    if n > 0 {
      LogShifts(r, log, n - 1);
      assert ShiftAt(r, log, n - 1);
      assert InA(log)[..n][..n - 1] == InA(log)[..n - 1] && InB(log)[..n][..n - 1] == InB(log)[..n - 1];
      assert OutA(log)[..n] == OutA(log)[..n - 1] + [log[n - 1].aShifted];
      assert OutB(log)[..n] == OutB(log)[..n - 1] + [log[n - 1].bShifted];
    }
  }

  /** Over a whole blit of any number of rows, the shifters divide or multiply. */
  lemma BlitShifts(r: Regs, s: Area, w: nat, h: nat)
    requires r.Valid() && |s.ram| == WORDS && s.log == [] && s.aPrev == ZERO && s.bPrev == ZERO
    ensures var log := Rows(r, s, w, h).log;
      && (!r.desc ==> Val(Joined(OutA(log), false)) == Val(Joined(InA(log), false)) / Pow2(r.aShift))
      && (r.desc ==> Val(Joined(OutA(log), true)) == Val(Joined(InA(log), true)) * Pow2(r.aShift) % Pow2(16 * |log|))
      && (r.useB && !r.desc ==> Val(Joined(OutB(log), false)) == Val(Joined(InB(log), false)) / Pow2(r.bShift))
      && (r.useB && r.desc ==>
            Val(Joined(OutB(log), true)) == Val(Joined(InB(log), true)) * Pow2(r.bShift) % Pow2(16 * |log|))
  {
    hide Rows, Joined, Shifted, Val, Pow2;
    ShiftsRows(r, s, w, h);
    var log := Rows(r, s, w, h).log;
    LogShifts(r, log, |log|);
    assert InA(log)[..|log|] == InA(log) && OutA(log)[..|log|] == OutA(log);
    assert InB(log)[..|log|] == InB(log) && OutB(log)[..|log|] == OutB(log);
    if r.desc {
      ShiftMultiplies(InA(log), r.aShift);
      ShiftMultiplies(InB(log), r.bShift);
    } else {
      ShiftDivides(InA(log), r.aShift);
      ShiftDivides(InB(log), r.bShift);
    }
  }

  // ----- area fill

  /** The bits of a list of words from the rightmost one on: a fill works in descending mode, so the
      first word is the rightmost. `filled` selects D after the fill or before it. */
  function RowBits(row: seq<Entry>, filled: bool): (b: Bits)
    ensures |b| == 16 * |row|
  {
    if row == [] then []
    else
      var n := |row| - 1;
      RowBits(row[..n], filled) + Reversed(if filled then row[n].out else row[n].d)
  }

  lemma {:induction false} FillConcat(carry: bool, a: Bits, b: Bits, exclusive: bool)
    ensures FillCarry(carry, a + b) == FillCarry(FillCarry(carry, a), b)
    ensures Filled(carry, a + b, exclusive) == Filled(carry, a, exclusive) + Filled(FillCarry(carry, a), b, exclusive)
  {
    if b == [] {
      assert a + b == a;
    } else {
      var n := |b| - 1;
      FillConcat(carry, a, b[..n], exclusive);
      assert (a + b)[..|a + b| - 1] == a + b[..n] && (a + b)[|a + b| - 1] == b[n];
    }
  }

  function Ones(b: Bits): nat {
    if b == [] then 0 else Ones(b[..|b| - 1]) + if b[|b| - 1] then 1 else 0
  }

  lemma {:induction false} FillCarryParity(carry: bool, edges: Bits)
    ensures FillCarry(carry, edges) == (carry != (Ones(edges) % 2 == 1))
  {
    if edges != [] {
      FillCarryParity(carry, edges[..|edges| - 1]);
    }
  }

  /** Bit p of a filled row is the parity of the edges up to it, or (inclusive) that or the edge itself. */
  lemma {:induction false} FilledAt(carry: bool, edges: Bits, exclusive: bool, p: nat)
    requires p < |edges|
    ensures Filled(carry, edges, exclusive)[p]
         == ((carry != (Ones(edges[..p + 1]) % 2 == 1)) || (!exclusive && edges[p]))
  {
    var n := |edges| - 1;
    if p < n {
      FilledAt(carry, edges[..n], exclusive, p);
      assert edges[..n][..p + 1] == edges[..p + 1];
    } else {
      FillCarryParity(carry, edges);
      assert edges[..p + 1] == edges;
    }
  }

  /** The row from `start` on in the log has been filled so far, from FCI. */
  ghost predicate RowFilled(r: Regs, t: Area, start: nat) {
    && start <= |t.log|
    && t.carry == FillCarry(r.fci, RowBits(t.log[start..], false))
    && RowBits(t.log[start..], true) == Filled(r.fci, RowBits(t.log[start..], false), r.exclusive)
  }

  lemma FillsWord(r: Regs, s: Area, first: bool, last: bool, start: nat)
    requires r.Valid() && |s.ram| == WORDS && r.fill && RowFilled(r, s, start)
    ensures var t := WordStep(r, s, first, last);
      RowFilled(r, t, start) && |t.log| == |s.log| + 1 && t.log[..|s.log|] == s.log
  {
    hide Barrel, Minterm, Masked, Read, Filled, FillCarry, Reversed;
    var e := WordEntry(r, s, first, last);
    var t := WordStep(r, s, first, last);
    var row := s.log[start..];
    assert t.log[start..] == row + [e] && (row + [e])[..|row|] == row;
    ReversedTwice(Filled(s.carry, Reversed(e.d), r.exclusive));
    FillConcat(r.fci, RowBits(row, false), Reversed(e.d), r.exclusive);
  }

  lemma ReversedTwice(b: Bits)
    ensures Reversed(Reversed(b)) == b
  {}

  lemma {:induction false} FillsRow(r: Regs, s: Area, w: nat, k: nat)
    requires r.Valid() && |s.ram| == WORDS && r.fill && s.carry == r.fci
    ensures var t := Words(r, s, w, k);
      RowFilled(r, t, |s.log|) && |t.log| == |s.log| + k && t.log[..|s.log|] == s.log
  {
    hide WordStep;
    if k > 0 {
      var before := Words(r, s, w, k - 1);
      FillsRow(r, s, w, k - 1);
      FillsWord(r, before, k == 1, k == w, |s.log|);
      var t := Words(r, s, w, k);
      assert t.log[..|s.log|] == t.log[..|before.log|][..|s.log|];
    } else {
      assert s.log[|s.log|..] == [];
    }
  }

  /** Row j of an area fill: the carry crosses words, and restarts at FCI on each row. */
  lemma {:induction false} AreaFills(r: Regs, s: Area, w: nat, h: nat, j: nat)
    requires r.Valid() && |s.ram| == WORDS && r.fill && s.log == [] && j < h
    ensures var log := Rows(r, s, w, h).log;
      && |log| == h * w && 0 <= j * w <= j * w + w <= |log|
      && var row := log[j * w..j * w + w];
         RowBits(row, true) == Filled(r.fci, RowBits(row, false), r.exclusive)
  {
    hide Words, RowBits, Filled, FillCarry;
    var before := Rows(r, s, w, h - 1);
    var log := Rows(r, s, w, h).log;
    RowsLength(r, s, w, h - 1);
    FillsRow(r, RowStart(r, before), w, w);
    assert h * w == (h - 1) * w + w;
    if j < h - 1 {
      AreaFills(r, s, w, h - 1, j);
      assert j * w + w <= (h - 1) * w by {
        MultipleBounds(h - 1 - j, w + 1);
      }
      assert log[..(h - 1) * w] == before.log;
      SliceOfPrefix(log, (h - 1) * w, j * w, j * w + w);
    } else {
      assert log[j * w..j * w + w] == log[j * w..];
    }
  }

  lemma SliceOfPrefix<T>(s: seq<T>, n: nat, i: nat, j: nat)
    requires i <= j <= n <= |s|
    ensures s[..n][i..j] == s[i..j]
  {}

  /** A filled row, bit by bit from the right: running parity of the edges, starting from FCI. */
  lemma FillIsParity(r: Regs, s: Area, w: nat, h: nat, j: nat, p: nat)
    requires r.Valid() && |s.ram| == WORDS && r.fill && s.log == [] && j < h && p < 16 * w
    ensures var log := Rows(r, s, w, h).log;
      && 0 <= j * w <= j * w + w <= |log|
      && var edges, out := RowBits(log[j * w..j * w + w], false), RowBits(log[j * w..j * w + w], true);
         out[p] == ((r.fci != (Ones(edges[..p + 1]) % 2 == 1)) || (!r.exclusive && edges[p]))
  {
    hide Rows, Filled, Ones;
    AreaFills(r, s, w, h, j);
    FilledAt(r.fci, RowBits(Rows(r, s, w, h).log[j * w..j * w + w], false), r.exclusive, p);
  }

  // ----- moving a rectangle

  /** A copy: D is A, unshifted and unmasked, with the same modulo on both sides. */
  predicate Copies(r: Regs) {
    && r.useA && r.useD && !r.fill && r.aShift == 0 && r.bShift < 16
    && r.lf == [true, true, true, true, false, false, false, false]
    && r.afwm == Not(ZERO) && r.alwm == Not(ZERO)
    && r.aMod == r.dMod && r.aMod >= 0 && r.aMod % 2 == 0
  }

  lemma CopyTerm(a: Word, b: Word, c: Word)
    ensures Minterm([true, true, true, true, false, false, false, false], a, b, c) == a
  {}

  lemma CopyMask(r: Regs, a: Word, first: bool, last: bool)
    requires r.afwm == Not(ZERO) && r.alwm == Not(ZERO)
    ensures Masked(r, a, first, last) == a
  {
    assert And(a, Not(ZERO)) == a;
  }

  lemma CopyEntry(r: Regs, s: Area, first: bool, last: bool)
    requires Copies(r) && |s.ram| == WORDS
    ensures WordEntry(r, s, first, last).out == Read(s.ram, s.aPt)
  {
    hide Read, Minterm, Masked;
    var e, a := WordEntry(r, s, first, last), Read(s.ram, s.aPt);
    CopyMask(r, a, first, last);
    CopyTerm(a, e.bShifted, e.c);
  }

  /** The direction of a blit in words. */
  function Dir(r: Regs): int { if r.desc then -1 else 1 }

  function Stride(r: Regs, w: nat): int { w + r.aMod / 2 }

  /** The words at these distances from the first are inside the rectangle. */
  predicate Inside(stride: int, w: nat, o: int)
    requires stride > 0
  {
    o % stride < w
  }

  /** The destination words up to distance f hold what the source held; all other words are as they were. */
  ghost predicate CopiedUpTo(dir: int, stride: int, w: nat, a: int, d: int, f: int, ram0: seq<Word>, ram: seq<Word>)
    requires |ram0| == WORDS && |ram| == WORDS && stride > 0
  {
    forall x | 0 <= x < WORDS :: ram[x] == Copied(dir, stride, w, a, d, f, ram0, x)
  }

  function Copied(dir: int, stride: int, w: nat, a: int, d: int, f: int, ram0: seq<Word>, x: nat): Word
    requires |ram0| == WORDS && stride > 0 && x < WORDS
  {
    var o := dir * (x - d);
    if 0 <= o < f && Inside(stride, w, o) && 0 <= a + dir * o < WORDS then ram0[a + dir * o] else ram0[x]
  }

  /** No conflict: what is still to be read has not been written. */
  predicate Ordered(dir: int, a: int, d: int) {
    (dir == 1 && d <= a) || (dir == -1 && d >= a)
  }

  ghost predicate CopyState(r: Regs, s0: Area, s: Area, w: nat, a: int, d: int, f: int)
    requires w >= 1 && r.aMod >= 0
  {
    && |s0.ram| == WORDS && |s.ram| == WORDS
    && s.aPt == 2 * (a + Dir(r) * f) && s.dPt == 2 * (d + Dir(r) * f)
    && CopiedUpTo(Dir(r), Stride(r, w), w, a, d, f, s0.ram, s.ram)
  }

  lemma CopyWord(r: Regs, s0: Area, s: Area, w: nat, a: int, d: int, f: int, first: bool, last: bool)
    requires w >= 1 && Copies(r) && Ordered(Dir(r), a, d) && CopyState(r, s0, s, w, a, d, f)
    requires f >= 0 && Inside(Stride(r, w), w, f)
    requires 0 <= a + Dir(r) * f < WORDS && 0 <= d + Dir(r) * f < WORDS
    ensures CopyState(r, s0, WordStep(r, s, first, last), w, a, d, f + 1)
  {
    hide WordEntry, Inside, Stride, Minterm;
    CopyEntry(r, s, first, last);
    var t := WordStep(r, s, first, last);
    var from, to := a + Dir(r) * f, d + Dir(r) * f;
    assert s.aPt / 2 % WORDS == from && s.dPt / 2 % WORDS == to;
    assert s.ram[from] == s0.ram[from];
    assert t.ram == s.ram[to := s0.ram[from]];
  }

  /** The way from the end of one row to the start of the next passes no word of the rectangle. */
  lemma SkipModulo(dir: int, stride: int, w: nat, a: int, d: int, i: nat, ram0: seq<Word>, ram: seq<Word>)
    requires |ram0| == WORDS && |ram| == WORDS && stride >= w >= 1
    requires CopiedUpTo(dir, stride, w, a, d, i * stride + w, ram0, ram)
    ensures CopiedUpTo(dir, stride, w, a, d, (i + 1) * stride, ram0, ram)
  {
    hide Inside;
    assert (i + 1) * stride == i * stride + stride;
    forall x | 0 <= x < WORDS
      ensures ram[x] == Copied(dir, stride, w, a, d, (i + 1) * stride, ram0, x)
    {
      if i * stride + w <= dir * (x - d) < i * stride + stride {
        Gap(stride, w, i, dir * (x - d));
      }
    }
  }

  lemma Gap(stride: int, w: nat, i: nat, o: int)
    requires stride >= w >= 1 && i * stride + w <= o < i * stride + stride
    ensures !Inside(stride, w, o)
  {
    assert i * stride >= 0;
    DivMod(o, stride, i, o - i * stride);
  }

  /** All the words of a rectangle of h rows are in chip RAM. */
  predicate Fits(dir: int, stride: int, w: nat, h: nat, start: int) {
    0 <= start < WORDS && 0 <= start + dir * ((h - 1) * stride + w - 1) < WORDS
  }

  lemma FitsAt(dir: int, stride: int, w: nat, h: nat, start: int, i: nat, j: nat)
    requires (dir == 1 || dir == -1) && stride >= w && Fits(dir, stride, w, h, start) && i < h && j < w
    ensures 0 <= i * stride + j && 0 <= start + dir * (i * stride + j) < WORDS && Inside(stride, w, i * stride + j)
  {
    assert i * stride <= (h - 1) * stride;
    assert i * stride >= 0;
    DivMod(i * stride + j, stride, i, j);
  }

  lemma {:induction false} CopyRow(r: Regs, s0: Area, s: Area, w: nat, h: nat, a: int, d: int, i: nat, k: nat)
    requires w >= 1 && Copies(r) && Ordered(Dir(r), a, d) && i < h && k <= w
    requires Fits(Dir(r), Stride(r, w), w, h, a) && Fits(Dir(r), Stride(r, w), w, h, d)
    requires CopyState(r, s0, s, w, a, d, i * Stride(r, w))
    ensures CopyState(r, s0, Words(r, s, w, k), w, a, d, i * Stride(r, w) + k)
  {
    hide WordStep, CopyState, Fits, Inside, Ordered;
    var stride := Stride(r, w);
    if k > 0 {
      CopyRow(r, s0, s, w, h, a, d, i, k - 1);
      FitsAt(Dir(r), stride, w, h, a, i, k - 1);
      FitsAt(Dir(r), stride, w, h, d, i, k - 1);
      assert |s.ram| == WORDS by {
        CopyRam(r, s0, s, w, a, d, i * stride);
      }
      CopyWord(r, s0, Words(r, s, w, k - 1), w, a, d, i * stride + k - 1, k == 1, k == w);
    }
  }

  lemma CopyRam(r: Regs, s0: Area, s: Area, w: nat, a: int, d: int, f: int)
    requires w >= 1 && r.aMod >= 0 && CopyState(r, s0, s, w, a, d, f)
    ensures |s.ram| == WORDS
  {}

  lemma CopyRowEnd(r: Regs, s0: Area, s: Area, w: nat, a: int, d: int, i: nat)
    requires w >= 1 && Copies(r) && CopyState(r, s0, s, w, a, d, i * Stride(r, w) + w)
    ensures CopyState(r, s0, RowEnd(r, s), w, a, d, (i + 1) * Stride(r, w))
  {
    hide CopiedUpTo;
    var stride := Stride(r, w);
    SkipModulo(Dir(r), stride, w, a, d, i, s0.ram, s.ram);
    assert (i + 1) * stride == i * stride + stride;
  }

  lemma {:induction false} CopyRows(r: Regs, s: Area, w: nat, h: nat, a: int, d: int, n: nat)
    requires w >= 1 && Copies(r) && Ordered(Dir(r), a, d) && n <= h && |s.ram| == WORDS
    requires Fits(Dir(r), Stride(r, w), w, h, a) && Fits(Dir(r), Stride(r, w), w, h, d)
    requires s.aPt == 2 * a && s.dPt == 2 * d
    ensures CopyState(r, s, Rows(r, s, w, n), w, a, d, n * Stride(r, w))
  {
    hide Words, Ordered, Fits, Inside;
    if n > 0 {
      hide CopyState;
      CopyRows(r, s, w, h, a, d, n - 1);
      var before := RowStart(r, Rows(r, s, w, n - 1));
      CopyRowStart(r, s, Rows(r, s, w, n - 1), w, a, d, (n - 1) * Stride(r, w));
      CopyRow(r, s, before, w, h, a, d, n - 1, w);
      CopyRowEnd(r, s, Words(r, before, w, w), w, a, d, n - 1);
    }
  }

  lemma CopyRowStart(r: Regs, s0: Area, s: Area, w: nat, a: int, d: int, f: int)
    requires w >= 1 && r.aMod >= 0 && CopyState(r, s0, s, w, a, d, f)
    ensures CopyState(r, s0, RowStart(r, s), w, a, d, f)
  {
    hide CopiedUpTo;
  }

  /** A copying blit moves the rectangle at word a to word d even when they overlap: ascending when d is not
      above a, descending when it is not below. Every word outside the destination keeps its value. */
  lemma BlitMoves(r: Regs, s: Area, w: nat, h: nat, a: int, d: int)
    requires w >= 1 && Copies(r) && Ordered(Dir(r), a, d) && |s.ram| == WORDS
    requires Fits(Dir(r), Stride(r, w), w, h, a) && Fits(Dir(r), Stride(r, w), w, h, d)
    requires s.aPt == 2 * a && s.dPt == 2 * d
    ensures forall i: nat, j: nat | i < h && j < w ::
      var o := Offset(r, w, i, j);
      0 <= a + o < WORDS && 0 <= d + o < WORDS && Rows(r, s, w, h).ram[d + o] == s.ram[a + o]
    ensures forall x | 0 <= x < WORDS && (forall i: nat, j: nat | i < h && j < w :: x != d + Offset(r, w, i, j)) ::
      Rows(r, s, w, h).ram[x] == s.ram[x]
  {
    hide Rows, Fits, Ordered, CopiedUpTo;
    var t := Rows(r, s, w, h);
    CopyRows(r, s, w, h, a, d, h);
    forall i: nat, j: nat | i < h && j < w
      ensures var o := Offset(r, w, i, j);
        0 <= a + o < WORDS && 0 <= d + o < WORDS && t.ram[d + o] == s.ram[a + o]
    {
      MovedWord(r, s.ram, t.ram, w, h, a, d, i, j);
    }
    forall x | 0 <= x < WORDS && (forall i: nat, j: nat | i < h && j < w :: x != d + Offset(r, w, i, j))
      ensures t.ram[x] == s.ram[x]
    {
      KeptWord(r, s.ram, t.ram, w, h, a, d, x);
    }
  }

  /** How far word j of row i is from the first word of a rectangle. */
  function Offset(r: Regs, w: nat, i: nat, j: nat): int {
    Dir(r) * (i * Stride(r, w) + j)
  }

  lemma MovedWord(r: Regs, ram0: seq<Word>, ram: seq<Word>, w: nat, h: nat, a: int, d: int, i: nat, j: nat)
    requires w >= 1 && r.aMod >= 0 && |ram0| == WORDS && |ram| == WORDS && i < h && j < w
    requires Fits(Dir(r), Stride(r, w), w, h, a) && Fits(Dir(r), Stride(r, w), w, h, d)
    requires CopiedUpTo(Dir(r), Stride(r, w), w, a, d, h * Stride(r, w), ram0, ram)
    ensures var o := Offset(r, w, i, j);
      0 <= a + o < WORDS && 0 <= d + o < WORDS && ram[d + o] == ram0[a + o]
  {
    hide Fits, Inside;
    var stride, o := Stride(r, w), Offset(r, w, i, j);
    FitsAt(Dir(r), stride, w, h, a, i, j);
    FitsAt(Dir(r), stride, w, h, d, i, j);
    RowBelow(stride, h, i, j);
    var x := d + o;
    assert Dir(r) * (x - d) == i * stride + j;
  }

  lemma RowBelow(stride: nat, h: nat, i: nat, j: nat)
    requires i < h && j < stride
    ensures i * stride + j < h * stride
  {
    MultipleBounds(h - i, stride);
    assert (h - i) * stride == h * stride - i * stride;
  }

  lemma KeptWord(r: Regs, ram0: seq<Word>, ram: seq<Word>, w: nat, h: nat, a: int, d: int, x: int)
    requires w >= 1 && r.aMod >= 0 && |ram0| == WORDS && |ram| == WORDS && 0 <= x < WORDS
    requires forall i: nat, j: nat | i < h && j < w :: x != d + Offset(r, w, i, j)
    requires CopiedUpTo(Dir(r), Stride(r, w), w, a, d, h * Stride(r, w), ram0, ram)
    ensures ram[x] == ram0[x]
  {
    var stride := Stride(r, w);
    var o := Dir(r) * (x - d);
    if 0 <= o < h * stride && Inside(stride, w, o) {
      var i, j := RowAndWord(r, w, h, d, x);
    }
  }

  lemma RowAndWord(r: Regs, w: nat, h: nat, d: int, x: int) returns (i: nat, j: nat)
    requires w >= 1 && r.aMod >= 0 && 0 <= Dir(r) * (x - d) < h * Stride(r, w)
    requires Inside(Stride(r, w), w, Dir(r) * (x - d))
    ensures i < h && j < w && x == d + Offset(r, w, i, j)
  {
    var stride, o := Stride(r, w), Dir(r) * (x - d);
    i, j := o / stride, o % stride;
    assert o == stride * i + j;
    MultipleBounds(h - i, stride);
    assert (h - i) * stride == h * stride - stride * i;
  }

  // ----- pointers

  /** How far a pointer moves over h rows of w words. */
  function Advance(r: Regs, use: bool, w: nat, mod: int, h: nat): int {
    if use then Dir(r) * (h * (2 * w + mod)) else 0
  }

  lemma {:induction false} PointersInRow(r: Regs, s: Area, w: nat, k: nat)
    requires r.Valid() && |s.ram| == WORDS
    ensures var t := Words(r, s, w, k);
      && t.aPt == s.aPt + (if r.useA then r.Step() * k else 0)
      && t.bPt == s.bPt + (if r.useB then r.Step() * k else 0)
      && t.cPt == s.cPt + (if r.useC then r.Step() * k else 0)
      && t.dPt == s.dPt + (if r.useD then r.Step() * k else 0)
  {
    hide WordEntry;
    if k > 0 {
      PointersInRow(r, s, w, k - 1);
    }
  }

  /** Whatever an area blit computes, each enabled pointer moves by height * (2 * width + modulo),
      forwards or backwards, and a disabled one stays. */
  lemma {:induction false} PointersAdvance(r: Regs, s: Area, w: nat, h: nat)
    requires r.Valid() && |s.ram| == WORDS
    ensures var t := Rows(r, s, w, h);
      && t.aPt == s.aPt + Advance(r, r.useA, w, r.aMod, h)
      && t.bPt == s.bPt + Advance(r, r.useB, w, r.bMod, h)
      && t.cPt == s.cPt + Advance(r, r.useC, w, r.cMod, h)
      && t.dPt == s.dPt + Advance(r, r.useD, w, r.dMod, h)
  {
    hide Words;
    if h > 0 {
      PointersAdvance(r, s, w, h - 1);
      PointersInRow(r, RowStart(r, Rows(r, s, w, h - 1)), w, w);
      AdvanceNext(r, w, r.aMod, h - 1);
      AdvanceNext(r, w, r.bMod, h - 1);
      AdvanceNext(r, w, r.cMod, h - 1);
      AdvanceNext(r, w, r.dMod, h - 1);
    }
  }

  lemma AdvanceNext(r: Regs, w: nat, mod: int, h: nat)
    ensures Advance(r, true, w, mod, h + 1) == Advance(r, true, w, mod, h) + r.Step() * w + Dir(r) * mod
  {
    var m := 2 * w + mod;
    assert (h + 1) * m == h * m + m;
  }

  // ----- word by word

  /** The blit when it comes to word k of row j. */
  function At(r: Regs, s: Area, w: nat, j: nat, k: nat): (t: Area)
    requires r.Valid() && |s.ram| == WORDS
    ensures |t.ram| == WORDS
  {
    Words(r, RowStart(r, Rows(r, s, w, j)), w, k)
  }

  /** Where an enabled channel is then: words are two bytes, and every row before has added its modulo. */
  function Place(desc: bool, pt: int, mod: int, w: nat, j: nat, k: nat): int {
    if desc then pt - (2 * (j * w + k) + j * mod) else pt + (2 * (j * w + k) + j * mod)
  }

  lemma PlaceIs(r: Regs, use: bool, pt: int, mod: int, w: nat, j: nat, k: nat)
    requires use
    ensures pt + Advance(r, use, w, mod, j) + r.Step() * k == Place(r.desc, pt, mod, w, j, k)
  {
    assert j * (2 * w + mod) == 2 * (j * w) + j * mod;
  }

  lemma {:induction false} DataKept(r: Regs, s: Area, w: nat, k: nat)
    requires r.Valid() && |s.ram| == WORDS
    ensures var t := Words(r, s, w, k);
      (r.useA || t.aData == s.aData) && t.bData == s.bData && (r.useC || t.cData == s.cData)
  {
    hide Barrel, Minterm, Masked, Filled, FillCarry, Reversed, Read;
    if k > 0 {
      DataKept(r, s, w, k - 1);
    }
  }

  lemma {:induction false} DataKeptRows(r: Regs, s: Area, w: nat, h: nat)
    requires r.Valid() && |s.ram| == WORDS
    ensures var t := Rows(r, s, w, h);
      (r.useA || t.aData == s.aData) && t.bData == s.bData && (r.useC || t.cData == s.cData)
  {
    hide Words;
    if h > 0 {
      DataKeptRows(r, s, w, h - 1);
      DataKept(r, RowStart(r, Rows(r, s, w, h - 1)), w, w);
    }
  }

  /** The pointers and data registers when the blit comes to a word. */
  lemma AtPlace(r: Regs, s: Area, w: nat, j: nat, k: nat)
    requires r.Valid() && |s.ram| == WORDS
    ensures var t := At(r, s, w, j, k);
      && (r.useA ==> t.aPt == Place(r.desc, s.aPt, r.aMod, w, j, k))
      && (r.useB ==> t.bPt == Place(r.desc, s.bPt, r.bMod, w, j, k))
      && (r.useC ==> t.cPt == Place(r.desc, s.cPt, r.cMod, w, j, k))
      && (r.useD ==> t.dPt == Place(r.desc, s.dPt, r.dMod, w, j, k))
      && (r.useA || t.aData == s.aData) && t.bData == s.bData && (r.useC || t.cData == s.cData)
  {
    hide Words, Rows, Advance, Place, Regs.Step;
    var start := RowStart(r, Rows(r, s, w, j));
    PointersAdvance(r, s, w, j);
    PointersInRow(r, start, w, k);
    DataKeptRows(r, s, w, j);
    DataKept(r, start, w, k);
    if r.useA {
      PlaceIs(r, true, s.aPt, r.aMod, w, j, k);
    }
    if r.useB {
      PlaceIs(r, true, s.bPt, r.bMod, w, j, k);
    }
    if r.useC {
      PlaceIs(r, true, s.cPt, r.cMod, w, j, k);
    }
    if r.useD {
      PlaceIs(r, true, s.dPt, r.dMod, w, j, k);
    }
  }

  /** Word k of row j in the log is the one that the blit does there. */
  lemma EntryAt(r: Regs, s: Area, w: nat, h: nat, j: nat, k: nat)
    requires r.Valid() && |s.ram| == WORDS && s.log == [] && j < h && k < w
    ensures var log, t := Rows(r, s, w, h).log, At(r, s, w, j, k);
      && |log| == h * w && 0 <= j * w + k < h * w
      && log[j * w + k] == WordEntry(r, t, k == 0, k == w - 1)
      && At(r, s, w, j, k + 1) == Apply(r, t, log[j * w + k])
  {
    hide Rows, WordEntry;
    var start := RowStart(r, Rows(r, s, w, j));
    RowsLog(r, s, w, h, j + 1);
    RowsLength(r, s, w, h);
    RowsLength(r, s, w, j);
    assert (j + 1) * w == j * w + w;
    WordsLog(r, start, w, w, k + 1);
    WordsLog(r, start, w, k, 0);
    assert Rows(r, s, w, j + 1).log == Words(r, start, w, w).log by {
      NextRow(r, s, w, j);
    }
    var log := Rows(r, s, w, h).log;
    assert log[..(j + 1) * w][j * w + k] == log[j * w + k];
    assert Words(r, start, w, w).log[..j * w + (k + 1)][j * w + k] == log[j * w + k];
  }

  /** An area blit word by word. A is masked by BLTAFWM in the first word of a row and by BLTALWM in the last one (by
      both when there is one only); channels that are off give their data registers; bit 4a + 2b + c of LF makes D,
      which is written where channel D is. */
  lemma WordMeans(r: Regs, s: Area, w: nat, h: nat, j: nat, k: nat, i: nat)
    requires r.Valid() && |s.ram| == WORDS && s.log == [] && j < h && k < w && i < 16
    ensures var log, before := Rows(r, s, w, h).log, At(r, s, w, j, k);
      && |log| == h * w && 0 <= j * w + k < h * w
      && var e := log[j * w + k];
      && (var a := if r.useA then Read(before.ram, Place(r.desc, s.aPt, r.aMod, w, j, k)) else s.aData;
          && e.a[i] == (a[i] && (k == 0 ==> r.afwm[i]) && (k == w - 1 ==> r.alwm[i]))
          && At(r, s, w, j, k + 1).aData == a)
      && (if r.useB then e.b == Read(before.ram, Place(r.desc, s.bPt, r.bMod, w, j, k)) else e.bShifted == s.bData)
      && e.c == (if r.useC then Read(before.ram, Place(r.desc, s.cPt, r.cMod, w, j, k)) else s.cData)
      && e.d[i] == r.lf[7 - ((if e.aShifted[i] then 4 else 0) + (if e.bShifted[i] then 2 else 0)
                             + (if e.c[i] then 1 else 0))]
      && (!r.fill ==> e.out == e.d) && At(r, s, w, j, k + 1).cData == e.c
      && At(r, s, w, j, k + 1).ram
           == if r.useD then before.ram[Place(r.desc, s.dPt, r.dMod, w, j, k) / 2 % WORDS := e.out] else before.ram
  {
    hide At, Rows, Place, Read, Barrel, Filled, FillCarry, Reversed;
    EntryAt(r, s, w, h, j, k);
    AtPlace(r, s, w, j, k);
  }

  /** A row begins with the RAM that the one before it has left, and the last one leaves the RAM of the blit. */
  lemma RowsFollow(r: Regs, s: Area, w: nat, j: nat)
    requires r.Valid() && |s.ram| == WORDS
    ensures At(r, s, w, 0, 0).ram == s.ram && At(r, s, w, j + 1, 0).ram == At(r, s, w, j, w).ram
    ensures At(r, s, w, j, 0).ram == Rows(r, s, w, j).ram
  {
    hide WordEntry;
    NextRow(r, s, w, j);
  }
}
