/** Paula's disk controller (src/core/disk_controller.hpp): the bit-serial search
    for the sync word, word re-alignment and the DMA transfer. */
module DiskController {
  import opened Bits
  import opened ChipRam
  import Adf

  /** ADKCON WORDSYNC (bit 10), DSKSYNC and DMACON: what stays fixed while a word comes in. */
  datatype Setup = Setup(wordSync: bool, sync: Word, dma: bool)

  datatype Ctl = Ctl(
    shift: Word, bits: nat, active: bool, waiting: bool, remaining: nat,
    lastWord: Word, byteReady: bool, wordEqual: bool)

  /** The controller after some bits: the words it stored and how often it raised DSKSYN and DSKBLK. */
  datatype Out = Out(ctl: Ctl, stored: seq<Word>, syncs: nat, blks: nat)

  /** A complete word. */
  function Complete(setup: Setup, c: Ctl, syncs: nat): (r: Out) {
    var seen := c.(bits := 0, lastWord := c.shift, byteReady := true);
    if !c.active || !setup.dma || c.waiting then Out(seen, [], syncs, 0)
    else if c.remaining <= 1 then Out(seen.(remaining := 0, active := false), [c.shift], syncs, 1)
    else Out(seen.(remaining := c.remaining - 1), [c.shift], syncs, 0)
  }

  lemma CompleteResets(setup: Setup, c: Ctl, syncs: nat)
    ensures Complete(setup, c, syncs) == Complete(setup, c.(bits := 0), syncs)
  {}

  /** A bit has come in: is it the end of a sync word, or of a word? */
  function Check(setup: Setup, c: Ctl): (r: Out) {
    var syncs := if c.wordEqual then 1 else 0;
    if c.wordEqual && setup.wordSync && c.active && c.waiting then Out(c.(waiting := false, bits := 0), [], syncs, 0)
    else if c.bits >= 16 || (c.wordEqual && setup.wordSync) then Complete(setup, c, syncs)
    else Out(c, [], syncs, 0)
  }

  /** One bit from the head. */
  function OneBit(setup: Setup, c: Ctl, bit: bool): (r: Out) {
    var shifted := c.shift[1..] + [bit];
    Check(setup, c.(shift := shifted, bits := c.bits + 1, wordEqual := shifted == setup.sync))
  }

  /** One bit, in full: a word ends with its sixteenth bit, and with a sync word if WORDSYNC is set, which also ends the
      wait for one. DSKDATR has the word that ended, and a running transfer stores it. */
  lemma BitMeans(setup: Setup, c: Ctl, bit: bool)
    ensures var o, s := OneBit(setup, c, bit), c.shift[1..] + [bit];
      var found, syncs := s == setup.sync, s == setup.sync && setup.wordSync;
      var begins := syncs && c.active && c.waiting;
      var ends := !begins && (c.bits >= 15 || syncs);
      var stores := ends && c.active && !c.waiting && setup.dma;
      && o.stored == (if stores then [s] else []) && o.syncs == (if found then 1 else 0)
      && o.blks == (if stores && c.remaining <= 1 then 1 else 0)
      && o.ctl == Ctl(s, if begins || ends then 0 else c.bits + 1, c.active && o.blks == 0, c.waiting && !begins,
                      if stores then (if c.remaining <= 1 then 0 else c.remaining - 1) else c.remaining,
                      if ends then s else c.lastWord, c.byteReady || ends, found)
  {}

  function Then(o: Out, d: Out): Out {
    Out(d.ctl, o.stored + d.stored, o.syncs + d.syncs, o.blks + d.blks)
  }

  function AllBits(setup: Setup, c: Ctl, bits: Bits): (r: Out)
    decreases bits
  {
    if bits == [] then Out(c, [], 0, 0)
    else if |bits| == 1 then OneBit(setup, c, bits[0])
    else
      var n := |bits| - 1;
      var o := AllBits(setup, c, bits[..n]);
      Then(o, AllBits(setup, o.ctl, bits[n..]))
  }

  function NextBit(setup: Setup, o: Out, bit: bool): Out { Then(o, OneBit(setup, o.ctl, bit)) }

  lemma AllBitsNext(setup: Setup, c: Ctl, bits: Bits, i: nat)
    requires i < |bits|
    ensures AllBits(setup, c, bits[..i + 1]) == NextBit(setup, AllBits(setup, c, bits[..i]), bits[i])
  {
    assert bits[..i + 1][..i] == bits[..i] && bits[..i + 1][i..] == [bits[i]];
    if i == 0 {
      assert bits[..1] == [bits[0]];
    }
  }

  /** The last sixteen bits that came in. */
  function Window(shift: Word, bits: Bits): Word { (shift + bits)[|bits|..] }

  /** At how many bit offsets of a stream they are the sync word. */
  function Matches(sync: Word, shift: Word, bits: Bits): nat {
    if bits == [] then 0
    else Matches(sync, shift, bits[..|bits| - 1]) + if Window(shift, bits) == sync then 1 else 0
  }

  /** DSKSYN is raised at each bit offset where the last sixteen bits are DSKSYNC, and at no other. */
  lemma {:induction false} SyncsRaised(setup: Setup, c: Ctl, bits: Bits)
    ensures var o := AllBits(setup, c, bits);
      o.ctl.shift == Window(c.shift, bits) && o.syncs == Matches(setup.sync, c.shift, bits)
  {
    if bits == [] {
      assert c.shift + [] == c.shift;
    } else {
      hide AllBits, Complete;
      var n := |bits| - 1;
      SyncsRaised(setup, c, bits[..n]);
      AllBitsNext(setup, c, bits, n);
      assert bits[..n + 1] == bits;
      assert Window(c.shift, bits[..n])[1..] + [bits[n]] == Window(c.shift, bits);
    }
  }

  lemma StoreNext(ram: seq<Word>, w: nat, stored: seq<Word>, word: Word)
    requires |ram| == WORDS
    ensures Store(ram, w, stored + [word]) == Store(ram, w, stored)[(w + |stored|) % WORDS := word]
    ensures ((w + |stored|) % WORDS + 1) % WORDS == (w + |stored + [word]|) % WORDS
  {
    assert (stored + [word])[..|stored|] == stored;
    Wraps(w + |stored|, 1);
  }

  lemma StoreMore(ram: seq<Word>, w: nat, stored: seq<Word>, more: seq<Word>)
    requires |ram| == WORDS && |more| <= 1
    ensures Store(ram, w, stored + more)
      == if more == [] then Store(ram, w, stored) else Store(ram, w, stored)[(w + |stored|) % WORDS := more[0]]
    ensures ((w + |stored|) % WORDS + |more|) % WORDS == (w + |stored + more|) % WORDS
  {
    if more == [] {
      assert stored + more == stored;
    } else {
      StoreNext(ram, w, stored, more[0]);
      assert more == [more[0]];
    }
  }

  lemma NextPointer(p: nat)
    requires p < BYTES && p % 2 == 0
    ensures p / 2 < WORDS && (p + 2) % BYTES == (p / 2 + 1) % WORDS * 2
    ensures p == p / 2 % WORDS * 2
  {}

  /** DSKLEN in numbers: DMAEN is bit 15, WRITE bit 14, and the length is the rest. */
  lemma LengthBits(value: Word)
    ensures Val(value) < 0x10000 && value[0] == (Val(value) >= 0x8000) && value[1] == (Val(value) / 0x4000 % 2 == 1)
    ensures Val(value[2..]) == Val(value) % 0x4000
  {
    hide Val, Pow2;
    PowersOfTwo();
    Powers();
    TopBit(value);
    ValBound(value);
    BitOf(value, 14);
    assert value == value[..2] + value[2..];
    ValConcat(value[..2], value[2..]);
    ValBound(value[2..]);
  }

  class Controller {
    var pointer: nat
    var sync: Word
    var adkcon: Word
    var remaining: nat
    var lastWord: Word
    var shift: Word
    var bits: nat
    var armed: bool
    var active: bool
    var waitingForSync: bool
    var byteReady: bool
    var wordEqual: bool

    function View(): Ctl
      reads this
    {
      Ctl(shift, bits, active, waitingForSync, remaining, lastWord, byteReady, wordEqual)
    }

    predicate WordSync()
      reads this
    {
      adkcon[5]
    }

    /** WORDSYNC is bit 10 of ADKCON. */
    lemma WordSyncBit()
      ensures WordSync() == (Val(adkcon) / 0x400 % 2 == 1)
    {
      hide Val, Pow2;
      PowersOfTwo();
      BitOf(adkcon, 10);
    }

    ghost predicate Valid()
      reads this
    {
      && pointer < BYTES && pointer % 2 == 0
      && bits < 16
      && (active ==> 1 <= remaining < 0x4000)
    }

    constructor ()
      ensures Valid() && !active && !armed && !WordSync() && pointer == 0
    {
      pointer, remaining, bits := 0, 0, 0;
      sync := Adf.SYNC_WORD;
      adkcon, lastWord, shift := ZERO, ZERO, ZERO;
      armed, active, waitingForSync, byteReady, wordEqual := false, false, false, false, false;
    }

    /** A word from the head, bit by bit from the left. */
    method DiskWord(word: Word, ram: array<Word>, dma: bool) returns (dskSyn: bool, dskBlk: bool)
      requires Valid() && ram.Length == WORDS
      modifies this`pointer, this`remaining, this`lastWord, this`shift, this`bits, this`active, this`waitingForSync,
               this`byteReady, this`wordEqual, ram
      ensures Valid()
      ensures var o := AllBits(Setup(WordSync(), sync, dma), old(View()), word);
        && View() == o.ctl && dskSyn == (o.syncs > 0) && dskBlk == (o.blks > 0)
        && ram[..] == Store(old(ram[..]), old(pointer) / 2, o.stored)
        && pointer == (old(pointer) / 2 + |o.stored|) % WORDS * 2
    {
      ghost var setup, c, ram0, w0 := Setup(WordSync(), sync, dma), View(), ram[..], pointer / 2;
      ghost var o := Out(c, [], 0, 0);
      dskSyn, dskBlk := false, false;
      for i := 0 to 16
        invariant Valid() && setup == Setup(WordSync(), sync, dma)
        invariant o == AllBits(setup, c, word[..i])
        invariant Agrees(o, ram0, w0, ram) && dskSyn == (o.syncs > 0) && dskBlk == (o.blks > 0)
      {
        AllBitsNext(setup, c, word, i);
        dskSyn, dskBlk, o := TrackBit(word[i], ram, dma, dskSyn, dskBlk, o, ram0, w0);
      }
      assert word[..16] == word;
    }

    /** The controller and RAM are what a run of bits has made of them. */
    ghost predicate Agrees(o: Out, ram0: seq<Word>, w0: nat, ram: array<Word>)
      requires |ram0| == WORDS
      reads this, ram
    {
      && View() == o.ctl
      && ram[..] == Store(ram0, w0, o.stored)
      && pointer == (w0 + |o.stored|) % WORDS * 2
    }

    /** One round of the loop. */
    method TrackBit(bit: bool, ram: array<Word>, dma: bool, syn: bool, blk: bool, ghost o: Out,
                    ghost ram0: seq<Word>, ghost w0: nat)
      returns (dskSyn: bool, dskBlk: bool, ghost next: Out)
      requires Valid() && ram.Length == WORDS && |ram0| == WORDS
      requires Agrees(o, ram0, w0, ram) && syn == (o.syncs > 0) && blk == (o.blks > 0)
      modifies this`pointer, this`remaining, this`lastWord, this`shift, this`bits, this`active, this`waitingForSync,
               this`byteReady, this`wordEqual, ram
      ensures Valid() && next == NextBit(Setup(WordSync(), sync, dma), o, bit)
      ensures Agrees(next, ram0, w0, ram) && dskSyn == (next.syncs > 0) && dskBlk == (next.blks > 0)
    {
      hide OneBit, AllBits, Store;
      ghost var d := OneBit(Setup(WordSync(), sync, dma), o.ctl, bit);
      next := Then(o, d);
      var isSync, done := DiskBit(bit, ram, dma);
      StoreMore(ram0, w0, o.stored, d.stored);
      dskSyn, dskBlk := syn || isSync, blk || done;
    }

    /** One bit of the loop. */
    method DiskBit(bit: bool, ram: array<Word>, dma: bool) returns (isSync: bool, done: bool)
      requires Valid() && ram.Length == WORDS
      modifies this`pointer, this`remaining, this`lastWord, this`shift, this`bits, this`active, this`waitingForSync,
               this`byteReady, this`wordEqual, ram
      ensures Valid()
      ensures var d := OneBit(Setup(WordSync(), sync, dma), old(View()), bit);
        && View() == d.ctl && isSync == (d.syncs > 0) && done == (d.blks > 0)
        && |d.stored| <= 1
        && ram[..] == (if d.stored == [] then old(ram[..]) else old(ram[..])[old(pointer) / 2 := d.stored[0]])
        && pointer == (old(pointer) / 2 + |d.stored|) % WORDS * 2
    {
      hide Check, Complete;
      shift := shift[1..] + [bit];
      bits := bits + 1;
      isSync := shift == sync;
      wordEqual := isSync;
      done := Act(ram, dma);
    }

    /** What the loop does once the bit is in. */
    method Act(ram: array<Word>, dma: bool) returns (done: bool)
      requires bits <= 16 && pointer < BYTES && pointer % 2 == 0 && (active ==> 1 <= remaining < 0x4000)
      requires wordEqual == (shift == sync) && ram.Length == WORDS
      modifies this`pointer, this`remaining, this`lastWord, this`bits, this`active, this`waitingForSync,
               this`byteReady, ram
      ensures Valid()
      ensures var d := Check(Setup(WordSync(), sync, dma), old(View()));
        && View() == d.ctl && done == (d.blks > 0)
        && |d.stored| <= 1 && d.syncs == (if wordEqual then 1 else 0)
        && ram[..] == (if d.stored == [] then old(ram[..]) else old(ram[..])[old(pointer) / 2 := d.stored[0]])
        && pointer == (old(pointer) / 2 + |d.stored|) % WORDS * 2
    {
      hide Complete;
      ghost var setup, c, syncs := Setup(WordSync(), sync, dma), View(), if wordEqual then 1 else 0;
      CompleteResets(setup, c, syncs);
      done := false;
      if wordEqual {
        if WordSync() && active && waitingForSync {
          waitingForSync := false;  // words are counted from here
          bits := 0;
          return;
        }
        if WordSync() {
          bits := 16;  // the word ends here
        }
      }
      if bits < 16 {
        return;
      }
      bits := 0;
      done := StoreWord(shift, ram, dma, syncs);
    }

    /** What happens to 16 bits: DSKBYTR can show them, and a running transfer puts them into RAM. */
    method StoreWord(word: Word, ram: array<Word>, dma: bool, ghost syncs: nat) returns (done: bool)
      requires Valid() && ram.Length == WORDS && word == shift && bits == 0
      modifies this`pointer, this`remaining, this`lastWord, this`active, this`byteReady, ram
      ensures Valid()
      ensures var d := Complete(Setup(WordSync(), sync, dma), old(View()), syncs);
        && View() == d.ctl && done == (d.blks > 0) && |d.stored| <= 1 && d.syncs == syncs
        && (d.stored != [] ==> d.stored[0] == word)
        && ram[..] == (if d.stored == [] then old(ram[..]) else old(ram[..])[old(pointer) / 2 := word])
        && pointer == (old(pointer) / 2 + |d.stored|) % WORDS * 2
    {
      NextPointer(pointer);
      lastWord := word;
      byteReady := true;
      done := false;
      if !active || !dma || waitingForSync {
        return;
      }
      ram[pointer / 2] := word;
      pointer := (pointer + 2) % BYTES;
      remaining := remaining - 1;
      if remaining == 0 {
        active := false;
        done := true;
      }
    }

    /** DSKLEN has to be written twice; the second value counts. Nothing to read, or a write to the disk, is
        finished on the spot. */
    method WriteDsklen(value: Word) returns (dskBlk: bool)
      requires Valid()
      modifies this`armed, this`remaining, this`active, this`waitingForSync
      ensures Valid()
      ensures var v := Val(value);
        if v < 0x8000 then
          && !active && !armed && !dskBlk
          && remaining == old(remaining) && waitingForSync == old(waitingForSync)
        else if !old(armed) then
          && armed && active == old(active) && !dskBlk
          && remaining == old(remaining) && waitingForSync == old(waitingForSync)
        else
          && !armed && remaining == v % 0x4000
          && active == (v / 0x4000 % 2 == 0 && v % 0x4000 > 0) && dskBlk == !active
          && waitingForSync == if active then WordSync() else old(waitingForSync)
    {
      hide Val;
      LengthBits(value);
      dskBlk := false;
      if !value[0] {
        active := false;
        armed := false;
        return;
      }
      if !armed {
        armed := true;
        return;
      }
      armed := false;
      remaining := Val(value[2..]);
      if value[1] || remaining == 0 {
        active := false;
        dskBlk := true;
        return;
      }
      active := true;
      waitingForSync := WordSync();
    }
  }
}
