/** A disk read from the encoder to chip RAM: whatever the rotation, what is stored
    is what follows the first sync word, word-aligned. */
module DiskRead {
  import opened Bits
  import opened Adf
  import opened MfmTrack
  import opened MfmDecode
  import opened ChipRam
  import opened DiskController
  import opened Floppy

  /** WORDSYNC on, DSKSYNC $4489, disk DMA on. */
  const READING := Setup(true, SYNC_WORD, true)

  /** No sync pattern lies across the boundary of two words. */
  ghost predicate Quiet(v: Bits, w: Bits)
    requires |v| == 16 && |w| == 16
  {
    forall i | 0 < i < 16 :: v[i..] + w[..i] != SYNC_WORD
  }

  lemma QuietTrack(img: Image, track: nat, k: nat)
    requires track < TRACKS && k < TRACK_WORDS
    ensures var t := EncodedTrack(img, track); Quiet(t[k], t[After(k)])
  {
    var t := EncodedTrack(img, track);
    forall i | 0 < i < 16
      ensures t[k][i..] + t[After(k)][..i] != SYNC_WORD
    {
      SyncNearPositions(img, track, k, i);
      if t[k][i..] + t[After(k)][..i] == SYNC_WORD {
        WindowNear(t, k, i);
      }
    }
  }

  lemma WindowNear(t: Track, k: nat, i: nat)
    requires k < TRACK_WORDS && i < 16 && t[k][i..] + t[After(k)][..i] == SYNC_WORD
    ensures SyncNear(t, k, i)
  {
    forall j: nat | j < 16
      ensures Near(t, k, i + j) == SYNC_WORD[j]
    {
      assert SYNC_WORD[j] == (t[k][i..] + t[After(k)][..i])[j];
    }
  }

  // ----- one word

  lemma {:induction false} ShiftedIn(setup: Setup, c: Ctl, bits: Bits)
    requires |bits| <= 16
    ensures AllBits(setup, c, bits).ctl.shift == c.shift[|bits|..] + bits
  {
    if bits != [] {
      hide AllBits, NextBit;
      var n := |bits| - 1;
      ShiftedIn(setup, c, bits[..n]);
      AllBitsNext(setup, c, bits, n);
      assert bits[..n + 1] == bits;
      NextBitShifts(setup, AllBits(setup, c, bits[..n]), bits[n]);
      OneMoreBit(c.shift, bits[..n], bits[n]);
      assert bits[..n] + [bits[n]] == bits;
    }
  }

  lemma NextBitShifts(setup: Setup, o: Out, bit: bool)
    ensures NextBit(setup, o, bit).ctl.shift == o.ctl.shift[1..] + [bit]
  {}

  lemma OneMoreBit(v: Bits, bits: Bits, bit: bool)
    requires |bits| < |v|
    ensures (v[|bits|..] + bits)[1..] + [bit] == v[|bits| + 1..] + (bits + [bit])
  {}

  /** Nothing but the bit counters and the last word seen differs. */
  predicate SameTransfer(o: Out, c: Ctl) {
    && o.stored == [] && o.blks == 0
    && o.ctl.active == c.active && o.ctl.waiting == c.waiting && o.ctl.remaining == c.remaining
  }

  lemma IdleBit(c: Ctl, bit: bool)
    requires !c.active || (c.waiting && c.shift[1..] + [bit] != SYNC_WORD)
    ensures SameTransfer(OneBit(READING, c, bit), c)
  {}

  lemma SameThen(o: Out, d: Out, c: Ctl)
    requires SameTransfer(o, c) && SameTransfer(d, o.ctl)
    ensures SameTransfer(Then(o, d), c)
  {}

  /** While waiting or stopped, bits that do not complete the sync word change nothing. */
  lemma {:induction false} IdleBits(c: Ctl, w: Word, i: nat)
    requires !c.active || (c.waiting && Quiet(c.shift, w) && (i == 16 ==> w != SYNC_WORD))
    requires i <= 16
    ensures SameTransfer(AllBits(READING, c, w[..i]), c)
  {
    if i > 0 {
      var o := AllBits(READING, c, w[..i - 1]);
      IdleBits(c, w, i - 1);
      ShiftedIn(READING, c, w[..i]);
      if c.active {
        NoSyncYet(c.shift, w, i);
      }
      NextShift(READING, c, w, i - 1);
      IdleBit(o.ctl, w[i - 1]);
      AllBitsNext(READING, c, w, i - 1);
      SameThen(o, OneBit(READING, o.ctl, w[i - 1]), c);
    }
  }

  /** The shift register on the way from one word to the next. */
  lemma NextShift(setup: Setup, c: Ctl, w: Word, i: nat)
    requires i < 16
    ensures AllBits(setup, c, w[..i]).ctl.shift[1..] + [w[i]] == c.shift[i + 1..] + w[..i + 1]
  {
    hide AllBits;
    ShiftedIn(setup, c, w[..i]);
  }

  lemma NoSyncYet(v: Word, w: Word, i: nat)
    requires 0 < i <= 16 && Quiet(v, w) && (i == 16 ==> w != SYNC_WORD)
    ensures v[i..] + w[..i] != SYNC_WORD
  {
    if i == 16 {
      assert v[16..] + w[..16] == w;
    }
  }

  /** The sync word ends the wait: it is not stored, and a word starts right after it. */
  lemma SyncWordPasses(c: Ctl)
    requires c.active && c.waiting && Quiet(c.shift, SYNC_WORD)
    ensures var o := AllBits(READING, c, SYNC_WORD);
      && o.stored == [] && o.blks == 0
      && o.ctl.active && !o.ctl.waiting && o.ctl.remaining == c.remaining && o.ctl.bits == 0 && o.ctl.shift == SYNC_WORD
  {
    IdleBits(c, SYNC_WORD, 15);
    NextShift(READING, c, SYNC_WORD, 15);
    AllBitsNext(READING, c, SYNC_WORD, 15);
    assert SYNC_WORD[..16] == SYNC_WORD && c.shift[16..] == [];
  }

  /** During a transfer bits are only counted until the word is complete. */
  predicate Counting(o: Out, c: Ctl, i: nat) {
    && o.stored == [] && o.blks == 0
    && o.ctl.active && !o.ctl.waiting && o.ctl.remaining == c.remaining && o.ctl.bits == i
  }

  lemma CountBit(o: Out, c: Ctl, i: nat, bit: bool)
    requires Counting(o, c, i) && i < 15 && o.ctl.shift[1..] + [bit] != SYNC_WORD
    ensures Counting(NextBit(READING, o, bit), c, i + 1)
  {}

  lemma {:induction false} CountBits(c: Ctl, w: Word, i: nat)
    requires c.active && !c.waiting && c.bits == 0 && Quiet(c.shift, w) && i < 16
    ensures Counting(AllBits(READING, c, w[..i]), c, i)
  {
    if i > 0 {
      CountBits(c, w, i - 1);
      NextShift(READING, c, w, i - 1);
      NoSyncYet(c.shift, w, i);
      AllBitsNext(READING, c, w, i - 1);
      CountBit(AllBits(READING, c, w[..i - 1]), c, i - 1, w[i - 1]);
    }
  }

  lemma LastBitStores(o: Out, c: Ctl, bit: bool)
    requires Counting(o, c, 15) && c.remaining >= 1
    ensures var r := NextBit(READING, o, bit);
      && r.stored == [o.ctl.shift[1..] + [bit]] && r.blks == (if c.remaining == 1 then 1 else 0)
      && r.ctl.active == (c.remaining > 1) && !r.ctl.waiting && r.ctl.remaining == c.remaining - 1 && r.ctl.bits == 0
  {}

  /** During a transfer each word is stored as it comes, sync words included. */
  lemma WordStored(c: Ctl, w: Word)
    requires c.active && !c.waiting && c.bits == 0 && c.remaining >= 1 && Quiet(c.shift, w)
    ensures var o := AllBits(READING, c, w);
      && o.stored == [w] && o.blks == (if c.remaining == 1 then 1 else 0)
      && o.ctl.active == (c.remaining > 1) && !o.ctl.waiting && o.ctl.remaining == c.remaining - 1
      && o.ctl.bits == 0 && o.ctl.shift == w
  {
    CountBits(c, w, 15);
    NextShift(READING, c, w, 15);
    AllBitsNext(READING, c, w, 15);
    LastBitStores(AllBits(READING, c, w[..15]), c, w[15]);
    ShiftedIn(READING, c, w);
    assert w[..16] == w && c.shift[16..] + w[..16] == w;
  }

  // ----- a whole read

  function Feed(c: Ctl, words: seq<Word>): Out
    decreases words
  {
    if words == [] then Out(c, [], 0, 0)
    else if |words| == 1 then AllBits(READING, c, words[0])
    else
      var n := |words| - 1;
      var o := Feed(c, words[..n]);
      Then(o, Feed(o.ctl, words[n..]))
  }

  lemma FeedNext(c: Ctl, words: seq<Word>, w: Word)
    ensures var o := Feed(c, words); Feed(c, words + [w]) == Then(o, AllBits(READING, o.ctl, w))
  {
    var n := |words|;
    assert (words + [w])[..n] == words && (words + [w])[n..] == [w];
    if n == 0 {
      assert words + [w] == [w];
    }
  }

  /** The word j places after position p on the circle. */
  function Place(p: nat, j: nat): (k: nat)
    ensures k < TRACK_WORDS
  {
    (p + j) % TRACK_WORDS
  }

  lemma PlaceNext(p: nat, j: nat)
    ensures After(Place(p, j)) == Place(p, j + 1)
  {}

  /** The n words that follow position p. */
  function Passing(t: Track, p: nat, n: nat): (words: seq<Word>)
    ensures |words| == n
  {
    seq(n, i requires 0 <= i < n => t[Place(p, i + 1)])
  }

  lemma PassingNext(t: Track, p: nat, n: nat)
    ensures Passing(t, p, n + 1) == Passing(t, p, n) + [t[Place(p, n + 1)]]
  {}

  /** The first sync word after position p is d words on. */
  ghost predicate FirstSync(p: nat, d: nat) {
    && d >= 1 && IsSyncWord(Place(p, d))
    && forall j: nat | 1 <= j < d :: !IsSyncWord(Place(p, j))
  }

  /** There is always one. */
  function SyncDistance(p: nat): (d: nat)
    ensures FirstSync(p, d)
  {
    Search(p, 1)
  }

  function Search(p: nat, j: nat): (d: nat)
    requires 1 <= j <= TRACK_WORDS + 2 - p % TRACK_WORDS
    requires forall i: nat | 1 <= i < j :: !IsSyncWord(Place(p, i))
    ensures FirstSync(p, d)
    decreases TRACK_WORDS + 2 - p % TRACK_WORDS - j
  {
    SyncWithin(p);
    if IsSyncWord(Place(p, j)) then j else Search(p, j + 1)
  }

  lemma SyncWithin(p: nat)
    ensures IsSyncWord(Place(p, TRACK_WORDS + 2 - p % TRACK_WORDS))
  {
    assert (p + (TRACK_WORDS + 2 - p % TRACK_WORDS)) % TRACK_WORDS == 2;
  }

  /** What a read relies on: the sync pattern is at the sync words, and nowhere across two words. */
  ghost predicate Readable(t: Track) {
    forall k: nat {:trigger ReadableAt(t, k)} | k < TRACK_WORDS :: ReadableAt(t, k)
  }

  ghost predicate ReadableAt(t: Track, k: nat) {
    k < TRACK_WORDS && Quiet(t[k], t[After(k)]) && (t[k] == SYNC_WORD <==> IsSyncWord(k))
  }

  lemma EncodedReadable(img: Image, track: nat)
    requires track < TRACKS
    ensures Readable(EncodedTrack(img, track))
  {
    forall k: nat | k < TRACK_WORDS
      ensures ReadableAt(EncodedTrack(img, track), k)
    {
      QuietTrack(img, track, k);
      SyncWordAt(img, track, k);
    }
  }

  lemma SyncWordAt(img: Image, track: nat, k: nat)
    requires track < TRACKS && k < TRACK_WORDS
    ensures EncodedTrack(img, track)[k] == SYNC_WORD <==> IsSyncWord(k)
  {
    SyncNearPositions(img, track, k, 0);
    WordNear(EncodedTrack(img, track), k);
  }

  lemma WordNear(t: Track, k: nat)
    requires k < TRACK_WORDS
    ensures t[k] == SYNC_WORD <==> SyncNear(t, k, 0)
  {
    if SyncNear(t, k, 0) {
      forall j: nat | j < 16
        ensures t[k][j] == SYNC_WORD[j]
      {
        assert Near(t, k, 0 + j) == SYNC_WORD[j];
      }
    }
  }

  /** How many words have been stored when m have passed. */
  function Count(m: nat, d: nat, n: nat): nat {
    if m < d then 0 else if m - d < n then m - d else n
  }

  /** A read of n words, started at position p, when m words have passed. */
  ghost predicate ReadState(t: Track, p: nat, d: nat, n: nat, m: nat, o: Out) {
    var k := Count(m, d, n);
    && o.ctl.shift == t[Place(p, m)]
    && o.stored == Passing(t, p + d, k)
    && o.blks == (if k == n then 1 else 0)
    && o.ctl.active == (k < n)
    && (o.ctl.active ==> o.ctl.waiting == (m < d) && o.ctl.remaining == n - k)
    && (o.ctl.active && m >= d ==> o.ctl.bits == 0)
  }

  lemma StoringStep(t: Track, p: nat, d: nat, n: nat, m: nat, o: Out, w: Word)
    requires ReadState(t, p, d, n, m, o) && d <= m < d + n
    requires w == t[Place(p, m + 1)] && Quiet(o.ctl.shift, w)
    ensures ReadState(t, p, d, n, m + 1, Then(o, AllBits(READING, o.ctl, w)))
  {
    hide AllBits, Passing;
    WordStored(o.ctl, w);
    PassingNext(t, p + d, m - d);
    assert Place(p, m + 1) == Place(p + d, m - d + 1);
  }

  lemma SyncStep(t: Track, p: nat, d: nat, n: nat, m: nat, o: Out)
    requires n >= 1 && ReadState(t, p, d, n, m, o) && m + 1 == d
    requires t[Place(p, m + 1)] == SYNC_WORD && Quiet(o.ctl.shift, SYNC_WORD)
    ensures ReadState(t, p, d, n, m + 1, Then(o, AllBits(READING, o.ctl, SYNC_WORD)))
  {
    SyncWordPasses(o.ctl);
    assert o.stored == [] == Passing(t, p + d, 0);
  }

  lemma IdleStep(t: Track, p: nat, d: nat, n: nat, m: nat, o: Out, w: Word)
    requires n >= 1 && ReadState(t, p, d, n, m, o) && (m + 1 < d || m >= d + n)
    requires w == t[Place(p, m + 1)] && (m + 1 < d ==> Quiet(o.ctl.shift, w) && w != SYNC_WORD)
    ensures ReadState(t, p, d, n, m + 1, Then(o, AllBits(READING, o.ctl, w)))
  {
    assert w[..16] == w;
    IdleBits(o.ctl, w, 16);
    ShiftedIn(READING, o.ctl, w);
    assert o.ctl.shift[16..] + w == w;
    assert o.stored + [] == o.stored;
  }

  lemma ReadStep(t: Track, p: nat, d: nat, n: nat, m: nat, o: Out)
    requires Readable(t) && FirstSync(p, d) && n >= 1 && ReadState(t, p, d, n, m, o)
    ensures ReadState(t, p, d, n, m + 1, Then(o, AllBits(READING, o.ctl, t[Place(p, m + 1)])))
  {
    PlaceNext(p, m);
    assert ReadableAt(t, Place(p, m)) && ReadableAt(t, Place(p, m + 1));
    if m + 1 < d || m >= d + n {
      IdleStep(t, p, d, n, m, o, t[Place(p, m + 1)]);
    } else if m + 1 == d {
      SyncStep(t, p, d, n, m, o);
    } else {
      StoringStep(t, p, d, n, m, o, t[Place(p, m + 1)]);
    }
  }

  /** A read started at any position: the words after the first sync word met are stored, all of
      them and no more, and DSKBLK is raised once, when the last one is. */
  lemma {:induction false} ReadRuns(t: Track, p: nat, d: nat, n: nat, m: nat, c: Ctl)
    requires Readable(t) && FirstSync(p, d) && n >= 1
    requires c.active && c.waiting && c.remaining == n && c.shift == t[Place(p, 0)]
    ensures ReadState(t, p, d, n, m, Feed(c, Passing(t, p, m)))
  {
    if m > 0 {
      ReadRuns(t, p, d, n, m - 1, c);
      PassingNext(t, p, m - 1);
      FeedNext(c, Passing(t, p, m - 1), t[Place(p, m)]);
      ReadStep(t, p, d, n, m - 1, Feed(c, Passing(t, p, m - 1)));
    }
  }

  // ----- what is in the buffer

  /** Where the header of sector s stands in a buffer filled from after the sync word q. */
  function SectorStart(q: nat, s: nat): (a: nat)
    requires q < TRACK_WORDS && IsSyncWord(q) && s < SECTORS_PER_TRACK
    ensures a + (SECTOR_WORDS - 4) <= TRACK_WORDS
    ensures q + a + 1 == SECTOR_WORDS * s + 4 || q + a + 1 == SECTOR_WORDS * s + 4 + TRACK_WORDS
  {
    var first := SECTOR_WORDS * s + 4;
    var z := q / SECTOR_WORDS;
    assert q == SECTOR_WORDS * z + 2 || q == SECTOR_WORDS * z + 3;
    if first > q then first - 1 - q
    else
      assert s < z && SECTOR_WORDS * s + SECTOR_WORDS <= SECTOR_WORDS * z;
      first - 1 - q + TRACK_WORDS
  }

  lemma PlaceFrom(p: nat, d: nat, j: nat)
    ensures Place(p + d, j) == Place(Place(p, d), j)
  {}

  lemma PlaceInSector(q: nat, s: nat, i: nat)
    requires q < TRACK_WORDS && IsSyncWord(q) && s < SECTORS_PER_TRACK && i < SECTOR_WORDS - 4
    ensures Place(q, SectorStart(q, s) + i + 1) == SECTOR_WORDS * s + 4 + i
  {
    hide IsSyncWord, SectorStart;
  }

  /** After n >= 6250 words, every sector stands in the buffer in one piece. */
  lemma BufferHas(t: Track, p: nat, d: nat, n: nat, s: nat)
    requires FirstSync(p, d) && n >= TRACK_WORDS && s < SECTORS_PER_TRACK
    ensures var a := SectorStart(Place(p, d), s);
      Passing(t, p + d, n)[a..a + (SECTOR_WORDS - 4)] == t[SECTOR_WORDS * s + 4..SECTOR_WORDS * (s + 1)]
  {
    hide IsSyncWord, Place, SectorStart;
    var q := Place(p, d);
    var a := SectorStart(q, s);
    var part := Passing(t, p + d, n)[a..a + (SECTOR_WORDS - 4)];
    var sector := t[SECTOR_WORDS * s + 4..SECTOR_WORDS * (s + 1)];
    forall i | 0 <= i < SECTOR_WORDS - 4
      ensures part[i] == sector[i]
    {
      PlaceFrom(p, d, a + i + 1);
      PlaceInSector(q, s, i);
    }
  }

  /** A whole-track read of a formatted disk, from any position: all 11 sectors read back. */
  lemma AllSectorsRead(img: Image, track: nat, t: Track, p: nat, d: nat, n: nat, s: nat)
    requires track < TRACKS && t == EncodedTrack(img, track)
    requires FirstSync(p, d) && n >= TRACK_WORDS && s < SECTORS_PER_TRACK
    ensures var a := SectorStart(Place(p, d), s);
      SectorReads(Passing(t, p + d, n)[a..a + (SECTOR_WORDS - 4)], img, track, s)
  {
    BufferHas(t, p, d, n, s);
    DecodesBack(img, track, s);
  }

  // ----- the drive, the controller and chip RAM together

  /** The controller and RAM are what the words that have passed make of them. */
  ghost predicate Fed(disk: Controller, ram: array<Word>, ram0: seq<Word>, w0: nat, o: Out)
    requires |ram0| == WORDS
    reads disk, ram
  {
    && disk.Valid() && ram.Length == WORDS
    && disk.View() == o.ctl
    && ram[..] == Store(ram0, w0, o.stored)
    && disk.pointer == (w0 + |o.stored|) % WORDS * 2
  }

  /** A word from the head goes to the controller. */
  method FeedWord(disk: Controller, ram: array<Word>, word: Word, ghost ram0: seq<Word>, ghost w0: nat, ghost o: Out)
    returns (dskBlk: bool)
    requires |ram0| == WORDS && Fed(disk, ram, ram0, w0, o) && disk.WordSync() && disk.sync == SYNC_WORD
    modifies disk`pointer, disk`remaining, disk`lastWord, disk`shift, disk`bits, disk`active, disk`waitingForSync,
             disk`byteReady, disk`wordEqual, ram
    ensures var d := AllBits(READING, o.ctl, word);
      Fed(disk, ram, ram0, w0, Then(o, d)) && dskBlk == (d.blks > 0)
  {
    hide AllBits, Store;
    ghost var d := AllBits(READING, o.ctl, word);
    StoreConcat(ram0, w0, o.stored, d.stored);
    var syn;
    syn, dskBlk := disk.DiskWord(word, ram, true);
    Wraps(w0 + |o.stored|, |d.stored|);
  }

  /** The selected drive turns, with this track under its head. */
  ghost predicate Turning(drive: FloppyDrive, t: Track)
    reads drive, drive.track
  {
    && drive.Valid() && drive.View().Spinning() && drive.selected
    && (drive.disk.Some? ==> Encoded(drive.disk.value, drive.tracks))
    && drive.tracks[drive.View().Track()] == t
  }

  /** A read of n words that started at position p, m words ago. */
  datatype Reading = Reading(t: Track, p: nat, n: nat, m: nat, c: Ctl, ram0: seq<Word>, w0: nat)
  {
    ghost predicate Valid() {
      && Readable(t) && n >= 1 && |ram0| == WORDS
      && c.active && c.waiting && c.remaining == n && c.shift == t[Place(p, 0)]
    }

    function Fed(): Out { Feed(c, Passing(t, p, m)) }

    function Next(): Reading { this.(m := m + 1) }
  }

  lemma ReadingNext(r: Reading)
    requires r.Valid()
    ensures Then(r.Fed(), AllBits(READING, r.Fed().ctl, r.t[Place(r.p, r.m + 1)])) == r.Next().Fed()
    ensures r.Fed().blks <= r.Next().Fed().blks <= 1
  {
    PassingNext(r.t, r.p, r.m);
    FeedNext(r.c, Passing(r.t, r.p, r.m), r.t[Place(r.p, r.m + 1)]);
    ReadRuns(r.t, r.p, SyncDistance(r.p), r.n, r.m, r.c);
    ReadRuns(r.t, r.p, SyncDistance(r.p), r.n, r.m + 1, r.c);
  }

  /** The next word of the track has come to the head. */
  method PassWord(disk: Controller, ram: array<Word>, word: Word, ghost r: Reading) returns (dskBlk: bool)
    requires r.Valid() && Fed(disk, ram, r.ram0, r.w0, r.Fed()) && disk.WordSync() && disk.sync == SYNC_WORD
    requires word == r.t[Place(r.p, r.m + 1)]
    modifies disk`pointer, disk`remaining, disk`lastWord, disk`shift, disk`bits, disk`active, disk`waitingForSync,
             disk`byteReady, disk`wordEqual, ram
    ensures Fed(disk, ram, r.ram0, r.w0, r.Next().Fed())
    ensures r.Next().Fed().blks == r.Fed().blks + if dskBlk then 1 else 0
  {
    ReadingNext(r);
    dskBlk := FeedWord(disk, ram, word, r.ram0, r.w0, r.Fed());
  }

  /** Drive, controller and RAM have got this far with a read. */
  ghost predicate At(drive: FloppyDrive, disk: Controller, ram: array<Word>, r: Reading)
    reads drive, drive.track, disk, ram
  {
    && r.Valid() && Turning(drive, r.t) && drive.position == Place(r.p, r.m)
    && Fed(disk, ram, r.ram0, r.w0, r.Fed()) && disk.WordSync() && disk.sync == SYNC_WORD
  }

  /** The part of a color clock that turns the disk: a word, when its time has come. */
  method Turn(drive: FloppyDrive, disk: Controller, ram: array<Word>, ghost r: Reading)
    returns (passes: bool, dskBlk: bool, ghost next: Reading)
    requires At(drive, disk, ram, r) && drive.track != ram
    modifies drive`position, drive`rotation, drive`encodedTrack, drive.track
    modifies disk`pointer, disk`remaining, disk`lastWord, disk`shift, disk`bits, disk`active, disk`waitingForSync,
             disk`byteReady, disk`wordEqual, ram
    ensures At(drive, disk, ram, next) && next == (if passes then r.Next() else r)
    ensures next.Fed().blks == r.Fed().blks + if dskBlk then 1 else 0
    ensures drive.rotation == old(drive.rotation) + 2 - if passes then WORD_TIME else 0
  {
    hide Reading.Fed, Fed;
    PlaceNext(r.p, r.m);
    var tick := drive.DoTick();
    dskBlk, passes, next := false, tick.wordReady, r;
    if tick.wordReady {
      next := r.Next();
      dskBlk := PassWord(disk, ram, tick.word, r);
    }
  }

  /** The turbo part: one more word while a transfer runs. */
  method Turbo(drive: FloppyDrive, disk: Controller, ram: array<Word>, ghost r: Reading)
    returns (dskBlk: bool)
    requires At(drive, disk, ram, r) && drive.track != ram
    modifies drive`position, drive`encodedTrack, drive.track
    modifies disk`pointer, disk`remaining, disk`lastWord, disk`shift, disk`bits, disk`active, disk`waitingForSync,
             disk`byteReady, disk`wordEqual, ram
    ensures At(drive, disk, ram, r.Next())
    ensures r.Next().Fed().blks == r.Fed().blks + if dskBlk then 1 else 0
  {
    hide Reading.Fed, Fed;
    PlaceNext(r.p, r.m);
    var tick := drive.NextWord();
    dskBlk := PassWord(disk, ram, tick.word, r);
  }

  /** One color clock: at least the word that turning brings, one more with turbo. */
  method ColorClock(drive: FloppyDrive, disk: Controller, ram: array<Word>, turbo: bool, ghost r: Reading)
    returns (words: nat, dskBlks: nat, ghost next: Reading, ghost turned: nat)
    requires At(drive, disk, ram, r) && drive.track != ram
    modifies drive`position, drive`rotation, drive`encodedTrack, drive.track
    modifies disk`pointer, disk`remaining, disk`lastWord, disk`shift, disk`bits, disk`active, disk`waitingForSync,
             disk`byteReady, disk`wordEqual, ram
    ensures At(drive, disk, ram, next) && next == r.(m := r.m + words)
    ensures next.Fed().blks == r.Fed().blks + dskBlks
    ensures drive.rotation + WORD_TIME * turned == old(drive.rotation) + 2
    ensures turned <= words && (!turbo ==> turned == words)
  {
    hide Reading.Fed, Fed, Turning;
    var passes, dskBlk;
    passes, dskBlk, next := Turn(drive, disk, ram, r);
    words, dskBlks := if passes then 1 else 0, if dskBlk then 1 else 0;
    turned := words;
    if disk.active && turbo {
      dskBlk := Turbo(drive, disk, ram, next);
      next, words := next.Next(), words + 1;
      dskBlks := dskBlks + if dskBlk then 1 else 0;
    }
  }

  /** Chip RAM, the number of DSKBLKs and the end of the transfer, when some words have passed. */
  ghost predicate Result(t: Track, p: nat, n: nat, passed: nat, ram0: seq<Word>, w0: nat,
                         ram: seq<Word>, dskBlks: nat, active: bool)
    requires |ram0| == WORDS
  {
    var d := SyncDistance(p);
    var k := Count(passed, d, n);
    && ram == Store(ram0, w0, Passing(t, p + d, k))
    && dskBlks == (if k == n then 1 else 0)
    && active == (k < n)
  }

  lemma Results(drive: FloppyDrive, disk: Controller, ram: array<Word>, r: Reading, dskBlks: nat)
    requires At(drive, disk, ram, r) && dskBlks == r.Fed().blks
    ensures Result(r.t, r.p, r.n, r.m, r.ram0, r.w0, ram[..], dskBlks, disk.active)
  {
    ReadRuns(r.t, r.p, SyncDistance(r.p), r.n, r.m, r.c);
  }

  /** A read that starts. */
  lemma Starts(drive: FloppyDrive, disk: Controller, ram: array<Word>, t: Track, r: Reading)
    requires Turning(drive, t) && Readable(t)
    requires disk.Valid() && disk.WordSync() && disk.sync == SYNC_WORD && ram.Length == WORDS
    requires disk.active && disk.waitingForSync && disk.shift == t[drive.position]
    requires r == Reading(t, drive.position, disk.remaining, 0, disk.View(), ram[..], disk.pointer / 2)
    ensures At(drive, disk, ram, r) && r.Fed().blks == 0
  {
    assert Passing(t, r.p, 0) == [];
  }

  /** A read of n words, for some color clocks, turbo or not: chip RAM holds the words that circularly
      follow the first sync word met, up to n of them; DSKBLK has been raised once if all of them
      have been stored and not at all otherwise; nothing is stored after that. */
  method RunRead(drive: FloppyDrive, disk: Controller, ram: array<Word>, turbo: bool, clocks: nat, ghost t: Track)
    returns (passed: nat, dskBlks: nat)
    requires Turning(drive, t) && Readable(t) && drive.track != ram
    requires disk.Valid() && disk.WordSync() && disk.sync == SYNC_WORD && ram.Length == WORDS
    requires disk.active && disk.waitingForSync && disk.shift == t[drive.position]
    modifies drive`position, drive`rotation, drive`encodedTrack, drive.track
    modifies disk`pointer, disk`remaining, disk`lastWord, disk`shift, disk`bits, disk`active, disk`waitingForSync,
             disk`byteReady, disk`wordEqual, ram
    ensures passed >= (old(drive.rotation) + 2 * clocks) / WORD_TIME
    ensures !turbo ==> passed == (old(drive.rotation) + 2 * clocks) / WORD_TIME
    ensures Result(t, old(drive.position), old(disk.remaining), passed, old(ram[..]), old(disk.pointer) / 2,
                   ram[..], dskBlks, disk.active)
  {
    ghost var r0 := Reading(t, drive.position, disk.remaining, 0, disk.View(), ram[..], disk.pointer / 2);
    ghost var r, turned, half := r0, 0, drive.rotation;
    Starts(drive, disk, ram, t, r);
    passed, dskBlks := 0, 0;
    for clock := 0 to clocks
      invariant At(drive, disk, ram, r) && r == r0.(m := passed)
      invariant dskBlks == r.Fed().blks
      invariant half + 2 * clock == WORD_TIME * turned + drive.rotation && drive.rotation < WORD_TIME
      invariant turned <= passed && (!turbo ==> turned == passed)
    {
      var words, blks;
      ghost var more;
      words, blks, r, more := ColorClock(drive, disk, ram, turbo, r);
      passed, dskBlks, turned := passed + words, dskBlks + blks, turned + more;
    }
    Results(drive, disk, ram, r, dskBlks);
  }

  /** A word that passes an idle controller only goes through its shift register. */
  lemma IdleWord(c: Ctl, w: Word)
    requires !c.active
    ensures var o := AllBits(READING, c, w); SameTransfer(o, c) && o.ctl.shift == w
  {
    hide SameTransfer;
    IdleBits(c, w, 16);
    ShiftedIn(READING, c, w);
    assert w[..16] == w && c.shift[16..] + w == w;
  }

  /** Color clocks while nothing is read: as soon as a word has passed, the shift register holds the one under the
      head. */
  method Idle(drive: FloppyDrive, disk: Controller, ram: array<Word>, clocks: nat, ghost t: Track)
    requires Turning(drive, t) && drive.track != ram
    requires disk.Valid() && disk.WordSync() && disk.sync == SYNC_WORD && ram.Length == WORDS && !disk.active
    modifies drive`position, drive`rotation, drive`encodedTrack, drive.track
    modifies disk`pointer, disk`remaining, disk`lastWord, disk`shift, disk`bits, disk`active, disk`waitingForSync,
             disk`byteReady, disk`wordEqual, ram
    ensures Turning(drive, t) && disk.Valid() && !disk.active
    ensures ram[..] == old(ram[..]) && disk.pointer == old(disk.pointer)
    ensures drive.View() == Turned(old(drive.View()), clocks).drive
    ensures old(drive.rotation) + 2 * clocks >= WORD_TIME ==> disk.shift == t[drive.position]
  {
    hide Turning, Drive.Ticked;
    ghost var d := drive.View();
    Spins(drive, t);
    for clock := 0 to clocks
      invariant Turning(drive, t) && disk.Valid() && !disk.active
      invariant ram[..] == old(ram[..]) && disk.pointer == old(disk.pointer)
      invariant drive.View() == Turned(d, clock).drive
      invariant disk.shift == t[drive.position] || drive.rotation == d.rotation + 2 * clock
    {
      Spins(drive, t);
      IdleClock(drive, disk, ram, t);
    }
  }

  /** One of them. */
  method IdleClock(drive: FloppyDrive, disk: Controller, ram: array<Word>, ghost t: Track)
    requires Turning(drive, t) && drive.track != ram
    requires disk.Valid() && disk.WordSync() && disk.sync == SYNC_WORD && ram.Length == WORDS && !disk.active
    modifies drive`position, drive`rotation, drive`encodedTrack, drive.track
    modifies disk`pointer, disk`remaining, disk`lastWord, disk`shift, disk`bits, disk`active, disk`waitingForSync,
             disk`byteReady, disk`wordEqual, ram
    ensures Turning(drive, t) && disk.Valid() && !disk.active
    ensures ram[..] == old(ram[..]) && disk.pointer == old(disk.pointer)
    ensures old(drive.View()).Valid() && drive.View() == old(drive.View()).Ticked()
    ensures drive.rotation == (if old(drive.View()).WordPasses() then old(drive.rotation) + 2 - WORD_TIME
                               else old(drive.rotation) + 2)
    ensures if old(drive.View()).WordPasses() then disk.shift == t[drive.position]
            else disk.shift == old(disk.shift) && drive.position == old(drive.position)
  {
    hide AllBits;
    var tick := drive.DoTick();
    if tick.wordReady {
      IdleWord(disk.View(), tick.word);
      var syn, blk := disk.DiskWord(tick.word, ram, true);
    }
  }

  /** A whole read: what was going on is stopped, at least one word passes, DSKLEN is written twice, and the disk
      turns for some color clocks. */
  method ReadDisk(drive: FloppyDrive, disk: Controller, ram: array<Word>, turbo: bool, idle: nat, clocks: nat,
                  dsklen: Word, ghost t: Track)
    returns (passed: nat, dskBlks: nat)
    requires Turning(drive, t) && Readable(t) && drive.track != ram
    requires disk.Valid() && disk.WordSync() && disk.sync == SYNC_WORD && ram.Length == WORDS
    requires 0x8000 < Val(dsklen) < 0xC000 && drive.rotation + 2 * idle >= WORD_TIME
    modifies drive`position, drive`rotation, drive`encodedTrack, drive.track
    modifies disk`pointer, disk`remaining, disk`lastWord, disk`shift, disk`bits, disk`active, disk`waitingForSync,
             disk`byteReady, disk`wordEqual, disk`armed, ram
    ensures var half := old(drive.rotation) + 2 * idle;
      var p := (old(drive.position) + half / 227) % 6250;
      && passed >= (half % 227 + 2 * clocks) / 227
      && (!turbo ==> passed == (half % 227 + 2 * clocks) / 227)
      && Result(t, p, Val(dsklen) - 0x8000, passed, old(ram[..]), old(disk.pointer) / 2, ram[..], dskBlks, disk.active)
  {
    hide Turning, Result, Readable, Val, Turned, Drive.Valid, Drive.Spinning;
    ZeroLength();
    var blk := disk.WriteDsklen(ZERO);
    Spins(drive, t);
    Rotation(drive.View(), idle);
    Idle(drive, disk, ram, idle, t);
    blk := disk.WriteDsklen(dsklen);
    blk := disk.WriteDsklen(dsklen);
    passed, dskBlks := RunRead(drive, disk, ram, turbo, clocks, t);
  }

  lemma ZeroLength()
    ensures Val(ZERO) == 0
  {
    ValZeros(16);
  }

  lemma Spins(drive: FloppyDrive, t: Track)
    requires Turning(drive, t)
    ensures drive.View().Valid() && drive.View().Spinning()
  {}

  /** With 114 color clocks for each word all the words have passed: a read of n words is over,
      and chip RAM holds them. */
  lemma ReadEnds(t: Track, p: nat, n: nat, passed: nat, rotation: nat, clocks: nat,
                 ram0: seq<Word>, w0: nat, ram: seq<Word>, dskBlks: nat, active: bool)
    requires 1 <= n < 0x4000 && |ram0| == WORDS
    requires passed >= (rotation + 2 * clocks) / WORD_TIME && clocks >= 114 * (SyncDistance(p) + n)
    requires Result(t, p, n, passed, ram0, w0, ram, dskBlks, active)
    ensures dskBlks == 1 && !active
    ensures var buffer := Passing(t, p + SyncDistance(p), n);
      ram == Store(ram0, w0, buffer) && forall i: nat | i < n :: ram[(w0 + i) % WORDS] == buffer[i]
  {
    hide SyncDistance, Passing, Store;
    assert passed >= SyncDistance(p) + n;
    var buffer := Passing(t, p + SyncDistance(p), n);
    forall i: nat | i < n
      ensures ram[(w0 + i) % WORDS] == buffer[i]
    {
      StoreReads(ram0, w0, buffer, i);
    }
  }

  /** The words of chip RAM from word w on. */
  function RamWords(ram: seq<Word>, w: nat, n: nat): (words: seq<Word>)
    requires |ram| == WORDS
    ensures |words| == n
  {
    seq(n, i requires 0 <= i < n => ram[(w + i) % WORDS])
  }

  /** From a disk image to chip RAM and back: after a read of a whole track, begun at any position and given enough
      time, every sector stands in chip RAM and decodes to its bytes in the image. */
  lemma TrackComesBack(img: Image, track: nat, t: Track, p: nat, n: nat, passed: nat, rotation: nat, clocks: nat,
                       ram0: seq<Word>, w0: nat, ram: seq<Word>, dskBlks: nat, active: bool, s: nat)
    requires track < TRACKS && t == EncodedTrack(img, track) && s < SECTORS_PER_TRACK
    requires TRACK_WORDS <= n < 0x4000 && |ram0| == WORDS && |ram| == WORDS
    requires passed >= (rotation + 2 * clocks) / WORD_TIME && clocks >= 114 * (SyncDistance(p) + n)
    requires Result(t, p, n, passed, ram0, w0, ram, dskBlks, active)
    ensures var a := SectorStart(Place(p, SyncDistance(p)), s);
      SectorReads(RamWords(ram, w0 + a, 540), img, track, s)
  {
    hide SyncDistance, SectorReads, Passing, EncodedTrack, SectorStart, Place, Result, Store;
    ReadEnds(t, p, n, passed, rotation, clocks, ram0, w0, ram, dskBlks, active);
    var d := SyncDistance(p);
    AllSectorsRead(img, track, t, p, d, n, s);
    var a, buffer := SectorStart(Place(p, d), s), Passing(t, p + d, n);
    var words, part := RamWords(ram, w0 + a, SECTOR_WORDS - 4), buffer[a..a + (SECTOR_WORDS - 4)];
    forall i | 0 <= i < SECTOR_WORDS - 4
      ensures words[i] == part[i]
    {
      var k: nat := a + i;
      StoreReads(ram0, w0, buffer, k);
    }
    assert words == part;
  }
}
