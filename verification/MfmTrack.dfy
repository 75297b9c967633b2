/** What an encoded track is as a circular bit stream: valid MFM, with the sync
    pattern nowhere but at the sync words. */
module MfmTrack {
  import opened Bits
  import opened Adf

  type Track = t: seq<Word> | |t| == TRACK_WORDS witness seq(TRACK_WORDS, _ => ZERO)

  function Before(k: nat): (r: nat)
    requires k < TRACK_WORDS
    ensures r < TRACK_WORDS
  {
    if k == 0 then TRACK_WORDS - 1 else k - 1
  }

  function After(k: nat): (r: nat)
    requires k < TRACK_WORDS
    ensures r < TRACK_WORDS
  {
    if k == TRACK_WORDS - 1 then 0 else k + 1
  }

  /** The bit i places after the start of word k on the circle. */
  predicate Near(t: Track, k: nat, i: int)
    requires k < TRACK_WORDS && -16 <= i < 32
  {
    if i < 0 then t[Before(k)][16 + i] else if i < 16 then t[k][i] else t[After(k)][i - 16]
  }

  /** A list of track items whose encoding closes into a circle: it ends in a 0
      data bit, and after a sync word comes a data bit 1. */
  ghost predicate Closed(items: seq<Item>) {
    && |items| == TRACK_WORDS
    && items[TRACK_WORDS - 1] == Data(ZERO)
    && forall k | 0 <= k < TRACK_WORDS - 1 && items[k] == Sync ::
         items[k + 1] == Sync || (items[k + 1].Data? && items[k + 1].bits[1])
  }

  /** Within a word: a clock bit is 1 exactly between two 0 bits, except for the
      one that is missing from a sync word. */
  lemma {:induction false} ClockInWord(last: bool, item: Item, i: nat)
    requires i < 8
    ensures var w := Mfm(last, item);
      w[2 * i] == (!(if i == 0 then last else w[2 * i - 1]) && !w[2 * i + 1]) || (item == Sync && i == 5)
  {
    match item
    case Sync => SyncClock(i);
    case Data(bits) =>
      hide Clocked, DataBits;
      ClockedAt(last, DataBits(bits), i);
      if i > 0 {
        ClockedAt(last, DataBits(bits), i - 1);
      }
  }

  /** The sync word breaks the clock rule only before data bit 5. */
  lemma SyncClock(i: nat)
    requires i < 8
    ensures SYNC_WORD[1] && !SYNC_WORD[0]
    ensures i > 0 ==> (SYNC_WORD[2 * i] == (!SYNC_WORD[2 * i - 1] && !SYNC_WORD[2 * i + 1])) != (i == 5)
  {}

  /** Every word is clocked after the word before it on the circle. */
  lemma CircularWord(items: seq<Item>, k: nat)
    requires Closed(items) && k < TRACK_WORDS
    ensures var t := Encode(items); t[k] == Mfm(t[Before(k)][15], items[k])
  {
    EncodeWord(items, k);
    if k == 0 {
      var t := Encode(items);
      EncodeWord(items, TRACK_WORDS - 1);
      LastBit(t[TRACK_WORDS - 2][15], ZERO);
    }
  }

  lemma LastBit(last: bool, bits: Word)
    ensures Mfm(last, Data(bits))[15] == bits[15]
    ensures Mfm(last, Data(bits))[1] == bits[1]
  {
    ClockedAt(last, DataBits(bits), 7);
    ClockedAt(last, DataBits(bits), 0);
  }

  /** The bit where the clock rule is broken, by one 0 too many. */
  ghost predicate MissingClock(items: seq<Item>, k: nat, i: int)
    requires |items| == TRACK_WORDS && k < TRACK_WORDS
  {
    (items[k] == Sync && i == 10) || (items[After(k)] == Sync && i == 26)
  }

  lemma WordRule(items: seq<Item>, t: Track, k: nat, i: nat)
    requires Closed(items) && t == Encode(items) && k < TRACK_WORDS && i < 8
    ensures t[k][2 * i] == (!(if i == 0 then t[Before(k)][15] else t[k][2 * i - 1]) && !t[k][2 * i + 1])
            || (items[k] == Sync && i == 5)
  {
    CircularWord(items, k);
    ClockInWord(t[Before(k)][15], items[k], i);
  }

  lemma ClockRule(items: seq<Item>, k: nat, i: nat)
    requires Closed(items) && k < TRACK_WORDS && i < 31 && i % 2 == 0
    ensures var t := Encode(items);
      Near(t, k, i) == (!Near(t, k, i - 1) && !Near(t, k, i + 1)) || MissingClock(items, k, i)
  {
    if i < 16 {
      WordRule(items, Encode(items), k, i / 2);
    } else {
      WordRule(items, Encode(items), After(k), i / 2 - 8);
    }
  }

  /** Around a missing clock bit there are 1 bits two places away on both sides. */
  lemma AroundMissing(items: seq<Item>, k: nat, i: nat)
    requires Closed(items) && k < TRACK_WORDS && i < 31 && MissingClock(items, k, i)
    ensures var t := Encode(items); !Near(t, k, i) && Near(t, k, i - 2) && Near(t, k, i + 2)
  {
    CircularWord(items, k);
    CircularWord(items, After(k));
  }

  /** No two 1 bits in a row. */
  lemma NoAdjacentOnes(items: seq<Item>, k: nat, i: nat)
    requires Closed(items) && k < TRACK_WORDS && i < 16
    ensures var t := Encode(items); !(Near(t, k, i) && Near(t, k, i + 1))
  {
    var c := if i % 2 == 0 then i else i + 1;
    ClockRule(items, k, c);
    if MissingClock(items, k, c) {
      AroundMissing(items, k, c);
    }
  }

  /** No four 0 bits in a row. */
  lemma NoFourZeros(items: seq<Item>, k: nat, i: nat)
    requires Closed(items) && k < TRACK_WORDS && i < 16
    ensures var t := Encode(items); Near(t, k, i) || Near(t, k, i + 1) || Near(t, k, i + 2) || Near(t, k, i + 3)
  {
    var c := if i % 2 == 0 then i + 2 else i + 1;
    ClockRule(items, k, c);
    if MissingClock(items, k, c) {
      AroundMissing(items, k, c);
    }
  }

  /** After a sync word the second bit is a 1. */
  lemma BitAfterSync(items: seq<Item>, k: nat)
    requires Closed(items) && k < TRACK_WORDS && items[k] == Sync
    ensures Encode(items)[After(k)][1]
  {
    CircularWord(items, After(k));
    if items[After(k)].Data? {
      LastBit(Encode(items)[k][15], items[After(k)].bits);
    }
  }

  /** The pattern has a clock bit missing at bit 10, and another at bit 3 if it is read one bit off. */
  lemma PatternMissesClock(items: seq<Item>, k: nat, i: nat)
    requires Closed(items) && k < TRACK_WORDS && i < 16
    requires SyncNear(Encode(items), k, i)
    ensures MissingClock(items, k, if i % 2 == 0 then i + 10 else i + 3)
  {
    hide Near;
    var t := Encode(items);
    var c: nat := if i % 2 == 0 then 10 else 3;
    assert Near(t, k, i + (c - 1)) == SYNC_WORD[c - 1];
    assert Near(t, k, i + c) == SYNC_WORD[c];
    assert Near(t, k, i + (c + 1)) == SYNC_WORD[c + 1];
    ClockRule(items, k, i + c);
  }

  /** The sync pattern is at bit i of word k only if the word is a sync word and i is 0. */
  lemma SyncOnlyAtSync(items: seq<Item>, k: nat, i: nat)
    requires Closed(items) && k < TRACK_WORDS && i < 16
    requires SyncNear(Encode(items), k, i)
    ensures i == 0 && items[k] == Sync
  {
    PatternMissesClock(items, k, i);
    if i % 2 != 0 {
      assert !Near(Encode(items), k, i + 10) by {
        assert Near(Encode(items), k, i + 10) == SYNC_WORD[10];
      }
      BitAfterSync(items, k);
      assert false;
    }
  }

  // ----- where the items of a track are

  predicate AllOf<T>(xs: seq<seq<T>>, size: nat) { forall i | 0 <= i < |xs| :: |xs[i]| == size }

  lemma {:induction false} JoinedLength<T>(xs: seq<seq<T>>, size: nat)
    requires AllOf(xs, size)
    ensures |Join(xs)| == size * |xs|
  {
    if xs != [] {
      var n := |xs| - 1;
      JoinedLength(xs[..n], size);
      assert size * |xs| == size * n + size;
    }
  }

  /** Element r of piece k. */
  lemma {:induction false} JoinAt<T>(xs: seq<seq<T>>, size: nat, k: nat, r: nat)
    requires k < |xs| && r < size && AllOf(xs, size)
    ensures |Join(xs)| == size * |xs| && 0 <= size * k + r < |Join(xs)| && Join(xs)[size * k + r] == xs[k][r]
  {
    JoinedLength(xs, size);
    InPiece(size, k, |xs|, r);
    var n := |xs| - 1;
    JoinedLength(xs[..n], size);
    if k < n {
      JoinAt(xs[..n], size, k, r);
    }
  }

  lemma InPiece(size: nat, k: nat, n: nat, r: nat)
    requires k < n && r < size
    ensures 0 <= size * k + r < size * n
  {
    MultipleBounds(n - k, size);
    assert size * n == size * k + (n - k) * size;
  }

  lemma SectorAt(img: Image, track: nat, s: nat, r: nat)
    requires track < TRACKS && s < SECTORS_PER_TRACK && r < SECTOR_WORDS
    ensures TrackItems(img, track)[SECTOR_WORDS * s + r] == SectorItems(img, track, s)[r]
  {
    JoinAt(Sectors(img, track), SECTOR_WORDS, s, r);
  }

  lemma {:induction false} HalvesAreData(longs: seq<Long>, odd: bool)
    ensures forall i | 0 <= i < 2 * |longs| :: HalvesOf(longs, odd)[i].Data?
  {
    if longs != [] {
      HalvesAreData(longs[..|longs| - 1], odd);
    }
  }

  lemma SectorSyncs(img: Image, track: nat, s: nat, r: nat)
    requires track < TRACKS && s < SECTORS_PER_TRACK && r < SECTOR_WORDS
    ensures SectorItems(img, track, s)[r] == Sync <==> r in {2, 3}
  {
    var longs := Longs(SectorData(img, track, s));
    HalvesAreData(longs, true);
    HalvesAreData(longs, false);
    assert r >= 28 ==> SectorItems(img, track, s)[r] == BodyItems(longs)[r - 28];
  }

  predicate IsSyncWord(k: nat) {
    k < SECTORS_PER_TRACK * SECTOR_WORDS && k % SECTOR_WORDS in {2, 3}
  }

  lemma TrackSyncs(img: Image, track: nat, k: nat)
    requires track < TRACKS && k < TRACK_WORDS
    ensures TrackItems(img, track)[k] == Sync <==> IsSyncWord(k)
  {
    if k < SECTORS_PER_TRACK * SECTOR_WORDS {
      var s, r := k / SECTOR_WORDS, k % SECTOR_WORDS;
      SectorAt(img, track, s, r);
      SectorSyncs(img, track, s, r);
    } else {
      AfterSectors(img, track, k);
    }
  }

  lemma AfterSectors(img: Image, track: nat, k: nat)
    requires track < TRACKS && SECTORS_PER_TRACK * SECTOR_WORDS <= k < TRACK_WORDS
    ensures TrackItems(img, track)[k] == Data(ZERO)
  {
    JoinAt(Sectors(img, track), SECTOR_WORDS, 0, 0);
  }

  /** The long after the sync words starts with $FF. */
  lemma AfterSync(img: Image, track: nat, s: nat)
    requires track < TRACKS && s < SECTORS_PER_TRACK
    ensures var item := TrackItems(img, track)[SECTOR_WORDS * s + 4]; item.Data? && item.bits[1]
  {
    hide TrackItems, HeaderItems, BodyItems, Info, OddBits;
    SectorAt(img, track, s, 4);
    InfoItem(track, s);
    InfoStarts(track, s);
    assert SectorItems(img, track, s)[4] == HeaderItems(track, s)[4];
  }

  lemma InfoItem(track: nat, s: nat)
    requires s < SECTORS_PER_TRACK
    ensures HeaderItems(track, s)[4] == Data(OddBits(Info(track, s))[..16])
  {
    hide Info, OddBits, EvenBits, HeaderChecksum;
  }

  lemma InfoStarts(track: nat, s: nat)
    requires s < SECTORS_PER_TRACK
    ensures OddBits(Info(track, s))[1]
  {
    assert Info(track, s)[0] == FF[0];
  }

  lemma TrackClosed(img: Image, track: nat)
    requires track < TRACKS
    ensures Closed(TrackItems(img, track))
  {
    var items := TrackItems(img, track);
    AfterSectors(img, track, TRACK_WORDS - 1);
    forall k | 0 <= k < TRACK_WORDS - 1 && items[k] == Sync
      ensures items[k + 1] == Sync || (items[k + 1].Data? && items[k + 1].bits[1])
    {
      TrackSyncs(img, track, k);
      var s := k / SECTOR_WORDS;
      if k % SECTOR_WORDS == 2 {
        TrackSyncs(img, track, k + 1);
      } else {
        AfterSync(img, track, s);
      }
    }
  }

  // ----- the stream

  /** Bit p of the stream that passes the head, revolution after revolution. */
  predicate StreamBit(t: Track, p: int) {
    t[p / 16 % TRACK_WORDS][p % 16]
  }

  /** The word of the track that bit p belongs to. */
  function WordOf(p: int): (k: nat)
    ensures k < TRACK_WORDS
  {
    p / 16 % TRACK_WORDS
  }

  lemma StreamNear(t: Track, p: int, j: nat)
    requires p % 16 + j < 32
    ensures StreamBit(t, p + j) == Near(t, WordOf(p), p % 16 + j)
  {
    var k, i := p / 16, p % 16 + j;
    if i < 16 {
      assert (p + j) / 16 == k && (p + j) % 16 == i;
    } else {
      assert (p + j) / 16 == k + 1 && (p + j) % 16 == i - 16;
      assert (k + 1) % TRACK_WORDS == After(k % TRACK_WORDS);
    }
  }

  /** The sync pattern starts at bit q. */
  ghost predicate SyncAt(t: Track, q: int) {
    forall j: nat | j < 16 :: StreamBit(t, q + j) == SYNC_WORD[j]
  }

  /** An encoded track is valid MFM all around: no two 1 bits in a row... */
  lemma ValidMfmOnes(img: Image, track: nat, p: int)
    requires track < TRACKS
    ensures var t := EncodedTrack(img, track); !(StreamBit(t, p) && StreamBit(t, p + 1))
  {
    var t := EncodedTrack(img, track);
    TrackClosed(img, track);
    StreamNear(t, p, 0);
    StreamNear(t, p, 1);
    NoAdjacentOnes(TrackItems(img, track), WordOf(p), p % 16);
  }

  /** ... and never four 0 bits in a row. */
  lemma ValidMfmZeros(img: Image, track: nat, p: int)
    requires track < TRACKS
    ensures var t := EncodedTrack(img, track);
      StreamBit(t, p) || StreamBit(t, p + 1) || StreamBit(t, p + 2) || StreamBit(t, p + 3)
  {
    hide Closed, TrackItems, Near, Encode, StreamBit;
    var t := EncodedTrack(img, track);
    TrackClosed(img, track);
    StreamNear(t, p, 0);
    StreamNear(t, p, 1);
    StreamNear(t, p, 2);
    StreamNear(t, p, 3);
    NoFourZeros(TrackItems(img, track), WordOf(p), p % 16);
  }

  /** The sync pattern starts i bits after the start of word k. */
  ghost predicate SyncNear(t: Track, k: nat, i: nat)
    requires k < TRACK_WORDS && i < 16
  {
    forall j: nat | j < 16 :: Near(t, k, i + j) == SYNC_WORD[j]
  }

  lemma SyncAtNear(t: Track, q: int)
    ensures SyncAt(t, q) <==> SyncNear(t, WordOf(q), q % 16)
  {
    var k, i := WordOf(q), q % 16;
    if SyncAt(t, q) {
      forall j: nat | j < 16
        ensures Near(t, k, i + j) == SYNC_WORD[j]
      {
        StreamNear(t, q, j);
        assert StreamBit(t, q + j) == SYNC_WORD[j];
      }
    }
    if SyncNear(t, k, i) {
      forall j: nat | j < 16
        ensures StreamBit(t, q + j) == SYNC_WORD[j]
      {
        StreamNear(t, q, j);
        assert Near(t, k, i + j) == SYNC_WORD[j];
      }
    }
  }

  /** Bit i of word k on: the sync pattern is there exactly if i is 0 and k is a sync word. */
  lemma SyncNearPositions(img: Image, track: nat, k: nat, i: nat)
    requires track < TRACKS && k < TRACK_WORDS && i < 16
    ensures SyncNear(EncodedTrack(img, track), k, i) <==> i == 0 && IsSyncWord(k)
  {
    var items := TrackItems(img, track);
    var t := EncodedTrack(img, track);
    TrackClosed(img, track);
    TrackSyncs(img, track, k);
    if SyncNear(t, k, i) {
      SyncOnlyAtSync(items, k, i);
    }
    if i == 0 && items[k] == Sync {
      EncodeWord(items, k);
    }
  }

  /** Tried at every bit offset, the sync pattern is found exactly at the sync words. */
  lemma SyncPositions(img: Image, track: nat, q: int)
    requires track < TRACKS
    ensures SyncAt(EncodedTrack(img, track), q) <==> q % 16 == 0 && IsSyncWord(WordOf(q))
  {
    SyncAtNear(EncodedTrack(img, track), q);
    SyncNearPositions(img, track, WordOf(q), q % 16);
  }

  /** There are 22 sync words. */
  lemma SyncCount()
    ensures |set k: nat | k < TRACK_WORDS && IsSyncWord(k)| == 22
  {
    var syncs := set k: nat | k < TRACK_WORDS && IsSyncWord(k);
    CountSyncs(SECTORS_PER_TRACK);
    assert syncs == set k: nat | k < SECTOR_WORDS * SECTORS_PER_TRACK && IsSyncWord(k);
  }

  lemma {:induction false} CountSyncs(n: nat)
    requires n <= SECTORS_PER_TRACK
    ensures |set k: nat | k < SECTOR_WORDS * n && IsSyncWord(k)| == 2 * n
  {
    var syncs := set k: nat | k < SECTOR_WORDS * n && IsSyncWord(k);
    if n == 0 {
      assert syncs == {};
    } else {
      CountSyncs(n - 1);
      var before := set k: nat | k < SECTOR_WORDS * (n - 1) && IsSyncWord(k);
      var a, b := SECTOR_WORDS * (n - 1) + 2, SECTOR_WORDS * (n - 1) + 3;
      forall k: nat
        ensures k in syncs <==> k in before + {a, b}
      {
        SyncsNext(n, k);
      }
      assert syncs == before + {a, b};
    }
  }

  lemma SyncsNext(n: nat, k: nat)
    requires 0 < n <= SECTORS_PER_TRACK
    ensures var end := SECTOR_WORDS * (n - 1);
      (k < SECTOR_WORDS * n && IsSyncWord(k)) <==> (k < end && IsSyncWord(k)) || k == end + 2 || k == end + 3
  {
    if SECTOR_WORDS * (n - 1) <= k < SECTOR_WORDS * n {
      DivMod(k, SECTOR_WORDS, n - 1, k - SECTOR_WORDS * (n - 1));
    }
  }
}
