/** Decoding an encoded track, the way trackdisk.device does, gives back the sectors. */
module MfmDecode {
  import opened Bits
  import opened Adf
  import opened MfmTrack

  function MfmLong(words: seq<Word>, k: nat): Long
    requires k + 2 <= |words|
  {
    Cat(words[k], words[k + 1])
  }

  function Cat(a: Bits, b: Bits): Bits { a + b }

  /** A long from its two halves of two MFM words each, odd bits first. */
  function DecodeLong(words: seq<Word>, odd: nat, even: nat): Long
    requires odd + 2 <= |words| && even + 2 <= |words|
  {
    Or(Shl(And(MfmLong(words, odd), DataMask(32)), 1), And(MfmLong(words, even), DataMask(32)))
  }

  /** XOR of the longs of an MFM buffer. */
  function XorMfm(words: seq<Word>): Long {
    if |words| < 2 then Zeros(32)
    else
      var n := |words| - 2;
      Xor(XorMfm(words[..n]), MfmLong(words, n))
  }

  /** Equal at the data bit positions. */
  ghost predicate SameData(a: Bits, b: Bits) {
    |a| == |b| && forall i | 0 <= i < |a| && i % 2 == 1 :: a[i] == b[i]
  }

  // ----- one long

  /** Whatever the clock bits, the data bits stay. */
  lemma MfmKeepsData(last: bool, bits: Word)
    ensures SameData(Mfm(last, Data(bits)), bits)
  {
    hide Clocked;
    var w := Mfm(last, Data(bits));
    forall i | 0 <= i < 16 && i % 2 == 1
      ensures w[i] == bits[i]
    {
      ClockedAt(last, DataBits(bits), i / 2);
      DataBit(bits, i / 2);
    }
  }

  lemma DataBit(w: Word, i: nat)
    requires i < 8
    ensures DataBits(w)[i] == w[2 * i + 1]
  {}

  lemma EncodedLong(items: seq<Item>, k: nat, l: Long)
    requires k + 2 <= |items| && items[k] == Halves(l)[0] && items[k + 1] == Halves(l)[1]
    ensures SameData(MfmLong(Encode(items), k), l)
  {
    hide Mfm, Encode, SameData;
    var out := Encode(items);
    EncodeWord(items, k);
    EncodeWord(items, k + 1);
    MfmKeepsData(k > 0 && out[k - 1][15], l[..16]);
    MfmKeepsData(out[k][15], l[16..]);
    JoinData(out[k], out[k + 1], l);
  }

  lemma JoinData(a: Word, b: Word, l: Long)
    requires SameData(a, l[..16]) && SameData(b, l[16..])
    ensures SameData(Cat(a, b), l)
  {
    forall i | 0 <= i < 32 && i % 2 == 1
      ensures Cat(a, b)[i] == l[i]
    {
      if i < 16 {
        assert a[i] == l[..16][i];
      } else {
        assert b[i - 16] == l[16..][i - 16];
      }
    }
  }

  lemma DecodeBits(odd: Long, even: Long, v: Long)
    requires SameData(odd, OddBits(v)) && SameData(even, EvenBits(v))
    ensures Or(Shl(And(odd, DataMask(32)), 1), And(even, DataMask(32))) == v
  {
    forall i | 0 <= i < 32 && i % 2 == 1
      ensures odd[i] == v[i - 1] && even[i] == v[i]
    {
      assert OddBits(v)[i] == v[i - 1];
      assert EvenBits(v)[i] == v[i];
    }
    var high, low := And(odd, DataMask(32)), And(even, DataMask(32));
    forall i | 0 <= i < 32
      ensures Or(Shl(high, 1), low)[i] == v[i]
    {
      if i % 2 == 0 {
        assert odd[i + 1] == v[i];
      }
    }
  }

  // ----- checksums

  function XorList(ls: seq<Long>): Long {
    if ls == [] then Zeros(32)
    else
      var n := |ls| - 1;
      Xor(XorList(ls[..n]), ls[n])
  }

  /** The odd (or even) bits of each long. */
  function HalfLongs(longs: seq<Long>, odd: bool): (ls: seq<Long>)
    ensures |ls| == |longs|
  {
    if longs == [] then []
    else
      var n := |longs| - 1;
      HalfLongs(longs[..n], odd) + [if odd then OddBits(longs[n]) else EvenBits(longs[n])]
  }

  lemma XorSwap(a: Long, b: Long, c: Long, d: Long)
    ensures Xor(Xor(a, b), Xor(c, d)) == Xor(Xor(a, c), Xor(b, d))
  {}

  lemma XorAssoc(a: Long, b: Long, c: Long)
    ensures Xor(Xor(a, b), c) == Xor(a, Xor(b, c))
  {}

  lemma XorZero(a: Long)
    ensures Xor(a, Zeros(32)) == a
  {}

  /** The checksum of the encoder pairs the odd and even bits of each long; the stored order
      has all odd bits first. */
  lemma {:induction false} XorAllHalves(longs: seq<Long>)
    ensures XorAll(longs) == Xor(XorList(HalfLongs(longs, true)), XorList(HalfLongs(longs, false)))
  {
    if longs == [] {
      XorZero(Zeros(32));
    } else {
      var n := |longs| - 1;
      XorAllHalves(longs[..n]);
      var odd, even := HalfLongs(longs, true), HalfLongs(longs, false);
      assert odd[..n] == HalfLongs(longs[..n], true) && even[..n] == HalfLongs(longs[..n], false);
      XorSwap(XorList(odd[..n]), XorList(even[..n]), odd[n], even[n]);
    }
  }

  lemma {:induction false} XorListConcat(a: seq<Long>, b: seq<Long>)
    ensures XorList(a + b) == Xor(XorList(a), XorList(b))
  {
    if b == [] {
      assert a + b == a;
      XorZero(XorList(a));
    } else {
      var n := |b| - 1;
      XorListConcat(a, b[..n]);
      assert (a + b)[..|a + b| - 1] == a + b[..n];
      XorAssoc(XorList(a), XorList(b[..n]), b[n]);
    }
  }

  lemma SameXor(a: Long, b: Long, c: Long, d: Long)
    requires SameData(a, c) && SameData(b, d)
    ensures SameData(Xor(a, b), Xor(c, d))
  {}

  ghost predicate CarriesAt(words: seq<Word>, ls: seq<Long>, i: nat) {
    i < |ls| && |words| == 2 * |ls| && SameData(MfmLong(words, 2 * i), ls[i])
  }

  /** An MFM buffer that holds these longs has their XOR as its XOR. */
  lemma {:induction false} XorCarried(words: seq<Word>, ls: seq<Long>)
    requires |words| == 2 * |ls|
    requires forall i: nat {:trigger CarriesAt(words, ls, i)} | i < |ls| :: CarriesAt(words, ls, i)
    ensures SameData(XorMfm(words), XorList(ls))
  {
    if ls != [] {
      var n := |ls| - 1;
      forall i: nat | i < n
        ensures CarriesAt(words[..2 * n], ls[..n], i)
      {
        assert CarriesAt(words, ls, i);
      }
      XorCarried(words[..2 * n], ls[..n]);
      assert CarriesAt(words, ls, n);
      SameXor(XorMfm(words[..2 * n]), MfmLong(words, 2 * n), XorList(ls[..n]), ls[n]);
    }
  }

  /** A stored checksum is verified by XOR and masking. */
  lemma Masked(a: Long, b: Long)
    requires SameData(a, b)
    ensures And(a, DataMask(32)) == And(b, DataMask(32))
  {}

  // ----- a sector of a track

  /** The words of sector s after its sync words. */
  function SectorWords(img: Image, track: nat, s: nat): (words: seq<Word>)
    requires track < TRACKS && s < SECTORS_PER_TRACK
    ensures |words| == SECTOR_WORDS - 4
  {
    EncodedTrack(img, track)[SECTOR_WORDS * s + 4..SECTOR_WORDS * (s + 1)]
  }

  lemma SectorLong(img: Image, track: nat, s: nat, r: nat, l: Long)
    requires track < TRACKS && s < SECTORS_PER_TRACK && r + 2 <= SECTOR_WORDS - 4
    requires var items := SectorItems(img, track, s); items[r + 4] == Halves(l)[0] && items[r + 5] == Halves(l)[1]
    ensures SameData(MfmLong(SectorWords(img, track, s), r), l)
  {
    hide TrackItems, SectorItems, Encode, SameData;
    SectorAt(img, track, s, r + 4);
    SectorAt(img, track, s, r + 5);
    EncodedLong(TrackItems(img, track), SECTOR_WORDS * s + r + 4, l);
  }

  lemma {:induction false} HalvesAt(longs: seq<Long>, odd: bool, i: nat)
    requires i < |longs|
    ensures var l := if odd then OddBits(longs[i]) else EvenBits(longs[i]);
      HalvesOf(longs, odd)[2 * i] == Halves(l)[0] && HalvesOf(longs, odd)[2 * i + 1] == Halves(l)[1]
  {
    hide OddBits, EvenBits;
    var n := |longs| - 1;
    if i < n {
      HalvesAt(longs[..n], odd, i);
    }
  }

  /** Where the odd and the even bits of data long i are. */
  lemma DataLong(img: Image, track: nat, s: nat, i: nat)
    requires track < TRACKS && s < SECTORS_PER_TRACK && i < 128
    ensures var words, v := SectorWords(img, track, s), Longs(SectorData(img, track, s))[i];
      SameData(MfmLong(words, 28 + 2 * i), OddBits(v)) && SameData(MfmLong(words, 284 + 2 * i), EvenBits(v))
  {
    var longs := Longs(SectorData(img, track, s));
    hide OddBits, EvenBits, SectorData, Longs, SameData, HalvesOf;
    HalvesAt(longs, true, i);
    HalvesAt(longs, false, i);
    BodyAt(img, track, s, longs, 2 * i);
    BodyAt(img, track, s, longs, 2 * i + 1);
    SectorLong(img, track, s, 28 + 2 * i, OddBits(longs[i]));
    SectorLong(img, track, s, 284 + 2 * i, EvenBits(longs[i]));
  }

  lemma BodyAt(img: Image, track: nat, s: nat, longs: seq<Long>, j: nat)
    requires track < TRACKS && s < SECTORS_PER_TRACK && j < 256
    requires longs == Longs(SectorData(img, track, s))
    ensures var items := SectorItems(img, track, s);
      items[32 + j] == HalvesOf(longs, true)[j] && items[288 + j] == HalvesOf(longs, false)[j]
  {
    var items := SectorItems(img, track, s);
    assert items[32 + j] == BodyItems(longs)[4 + j];
    assert items[288 + j] == BodyItems(longs)[260 + j];
  }

  /** A long stands at item r: odd bits, then even bits. */
  ghost predicate Placed(items: seq<Item>, r: nat, v: Long) {
    && r + 4 <= |items|
    && items[r] == Halves(OddBits(v))[0] && items[r + 1] == Halves(OddBits(v))[1]
    && items[r + 2] == Halves(EvenBits(v))[0] && items[r + 3] == Halves(EvenBits(v))[1]
  }

  /** A long of the header, stored as four words from word r on. */
  lemma HeaderLong(img: Image, track: nat, s: nat, r: nat, v: Long)
    requires track < TRACKS && s < SECTORS_PER_TRACK && r + 4 <= SECTOR_WORDS - 4
    requires Placed(SectorItems(img, track, s), r + 4, v)
    ensures var words := SectorWords(img, track, s);
      && SameData(MfmLong(words, r), OddBits(v)) && SameData(MfmLong(words, r + 2), EvenBits(v))
      && DecodeLong(words, r, r + 2) == v
  {
    var items := SectorItems(img, track, s);
    SectorLong(img, track, s, r, OddBits(v));
    SectorLong(img, track, s, r + 2, EvenBits(v));
    var words := SectorWords(img, track, s);
    DecodeBits(MfmLong(words, r), MfmLong(words, r + 2), v);
  }

  // ----- what a loader checks

  /** Byte b of the data that the 540 words after a sector's sync words hold. */
  function DecodedByte(words: seq<Word>, b: nat): Byte
    requires |words| == SECTOR_WORDS - 4 && b < SECTOR_SIZE
  {
    DecodeLong(words, 28 + 2 * (b / 4), 284 + 2 * (b / 4))[8 * (b % 4)..8 * (b % 4) + 8]
  }

  function DecodedSector(words: seq<Word>): (data: seq<Byte>)
    requires |words| == SECTOR_WORDS - 4
    ensures |data| == SECTOR_SIZE
  {
    seq(SECTOR_SIZE, b requires 0 <= b < SECTOR_SIZE => DecodedByte(words, b))
  }

  /** The 540 words after a sector's sync words read back as that sector: the info long names the format, the track,
      the sector and the sectors up to the gap, both checksums match what they cover, and the bytes are those of the
      image. */
  ghost predicate SectorReads(words: seq<Word>, img: Image, track: nat, s: nat)
    requires track < TRACKS && s < SECTORS_PER_TRACK
  {
    && |words| == SECTOR_WORDS - 4
    && (var info := DecodeLong(words, 0, 2);
        && Val(info[0..8]) == 0xFF && Val(info[8..16]) == track
        && Val(info[16..24]) == s && Val(info[24..32]) == 11 - s)
    && And(XorMfm(words[..20]), DataMask(32)) == DecodeLong(words, 20, 22)
    && And(XorMfm(words[28..]), DataMask(32)) == DecodeLong(words, 24, 26)
    && forall b: nat | b < 512 :: DecodedByte(words, b) == img[512 * (11 * track + s) + b]
  }

  /** The longs of the sector come back. */
  ghost predicate LongsRead(words: seq<Word>, img: Image, track: nat, s: nat)
    requires track < TRACKS && s < SECTORS_PER_TRACK
  {
    && |words| == SECTOR_WORDS - 4
    && DecodeLong(words, 0, 2) == Info(track, s)
    && And(XorMfm(words[..20]), DataMask(32)) == DecodeLong(words, 20, 22)
    && And(XorMfm(words[28..]), DataMask(32)) == DecodeLong(words, 24, 26)
    && forall i | 0 <= i < 128 :: DecodeLong(words, 28 + 2 * i, 284 + 2 * i) == ReadLong(SectorData(img, track, s), i)
  }

  lemma HeaderPlaces(img: Image, track: nat, s: nat)
    requires track < TRACKS && s < SECTORS_PER_TRACK
    ensures var items := SectorItems(img, track, s);
      && Placed(items, 4, Info(track, s))
      && Placed(items, 24, HeaderChecksum(track, s))
      && Placed(items, 28, DataChecksum(Longs(SectorData(img, track, s))))
      && (forall r | 8 <= r < 24 :: items[r] == Data(ZERO))
  {
    hide Info, HeaderChecksum, DataChecksum, SectorData, Longs, OddBits, EvenBits, HalvesOf;
    var header, body := HeaderItems(track, s), BodyItems(Longs(SectorData(img, track, s)));
    assert SectorItems(img, track, s) == header + body;
    assert forall r | 0 <= r < 28 :: SectorItems(img, track, s)[r] == header[r];
    assert forall i | 0 <= i < 4 :: SectorItems(img, track, s)[28 + i] == body[i];
    assert forall i | 0 <= i < 4 :: header[4 + i] == Split(Info(track, s))[i];
    assert forall i | 0 <= i < 4 :: header[24 + i] == Split(HeaderChecksum(track, s))[i];
  }

  lemma {:induction false} XorZeros(n: nat)
    ensures XorList(seq(n, _ => Zeros(32))) == Zeros(32)
  {
    var zeros := seq(n, _ => Zeros(32));
    if n > 0 {
      XorZeros(n - 1);
      assert zeros[..n - 1] == seq(n - 1, _ => Zeros(32));
      XorZero(Zeros(32));
    }
  }

  lemma HeaderXorList(o: Long, e: Long, zeros: seq<Long>)
    requires XorList(zeros) == Zeros(32)
    ensures XorList([o, e] + zeros) == Xor(o, e)
  {
    XorListConcat([o, e], zeros);
    assert [o, e][..1] == [o] && [o][..0] == [];
    assert XorList([o]) == Xor(Zeros(32), o) == o;
    XorZero(Xor(o, e));
  }

  /** The XOR over the info and label longs, masked, is the header checksum. */
  lemma HeaderXor(img: Image, track: nat, s: nat)
    requires track < TRACKS && s < SECTORS_PER_TRACK
    ensures And(XorMfm(SectorWords(img, track, s)[..20]), DataMask(32)) == HeaderChecksum(track, s)
  {
    hide Info, OddBits, EvenBits, SectorWords;
    var words, info := SectorWords(img, track, s)[..20], Info(track, s);
    var zeros := seq(8, _ => Zeros(32));
    var ls := [OddBits(info), EvenBits(info)] + zeros;
    forall i: nat | i < 10
      ensures CarriesAt(words, ls, i)
    {
      HeaderCarries(img, track, s, i);
    }
    XorCarried(words, ls);
    XorZeros(8);
    HeaderXorList(OddBits(info), EvenBits(info), zeros);
    Masked(XorMfm(words), Xor(OddBits(info), EvenBits(info)));
  }

  lemma HeaderCarries(img: Image, track: nat, s: nat, i: nat)
    requires track < TRACKS && s < SECTORS_PER_TRACK && i < 10
    ensures var info := Info(track, s);
      var l := if i == 0 then OddBits(info) else if i == 1 then EvenBits(info) else Zeros(32);
      SameData(MfmLong(SectorWords(img, track, s), 2 * i), l)
  {
    if i < 2 {
      HeaderPlaces(img, track, s);
      HeaderLong(img, track, s, 0, Info(track, s));
    } else {
      LabelLong(img, track, s, i);
    }
  }

  lemma LabelLong(img: Image, track: nat, s: nat, i: nat)
    requires track < TRACKS && s < SECTORS_PER_TRACK && 2 <= i < 10
    ensures SameData(MfmLong(SectorWords(img, track, s), 2 * i), Zeros(32))
  {
    HeaderPlaces(img, track, s);
    assert Zeros(32)[..16] == ZERO && Zeros(32)[16..] == ZERO;
    SectorLong(img, track, s, 2 * i, Zeros(32));
  }

  lemma {:induction false} HalfLongAt(longs: seq<Long>, odd: bool, i: nat)
    requires i < |longs|
    ensures HalfLongs(longs, odd)[i] == if odd then OddBits(longs[i]) else EvenBits(longs[i])
  {
    if i < |longs| - 1 {
      HalfLongAt(longs[..|longs| - 1], odd, i);
    }
  }

  lemma {:induction false} DataCarries(img: Image, track: nat, s: nat, longs: seq<Long>, odd: bool, i: nat)
    requires track < TRACKS && s < SECTORS_PER_TRACK && i < 128
    requires longs == Longs(SectorData(img, track, s))
    ensures SameData(MfmLong(SectorWords(img, track, s), (if odd then 28 else 284) + 2 * i), HalfLongs(longs, odd)[i])
  {
    assert |longs| == 128;
    hide MfmLong, SectorWords, SectorData, SameData, Longs, HalfLongs, OddBits, EvenBits;
    DataLong(img, track, s, i);
    HalfLongAt(longs, odd, i);
  }

  lemma {:induction false} DataCarriesAt(img: Image, track: nat, s: nat, longs: seq<Long>, i: nat)
    requires track < TRACKS && s < SECTORS_PER_TRACK && i < 256
    requires longs == Longs(SectorData(img, track, s)) && |longs| == 128
    ensures CarriesAt(SectorWords(img, track, s)[28..], HalfLongs(longs, true) + HalfLongs(longs, false), i)
  {
    hide CarriesAt, SectorWords, SectorData, SameData, Longs, HalfLongs, MfmLong;
    if i < 128 {
      DataCarries(img, track, s, longs, true, i);
    } else {
      DataCarries(img, track, s, longs, false, i - 128);
    }
    Carried(SectorWords(img, track, s), HalfLongs(longs, true), HalfLongs(longs, false), i);
  }

  lemma Carried(words: seq<Word>, odd: seq<Long>, even: seq<Long>, i: nat)
    requires |words| == 540 && |odd| == 128 && |even| == 128 && i < 256
    requires SameData(MfmLong(words, 28 + 2 * i), if i < 128 then odd[i] else even[i - 128])
    ensures CarriesAt(words[28..], odd + even, i)
  {
    hide SameData, MfmLong;
    MfmLongFrom(words, 28, 2 * i);
  }

  lemma MfmLongFrom(words: seq<Word>, from: nat, k: nat)
    requires from + k + 2 <= |words|
    ensures MfmLong(words[from..], k) == MfmLong(words, from + k)
  {}

  /** The XOR over the data longs, masked, is the data checksum. */
  lemma DataXor(img: Image, track: nat, s: nat)
    requires track < TRACKS && s < SECTORS_PER_TRACK
    ensures And(XorMfm(SectorWords(img, track, s)[28..]), DataMask(32))
            == DataChecksum(Longs(SectorData(img, track, s)))
  {
    var words := SectorWords(img, track, s)[28..];
    var longs := Longs(SectorData(img, track, s));
    assert |longs| == 128;
    hide SectorWords, XorMfm, SectorData, Longs, HalfLongs, XorList, CarriesAt, XorAll;
    var odd, even := HalfLongs(longs, true), HalfLongs(longs, false);
    forall i: nat | i < 256
      ensures CarriesAt(words, odd + even, i)
    {
      DataCarriesAt(img, track, s, longs, i);
    }
    XorCarried(words, odd + even);
    XorListConcat(odd, even);
    XorAllHalves(longs);
    Masked(XorMfm(words), XorAll(longs));
  }

  lemma HeaderDecodes(img: Image, track: nat, s: nat)
    requires track < TRACKS && s < SECTORS_PER_TRACK
    ensures var words := SectorWords(img, track, s);
      && DecodeLong(words, 0, 2) == Info(track, s)
      && DecodeLong(words, 20, 22) == HeaderChecksum(track, s)
      && DecodeLong(words, 24, 26) == DataChecksum(Longs(SectorData(img, track, s)))
  {
    HeaderPlaces(img, track, s);
    HeaderLong(img, track, s, 0, Info(track, s));
    HeaderLong(img, track, s, 20, HeaderChecksum(track, s));
    HeaderLong(img, track, s, 24, DataChecksum(Longs(SectorData(img, track, s))));
  }

  lemma DataDecodes(img: Image, track: nat, s: nat, i: nat)
    requires track < TRACKS && s < SECTORS_PER_TRACK && i < 128
    ensures DecodeLong(SectorWords(img, track, s), 28 + 2 * i, 284 + 2 * i) == ReadLong(SectorData(img, track, s), i)
  {
    var words := SectorWords(img, track, s);
    DataLong(img, track, s, i);
    DecodeBits(MfmLong(words, 28 + 2 * i), MfmLong(words, 284 + 2 * i), Longs(SectorData(img, track, s))[i]);
  }

  lemma LongsDecode(img: Image, track: nat, s: nat)
    requires track < TRACKS && s < SECTORS_PER_TRACK
    ensures LongsRead(SectorWords(img, track, s), img, track, s)
  {
    HeaderDecodes(img, track, s);
    HeaderXor(img, track, s);
    DataXor(img, track, s);
    forall i | 0 <= i < 128
      ensures DecodeLong(SectorWords(img, track, s), 28 + 2 * i, 284 + 2 * i)
           == ReadLong(SectorData(img, track, s), i)
    {
      DataDecodes(img, track, s, i);
    }
  }

  /** Sector s of a track is sector 11 * track + s of the disk, 512 bytes each. */
  lemma SectorPlace(img: Image, track: nat, s: nat, b: nat)
    requires track < TRACKS && s < SECTORS_PER_TRACK && b < 512
    ensures SectorData(img, track, s)[b] == img[512 * (11 * track + s) + b]
  {}

  lemma InfoFields(track: nat, s: nat)
    requires track < TRACKS && s < SECTORS_PER_TRACK
    ensures var info := Info(track, s);
      && Val(info[0..8]) == 0xFF && Val(info[8..16]) == track
      && Val(info[16..24]) == s && Val(info[24..32]) == SECTORS_PER_TRACK - s
  {
    var info := Info(track, s);
    assert info[0..8] == FF && info[8..16] == ToBits(track, 8);
    assert info[16..24] == ToBits(s, 8) && info[24..32] == ToBits(SECTORS_PER_TRACK - s, 8);
    assert Pow2(8) == 256;
    assert ToBits(0xFF, 8) == FF;
    ValToBits(0xFF, 8);
    ValToBits(track, 8);
    ValToBits(s, 8);
    ValToBits(SECTORS_PER_TRACK - s, 8);
  }

  lemma ByteOfLong(data: seq<Byte>, b: nat)
    requires |data| == SECTOR_SIZE && b < SECTOR_SIZE
    ensures ReadLong(data, b / 4)[8 * (b % 4)..8 * (b % 4) + 8] == data[b]
  {}

  /** Longs that come back are the sector of the image. */
  lemma ReadsMean(words: seq<Word>, img: Image, track: nat, s: nat)
    requires track < TRACKS && s < SECTORS_PER_TRACK && LongsRead(words, img, track, s)
    ensures SectorReads(words, img, track, s)
  {
    hide Info, XorMfm, DataMask, ReadLong, DecodeLong, DecodedByte, SectorData, Val;
    InfoFields(track, s);
    forall b: nat | b < 512
      ensures DecodedByte(words, b) == img[512 * (11 * track + s) + b]
    {
      assert DecodeLong(words, 28 + 2 * (b / 4), 284 + 2 * (b / 4)) == ReadLong(SectorData(img, track, s), b / 4);
      ByteRead(words, img, track, s, b);
    }
  }

  lemma ByteRead(words: seq<Word>, img: Image, track: nat, s: nat, b: nat)
    requires |words| == 540 && track < TRACKS && s < SECTORS_PER_TRACK && b < 512
    requires DecodeLong(words, 28 + 2 * (b / 4), 284 + 2 * (b / 4)) == ReadLong(SectorData(img, track, s), b / 4)
    ensures DecodedByte(words, b) == img[512 * (11 * track + s) + b]
  {
    hide ReadLong, DecodeLong, SectorData;
    ByteOfLong(SectorData(img, track, s), b);
    SectorPlace(img, track, s, b);
  }

  /** Decoding undoes encoding, for every disk content, track and sector. */
  lemma DecodesBack(img: Image, track: nat, s: nat)
    requires track < TRACKS && s < SECTORS_PER_TRACK
    ensures SectorReads(EncodedTrack(img, track)[544 * s + 4..544 * s + 544], img, track, s)
  {
    hide SectorReads, LongsRead, EncodedTrack;
    LongsDecode(img, track, s);
    ReadsMean(SectorWords(img, track, s), img, track, s);
  }

  // ----- the whole disk

  /** The data of the 1760 sectors of a disk, in order. */
  function DecodedDisk(parts: seq<seq<Word>>): seq<Byte>
    requires forall k | 0 <= k < |parts| :: |parts[k]| == SECTOR_WORDS - 4
  {
    Join(seq(|parts|, k requires 0 <= k < |parts| => DecodedSector(parts[k])))
  }

  /** One buffer for each sector, in the order of the disk: sectors 0 to 10 of track 0, then those of track 1... */
  ghost predicate DiskReads(parts: seq<seq<Word>>, img: Image) {
    && |parts| == 1760 && (forall k | 0 <= k < 1760 :: |parts[k]| == SECTOR_WORDS - 4)
    && forall k | 0 <= k < 1760 :: SectorReads(parts[k], img, k / 11, k % 11)
  }

  /** The sectors read back, joined in this order, are the image. */
  lemma ImageComesBack(img: Image, parts: seq<seq<Word>>)
    requires DiskReads(parts, img)
    ensures DecodedDisk(parts) == img
  {
    hide DecodedDisk, SectorReads;
    DiskSize(img, parts);
    forall i | 0 <= i < 901120
      ensures DecodedDisk(parts)[i] == img[i]
    {
      ImageByte(img, parts, i);
    }
  }

  lemma DiskSize(img: Image, parts: seq<seq<Word>>)
    requires DiskReads(parts, img)
    ensures |DecodedDisk(parts)| == 901120
  {
    hide SectorReads;
    JoinAt(seq(|parts|, j requires 0 <= j < |parts| => DecodedSector(parts[j])), 512, 0, 0);
  }

  lemma ImageByte(img: Image, parts: seq<seq<Word>>, i: nat)
    requires DiskReads(parts, img) && i < 901120
    ensures i < |DecodedDisk(parts)| && DecodedDisk(parts)[i] == img[i]
  {
    hide DecodedByte, DecodeLong, XorMfm, DataMask, Val, Join;
    var k, b := i / 512, i % 512;
    var sectors := seq(|parts|, j requires 0 <= j < |parts| => DecodedSector(parts[j]));
    JoinAt(sectors, 512, k, b);
    assert SectorReads(parts[k], img, k / 11, k % 11);
    assert 11 * (k / 11) + k % 11 == k;
  }

  /** Encoding all the tracks of a disk keeps every byte of it. */
  lemma DiskComesBack(img: Image)
    ensures DecodedDisk(seq(1760, k requires 0 <= k < 1760 =>
      EncodedTrack(img, k / 11)[544 * (k % 11) + 4..544 * (k % 11) + 544])) == img
  {
    hide SectorReads, DecodedDisk, EncodedTrack;
    var parts := seq(1760, k requires 0 <= k < 1760 =>
      EncodedTrack(img, k / 11)[544 * (k % 11) + 4..544 * (k % 11) + 544]);
    forall k | 0 <= k < 1760
      ensures SectorReads(parts[k], img, k / 11, k % 11)
    {
      DecodesBack(img, k / 11, k % 11);
    }
    ImageComesBack(img, parts);
  }
}
