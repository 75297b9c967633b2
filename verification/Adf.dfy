/** The AmigaDOS MFM track encoder (src/core/adf.cpp). */
module Adf {
  import opened Bits

  const TRACKS := 160
  const SECTORS_PER_TRACK := 11
  const SECTOR_SIZE := 512
  const SIZE := 901120
  const SECTOR_WORDS := 544
  const TRACK_WORDS := 6250

  /** $4489. */
  const SYNC_WORD: Word :=
    [false, true, false, false, false, true, false, false, true, false, false, false, true, false, false, true]

  /** $FF. */
  const FF: Byte := [true, true, true, true, true, true, true, true]

  type Image = img: seq<Byte> | |img| == SIZE witness seq(SIZE, _ => Zeros(8))

  /** $5555 and $55555555: the data bit positions of an MFM word or long. */
  function DataMask(n: nat): Bits { seq(n, i => i % 2 == 1) }

  function OddBits(v: Long): (r: Long) { And(Shr(v, 1), DataMask(32)) }
  function EvenBits(v: Long): (r: Long) { And(v, DataMask(32)) }

  function SectorData(img: Image, track: nat, s: nat): (r: seq<Byte>)
    requires track < TRACKS && s < SECTORS_PER_TRACK
    ensures |r| == SECTOR_SIZE
  {
    var at := (track * SECTORS_PER_TRACK + s) * SECTOR_SIZE;
    img[at..at + SECTOR_SIZE]
  }

  function ReadLong(data: seq<Byte>, index: nat): Long
    requires 4 * index + 4 <= |data|
  {
    var b: seq<Bits> := data[4 * index..4 * index + 4];
    b[0] + b[1] + b[2] + b[3]
  }

  /** $FF, track, sector, sectors until the end of the track. */
  function Info(track: nat, s: nat): Long
    requires s < SECTORS_PER_TRACK
  {
    FF + ToBits(track, 8) + ToBits(s, 8) + ToBits(SECTORS_PER_TRACK - s, 8)
  }

  function HeaderChecksum(track: nat, s: nat): Long
    requires s < SECTORS_PER_TRACK
  {
    And(Xor(OddBits(Info(track, s)), EvenBits(Info(track, s))), DataMask(32))
  }

  /** The longs of a sector. */
  function Longs(data: seq<Byte>): (r: seq<Long>) {
    seq(|data| / 4, i requires 0 <= i < |data| / 4 => ReadLong(data, i))
  }

  /** XOR of the odd and even bits of a list of longs. */
  function XorAll(longs: seq<Long>): Long {
    if longs == [] then Zeros(32)
    else
      var n := |longs| - 1;
      Xor(XorAll(longs[..n]), Xor(OddBits(longs[n]), EvenBits(longs[n])))
  }

  function DataChecksum(longs: seq<Long>): Long {
    And(XorAll(longs), DataMask(32))
  }

  // ----- what goes where on a track

  /** One word handed to the MFM writer: data bits still to be clocked, or the raw sync word. */
  datatype Item = Data(bits: Word) | Sync

  function Halves(l: Long): (r: seq<Item>) { [Data(l[..16]), Data(l[16..])] }

  /** A long: odd bits, then even bits. */
  function Split(v: Long): (r: seq<Item>) { Halves(OddBits(v)) + Halves(EvenBits(v)) }

  function ZeroItems(n: nat): seq<Item> { seq(n, _ => Data(ZERO)) }

  /** Two zero bytes, the sync words, the info long, the label and the header checksum. */
  function HeaderItems(track: nat, s: nat): (r: seq<Item>)
    requires s < SECTORS_PER_TRACK
    ensures |r| == 28
  {
    [Data(ZERO), Data(ZERO), Sync, Sync] + Split(Info(track, s)) + ZeroItems(16) + Split(HeaderChecksum(track, s))
  }

  /** The odd (or even) bits of a list of longs. */
  function HalvesOf(longs: seq<Long>, odd: bool): (r: seq<Item>)
    ensures |r| == 2 * |longs|
  {
    if longs == [] then []
    else
      var n := |longs| - 1;
      HalvesOf(longs[..n], odd) + Halves(if odd then OddBits(longs[n]) else EvenBits(longs[n]))
  }

  /** The data checksum, then the data: all odd bits, then all even bits. */
  function BodyItems(longs: seq<Long>): (r: seq<Item>)
    ensures |r| == 4 + 4 * |longs|
  {
    Split(DataChecksum(longs)) + HalvesOf(longs, true) + HalvesOf(longs, false)
  }

  function SectorItems(img: Image, track: nat, s: nat): (r: seq<Item>)
    requires track < TRACKS && s < SECTORS_PER_TRACK
    ensures |r| == SECTOR_WORDS
  {
    HeaderItems(track, s) + BodyItems(Longs(SectorData(img, track, s)))
  }

  function Join<T>(xs: seq<seq<T>>): seq<T> {
    if xs == [] then [] else Join(xs[..|xs| - 1]) + xs[|xs| - 1]
  }

  function Sectors(img: Image, track: nat): (r: seq<seq<Item>>)
    requires track < TRACKS
  {
    seq(SECTORS_PER_TRACK, s requires 0 <= s < SECTORS_PER_TRACK => SectorItems(img, track, s))
  }

  lemma {:induction false} JoinLength(img: Image, track: nat, n: nat)
    requires track < TRACKS && n <= SECTORS_PER_TRACK
    ensures |Join(Sectors(img, track)[..n])| == SECTOR_WORDS * n
  {
    if n > 0 {
      JoinLength(img, track, n - 1);
      assert Sectors(img, track)[..n][..n - 1] == Sectors(img, track)[..n - 1];
    }
  }

  /** An encoded track: 11 sectors, then the gap. */
  function TrackItems(img: Image, track: nat): (r: seq<Item>)
    requires track < TRACKS
    ensures |r| == 6250
  {
    JoinLength(img, track, SECTORS_PER_TRACK);
    assert Sectors(img, track)[..SECTORS_PER_TRACK] == Sectors(img, track);
    Join(Sectors(img, track)) + ZeroItems(TRACK_WORDS - SECTORS_PER_TRACK * SECTOR_WORDS)
  }

  // ----- the encoding

  /** Each data bit is preceded by a clock bit, which is 1 only between two 0 data bits. */
  function Clocked(last: bool, data: Bits): (r: Bits)
    ensures |r| == 2 * |data|
    decreases data
  {
    if data == [] then [] else [!last && !data[0], data[0]] + Clocked(data[0], data[1..])
  }

  function Mfm(last: bool, item: Item): Word {
    match item
    case Data(bits) => Clocked(last, DataBits(bits))
    case Sync => SYNC_WORD
  }

  /** The data bits of a word: those at the positions of $5555. */
  function DataBits(w: Word): (r: Bits)
    ensures |r| == 8
  {
    [w[1], w[3], w[5], w[7], w[9], w[11], w[13], w[15]]
  }

  /** The clock bit before data bit i. */
  predicate ClockBit(last: bool, data: Bits, i: nat)
    requires i < |data|
  {
    !data[i] && !(if i == 0 then last else data[i - 1])
  }

  lemma {:induction false} ClockedAt(last: bool, data: Bits, i: nat)
    requires i < |data|
    ensures var r := Clocked(last, data);
      && r[2 * i + 1] == data[i]
      && r[2 * i] == ClockBit(last, data, i)
    decreases data
  {
    if i > 0 {
      ClockedAt(data[0], data[1..], i - 1);
    }
  }

  /** A word is determined by its data bits and the clock rule. */
  lemma ClockedUnique(last: bool, data: Bits, w: Bits)
    requires |w| == 2 * |data|
    requires forall i | 0 <= i < |data| :: w[2 * i + 1] == data[i]
    requires forall i | 0 <= i < |data| :: w[2 * i] == ClockBit(last, data, i)
    ensures w == Clocked(last, data)
  {
    forall k | 0 <= k < |w|
      ensures w[k] == Clocked(last, data)[k]
    {
      var i := k / 2;
      ClockedAt(last, data, i);
      assert w[2 * i + 1] == data[i];
      assert w[2 * i] == ClockBit(last, data, i);
      assert k == 2 * i || k == 2 * i + 1;
    }
  }

  /** The masks and shifts of the writer put in the clock bits. */
  lemma MasksClock(last: bool, data: Word, w: Word)
    requires var d := And(data, DataMask(16));
      var clocks := And(Not(Or(Shl(d, 1), Shr(d, 1))), Not(DataMask(16)));
      w == Or(d, if last then clocks[0 := false] else clocks)
    ensures w == Mfm(last, Data(data))
  {
    var bits := DataBits(data);
    var d: Word := And(data, DataMask(16));
    forall i | 0 <= i < 8
      ensures d[2 * i + 1] == bits[i] && !d[2 * i]
    {
      assert bits[i] == data[2 * i + 1];
    }
    forall i | 0 <= i < 8
      ensures w[2 * i + 1] == bits[i]
      ensures w[2 * i] == ClockBit(last, bits, i)
    {
      MasksClockAt(last, d, w, i);
      assert i > 0 ==> d[2 * (i - 1) + 1] == bits[i - 1];
    }
    ClockedUnique(last, bits, w);
  }

  lemma MasksClockAt(last: bool, d: Word, w: Word, i: nat)
    requires i < 8
    requires var clocks := And(Not(Or(Shl(d, 1), Shr(d, 1))), Not(DataMask(16)));
      w == Or(d, if last then clocks[0 := false] else clocks)
    ensures w[2 * i + 1] == d[2 * i + 1]
    ensures w[2 * i] == (d[2 * i] || (!d[2 * i + 1] && !(if i == 0 then last else d[2 * i - 1])))
  {}

  /** The words of a list of items, each clocked after the last bit of the word before. */
  function Encode(items: seq<Item>): (out: seq<Word>)
    ensures |out| == |items|
  {
    if items == [] then []
    else
      var n := |items| - 1;
      var before := Encode(items[..n]);
      before + [Mfm(n > 0 && before[n - 1][15], items[n])]
  }

  predicate WordAt(out: seq<Word>, items: seq<Item>, k: nat) {
    && k < |out| && k < |items|
    && out[k] == Mfm(k > 0 && out[k - 1][15], items[k])
  }

  lemma {:induction false} EncodeUnique(out: seq<Word>, items: seq<Item>)
    requires |out| == |items|
    requires forall k: nat {:trigger WordAt(out, items, k)} | k < |out| :: WordAt(out, items, k)
    ensures out == Encode(items)
  {
    if items != [] {
      var n := |items| - 1;
      forall k: nat | k < n
        ensures WordAt(out[..n], items[..n], k)
      {
        assert WordAt(out, items, k);
      }
      EncodeUnique(out[..n], items[..n]);
      assert WordAt(out, items, n);
    }
  }

  lemma {:induction false} EncodeWord(items: seq<Item>, k: nat)
    requires k < |items|
    ensures WordAt(Encode(items), items, k)
  {
    var n := |items| - 1;
    if k < n {
      EncodeWord(items[..n], k);
    }
  }

  function EncodedTrack(img: Image, track: nat): (out: seq<Word>)
    requires track < TRACKS
    ensures |out| == 6250
  {
    Encode(TrackItems(img, track))
  }

  // ----- the writer

  /** Appending piece by piece is appending the pieces joined. */
  lemma Appended<T>(a: seq<T>, b: seq<T>, c: seq<T>, d: seq<T>, e: seq<T>)
    ensures a + b + c + d + e == a + (b + c + d + e)
  {}

  lemma ZeroHalves(n: nat)
    ensures ZeroItems(n) + Halves(Zeros(32)) == ZeroItems(n + 2)
  {
    assert Zeros(32)[..16] == ZERO && Zeros(32)[16..] == ZERO;
  }

  lemma Assoc<T>(a: seq<T>, b: seq<T>, c: seq<T>)
    ensures a + b + c == a + (b + c)
  {}

  lemma EncodeNext(items: seq<Item>, item: Item)
    ensures Encode(items + [item]) == Encode(items) + [Mfm(LastDataBit(items), item)]
  {
    assert (items + [item])[..|items|] == items;
  }

  /** The last bit of the encoding, 0 before the first word. */
  predicate LastDataBit(items: seq<Item>) { items != [] && Encode(items)[|items| - 1][15] }

  class MfmWriter {
    const out: array<Word>
    var position: nat
    var lastDataBit: bool
    ghost var items: seq<Item>  // what has been written, also past the end of the buffer

    /** The buffer holds the encoding of everything written, as far as it fits. */
    ghost predicate Valid()
      reads this, out
    {
      && position == (if |items| < out.Length then |items| else out.Length)
      && out[..position] == Encode(items)[..position]
      && lastDataBit == LastDataBit(items)
    }

    constructor (out: array<Word>)
      ensures Valid() && this.out == out && items == []
    {
      this.out := out;
      position := 0;
      lastDataBit := false;
      items := [];
    }

    /** Words that no longer fit are dropped, but the clock goes on after them. */
    method Raw(word: Word, ghost item: Item)
      requires Valid() && word == Mfm(lastDataBit, item)
      modifies this, out
      ensures Valid() && items == old(items) + [item] && lastDataBit == word[15]
    {
      hide Encode, Mfm;
      EncodeNext(items, item);
      if position < out.Length {
        out[position] := word;
        position := position + 1;
        assert out[..position] == old(out[..position]) + [word];
      }
      lastDataBit := word[15];
      items := items + [item];
    }

    /** A full buffer holds the encoding of what fits. */
    lemma Finish()
      requires Valid() && out.Length <= |items|
      ensures out[..] == Encode(items)[..out.Length]
      ensures out.Length == |items| ==> out[..] == Encode(items)
    {
      assert out[..out.Length] == out[..];
    }

    lemma Position()
      requires Valid()
      ensures position == if |items| < out.Length then |items| else out.Length
    {}

    method Data16(data: Word)
      requires Valid()
      modifies this, out
      ensures Valid() && items == old(items) + [Data(data)]
    {
      var d := And(data, DataMask(16));
      var clocks: Word := And(Not(Or(Shl(d, 1), Shr(d, 1))), Not(DataMask(16)));
      if lastDataBit {
        clocks := clocks[0 := false];
      }
      MasksClock(lastDataBit, data, Or(d, clocks));
      Raw(Or(d, clocks), Data(data));
    }

    method HalfLong(bits: Long)
      requires Valid()
      modifies this, out
      ensures Valid() && items == old(items) + Halves(bits)
    {
      hide Valid, Encode;
      Data16(bits[..16]);
      Data16(bits[16..]);
    }

    /** A long of the header: odd bits, then even bits. */
    method SplitLong(value: Long)
      requires Valid()
      modifies this, out
      ensures Valid() && items == old(items) + Split(value)
    {
      hide Valid, Halves, OddBits, EvenBits;
      HalfLong(OddBits(value));
      HalfLong(EvenBits(value));
    }

    method Sector(track: nat, s: nat, longs: seq<Long>)
      requires Valid() && s < SECTORS_PER_TRACK
      modifies this, out
      ensures Valid() && items == old(items) + (HeaderItems(track, s) + BodyItems(longs))
    {
      hide Valid, HeaderItems, BodyItems;
      Header(track, s);
      Body(longs);
      Assoc(old(items), HeaderItems(track, s), BodyItems(longs));
    }

    /** The header of sector s, up to its checksum. */
    method Header(track: nat, s: nat)
      requires Valid() && s < SECTORS_PER_TRACK
      modifies this, out
      ensures Valid() && items == old(items) + HeaderItems(track, s)
    {
      hide Valid, Split, OddBits, EvenBits;
      ghost var start := items;
      Data16(ZERO);
      Data16(ZERO);
      Raw(SYNC_WORD, Sync);
      Raw(SYNC_WORD, Sync);
      assert items == start + [Data(ZERO), Data(ZERO), Sync, Sync];

      var info := Info(track, s);
      SplitLong(info);
      Label();

      var headerChecksum := And(Xor(OddBits(info), EvenBits(info)), DataMask(32));
      SplitLong(headerChecksum);
      Appended(start, [Data(ZERO), Data(ZERO), Sync, Sync], Split(info), ZeroItems(16), Split(headerChecksum));
    }

    /** The empty label: odd, then even. */
    method Label()
      requires Valid()
      modifies this, out
      ensures Valid() && items == old(items) + ZeroItems(16)
    {
      hide Valid, Halves;
      ghost var start := items;
      for i := 0 to 4
        invariant Valid() && items == start + ZeroItems(2 * i)
      {
        HalfLong(Zeros(32));
        ZeroHalves(2 * i);
        Assoc(start, ZeroItems(2 * i), Halves(Zeros(32)));
      }
      for i := 0 to 4
        invariant Valid() && items == start + ZeroItems(8 + 2 * i)
      {
        HalfLong(Zeros(32));
        ZeroHalves(8 + 2 * i);
        Assoc(start, ZeroItems(8 + 2 * i), Halves(Zeros(32)));
      }
    }

    static method Checksum(longs: seq<Long>) returns (checksum: Long)
      ensures checksum == DataChecksum(longs)
    {
      hide OddBits, EvenBits;
      checksum := Zeros(32);
      for i := 0 to |longs|
        invariant checksum == XorAll(longs[..i])
      {
        checksum := Xor(checksum, Xor(OddBits(longs[i]), EvenBits(longs[i])));
        assert longs[..i + 1][..i] == longs[..i];
      }
      assert longs[..|longs|] == longs;
      checksum := And(checksum, DataMask(32));
    }

    /** The checksum and the data of a sector. */
    method Body(longs: seq<Long>)
      requires Valid()
      modifies this, out
      ensures Valid() && items == old(items) + BodyItems(longs)
    {
      hide Valid, Split, HalvesOf;
      ghost var start := items;
      var dataChecksum := Checksum(longs);
      SplitLong(dataChecksum);
      DataHalf(longs, true);
      DataHalf(longs, false);
      Appended(start, Split(dataChecksum), HalvesOf(longs, true), HalvesOf(longs, false), []);
    }

    /** The odd (or even) bits of all the longs of a sector. */
    method DataHalf(longs: seq<Long>, odd: bool)
      requires Valid()
      modifies this, out
      ensures Valid() && items == old(items) + HalvesOf(longs, odd)
    {
      hide Valid, Halves, OddBits, EvenBits;
      ghost var start := items;
      for i := 0 to |longs|
        invariant Valid() && items == start + HalvesOf(longs[..i], odd)
      {
        var bits := if odd then OddBits(longs[i]) else EvenBits(longs[i]);
        HalfLong(bits);
        assert longs[..i + 1][..i] == longs[..i];
        Assoc(start, HalvesOf(longs[..i], odd), Halves(bits));
      }
      assert longs[..|longs|] == longs;
    }
  }

  method EncodeTrack(img: Image, track: nat, out: array<Word>)
    requires track < TRACKS && out.Length == TRACK_WORDS
    modifies out
    ensures out[..] == EncodedTrack(img, track)
  {
    hide MfmWriter.Valid, Encode, Join, Sectors, ZeroItems;
    var writer := new MfmWriter(out);
    EncodeSectors(writer, img, track);
    ghost var sectors := writer.items;
    NoZeros(sectors);
    writer.Position();
    while writer.position < TRACK_WORDS
      invariant writer.Valid() && |sectors| <= writer.position == |writer.items| <= TRACK_WORDS
      invariant writer.items == sectors + ZeroItems(writer.position - |sectors|)
      decreases TRACK_WORDS - writer.position
    {
      ghost var n: nat := writer.position - |sectors|;
      OneZero(n);
      Assoc(sectors, ZeroItems(n), [Data(ZERO)]);
      writer.Data16(ZERO);
      writer.Position();
    }
    writer.Finish();
  }

  lemma NoZeros(sectors: seq<Item>)
    ensures sectors + ZeroItems(0) == sectors
  {}

  lemma OneZero(n: nat)
    ensures ZeroItems(n) + [Data(ZERO)] == ZeroItems(n + 1)
  {}

  method EncodeSectors(writer: MfmWriter, img: Image, track: nat)
    requires track < TRACKS && writer.out.Length == TRACK_WORDS && writer.Valid() && writer.items == []
    modifies writer, writer.out
    ensures writer.Valid() && writer.items == Join(Sectors(img, track))
    ensures |writer.items| == SECTORS_PER_TRACK * SECTOR_WORDS
  {
    hide HeaderItems, BodyItems, SectorData;
    ghost var sectors := Sectors(img, track);
    for s := 0 to SECTORS_PER_TRACK
      invariant writer.Valid() && writer.items == Join(sectors[..s])
    {
      JoinLength(img, track, s);
      var longs := Longs(SectorData(img, track, s));
      writer.Sector(track, s, longs);
      assert sectors[..s + 1][..s] == sectors[..s];
    }
    assert sectors[..SECTORS_PER_TRACK] == sectors;
    JoinLength(img, track, SECTORS_PER_TRACK);
  }
}
