/** The floppy drive (src/core/floppy.hpp): head, rotation, index pulse and the
    cache of the encoded track under the head. */
module Floppy {
  import opened Bits
  import opened Adf
  import opened Wrappers

  const CYLINDERS := 80
  /** Half color clocks from one word to the next. */
  const WORD_TIME := 227

  /** The lines of CIA-B port B that reach the drive (low = false). */
  datatype Lines = Lines(mtr: bool, sel0: bool, side: bool, dir: bool, step: bool)

  /** The lines of a port B value: bits 7, 3, 2, 1 and 0. */
  function LinesOf(prb: Byte): Lines { Lines(prb[0], prb[4], prb[5], prb[6], prb[7]) }

  // ----- the mechanics

  /** Everything about the drive but what is on the disk. `loaded` says whether one is in. */
  datatype Drive = Drive(
    prev: Lines, selected: bool, motor: bool, cylinder: nat, head: nat, changeLatch: bool,
    loaded: bool, position: nat, rotation: nat)
  {
    predicate Valid() {
      cylinder < CYLINDERS && head < 2 && position < TRACK_WORDS && rotation < WORD_TIME
    }

    predicate Spinning() { motor && loaded }

    function Track(): (track: nat)
      requires Valid()
      ensures track < TRACKS
    {
      cylinder * 2 + head
    }

    function Cylinder(outwards: bool): nat {
      if outwards then (if cylinder > 0 then cylinder - 1 else 0)
      else if cylinder + 1 < CYLINDERS then cylinder + 1 else cylinder
    }

    /** New levels on the control lines: /MTR is latched when the drive is selected, the head
        moves when /STEP falls, and moving it resets the change latch if a disk is in. */
    function Control(lines: Lines): (d: Drive)
      requires Valid()
      ensures d.Valid()
    {
      var sel := !lines.sel0;
      var steps := sel && prev.step && !lines.step;
      Drive(lines, sel,
            if sel && !selected then !lines.mtr else motor,
            if steps then Cylinder(lines.dir) else cylinder,
            if lines.side then 0 else 1,
            changeLatch && !(steps && loaded),
            loaded, position, rotation)
    }

    /** The next word reaches the head. */
    function Passed(): (d: Drive)
      requires Valid()
      ensures d.Valid()
    {
      if Spinning() then this.(position := (position + 1) % TRACK_WORDS) else this
    }

    /** One color clock of rotation: does a word pass? */
    predicate WordPasses() { Spinning() && rotation + 2 >= WORD_TIME }

    function Ticked(): (d: Drive)
      requires Valid()
      ensures d.Valid()
    {
      if !Spinning() then this
      else if !WordPasses() then this.(rotation := rotation + 2)
      else this.(rotation := rotation + 2 - WORD_TIME).Passed()
    }
  }

  /** The disk turns while the motor is on and a disk is in; each cylinder has two tracks, one for each head. */
  lemma Turning(d: Drive)
    requires d.Valid()
    ensures d.Spinning() == (d.motor && d.loaded) && d.Track() == 2 * d.cylinder + d.head
    ensures d.Passed() == if d.motor && d.loaded then d.(position := (d.position + 1) % 6250) else d
    ensures !(d.motor && d.loaded) ==> d.Ticked() == d && !d.WordPasses()
  {}

  /** The port in numbers: /MTR is bit 7, /SEL0 bit 3, /SIDE bit 2, DIR bit 1, /STEP bit 0. */
  lemma LinesBits(prb: Byte)
    ensures LinesOf(prb) == Lines(Val(prb) / 128 % 2 == 1, Val(prb) / 8 % 2 == 1, Val(prb) / 4 % 2 == 1,
                                  Val(prb) / 2 % 2 == 1, Val(prb) % 2 == 1)
  {
    hide Val, Pow2;
    PowersOfTwo();
    BitOf(prb, 7);
    BitOf(prb, 3);
    BitOf(prb, 2);
    BitOf(prb, 1);
    BitOf(prb, 0);
  }

  /** One write to the port after another. The drive is selected by a low /SEL0, which latches the motor as it falls;
      the head in use is 1 when /SIDE is low; when /STEP falls on the selected drive the head moves one of the 80
      cylinders, outwards when DIR is high, and a disk in the drive resets the change latch. */
  lemma ControlMeans(d: Drive, before: Byte, prb: Byte)
    requires d.Valid() && d.prev == LinesOf(before)
    ensures var e, v := d.Control(LinesOf(prb)), Val(prb);
      var steps := v / 8 % 2 == 0 && Val(before) % 2 == 1 && v % 2 == 0;
      && e.prev == LinesOf(prb) && e.selected == (v / 8 % 2 == 0) && e.head == 1 - v / 4 % 2
      && e.motor == (if e.selected && !d.selected then v / 128 % 2 == 0 else d.motor)
      && e.cylinder == (if !steps then d.cylinder
                        else if v / 2 % 2 == 1 then (if d.cylinder == 0 then 0 else d.cylinder - 1)
                        else if d.cylinder == 79 then 79 else d.cylinder + 1)
      && e.changeLatch == (d.changeLatch && !(steps && d.loaded))
      && e.loaded == d.loaded && e.position == d.position && e.rotation == d.rotation
  {
    hide Val, LinesOf;
    LinesBits(before);
    LinesBits(prb);
  }

  // ----- what is on the disk

  predicate EncodedAt(image: Image, tracks: seq<seq<Word>>, k: nat) {
    k < TRACKS && k < |tracks| && tracks[k] == EncodedTrack(image, k)
  }

  /** These are the encoded tracks of an image. */
  ghost predicate Encoded(image: Image, tracks: seq<seq<Word>>) {
    forall k: nat {:trigger EncodedAt(image, tracks, k)} | k < TRACKS :: EncodedAt(image, tracks, k)
  }

  // ----- the drive as it is

  /** The word that came to the head, if one did, and whether it is the first of the track. */
  datatype Tick = Tick(wordReady: bool, word: Word, index: bool)

  const NOTHING := Tick(false, ZERO, false)

  class FloppyDrive {
    var prev: Lines
    var selected: bool
    var motor: bool
    var cylinder: nat
    var head: nat
    var changeLatch: bool
    var disk: Option<Image>
    const track: array<Word>
    var encodedTrack: int
    var position: nat
    var rotation: nat

    ghost var tracks: seq<seq<Word>>  // what the head finds on the disk

    function View(): Drive
      reads this
    {
      Drive(prev, selected, motor, cylinder, head, changeLatch, disk.Some?, position, rotation)
    }

    /** Whenever a disk is in, the cached track is one of that disk's. */
    ghost predicate Valid()
      reads this, track
    {
      && View().Valid()
      && track.Length == TRACK_WORDS
      && |tracks| == TRACKS
      && -1 <= encodedTrack < TRACKS
      && (disk.Some? && encodedTrack >= 0 ==> Holds(track, tracks[encodedTrack]))
    }

    static ghost predicate Holds(cache: array<Word>, words: seq<Word>)
      reads cache
    {
      cache[..] == words
    }

    constructor ()
      ensures Valid() && fresh(track)
      ensures View() == Drive(Lines(true, true, true, true, true), false, false, 0, 0, true, false, 0, 0)
    {
      prev, selected, motor := Lines(true, true, true, true, true), false, false;
      cylinder, head, changeLatch, disk := 0, 0, true, None;
      track := new Word[TRACK_WORDS](_ => ZERO);
      encodedTrack, position, rotation := -1, 0, 0;
      tracks := seq(TRACKS, _ => []);
    }

    method Insert(image: Image)
      requires Valid()
      modifies this`disk, this`encodedTrack, this`tracks
      ensures Valid() && View() == old(View()).(loaded := true)
      ensures disk == Some(image) && Encoded(image, tracks)
    {
      disk := Some(image);
      encodedTrack := -1;
      tracks := seq(TRACKS, k requires 0 <= k < TRACKS => EncodedTrack(image, k));
    }

    method Eject()
      requires Valid()
      modifies this`disk, this`changeLatch
      ensures Valid() && View() == old(View()).(loaded := false, changeLatch := true)
    {
      disk := None;
      changeLatch := true;
    }

    method Control(prb: Byte)
      requires Valid()
      modifies this`prev, this`selected, this`motor, this`cylinder, this`head, this`changeLatch
      ensures Valid() && View() == old(View()).Control(LinesOf(prb))
    {
      hide FloppyDrive.Holds;
      var lines := LinesOf(prb);
      var sel := !lines.sel0;
      if sel && !selected {
        motor := !lines.mtr;
      }
      if sel && prev.step && !lines.step {
        Step(lines.dir);
      }
      head := if !lines.side then 1 else 0;
      selected := sel;
      prev := lines;
    }

    method Step(outwards: bool)
      requires Valid()
      modifies this`cylinder, this`changeLatch
      ensures Valid()
      ensures cylinder == old(View()).Cylinder(outwards) && changeLatch == (old(changeLatch) && !disk.Some?)
    {
      if outwards {
        if cylinder > 0 {
          cylinder := cylinder - 1;
        }
      } else if cylinder + 1 < CYLINDERS {
        cylinder := cylinder + 1;
      }
      if disk.Some? {
        changeLatch := false;
      }
    }

    /** Whatever is in the cache, the word is the one the disk has there. */
    method NextWord() returns (result: Tick)
      requires Valid() && (disk.Some? ==> Encoded(disk.value, tracks))
      modifies this`position, this`encodedTrack, track
      ensures Valid() && View() == old(View()).Passed()
      ensures result.wordReady == (View().Spinning() && selected)
      ensures result.index == (result.wordReady && position == 0)
      ensures result.wordReady ==>
        position < |tracks[View().Track()]| && result.word == tracks[View().Track()][position]
    {
      result := NOTHING;
      if !motor || disk == None {
        return;
      }
      var wrapped := Advance();
      if !selected {
        return;
      }
      var word := Read();
      result := Tick(true, word, wrapped);
    }

    method Advance() returns (wrapped: bool)
      requires Valid()
      modifies this`position
      ensures Valid() && position == (old(position) + 1) % TRACK_WORDS && wrapped == (position == 0)
    {
      position := position + 1;
      wrapped := position == TRACK_WORDS;
      if wrapped {
        position := 0;
      }
    }

    /** The word under the head: the track is encoded first, unless it is the one in the cache. */
    method Read() returns (word: Word)
      requires Valid() && disk.Some? && Encoded(disk.value, tracks)
      modifies this`encodedTrack, track
      ensures Valid()
      ensures position < |tracks[View().Track()]| && word == tracks[View().Track()][position]
    {
      hide EncodedTrack;
      var wanted := cylinder * 2 + head;
      if wanted != encodedTrack {
        assert EncodedAt(disk.value, tracks, wanted);
        EncodeTrack(disk.value, wanted, track);
        encodedTrack := wanted;
      }
      assert track[position] == track[..][position];
      word := track[position];
    }

    /** Two half color clocks; the next word comes after 227 of them. */
    method DoTick() returns (result: Tick)
      requires Valid() && (disk.Some? ==> Encoded(disk.value, tracks))
      modifies this`position, this`rotation, this`encodedTrack, track
      ensures Valid() && View() == old(View()).Ticked()
      ensures result.wordReady == (old(View()).WordPasses() && selected)
      ensures result.index == (result.wordReady && position == 0)
      ensures result.wordReady ==>
        position < |tracks[View().Track()]| && result.word == tracks[View().Track()][position]
    {
      if !motor || disk == None {
        return NOTHING;
      }
      rotation := rotation + 2;
      if rotation < WORD_TIME {
        return NOTHING;
      }
      rotation := rotation - WORD_TIME;
      result := NextWord();
    }
  }

  // ----- turning

  /** The positions a drive passes in n color clocks of nothing but rotation. */
  datatype Turn = Turn(drive: Drive, passed: seq<nat>)
  {
    function Next(): (r: Turn)
      requires drive.Valid()
      ensures r.drive.Valid()
    {
      var after := drive.Ticked();
      Turn(after, if drive.WordPasses() then passed + [after.position] else passed)
    }
  }

  function Turned(d: Drive, n: nat): (r: Turn)
    requires d.Valid()
    ensures r.drive.Valid()
  {
    if n == 0 then Turn(d, []) else Turned(d, n - 1).Next()
  }

  /** The n positions that follow p on the circle. */
  function Following(p: nat, n: nat): (r: seq<nat>)
    ensures |r| == n
  {
    seq(n, i requires 0 <= i < n => (p + 1 + i) % TRACK_WORDS)
  }

  /** The drive `half` half color clocks after it last passed the start of a word, at its position. */
  function TurnedBy(d: Drive, half: nat): (r: Turn)
    requires d.Valid()
    ensures r.drive.Valid()
  {
    var count := half / WORD_TIME;
    Turn(d.(position := (d.position + count) % TRACK_WORDS, rotation := half % WORD_TIME), Following(d.position, count))
  }

  lemma OneClock(d: Drive, half: nat)
    requires d.Valid() && d.Spinning()
    ensures TurnedBy(d, half).Next() == TurnedBy(d, half + 2)
  {
    var count := half / WORD_TIME;
    if half % WORD_TIME + 2 >= WORD_TIME {
      assert (half + 2) / WORD_TIME == count + 1 && (half + 2) % WORD_TIME == half % WORD_TIME + 2 - WORD_TIME;
      assert ((d.position + count) % TRACK_WORDS + 1) % TRACK_WORDS == (d.position + count + 1) % TRACK_WORDS;
      assert Following(d.position, count + 1)
             == Following(d.position, count) + [(d.position + 1 + count) % TRACK_WORDS];
    } else {
      assert (half + 2) / WORD_TIME == count && (half + 2) % WORD_TIME == half % WORD_TIME + 2;
    }
  }

  /** In n color clocks a spinning drive passes floor((rotation + 2n) / 227) words, consecutive on the circle. */
  lemma Rotation(d: Drive, n: nat)
    requires d.Valid() && d.Spinning()
    ensures var t, half := Turned(d, n), d.rotation + 2 * n;
      && t.passed == Following(d.position, half / 227)
      && t.drive == d.(position := (d.position + half / 227) % 6250, rotation := half % 227)
  {
    Turns(d, n);
  }

  lemma {:induction false} Turns(d: Drive, n: nat)
    requires d.Valid() && d.Spinning()
    ensures Turned(d, n) == TurnedBy(d, d.rotation + 2 * n)
  {
    if n == 0 {
      assert Following(d.position, 0) == [];
    } else {
      Turns(d, n - 1);
      OneClock(d, d.rotation + 2 * (n - 1));
    }
  }

  /** Any 6250 consecutive words include position 0, the index, exactly once. */
  lemma OneIndexPerRevolution(p: nat)
    ensures exists i :: 0 <= i < 6250 && Following(p, 6250)[i] == 0
    ensures forall i, j | 0 <= i < 6250 && 0 <= j < 6250
              && Following(p, 6250)[i] == 0 && Following(p, 6250)[j] == 0 :: i == j
  {
    var passed := Following(p, TRACK_WORDS);
    var i := TRACK_WORDS - 1 - p % TRACK_WORDS;
    assert (p + 1 + i) % TRACK_WORDS == 0;
    assert passed[i] == 0;
  }
}
