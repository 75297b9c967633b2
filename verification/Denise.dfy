/** Denise's collision detection (src/core/denise.cpp, src/core/denise.hpp): three tables made from CLXCON, and
    a line of pixels. */
module Denise {
  import opened Bits
  import Sprites

  const OUTPUT_WIDTH := 640
  const VIEWPORT_START_H := 0x81

  /** A pattern of the six bitplanes, plane 6 first. */
  type Planes = b: seq<bool> | |b| == 6 witness seq(6, _ => false)

  /** A set of the four sprite groups, group 3 first. */
  type Groups = b: seq<bool> | |b| == 4 witness seq(4, _ => false)

  /** Planes 1, 3, 5 and planes 2, 4, 6. */
  const ODD_PLANES: Planes := [false, true, false, true, false, true]
  const EVEN_PLANES: Planes := [true, false, true, false, true, false]

  // ----- what a collision is

  function EnabledPlanes(clxcon: Word): Planes { clxcon[4..10] }
  function MatchedPlanes(clxcon: Word): Planes { clxcon[10..16] }

  /** ENSP: whether the odd sprite of a group takes part. */
  predicate OddEnabled(clxcon: Word, g: nat)
    requires g < 4
  {
    clxcon[3 - g]
  }

  /** Whether bitplane p (from 1) is set. */
  predicate Plane(planes: Planes, p: nat)
    requires 1 <= p <= 6
  {
    planes[6 - p]
  }

  /** The enabled planes with odd (or even) numbers are as CLXCON asks. */
  predicate PlayfieldMatches(clxcon: Word, planes: Planes, odd: bool) {
    forall p {:trigger Plane(planes, p)} | 1 <= p <= 6 && (p % 2 == 1) == odd && Plane(EnabledPlanes(clxcon), p) ::
      Plane(planes, p) == Plane(MatchedPlanes(clxcon), p)
  }

  /** Whether sprite n is opaque at a pixel. */
  predicate Opaque(sprites: Byte, n: nat)
    requires n < 8
  {
    sprites[7 - n]
  }

  predicate GroupThere(clxcon: Word, sprites: Byte, g: nat)
    requires g < 4
  {
    Opaque(sprites, 2 * g) || (OddEnabled(clxcon, g) && Opaque(sprites, 2 * g + 1))
  }

  /** The two groups of bits 9 to 14 of CLXDAT. */
  function PairOf(n: nat): (p: (nat, nat))
    requires 9 <= n <= 14
    ensures p.0 < p.1 < 4
  {
    match n
    case 9 => (0, 1)
    case 10 => (0, 2)
    case 11 => (0, 3)
    case 12 => (1, 2)
    case 13 => (1, 3)
    case _ => (2, 3)
  }

  /** Bit n of CLXDAT for one pixel: odd planes against even planes, groups against odd planes, groups against even
      planes, groups against groups. */
  predicate PixelBit(clxcon: Word, planes: Planes, sprites: Byte, n: nat)
    requires n < 16
  {
    if n == 0 then PlayfieldMatches(clxcon, planes, true) && PlayfieldMatches(clxcon, planes, false)
    else if n <= 4 then PlayfieldMatches(clxcon, planes, true) && GroupThere(clxcon, sprites, n - 1)
    else if n <= 8 then PlayfieldMatches(clxcon, planes, false) && GroupThere(clxcon, sprites, n - 5)
    else if n <= 14 then GroupThere(clxcon, sprites, PairOf(n).0) && GroupThere(clxcon, sprites, PairOf(n).1)
    else false
  }

  function PixelCollisions(clxcon: Word, planes: Planes, sprites: Byte): Word {
    seq(16, i requires 0 <= i < 16 => PixelBit(clxcon, planes, sprites, 15 - i))
  }

  /** CLXCON in numbers: MVBP1 to MVBP6 from bit 0, ENBP1 to ENBP6 from bit 6, ENSP1, 3, 5 and 7 from bit 12. */
  lemma ClxconBits(clxcon: Word, p: nat, g: nat)
    requires 1 <= p <= 6 && g < 4
    ensures Plane(MatchedPlanes(clxcon), p) == (Val(clxcon) / Pow2(p - 1) % 2 == 1)
    ensures Plane(EnabledPlanes(clxcon), p) == (Val(clxcon) / Pow2(5 + p) % 2 == 1)
    ensures OddEnabled(clxcon, g) == (Val(clxcon) / Pow2(12 + g) % 2 == 1)
  {
    hide Val, Pow2;
    BitOf(clxcon, p - 1);
    BitOf(clxcon, 5 + p);
    BitOf(clxcon, 12 + g);
  }

  /** Group g is there if sprite 2g is, or sprite 2g + 1 and its bit of CLXCON is set. */
  lemma GroupMeans(clxcon: Word, sprites: Byte, g: nat)
    requires g < 4
    ensures GroupThere(clxcon, sprites, g)
         == (Val(sprites) / Pow2(2 * g) % 2 == 1
             || (Val(clxcon) / Pow2(12 + g) % 2 == 1 && Val(sprites) / Pow2(2 * g + 1) % 2 == 1))
  {
    hide Val, Pow2;
    ClxconBits(clxcon, 1, g);
    BitOf(sprites, 2 * g);
    BitOf(sprites, 2 * g + 1);
  }

  // ----- the tables

  function PlaneEntry(clxcon: Word, planes: Planes): (bool, bool) {
    var differ := And(Xor(planes, MatchedPlanes(clxcon)), EnabledPlanes(clxcon));
    (And(differ, ODD_PLANES) == Zeros(6), And(differ, EVEN_PLANES) == Zeros(6))
  }

  /** The groups below g that are there. */
  function GroupsBelow(clxcon: Word, sprites: Byte, g: nat): Groups {
    seq(4, i requires 0 <= i < 4 => 3 - i < g && GroupThere(clxcon, sprites, 3 - i))
  }

  function GroupEntry(clxcon: Word, sprites: Byte): Groups { GroupsBelow(clxcon, sprites, 4) }

  lemma GroupNext(clxcon: Word, sprites: Byte, g: nat)
    requires g < 4
    ensures GroupsBelow(clxcon, sprites, g + 1)
         == if GroupThere(clxcon, sprites, g) then GroupsBelow(clxcon, sprites, g)[3 - g := true]
            else GroupsBelow(clxcon, sprites, g)
  {
    hide GroupThere;
  }

  function PairEntry(g: Groups): Word { PairsBefore(g, 4, 5) }

  lemma PlaneEntryMatches(clxcon: Word, planes: Planes)
    ensures PlaneEntry(clxcon, planes)
         == (PlayfieldMatches(clxcon, planes, true), PlayfieldMatches(clxcon, planes, false))
  {
    Masked(clxcon, planes, true);
    Masked(clxcon, planes, false);
  }

  lemma Masked(clxcon: Word, planes: Planes, odd: bool)
    ensures var differ := And(Xor(planes, MatchedPlanes(clxcon)), EnabledPlanes(clxcon));
      (And(differ, if odd then ODD_PLANES else EVEN_PLANES) == Zeros(6)) == PlayfieldMatches(clxcon, planes, odd)
  {
    var differ := And(Xor(planes, MatchedPlanes(clxcon)), EnabledPlanes(clxcon));
    var masked := And(differ, if odd then ODD_PLANES else EVEN_PLANES);
    if PlayfieldMatches(clxcon, planes, odd) {
      forall i | 0 <= i < 6
        ensures !masked[i]
      {
        assert Plane(planes, 6 - i) == planes[i];
      }
      assert masked == Zeros(6);
    } else {
      var p :| 1 <= p <= 6 && (p % 2 == 1) == odd && Plane(EnabledPlanes(clxcon), p)
        && Plane(planes, p) != Plane(MatchedPlanes(clxcon), p);
      assert masked[6 - p];
    }
  }

  /** The bits of the groups, moved up by n. */
  function GroupBits(groups: Groups, n: nat): Word
    requires n <= 12
  {
    Zeros(12 - n) + groups + Zeros(n)
  }

  /** What the tables give for a pixel. */
  function Looked(odd: bool, even: bool, groups: Groups, pairs: Word): Word {
    var planes: Word := Zeros(15) + [odd && even];
    var withOdd := if odd then Or(planes, GroupBits(groups, 1)) else planes;
    var withEven := if even then Or(withOdd, GroupBits(groups, 5)) else withOdd;
    Or(withEven, pairs)
  }

  lemma GroupBitsAt(g: Groups, n: nat, i: nat)
    requires n <= 12 && i < 16
    ensures GroupBits(g, n)[i] == (n <= 15 - i < n + 4 && g[3 - (15 - i - n)])
  {}

  lemma LookedAt(odd: bool, even: bool, g: Groups, pairs: Word, i: nat)
    requires i < 16
    ensures Looked(odd, even, g, pairs)[i]
         == ((i == 15 && odd && even) || (odd && GroupBits(g, 1)[i]) || (even && GroupBits(g, 5)[i]) || pairs[i])
  {
    hide GroupBits;
  }

  lemma PairEntryAt(g: Groups, i: nat)
    requires i < 16
    ensures PairEntry(g)[i] == (9 <= 15 - i <= 14 && g[3 - PairOf(15 - i).0] && g[3 - PairOf(15 - i).1])
  {}

  /** The tables together give the collisions of the pixel. */
  lemma TablesMean(clxcon: Word, planes: Planes, sprites: Byte)
    ensures var (odd, even) := PlaneEntry(clxcon, planes);
      var groups := GroupEntry(clxcon, sprites);
      Looked(odd, even, groups, PairEntry(groups)) == PixelCollisions(clxcon, planes, sprites)
  {
    hide PlaneEntry, PlayfieldMatches, GroupThere, Looked, PairEntry, GroupBits;
    PlaneEntryMatches(clxcon, planes);
    var (odd, even) := PlaneEntry(clxcon, planes);
    var groups := GroupEntry(clxcon, sprites);
    forall i: nat | i < 16
      ensures Looked(odd, even, groups, PairEntry(groups))[i] == PixelCollisions(clxcon, planes, sprites)[i]
    {
      LookedAt(odd, even, groups, PairEntry(groups), i);
      GroupBitsAt(groups, 1, i);
      GroupBitsAt(groups, 5, i);
      PairEntryAt(groups, i);
    }
  }

  /** Without a sprite only odd planes against even planes are left. */
  lemma NoSprites(clxcon: Word, planes: Planes, sprites: Byte)
    requires sprites == Zeros(8)
    ensures var (odd, even) := PlaneEntry(clxcon, planes);
      PixelCollisions(clxcon, planes, sprites) == ZERO[15 := odd && even]
  {
    hide PlaneEntry, PlayfieldMatches, PairOf;
    PlaneEntryMatches(clxcon, planes);
  }

  lemma {:induction false} BitsVal(b: Bits)
    ensures ToBits(Val(b), |b|) == b
  {
    if b != [] {
      BitsVal(b[..|b| - 1]);
    }
  }

  // ----- a line

  predicate Inside(x: nat, hstart: nat, hstop: nat) { hstart <= VIEWPORT_START_H + x / 2 < hstop }

  /** The window in columns: two to a color clock position, the first one at $81. */
  lemma WindowColumns(x: nat, hstart: nat, hstop: nat)
    ensures Inside(x, hstart, hstop) == (2 * hstart <= 0x102 + x < 2 * hstop)
  {}

  /** CLXDAT after the first x columns: what it was, and the collisions of every column inside the window. */
  function Collected(clxcon: Word, clxdat: Word, pixels: seq<Planes>, sprites: seq<Byte>, hstart: nat, hstop: nat,
                     x: nat): Word
    requires x <= |pixels| && x <= |sprites|
  {
    if x == 0 then clxdat
    else
      var before := Collected(clxcon, clxdat, pixels, sprites, hstart, hstop, x - 1);
      if Inside(x - 1, hstart, hstop)
      then Or(before, PixelCollisions(clxcon, pixels[x - 1], sprites[x - 1]))
      else before
  }

  /** A column inside the window has collision bit i. */
  predicate CollidesAt(clxcon: Word, pixels: seq<Planes>, sprites: seq<Byte>, hstart: nat, hstop: nat, i: nat, c: nat)
    requires i < 16 && c < |pixels| && c < |sprites|
  {
    Inside(c, hstart, hstop) && PixelCollisions(clxcon, pixels[c], sprites[c])[i]
  }

  /** A bit of CLXDAT is set after a line exactly if it was, or some column inside the window has that collision. */
  lemma {:induction false} CollectedMeans(clxcon: Word, clxdat: Word, pixels: seq<Planes>, sprites: seq<Byte>,
                                          hstart: nat, hstop: nat, x: nat, i: nat)
    requires x <= |pixels| && x <= |sprites| && i < 16
    ensures Collected(clxcon, clxdat, pixels, sprites, hstart, hstop, x)[i]
       <==> clxdat[i] || exists c: nat :: c < x && CollidesAt(clxcon, pixels, sprites, hstart, hstop, i, c)
  {
    hide PixelCollisions, Inside;
    if x > 0 {
      CollectedMeans(clxcon, clxdat, pixels, sprites, hstart, hstop, x - 1, i);
      var now := CollidesAt(clxcon, pixels, sprites, hstart, hstop, i, x - 1);
      assert (exists c: nat :: c < x && CollidesAt(clxcon, pixels, sprites, hstart, hstop, i, c))
        <==> now || exists c: nat :: c < x - 1 && CollidesAt(clxcon, pixels, sprites, hstart, hstop, i, c);
    }
  }

  // ----- where sprites are

  /** Pixel i of a start is opaque: not colour 0. */
  predicate OpaquePixel(t: Sprites.Trigger, i: nat)
    requires i < 16
  {
    t.data[i] || t.datb[i]
  }

  /** The pixel of a start that a column shows: sprites appear one lowres pixel after HSTART. */
  function PixelAt(t: Sprites.Trigger, column: nat): int { VIEWPORT_START_H + column / 2 - t.hstart - 1 }

  /** A start covers a column with one of its first k pixels. */
  predicate Covers(t: Sprites.Trigger, column: nat, k: nat)
    requires k <= 16
  {
    0 <= PixelAt(t, column) < k && OpaquePixel(t, PixelAt(t, column))
  }

  /** One of these starts covers a column. */
  predicate Covered(starts: seq<Sprites.Trigger>, column: nat) {
    exists t | 0 <= t < |starts| :: Covers(starts[t], column, 16)
  }

  /** The sprites below n that are opaque at a column. */
  function SpritesBelow(starts: seq<seq<Sprites.Trigger>>, column: nat, n: nat): Byte
    requires |starts| == Sprites.COUNT
  {
    seq(8, i requires 0 <= i < 8 => 7 - i < n && Covered(starts[7 - i], column))
  }

  /** The sprites that are opaque at a column. */
  function SpritesAt(starts: seq<seq<Sprites.Trigger>>, column: nat): Byte
    requires |starts| == Sprites.COUNT
  {
    SpritesBelow(starts, column, Sprites.COUNT)
  }

  lemma SpriteNext(starts: seq<seq<Sprites.Trigger>>, column: nat, n: nat)
    requires |starts| == Sprites.COUNT && n < Sprites.COUNT
    ensures SpritesBelow(starts, column, n + 1)
         == if Covered(starts[n], column) then SpritesBelow(starts, column, n)[7 - n := true]
            else SpritesBelow(starts, column, n)
  {
    hide Covered;
  }

  /** The masks after one sprite more: all that `from` has, and this sprite where the first starts cover a column. */
  predicate MasksOf(from: seq<Byte>, masks: seq<Byte>, n: nat, starts: seq<Sprites.Trigger>, t: Sprites.Trigger, k: nat)
    requires n < 8 && k <= 16
  {
    && |from| == |masks| == OUTPUT_WIDTH
    && forall c: nat | c < OUTPUT_WIDTH ::
         masks[c] == if Covered(starts, c) || Covers(t, c, k) then from[c][7 - n := true] else from[c]
  }

  lemma CoversNext(t: Sprites.Trigger, k: nat, c: nat)
    requires k < 16
    ensures Covers(t, c, k + 1) == (Covers(t, c, k) || (PixelAt(t, c) == k && OpaquePixel(t, k)))
  {}

  /** The two columns of a lowres pixel. */
  lemma Columns(t: Sprites.Trigger, k: nat, c: nat)
    ensures (PixelAt(t, c) == k)
        <==> var column := 2 * (t.hstart + 1 + k - VIEWPORT_START_H); c == column || c == column + 1
  {}

  /** A start covers a column exactly if the pixel it shows there, two columns to a pixel from one after HSTART, has
      colour 1, 2 or 3. */
  lemma CoversMeans(t: Sprites.Trigger, c: nat)
    ensures Covers(t, c, 16) == exists i: nat :: i < 16 && c / 2 + 0x80 == t.hstart + i && (t.data[i] || t.datb[i])
  {
    var i := PixelAt(t, c);
    assert i == c / 2 + 0x80 - t.hstart;
    if Covers(t, c, 16) {
      assert 0 <= i < 16 && (t.data[i] || t.datb[i]);
    }
  }

  lemma NoneBelow(starts: seq<seq<Sprites.Trigger>>, column: nat)
    requires |starts| == Sprites.COUNT
    ensures SpritesBelow(starts, column, 0) == Zeros(8)
  {}

  lemma NoPixels(from: seq<Byte>, n: nat, t: Sprites.Trigger)
    requires |from| == OUTPUT_WIDTH && n < 8
    ensures MasksOf(from, from, n, [], t, 0)
  {}

  lemma NoPixelYet(from: seq<Byte>, masks: seq<Byte>, n: nat, starts: seq<Sprites.Trigger>, t: Sprites.Trigger,
                   u: Sprites.Trigger)
    requires n < 8 && MasksOf(from, masks, n, starts, t, 0)
    ensures MasksOf(from, masks, n, starts, u, 0)
  {}

  lemma DoneStarts(from: seq<Byte>, masks: seq<Byte>, n: nat, starts: seq<Sprites.Trigger>, t: Sprites.Trigger)
    requires n < 8 && MasksOf(from, masks, n, starts, t, 0)
    ensures forall c: nat | c < OUTPUT_WIDTH ::
      masks[c] == if Covered(starts, c) then from[c][7 - n := true] else from[c]
  {}

  lemma NextStart(from: seq<Byte>, masks: seq<Byte>, n: nat, starts: seq<Sprites.Trigger>, t: Sprites.Trigger,
                  u: Sprites.Trigger)
    requires n < 8 && MasksOf(from, masks, n, starts, t, 16)
    ensures MasksOf(from, masks, n, starts + [t], u, 0)
  {
    hide Covered;
    forall c: nat | c < OUTPUT_WIDTH
      ensures masks[c] == if Covered(starts + [t], c) then from[c][7 - n := true] else from[c]
    {
      CoveredNext(starts, t, c);
    }
  }

  lemma CoveredNext(starts: seq<Sprites.Trigger>, t: Sprites.Trigger, c: nat)
    ensures Covered(starts + [t], c) == (Covered(starts, c) || Covers(t, c, 16))
  {
    if Covered(starts, c) {
      var i :| 0 <= i < |starts| && Covers(starts[i], c, 16);
      assert Covers((starts + [t])[i], c, 16);
    }
    if Covers(t, c, 16) {
      assert Covers((starts + [t])[|starts|], c, 16);
    }
  }

  class Denise {
    var clxcon: Word
    var clxdat: Word
    var planeMatch: seq<(bool, bool)>
    var spriteGroups: seq<Groups>
    var groupPairs: seq<Word>

    /** The tables are those of CLXCON. */
    ghost predicate Valid()
      reads this
    {
      && |planeMatch| == 64 && (forall n: nat | n < 64 :: planeMatch[n] == PlaneEntry(clxcon, ToBits(n, 6)))
      && |spriteGroups| == 256 && (forall n: nat | n < 256 :: spriteGroups[n] == GroupEntry(clxcon, ToBits(n, 8)))
      && |groupPairs| == 16 && (forall n: nat | n < 16 :: groupPairs[n] == PairEntry(ToBits(n, 4)))
    }

    constructor ()
      ensures Valid() && clxcon == ZERO && clxdat == ZERO
    {
      clxcon, clxdat, planeMatch, spriteGroups, groupPairs := ZERO, ZERO, [], [], [];
      new;
      BuildCollisionTables();
    }

    method WriteClxcon(value: Word)
      modifies this
      ensures Valid() && clxcon == value && clxdat == old(clxdat)
    {
      clxcon := value;
      BuildCollisionTables();
    }

    method BuildCollisionTables()
      modifies this`planeMatch, this`spriteGroups, this`groupPairs
      ensures Valid()
    {
      hide PlaneEntry, GroupEntry, PairEntry;
      BuildPlanes();
      BuildGroups();
      BuildPairs();
    }

    method BuildPlanes()
      modifies this`planeMatch
      ensures |planeMatch| == 64 && (forall n: nat | n < 64 :: planeMatch[n] == PlaneEntry(clxcon, ToBits(n, 6)))
    {
      planeMatch := [];
      for planes := 0 to 64
        invariant |planeMatch| == planes
        invariant forall n: nat | n < planes :: planeMatch[n] == PlaneEntry(clxcon, ToBits(n, 6))
      {
        var differ := And(Xor(ToBits(planes, 6), MatchedPlanes(clxcon)), EnabledPlanes(clxcon));
        planeMatch := planeMatch + [(And(differ, ODD_PLANES) == Zeros(6), And(differ, EVEN_PLANES) == Zeros(6))];
      }
    }

    method BuildGroups()
      modifies this`spriteGroups
      ensures |spriteGroups| == 256 && (forall n: nat | n < 256 :: spriteGroups[n] == GroupEntry(clxcon, ToBits(n, 8)))
    {
      hide GroupEntry;
      spriteGroups := [];
      for sprites := 0 to 256
        invariant |spriteGroups| == sprites
        invariant forall n: nat | n < sprites :: spriteGroups[n] == GroupEntry(clxcon, ToBits(n, 8))
      {
        var groups := GroupsOf(ToBits(sprites, 8));
        spriteGroups := spriteGroups + [groups];
      }
    }

    method GroupsOf(sprites: Byte) returns (groups: Groups)
      ensures groups == GroupEntry(clxcon, sprites)
    {
      groups := Zeros(4);
      for g := 0 to 4
        invariant groups == GroupsBelow(clxcon, sprites, g)
      {
        GroupNext(clxcon, sprites, g);
        if sprites[7 - 2 * g] || (clxcon[3 - g] && sprites[7 - (2 * g + 1)]) {
          groups := groups[3 - g := true];
        }
      }
    }

    method BuildPairs()
      modifies this`groupPairs
      ensures |groupPairs| == 16 && (forall n: nat | n < 16 :: groupPairs[n] == PairEntry(ToBits(n, 4)))
    {
      hide PairEntry;
      groupPairs := [];
      for groups := 0 to 16
        invariant |groupPairs| == groups
        invariant forall n: nat | n < groups :: groupPairs[n] == PairEntry(ToBits(n, 4))
      {
        var pairs := PairsOf(ToBits(groups, 4));
        groupPairs := groupPairs + [pairs];
      }
    }

    /** Each pair of groups has its bit, from bit 9 on, in the order of the nested loops. */
    static method PairsOf(groups: Groups) returns (bits: Word)
      ensures bits == PairEntry(groups)
    {
      bits := ZERO;
      var bit := 9;
      FirstPair(groups);
      for a := 0 to 4
        invariant bit == PairBit(a, a + 1) && bits == PairsBefore(groups, a, a + 1)
      {
        for b := a + 1 to 4
          invariant bit == PairBit(a, b) && bits == PairsBefore(groups, a, b)
        {
          PairNext(groups, a, b);
          if groups[3 - a] && groups[3 - b] {
            bits := bits[15 - bit := true];
          }
          bit := bit + 1;
        }
        RowNext(groups, a);
      }
      assert PairEntry(groups) == PairsBefore(groups, 4, 5);
    }

    /** The tables, looked up. */
    method Collisions(planes: Planes, sprites: Byte) returns (bits: Word)
      requires Valid()
      ensures bits == PixelCollisions(clxcon, planes, sprites)
    {
      hide PlaneEntry, GroupEntry, PairEntry, GroupBits, PixelCollisions, Looked;
      Indexes(planes, sprites, GroupEntry(clxcon, sprites));
      TablesMean(clxcon, planes, sprites);
      var (odd, even) := planeMatch[Val(planes)];
      bits := Zeros(15) + [odd && even];
      if sprites == Zeros(8) {
        NoSprites(clxcon, planes, sprites);
        OnlyLast(odd && even);
        return;
      }
      var groups := spriteGroups[Val(sprites)];
      if odd {
        bits := Or(bits, GroupBits(groups, 1));
      }
      if even {
        bits := Or(bits, GroupBits(groups, 5));
      }
      bits := Or(bits, groupPairs[Val(groups)]);
      assert bits == Looked(odd, even, groups, PairEntry(groups)) by {
        LookedIs(odd, even, groups, PairEntry(groups));
      }
    }

    /** One opaque pixel of a sprite, on the columns of the line that show it. */
    static method DrawPixel(masks0: seq<Byte>, n: nat, column: int) returns (masks: seq<Byte>)
      requires |masks0| == OUTPUT_WIDTH && n < 8
      ensures |masks| == OUTPUT_WIDTH
      ensures forall c: nat | c < OUTPUT_WIDTH ::
        masks[c] == if c == column || c == column + 1 then masks0[c][7 - n := true] else masks0[c]
    {
      masks := masks0;
      if 0 <= column < OUTPUT_WIDTH {
        masks := masks[column := masks[column][7 - n := true]];
      }
      if 0 <= column + 1 < OUTPUT_WIDTH {
        masks := masks[column + 1 := masks[column + 1][7 - n := true]];
      }
    }

    /** The pixels of one start of sprite n. */
    static method DrawStart(from: seq<Byte>, masks0: seq<Byte>, n: nat, ghost before: seq<Sprites.Trigger>,
                            t: Sprites.Trigger)
      returns (masks: seq<Byte>)
      requires n < 8 && MasksOf(from, masks0, n, before, t, 0)
      ensures MasksOf(from, masks, n, before, t, 16)
    {
      hide Covered, PixelAt;
      masks := masks0;
      for i := 0 to 16
        invariant MasksOf(from, masks, n, before, t, i)
      {
        forall c: nat | c < OUTPUT_WIDTH
          ensures Covers(t, c, i + 1) == (Covers(t, c, i) || (PixelAt(t, c) == i && OpaquePixel(t, i)))
        {
          CoversNext(t, i, c);
        }
        if t.data[i] || t.datb[i] {
          forall c: nat | c < OUTPUT_WIDTH
            ensures (PixelAt(t, c) == i)
                <==> var column := 2 * (t.hstart + 1 + i - VIEWPORT_START_H); c == column || c == column + 1
          {
            Columns(t, i, c);
          }
          masks := DrawPixel(masks, n, 2 * (t.hstart + 1 + i - VIEWPORT_START_H));
        }
      }
    }

    /** All the starts of sprite n. */
    static method DrawSprite(from: seq<Byte>, n: nat, starts: seq<Sprites.Trigger>) returns (masks: seq<Byte>)
      requires |from| == OUTPUT_WIDTH && n < 8
      ensures |masks| == OUTPUT_WIDTH
      ensures forall c: nat | c < OUTPUT_WIDTH ::
        masks[c] == if Covered(starts, c) then from[c][7 - n := true] else from[c]
    {
      hide Covers;
      masks := from;
      ghost var none := Sprites.Trigger(0, ZERO, ZERO, false);
      NoPixels(from, n, none);
      for j := 0 to |starts|
        invariant MasksOf(from, masks, n, starts[..j], none, 0)
      {
        NoPixelYet(from, masks, n, starts[..j], none, starts[j]);
        masks := DrawStart(from, masks, n, starts[..j], starts[j]);
        NextStart(from, masks, n, starts[..j], starts[j], none);
        assert starts[..j + 1] == starts[..j] + [starts[j]];
      }
      assert starts[..|starts|] == starts;
      DoneStarts(from, masks, n, starts, none);
    }

    /** Which sprites are opaque at each column. */
    static method SpriteMask(starts: seq<seq<Sprites.Trigger>>) returns (masks: seq<Byte>)
      requires |starts| == Sprites.COUNT
      ensures |masks| == 640 && forall c: nat | c < 640 :: masks[c] == SpritesAt(starts, c)
    {
      hide Covered, SpritesBelow;
      masks := seq(OUTPUT_WIDTH, _ => Zeros(8));
      forall c: nat | c < OUTPUT_WIDTH
        ensures SpritesBelow(starts, c, 0) == Zeros(8)
      {
        NoneBelow(starts, c);
      }
      for n := 0 to Sprites.COUNT
        invariant |masks| == OUTPUT_WIDTH
        invariant forall c: nat | c < OUTPUT_WIDTH :: masks[c] == SpritesBelow(starts, c, n)
      {
        forall c: nat | c < OUTPUT_WIDTH
          ensures SpritesBelow(starts, c, n + 1)
               == if Covered(starts[n], c)
                  then SpritesBelow(starts, c, n)[7 - n := true]
                  else SpritesBelow(starts, c, n)
        {
          SpriteNext(starts, c, n);
        }
        masks := DrawSprite(masks, n, starts[n]);
      }
    }

    /** The collisions of a line, from the starts of the sprites on it. */
    method RenderCollisions(vertical: bool, pixels: seq<Planes>, starts: seq<seq<Sprites.Trigger>>, hstart: nat,
                            hstop: nat)
      requires Valid() && |pixels| == OUTPUT_WIDTH && |starts| == Sprites.COUNT
      modifies this`clxdat
      ensures Valid()
      ensures var masks := seq(640, c requires 0 <= c < 640 => SpritesAt(starts, c));
        clxdat == if vertical then Collected(clxcon, old(clxdat), pixels, masks, hstart, hstop, 640) else old(clxdat)
    {
      hide PlaneEntry, GroupEntry, PairEntry, Collected, SpritesAt;
      if vertical {
        var masks := SpriteMask(starts);
        assert masks == seq(OUTPUT_WIDTH, c requires 0 <= c < OUTPUT_WIDTH => SpritesAt(starts, c));
        CollectLine(vertical, pixels, masks, hstart, hstop);
      }
    }

    /** The collisions of a line: with a sprite at the pixel all the tables are looked up, without one only bit 0 can
        be set, and only if it is not set yet. */
    method CollectLine(vertical: bool, pixels: seq<Planes>, sprites: seq<Byte>, hstart: nat, hstop: nat)
      requires Valid() && |pixels| == |sprites| == OUTPUT_WIDTH
      modifies this`clxdat
      ensures Valid()
      ensures clxdat
           == if vertical then Collected(clxcon, old(clxdat), pixels, sprites, hstart, hstop, 640) else old(clxdat)
    {
      hide PlaneEntry, GroupEntry, PairEntry, PixelCollisions, Inside;
      if !vertical {
        return;
      }
      for x := 0 to OUTPUT_WIDTH
        invariant Valid() && clxdat == Collected(clxcon, old(clxdat), pixels, sprites, hstart, hstop, x)
      {
        if Inside(x, hstart, hstop) {
          CollectPixel(pixels[x], sprites[x]);
        }
      }
    }

    method CollectPixel(planes: Planes, sprites: Byte)
      requires Valid()
      modifies this`clxdat
      ensures Valid() && clxdat == Or(old(clxdat), PixelCollisions(clxcon, planes, sprites))
    {
      hide PlaneEntry, GroupEntry, PairEntry, PixelCollisions, Looked;
      if sprites != Zeros(8) {
        var bits := Collisions(planes, sprites);
        clxdat := Or(clxdat, bits);
        return;
      }
      NoSprites(clxcon, planes, sprites);
      Indexes(planes, sprites, GroupEntry(clxcon, sprites));
      OrLast(clxdat, true);
      OrLast(clxdat, false);
      if !clxdat[15] && planeMatch[Val(planes)] == (true, true) {
        clxdat := clxdat[15 := true];
      }
    }

    /** CLXDAT: the collisions since the last read; bit 15 reads as 1. */
    method ReadCollisions() returns (value: Word)
      modifies this`clxdat
      ensures value == old(clxdat)[0 := true] && clxdat == ZERO
    {
      value := clxdat[0 := true];
      clxdat := ZERO;
    }
  }

  lemma OnlyLast(b: bool)
    ensures Zeros(15) + [b] == ZERO[15 := b]
  {}

  lemma OrLast(w: Word, b: bool)
    ensures Or(w, ZERO[15 := b]) == w[15 := w[15] || b]
  {}

  lemma LookedIs(odd: bool, even: bool, groups: Groups, pairs: Word)
    ensures var planes: Word := Zeros(15) + [odd && even];
      var withOdd := if odd then Or(planes, GroupBits(groups, 1)) else planes;
      var withEven := if even then Or(withOdd, GroupBits(groups, 5)) else withOdd;
      Looked(odd, even, groups, pairs) == Or(withEven, pairs)
  {}

  /** Patterns index the tables. */
  lemma Indexes(planes: Planes, sprites: Byte, groups: Groups)
    ensures Val(planes) < 64 && ToBits(Val(planes), 6) == planes
    ensures Val(sprites) < 256 && ToBits(Val(sprites), 8) == sprites
    ensures Val(groups) < 16 && ToBits(Val(groups), 4) == groups
  {
    ValBound(planes);
    ValBound(sprites);
    ValBound(groups);
    BitsVal(planes);
    BitsVal(sprites);
    BitsVal(groups);
    assert Pow2(6) == 64 && Pow2(8) == 256 && Pow2(4) == 16;
  }

  // ----- groups against groups

  /** The number of the bit for groups a and b. */
  function PairBit(a: nat, b: nat): nat {
    if a == 0 then 8 + b else if a == 1 then 10 + b else if a < 4 then 11 + b else 15
  }

  /** The bits for the pairs before (a, b). */
  function PairsBefore(g: Groups, a: nat, b: nat): Word {
    seq(16, i requires 0 <= i < 16 => PairSet(g, 15 - i, a, b))
  }

  predicate PairSet(g: Groups, n: nat, a: nat, b: nat) {
    9 <= n <= 14 && Past(PairOf(n).0, PairOf(n).1, a, b) && g[3 - PairOf(n).0] && g[3 - PairOf(n).1]
  }

  predicate Past(i: nat, j: nat, a: nat, b: nat) { i < a || (i == a && j < b) }

  lemma PairNext(g: Groups, a: nat, b: nat)
    requires a < b < 4
    ensures PairsBefore(g, a, b + 1)
         == if g[3 - a] && g[3 - b] then PairsBefore(g, a, b)[15 - PairBit(a, b) := true] else PairsBefore(g, a, b)
  {}

  lemma RowNext(g: Groups, a: nat)
    requires a < 4
    ensures PairsBefore(g, a + 1, a + 2) == PairsBefore(g, a, 4)
    ensures PairBit(a + 1, a + 2) == PairBit(a, if a < 3 then 4 else a + 1)
  {}

  lemma FirstPair(g: Groups)
    ensures PairsBefore(g, 0, 1) == ZERO
  {}
}
