/** Sprite lists in chip RAM: the DMA channels show each use of a sprite on exactly its lines. */
module SpriteLists {
  import opened Bits
  import opened ChipRam
  import opened Sprites
  import opened Wrappers

  /** The lines of one use of a sprite. */
  datatype Use = Use(vstart: nat, vstop: nat)

  /** A list at this address: POS and CTL, a pair of words for each line, and so on; an empty use ends it. */
  predicate ListAt(ram: seq<Word>, pt: int, uses: seq<Use>)
    requires |ram| == WORDS
    decreases |uses|
  {
    var pos, ctl := Val(Read(ram, pt)), Val(Read(ram, pt + 2));
    var vstart, vstop := pos / 256 + ctl / 4 % 2 * 256, ctl / 256 + ctl / 2 % 2 * 256;
    if uses == [] then vstop <= vstart
    else
      var use := uses[0];
      && Use(vstart, vstop) == use && vstart < vstop
      && (|uses| > 1 ==> use.vstop <= uses[1].vstart)
      && ListAt(ram, After(pt, use), uses[1..])
  }

  function After(pt: int, use: Use): int { pt + 4 + 4 * (use.vstop - use.vstart) }

  /** POS and CTL of a use, and DATA and DATB of a line. */
  datatype Picture = Picture(pos: Word, ctl: Word, data: Word, datb: Word)

  function PictureAt(ram: seq<Word>, pt: int, line: int): Picture
    requires |ram| == WORDS
  {
    Picture(Read(ram, pt), Read(ram, pt + 2), Read(ram, pt + 4 + 4 * line), Read(ram, pt + 4 + 4 * line + 2))
  }

  /** What a list shows on a line. */
  function Shows(ram: seq<Word>, pt: int, uses: seq<Use>, vpos: nat): Option<Picture>
    requires |ram| == WORDS
    decreases |uses|
  {
    if uses == [] || vpos < uses[0].vstart then None
    else if vpos < uses[0].vstop then Some(PictureAt(ram, pt, vpos - uses[0].vstart))
    else Shows(ram, After(pt, uses[0]), uses[1..], vpos)
  }

  /** A channel after lines FIRST_DMA_LINE to vpos. */
  function Lines(ram: seq<Word>, s: Sprite, vpos: nat): Sprite
    requires |ram| == WORDS && vpos >= FIRST_DMA_LINE
  {
    DmaStep(ram, if vpos == FIRST_DMA_LINE then s else Lines(ram, s, vpos - 1), vpos)
  }

  function PictureOf(r: Registers): Picture { Picture(r.pos, r.ctl, r.data, r.datb) }

  /** The channel is in the first use of this list, or waits for it. */
  predicate In(ram: seq<Word>, s: Sprite, pt: int, uses: seq<Use>, vpos: nat)
    requires |ram| == WORDS
  {
    if uses == [] then s.dma == Idle && !s.regs.armed
    else
      var use := uses[0];
      && Use(s.regs.VStart(), s.regs.VStop()) == use && vpos < use.vstop
      && s.regs.pos == Read(ram, pt) && s.regs.ctl == Read(ram, pt + 2)
      && if vpos < use.vstart then s.dma == WaitStart && !s.regs.armed && s.pointer == Mask(pt + 4)
         else
           && s.dma == Active && s.regs.armed && PictureOf(s.regs) == PictureAt(ram, pt, vpos - use.vstart)
           && s.pointer == Mask(pt + 4 + 4 * (vpos + 1 - use.vstart))
  }

  lemma FetchesControl(ram: seq<Word>, s: Sprite, pt: int, uses: seq<Use>)
    requires |ram| == WORDS && s.pointer == Mask(pt) && ListAt(ram, pt, uses)
    ensures var t := Control(ram, s);
      && t.pointer == Mask(pt + 4) && !t.regs.armed && t.dma == (if uses == [] then Idle else WaitStart)
      && t.regs.pos == Read(ram, pt) && t.regs.ctl == Read(ram, pt + 2)
      && (uses != [] ==> Use(t.regs.VStart(), t.regs.VStop()) == uses[0] && uses[0].vstart < uses[0].vstop)
  {
    hide Mask, Read, Val, Registers.VStart, Registers.VStop;
    VerticalBits(Control(ram, s).regs);
    ReadMasked(ram, pt, 0);
    ReadMasked(ram, pt, 2);
    MaskAdds(pt, 4);
    assert Mask(pt) + 0 == Mask(pt);
  }

  lemma FetchesData(ram: seq<Word>, s: Sprite, from: int)
    requires |ram| == WORDS && s.pointer == Mask(from)
    ensures var t := LineData(ram, s);
      && t.pointer == Mask(from + 4) && t.dma == s.dma
      && t.regs == s.regs.(data := Read(ram, from), datb := Read(ram, from + 2), armed := true)
  {
    hide Mask, Read;
    ReadMasked(ram, from, 0);
    ReadMasked(ram, from, 2);
    MaskAdds(from, 4);
    assert Mask(from) + 0 == Mask(from);
  }

  /** Fetching POS and CTL enters the list. */
  lemma Enter(ram: seq<Word>, s: Sprite, pt: int, uses: seq<Use>, vpos: nat)
    requires |ram| == WORDS && s.pointer == Mask(pt) && ListAt(ram, pt, uses)
    requires uses != [] ==> vpos <= uses[0].vstart
    ensures var t := Begun(Control(ram, s), vpos);
      && (t.dma == Active ==> t.regs.VStop() != vpos)
      && In(ram, if t.dma == Active then LineData(ram, t) else t, pt, uses, vpos)
  {
    hide Mask, Read, Val, ListAt, Control, LineData;
    FetchesControl(ram, s, pt, uses);
    var t := Begun(Control(ram, s), vpos);
    if t.dma == Active {
      FetchesData(ram, t, pt + 4);
    }
  }

  /** One more line: the same use goes on, or the next one is entered. */
  lemma OneLine(ram: seq<Word>, s: Sprite, pt: int, uses: seq<Use>, vpos: nat) returns (pt': int, uses': seq<Use>)
    requires |ram| == WORDS && vpos > FIRST_DMA_LINE && ListAt(ram, pt, uses) && In(ram, s, pt, uses, vpos - 1)
    ensures ListAt(ram, pt', uses') && In(ram, DmaStep(ram, s, vpos), pt', uses', vpos)
    ensures forall v: nat | v >= vpos :: Shows(ram, pt, uses, v) == Shows(ram, pt', uses', v)
  {
    if uses != [] && vpos == uses[0].vstop {
      pt', uses' := After(pt, uses[0]), uses[1..];
      hide ListAt, LineData, Control, Mask;
      Enter(ram, s, pt', uses', vpos);
    } else {
      pt', uses' := pt, uses;
      SameUse(ram, s, pt, uses, vpos);
    }
  }

  lemma SameUse(ram: seq<Word>, s: Sprite, pt: int, uses: seq<Use>, vpos: nat)
    requires |ram| == WORDS && vpos > FIRST_DMA_LINE && In(ram, s, pt, uses, vpos - 1)
    requires uses != [] ==> vpos < uses[0].vstop
    ensures In(ram, DmaStep(ram, s, vpos), pt, uses, vpos)
  {
    hide Control, Mask, Read, LineData, Val;
    if uses != [] && vpos >= uses[0].vstart {
      FetchesData(ram, Begun(s, vpos), pt + 4 + 4 * (vpos - uses[0].vstart));
    }
  }

  lemma {:induction false} FollowsList(ram: seq<Word>, s: Sprite, pt: int, uses: seq<Use>, vpos: nat)
    returns (pt': int, uses': seq<Use>)
    requires |ram| == WORDS && s.pointer == Mask(pt) && ListAt(ram, pt, uses) && vpos >= FIRST_DMA_LINE
    requires uses != [] ==> uses[0].vstart >= FIRST_DMA_LINE
    ensures ListAt(ram, pt', uses') && In(ram, Lines(ram, s, vpos), pt', uses', vpos)
    ensures forall v: nat | v >= vpos :: Shows(ram, pt, uses, v) == Shows(ram, pt', uses', v)
  {
    hide DmaStep, ListAt, In, Mask;
    if vpos == FIRST_DMA_LINE {
      pt', uses' := pt, uses;
      FirstLine(ram, s, pt, uses);
    } else {
      pt', uses' := FollowsList(ram, s, pt, uses, vpos - 1);
      pt', uses' := OneLine(ram, Lines(ram, s, vpos - 1), pt', uses', vpos);
    }
  }

  lemma FirstLine(ram: seq<Word>, s: Sprite, pt: int, uses: seq<Use>)
    requires |ram| == WORDS && s.pointer == Mask(pt) && ListAt(ram, pt, uses)
    requires uses != [] ==> uses[0].vstart >= FIRST_DMA_LINE
    ensures In(ram, DmaStep(ram, s, FIRST_DMA_LINE), pt, uses, FIRST_DMA_LINE)
  {
    hide ListAt, In, Mask, LineData, Control;
    Enter(ram, s, pt, uses, FIRST_DMA_LINE);
  }

  /** On every line the sprite is armed exactly when its list shows something there, with POS and CTL of
      the use and the two words of that line. */
  lemma SpriteShows(ram: seq<Word>, s: Sprite, pt: int, uses: seq<Use>, vpos: nat)
    requires |ram| == WORDS && s.pointer == Mask(pt) && ListAt(ram, pt, uses) && vpos >= 25
    requires uses != [] ==> uses[0].vstart >= 25
    ensures var r := Lines(ram, s, vpos).regs;
      Shows(ram, pt, uses, vpos) == if r.armed then Some(Picture(r.pos, r.ctl, r.data, r.datb)) else None
  {
    hide Lines, ListAt, Mask;
    var pt', uses' := FollowsList(ram, s, pt, uses, vpos);
    assert Shows(ram, pt, uses, vpos) == Shows(ram, pt', uses', vpos);
  }
}
