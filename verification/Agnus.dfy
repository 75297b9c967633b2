/** The beam counter (src/core/agnus.hpp, src/core/timing.hpp). */
module Agnus {
  const CLOCKS_PER_LINE := 227
  const LINES_PER_FRAME := 313
  const CLOCKS_PER_FRAME := CLOCKS_PER_LINE * LINES_PER_FRAME

  class Agnus {
    var vpos: nat
    var hpos: nat

    ghost predicate Valid()
      reads this
    {
      vpos < LINES_PER_FRAME && hpos < CLOCKS_PER_LINE
    }

    /** Color clocks since the start of the frame. */
    ghost function Position(): (p: nat)
      reads this
      requires Valid()
      ensures p < 71051 && p / 227 == vpos && p % 227 == hpos
    {
      vpos * CLOCKS_PER_LINE + hpos
    }

    constructor ()
      ensures Valid() && Position() == 0
    {
      vpos, hpos := 0, 0;
    }

    /** The beam moves on; the result tells whether it is back at the top. */
    method AdvanceBeam() returns (frame: bool)
      requires Valid()
      modifies this
      ensures Valid() && Position() == (old(Position()) + 1) % CLOCKS_PER_FRAME && frame == (Position() == 0)
      ensures hpos == (old(hpos) + 1) % 227 && vpos == (if hpos == 0 then (old(vpos) + 1) % 313 else old(vpos))
    {
      hpos := hpos + 1;
      if hpos < CLOCKS_PER_LINE {
        return false;
      }
      hpos := 0;
      vpos := vpos + 1;
      if vpos < LINES_PER_FRAME {
        return false;
      }
      vpos := 0;
      return true;
    }
  }
}
