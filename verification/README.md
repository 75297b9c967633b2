# The Amiga 500 core, modelled and proved in Dafny

A model of the SDL-free core of an Amiga 500 emulator, and proofs of what its dense bit arithmetic, state machines and
fast forms are for. `dafny verify dfyconfig.toml` checks the whole project.

| files | what they model |
|---|---|
| `Wrappers.dfy`, `Bits.dfy`, `ChipRam.dfy` | a value that may be missing; machine words as bit strings (most significant bit first), the numbers they stand for, and chip RAM as 0x40000 words at even addresses modulo 2^19 |
| `Adf.dfy`, `MfmTrack.dfy`, `MfmDecode.dfy` | the AmigaDOS MFM track encoder, the circle of bits it makes, and the decoder |
| `Floppy.dfy`, `DiskController.dfy`, `DiskRead.dfy` | the rotating drive with its track cache, the bit-serial sync search and DMA, and a disk read as a whole |
| `Blitter.dfy`, `BlitterArea.dfy`, `BlitterLine.dfy` | the blitter; what an area blit, a fill and a line mean |
| `Sprites.dfy`, `SpriteLists.dfy`, `Agnus.dfy`, `Chipset.dfy` | the sprite write log and its replay, sprite DMA, the beam, and the order of the chips in a color clock |
| `CpuArithmetic.dfy`, `CpuDecimal.dfy`, `CpuMemory.dfy`, `CpuShift.dfy`, `CpuExceptions.dfy`, `Cpu68000.dfy` | 68000 flags and multi-precision chains, packed decimal, in registers and in memory; shifts; exceptions |
| `PaulaAudio.dfy`, `Copper.dfy`, `CopperLists.dfy`, `Cia.dfy`, `Machine.dfy` | the clocked machines and the scheduler |
| `Denise.dfy` | the collision tables against the definition of a collision |

Objects whose methods change fields are classes, and their loops are loops; each method is proved against a
specification function over values (its state before and after), and the properties are lemmas about those functions.
`ghost` fields and parameters only record what has happened so far.

Where the code and its comments could be read differently, the model follows the code:

- A sprite start that the log no longer shows (more than 128 writes on a line) is lost: the starts shown on a line are
  those of the beam simulation over the first 128 writes.
- The error term, increments and modulos of a line blit are 16-bit and signed; the wrap-around is in the model
  (`Signed16`), and `BlitterLine.LineError` shows that the standard set-up never reaches it.
- An exception with an odd SSP stacks nothing and halts the CPU, although the entry has already switched SR and the
  stack pointers (`Cpu68000.Step`).
- ABCD and SBCD of bytes that are not packed decimal wrap as the code does (`CpuDecimal.AddDecimal`,
  `CpuDecimal.SubDecimal`); the exact sums are claimed for packed bytes.
- The playback claims hold for DMA held on and registers and memory fixed, as playback is defined by them.

## Model

| member | source | states |
|---|---|---|
| `Adf.EncodeTrack` | src/core/adf.cpp:70-103 | the track written, word by word and in place, is the reference encoding of its items: every word clocked after the last bit of the word before it |
| `Adf.EncodeSectors` | src/core/adf.cpp:72-101 | the 11 sectors come out joined, in order, 544 words each |
| `Adf.MfmWriter.Raw` | src/core/adf.cpp:27-30 | the buffer holds the encoding of all that was written, as far as it fits; the clock state follows the last bit written, also when a full buffer drops the word |
| `Adf.MfmWriter.Data16` | src/core/adf.cpp:20-25 | the masks and shifts write exactly the word that the clock rule gives for these data bits |
| `Adf.MasksClock` | src/core/adf.cpp:20-25 | a clock bit is 1 exactly when the data bits on both sides are 0, across word boundaries too |
| `Adf.ClockedUnique` | src/core/adf.cpp:13-25 | data bits and the clock rule determine a word |
| `Adf.EncodeUnique` | src/core/adf.cpp:27-30 | a buffer in which every word follows the clock rule is the encoding of its items: there is no other |
| `Adf.MfmWriter.HalfLong` | src/core/adf.cpp:33-36 | a long half is two data words, high word first, whatever room is left |
| `Adf.MfmWriter.Header` | src/core/adf.cpp:75-88 | gap, two sync words, info long, empty label and header checksum, each odd bits first |
| `Adf.MfmWriter.Body` | src/core/adf.cpp:90-100 | the checksum accumulated in the loop, then all odd bits and all even bits of the data |
| `Adf.TrackItems` | src/core/adf.cpp:70-103 | the items of a track are always 6250 |
| `MfmTrack.ValidMfmOnes` | src/core/adf.cpp:13-30 | every encoded track, read as a circle of bits, has no two 1 bits in a row |
| `MfmTrack.ValidMfmZeros` | src/core/adf.cpp:13-30 | ... and no four 0 bits in a row |
| `MfmTrack.ClockRule` | src/core/adf.cpp:20-30 | around the circle a clock bit is 1 exactly between two 0 bits, but for the one missing from each sync word |
| `MfmTrack.SyncPositions` | src/core/adf.cpp:77-78 | the pattern $4489, tried at every bit offset of the circle, is found exactly at the sync words |
| `MfmTrack.SyncCount` | src/core/adf.cpp:72-78 | there are 22 sync words on a track |
| `MfmTrack.TrackSyncs` | src/core/adf.cpp:72-103 | the sync words are words 2 and 3 of each of the 544-word sectors |
| `MfmDecode.DecodesBack` | src/core/adf.cpp:70-103 | decoding undoes encoding: for every image, track and sector, the 540 words after the sync words give $FF, the track, the sector and the distance to the gap, both checksums match the XOR of what they cover, and data byte b is byte 512 * (11 * track + sector) + b of the image |
| `MfmDecode.ReadsMean` | src/core/adf.cpp:46-52 | decoded longs that match are the header fields and the bytes of the image, by number |
| `MfmDecode.SectorPlace` | src/core/adf.hpp:46-49 | where a sector is in the image |
| `MfmDecode.ImageComesBack` | src/core/adf.cpp:70-103 | any buffers that read as sectors 0 to 10 of tracks 0 to 159, decoded and joined in this order, are the image |
| `MfmDecode.DiskComesBack` | src/core/adf.cpp:70-103 | encoding all 160 tracks and decoding them gives back all 901,120 bytes |
| `MfmDecode.HeaderXor` | src/core/adf.cpp:86-88 | the XOR over the encoded info and label longs, masked, is the header checksum |
| `MfmDecode.DataXor` | src/core/adf.cpp:90-97 | the XOR over the encoded data longs, masked, is the data checksum, although the encoder pairs odd and even bits |
| `MfmDecode.MfmKeepsData` | src/core/adf.cpp:20-25 | clock bits never disturb data bits |
| `Floppy.FloppyDrive.Control` | src/core/floppy.hpp:65-72 | motor latched on selection, head stepped on the falling edge, side and levels taken over |
| `Floppy.ControlMeans` | src/core/floppy.hpp:65-72 | what each line of the port does, by bit number: selection, motor, side, and a step in or out of one of the 80 cylinders on a falling /STEP |
| `Floppy.LinesBits` | src/core/floppy.hpp:32-36 | the bits of the port |
| `Floppy.FloppyDrive.Step` | src/core/floppy.hpp:121-128 | the head moves one cylinder and stops at the ends; a disk in the drive resets the change latch |
| `Floppy.FloppyDrive.NextWord` | src/core/floppy.hpp:96-112 | whatever is in the cache, the word is the one the disk has at this cylinder, head and position; the index pulse comes with position 0 |
| `Floppy.FloppyDrive.DoTick` | src/core/floppy.hpp:86-92 | one color clock of rotation: a word passes when its time has come |
| `Floppy.Turning` | src/core/floppy.hpp:86-110 | when the disk turns, and which track is under the head |
| `Floppy.Rotation` | src/core/floppy.hpp:86-101 | in n color clocks exactly floor((rotation + 2n) / 227) words pass, consecutive on the circle of 6250 |
| `Floppy.OneIndexPerRevolution` | src/core/floppy.hpp:99-102 | any 6250 consecutive words include the index exactly once |
| `DiskController.Controller.DiskWord` | src/core/disk_controller.hpp:73-93 | sixteen bits shifted in are the bit-by-bit specification: registers, words stored in chip RAM, DSKSYN and DSKBLK |
| `DiskController.Controller.Act` | src/core/disk_controller.hpp:78-92 | a match ends the wait without being stored, or is a word boundary; otherwise sixteen bits are a word |
| `DiskController.Controller.StoreWord` | src/core/disk_controller.hpp:101-112 | a word is stored only by an active transfer that does not wait, and the last one ends it with DSKBLK |
| `DiskController.Controller.WriteDsklen` | src/core/disk_controller.hpp:114-137 | the second write with DMAEN starts a transfer; one to disk or of no words is over at once; a write without DMAEN stops it; the first write only arms, and neither of these touches the length or the wait |
| `DiskController.BitMeans` | src/core/disk_controller.hpp:73-112 | one bit in full: when a word ends, when the wait for a sync word ends, what is stored and which requests are raised |
| `DiskController.SyncsRaised` | src/core/disk_controller.hpp:73-92 | over any stream of bits DSKSYN is raised at each bit offset whose last sixteen bits are DSKSYNC, and at no other |
| `DiskController.Controller.WordSyncBit` | src/core/disk_controller.hpp:36 | WORDSYNC is bit 10 of ADKCON |
| `DiskRead.SyncWordPasses` | src/core/disk_controller.hpp:80-86 | from any shift register contents with no match across the boundary, the sync word ends the wait, is not stored, and aligns the words |
| `DiskRead.WordStored` | src/core/disk_controller.hpp:75-92 | during a transfer each aligned word is stored exactly once, sync words included |
| `DiskRead.IdleBits` | src/core/disk_controller.hpp:75-92 | while waiting or stopped, bits that do not complete the sync word change nothing of the transfer |
| `DiskRead.ReadRuns` | src/core/disk_controller.hpp:73-112 | a read started at any position of the circle stores the words after the first sync word met, up to n of them; DSKBLK comes once |
| `DiskRead.RunRead` | src/core/machine.cpp:143-152 | drive, controller and chip RAM together, turbo or not, for any number of color clocks: chip RAM holds exactly the words that followed the first sync, DSKBLK came once if all were stored and not at all before |
| `DiskRead.Idle` | src/core/machine.cpp:143-152 | while nothing is read chip RAM and the pointer stay, the drive turns as `Floppy.Turned` says, and after one word the shift register holds the word under the head |
| `DiskRead.ReadDisk` | src/core/disk_controller.hpp:73-137 | a whole read from any state of the controller: stop, let a word pass, write DSKLEN twice, turn; its start is where `RunRead` needs it, and the words are those after the first sync from there |
| `DiskRead.ReadEnds` | src/core/disk_controller.hpp:100-112 | with 114 color clocks for each word the read is over and chip RAM holds all n words |
| `DiskRead.EncodedReadable` | src/core/disk_controller.hpp:75-88 | on every encoded track the sync pattern never lies across two words, so that the serial search finds the sync words only |
| `DiskRead.AllSectorsRead` | src/core/disk_controller.hpp:73-112 | a read of at least 6250 words, from any position, holds all 11 sectors in one piece each |
| `DiskRead.TrackComesBack` | src/core/disk_controller.hpp:73-112 | from disk image to chip RAM and back: after such a read every sector decodes from chip RAM to bytes 512 * (11 * track + sector) on of the image, with matching header and checksums |
| `ChipRam.StoreReads` | src/core/disk_controller.hpp:105-107 | DMA wraps at the end of chip RAM; what is stored can be read back, and all other words stay |
| `ChipRam.BothHalves` | src/core/copper.cpp:10-16 | writing both halves of a pointer, in either order, sets it to that address in chip RAM, whatever it was |
| `ChipRam.MaskAdds` | src/core/sprites.hpp:150 | masking a DMA pointer after every step or only when it is used makes no difference |
| `Blitter.ComputeMinterm` | src/core/blitter.cpp:23-33 | the loop over the eight terms selects bit 4a + 2b + c of LF for every bit |
| `Blitter.FillWord` | src/core/blitter.cpp:138-146 | the bit loop is the fill of the word from the right, with its carry |
| `Blitter.Blitter.AreaWord` | src/core/blitter.cpp:110-153 | one word: sources, masks, shifters, minterm, fill, destination and pointers |
| `Blitter.Blitter.AreaRow` | src/core/blitter.cpp:108-154 | one row, with the fill carry starting at FCI |
| `Blitter.Blitter.Modulos` | src/core/blitter.cpp:155-161 | modulos on enabled channels only, added or subtracted |
| `Blitter.Blitter.RunArea` | src/core/blitter.cpp:94-165 | the nested loops are the rows of the specification: RAM, pointers, data registers, BZERO, BLTDDAT |
| `Blitter.Blitter.AreaBits` | src/core/blitter.cpp:95-101 | BLTCON0 and BLTCON1 by bit number |
| `BlitterArea.WordMeans` | src/core/blitter.cpp:107-161 | word k of row j of any area blit: A is masked by BLTAFWM in the first and BLTALWM in the last word of a row, channels that are off give their data registers, bit 4a + 2b + c of LF makes D, and every channel reads or writes at its own place |
| `BlitterArea.AtPlace` | src/core/blitter.cpp:103-161 | the pointers and data registers when the blit comes to word k of row j |
| `BlitterArea.RowsFollow` | src/core/blitter.cpp:107-162 | each row starts from the RAM that the one before it left |
| `BlitterArea.AscendingShift` | src/core/blitter.cpp:15-19 | the words out of the shifter and what stays in it are the joined words after shift zeros |
| `BlitterArea.BlitShifts` | src/core/blitter.cpp:103-127 | over a whole blit of any number of rows, the shifted A (and B) words joined are the joined words divided by 2^shift ascending, multiplied modulo 2^(16N) descending |
| `BlitterArea.ShiftDivides` | src/core/blitter.cpp:15-19 | ascending: division by 2^shift, rounding down |
| `BlitterArea.ShiftMultiplies` | src/core/blitter.cpp:15-19 | descending: multiplication by 2^shift, modulo the length |
| `BlitterArea.AreaFills` | src/core/blitter.cpp:107-147 | every row of a fill is filled as one string of bits: the carry crosses words and restarts at FCI |
| `BlitterArea.FillIsParity` | src/core/blitter.cpp:138-146 | bit p from the right is FCI xor the parity of edges 0 to p, or (inclusive) that or the edge itself |
| `BlitterArea.FilledAt` | src/core/blitter.cpp:140-145 | the same for one string of any length |
| `BlitterArea.BlitMoves` | src/core/blitter.cpp:94-165 | a copying blit moves a rectangle even onto itself, ascending when the destination is not above the source and descending when it is not below, and leaves every other word alone |
| `BlitterArea.CopyRows` | src/core/blitter.cpp:107-162 | the state half-way through a move: what has been copied, what has not, and the pointers |
| `BlitterArea.PointersAdvance` | src/core/blitter.cpp:103-162 | whatever is computed, each enabled pointer moves by height * (2 * width + modulo), and the others stay |
| `Blitter.Blitter.RunLine` | src/core/blitter.cpp:171-242 | the pixel loop is the specification: RAM, error term, pointers, shift, sign, BZERO |
| `Blitter.Blitter.LineBits` | src/core/blitter.cpp:172-185 | the control registers of a line by bit number |
| `Blitter.Blitter.StartBits` | src/core/blitter.cpp:174-183 | where a line starts: the 16-bit error term of BLTAPT, SIGN, ASH, and the texture turned right by BSH |
| `Blitter.SignedCast` | src/core/blitter.cpp:177 | the cast to 16 bits |
| `Blitter.Blitter.MoveOn` | src/core/blitter.cpp:212-234 | the sometimes step, the always step, the 16-bit error term and the one-dot flag |
| `Blitter.Blitter.DrawDot` | src/core/blitter.cpp:202-210 | one pixel: texture, minterm, single-dot mode |
| `BlitterLine.LineError` | src/core/blitter.cpp:216-231 | with the standard set-up the error term is 4 dmin (k + 1) - 2 dmax - 4 dmax m and stays in [4 dmin - 4 dmax, 4 dmin), so that 16 bits never overflow |
| `BlitterLine.MinorNext` | src/core/blitter.cpp:216-225 | the sign of the error term tells exactly when the rounded position moves on |
| `BlitterLine.HalfPixel` | src/core/blitter.cpp:216-231 | the minor-axis offset is within half a pixel of k * dmin / dmax |
| `BlitterLine.LinePosition` | src/core/blitter.cpp:185-237 | word address and pixel shift track the rounded point in all eight octants, modulo the size of chip RAM |
| `BlitterLine.DotMeans` | src/core/blitter.cpp:202-206 | any dot bit by bit: the minterm of A at the pixel, the texture bit at the right end, and C |
| `BlitterLine.TextureTurns` | src/core/blitter.cpp:235 | the texture turns left by one with each pixel |
| `BlitterLine.LinePaints` | src/core/blitter.cpp:201-238 | a line of any texture: each bit of chip RAM is the texture bit of the last point drawn there (in single-dot mode the first of each row only), and all other bits stay |
| `BlitterLine.LineDraws` | src/core/blitter.cpp:201-238 | with a texture of ones it sets exactly the bits of its points |
| `BlitterLine.DrawnWords` | src/core/blitter.cpp:201-213 | BZERO sees one word per point: the one computed there, and the one stored in RAM |
| `Sprites.Sprites.Set` | src/core/sprites.hpp:174-177 | every write reaches the register and, while there is room, the log; log and registers agree at all times |
| `Sprites.Sprites.BeginLine` | src/core/sprites.hpp:81-84 | a line starts from the registers as they are, with an empty log |
| `Sprites.Sprites.WriteRegister` | src/core/sprites.hpp:87-102 | offsets decode to sprite and register: one event is logged for POS, CTL, DATA, DATB and none for pointers and other offsets; the new sprites |
| `Sprites.Sprites.Triggers` | src/core/sprites.hpp:113-133 | the skip-ahead replay of any log in beam order gives the first 16 of the starts that a beam visiting all 512 positions sees: position, data, attach bit |
| `Sprites.RegistersMean` | src/core/sprites.hpp:165-172 | at any position each register holds what was last written to it; a sprite is armed exactly if the last write to CTL or DATA was one to DATA, or there was none and it began the line armed |
| `Sprites.StartsMean` | src/core/sprites.hpp:113-133 | a sprite starts at a position exactly if it is armed there and 2 * (POS mod 256) + CTL mod 2 is the position, with the DATA, DATB and attach bit of that moment |
| `Sprites.VerticalBits` | src/core/sprites.hpp:60-65 | VSTART and VSTOP by bit number |
| `Sprites.OffsetsMean` | src/core/sprites.hpp:87-102 | which register is at which offset |
| `Sprites.StartsIncrease` | src/core/sprites.hpp:113-133 | starts are strictly increasing |
| `Sprites.Skip` | src/core/sprites.hpp:121-130 | between two writes a sprite starts where HSTART says or nowhere |
| `Sprites.Shown` | src/core/sprites.hpp:124-128 | a start is shown once, at its position |
| `Sprites.Finished` | src/core/sprites.hpp:129 | after the last write nothing more starts |
| `Sprites.Sprites.ActiveOnLine` | src/core/sprites.hpp:105-111 | when no sprite is active there are no starts |
| `Sprites.Sprites.DmaChannel` | src/core/sprites.hpp:138-153 | one channel on one line: start, stop, next use, and exactly the writes it logs, in order |
| `Sprites.Sprites.DmaLine` | src/core/sprites.hpp:136-155 | all eight channels, from line 25 on and with DMA only, with all they log at color clock $15, channel by channel |
| `Sprites.LineReplays` | src/core/sprites.hpp:136-155 | replaying what DMA logs on a line gives each sprite the registers that DMA wrote: no channel touches another sprite |
| `SpriteLists.SpriteShows` | src/core/sprites.hpp:136-155 | on every line from 25 on a sprite is armed exactly when its list in chip RAM shows something there, with POS and CTL of that use and the two words of that line, however often it is used again |
| `SpriteLists.OneLine` | src/core/sprites.hpp:144-149 | at VSTOP the next use is entered, even one that starts on the same line |
| `Chipset.Chipset.Tick` | src/core/chipset.cpp:72-93 | the order of the chips in a color clock: the whole new state of Copper, sprites and log, and, because the log stays in beam order, the starts at the end of a line, which are those of the beam simulation over the first 128 writes of the line |
| `Chipset.Chipset.TickLine` | src/core/chipset.cpp:87-89 | the log starts afresh at color clock 0; sprite DMA steps every channel at $15 and logs exactly what it writes |
| `Chipset.LineTimes` | src/core/chipset.cpp:87-89 | color clock 0 begins a line, color clock $15 is that of sprite DMA, from line 25 on |
| `Chipset.Restarts` | src/core/chipset.cpp:76-79 | the Copper begins its first list in color clock 0 of line 0 and at no other time |
| `Chipset.LogGrows` | src/core/chipset.cpp:54 | exactly the writes to the POS, CTL, DATA and DATB registers are logged, by the CPU or by the Copper, with sprite and register number |
| `Chipset.Chipset.TickCopper` | src/core/chipset.cpp:76-81 | the Copper restarts at the top of the frame; its write, if it makes one, changes the sprites and is logged in its color clock with register and value |
| `Chipset.Chipset.WriteCustom` | src/core/chipset.cpp:54 | a CPU write between color clocks changes the sprites and is logged at the beam position with register and value, or reaches the Copper |
| `Chipset.Chipset.SpriteStarts` | src/core/denise.cpp:55-58 | the starts of all eight sprites, none when no sprite is active |
| `Cpu68000.Cpu68000.AddWithFlags` | src/core/cpu68000.cpp:1381-1397 | result modulo the size, C and X the carry, V exactly when the signed sum does not fit, Z only cleared when extending |
| `Cpu68000.Cpu68000.SubWithFlags` | src/core/cpu68000.cpp:1400-1416 | the same for differences and borrows |
| `Cpu68000.Cpu68000.Compare` | src/core/cpu68000.cpp:1419-1423 | the flags of a difference, with X kept |
| `CpuArithmetic.SumOverflow` | src/core/cpu68000.cpp:1393 | the sign-bit test for V means that the signed sum does not fit |
| `CpuArithmetic.DifferenceOverflow` | src/core/cpu68000.cpp:1412 | the sign-bit test for V means that the signed difference does not fit |
| `CpuArithmetic.ConditionsCompare` | src/core/cpu68000.cpp:1419-1446 | after a compare HI, LS, CC, CS, NE, EQ compare unsigned and GE, LT, GT, LE signed; VS says that the signed difference does not fit, MI that its top bit is set |
| `Cpu68000.Cpu68000.OpAddxSubx` | src/core/cpu68000.cpp:744-756 | ADDX and SUBX on data registers are one limb of a chain |
| `CpuArithmetic.ChainExact` | src/core/cpu68000.cpp:743-762 | a chain over any number of limbs of any size computes the exact sum or difference, X and C the carry or borrow, Z (if set before) exactly when the whole result is zero |
| `CpuArithmetic.ChainSigned` | src/core/cpu68000.cpp:1381-1416 | after the last limb N, V and C are those of the numbers as a whole |
| `Cpu68000.Cpu68000.OpAbcdSbcd` | src/core/cpu68000.cpp:925-966 | ABCD and SBCD on data registers are one byte of a decimal chain |
| `Cpu68000.Cpu68000.OpNbcd` | src/core/cpu68000.cpp:969-989 | NBCD of a data register subtracts from zero |
| `Cpu68000.Cpu68000.OpNbcdMemory` | src/core/cpu68000.cpp:969-989 | NBCD of a byte in memory, at any address |
| `CpuDecimal.AddsDigits` | src/core/cpu68000.cpp:951-958 | two packed digits are added exactly, carry for 100 |
| `CpuDecimal.SubtractsDigits` | src/core/cpu68000.cpp:945-950 | two packed digits are subtracted exactly through the 32-bit wrap-around, borrow for 100 |
| `CpuDecimal.AnySum` | src/core/cpu68000.cpp:951-958 | bytes that are not packed decimal too: the binary sum with its two corrections |
| `CpuDecimal.AnyDifference` | src/core/cpu68000.cpp:945-950 | and the difference, also below zero |
| `CpuDecimal.ByteFlags` | src/core/cpu68000.cpp:960-964 | the five flags of one byte |
| `CpuDecimal.DecimalChainExact` | src/core/cpu68000.cpp:924-966 | a chain of ABCD or SBCD over packed bytes computes the exact decimal sum or difference, X the carry or borrow, Z exactly when all of it is zero |
| `Cpu68000.Cpu68000.MemoryOperands` | src/core/cpu68000.cpp:757-759 | -(Ay) and -(Ax) in this order, bytes at A7 by two; an odd address faults, with the registers decremented so far left as they are |
| `Cpu68000.OperandSizes` | src/core/cpu68000.cpp:389-391 | the widths of operands, and how far -(An) moves for each |
| `Cpu68000.FlagBits` | src/core/cpu68000.hpp:59-67 | X N Z V C by bit number |
| `Cpu68000.Cpu68000.OpAddxSubxMemory` | src/core/cpu68000.cpp:757-761 | ADDX and SUBX in memory: registers, RAM and flags, or a fault at the source or the destination with the registers of that moment and RAM and flags alone |
| `Cpu68000.Cpu68000.OpAbcdSbcdMemory` | src/core/cpu68000.cpp:934-965 | ABCD and SBCD in memory: registers, RAM and flags |
| `Cpu68000.InstructionsChain` | src/core/cpu68000.cpp:757-761 | n such instructions with two different registers are n steps of a chain in memory; the other registers stay, and alignment is kept |
| `Cpu68000.InstructionsAdd` | src/core/cpu68000.cpp:743-762 | n times ADDX or SUBX -(Ay),-(Ax): the number below Ax becomes the exact sum or difference, X and C its carry or borrow, Z its zero; both registers end below their operands |
| `CpuMemory.ChainInMemory` | src/core/cpu68000.cpp:757-761 | n instructions -(Ay),-(Ax) are a chain over the n operands below the two addresses, when the blocks are the same or apart |
| `CpuMemory.Kept` | src/core/cpu68000.cpp:757-761 | memory outside the destination is as it was |
| `CpuMemory.MemoryAdds` | src/core/cpu68000.cpp:743-762 | n steps of ADDX or SUBX in memory add or subtract the big-endian numbers there, of any size, exactly, with X, C and Z |
| `CpuMemory.MemoryAddsDecimal` | src/core/cpu68000.cpp:924-966 | the same for ABCD and SBCD on packed decimal numbers |
| `CpuMemory.ReadsBack` | src/core/cpu68000.cpp:454-473 | a byte, word or long written can be read back |
| `CpuMemory.ReadsOther` | src/core/cpu68000.cpp:454-473 | and no other operand changes |
| `CpuMemory.BigEndian` | src/core/cpu68000.cpp:454-462 | high bytes and high words come first |
| `CpuShift.Shift` | src/core/cpu68000.cpp:1064-1095 | the loop of one-bit steps, with the final flags |
| `Cpu68000.Cpu68000.OpShiftRegister` | src/core/cpu68000.cpp:1099-1117 | the count, the operand size and the flags of the register form |
| `Cpu68000.ShiftFlagsMean` | src/core/cpu68000.cpp:1088-1095 | N and Z of the shifted operand |
| `CpuShift.LeftMultiplies` | src/core/cpu68000.cpp:1072-1079 | LSL and ASL multiply modulo 2^n for every count; C is the last bit pushed out, X follows it |
| `CpuShift.RightDivides` | src/core/cpu68000.cpp:1080-1087 | LSR divides, ASR divides the signed value rounding down; C is the last bit pushed out |
| `CpuShift.AslOverflow` | src/core/cpu68000.cpp:1075 | ASL sets V exactly when value * 2^count does not fit signed |
| `CpuShift.NoOverflow` | src/core/cpu68000.cpp:1072-1087 | no other shift or rotate sets V |
| `CpuShift.Rotates` | src/core/cpu68000.cpp:1076-1094 | RO turns n bits, ROX n + 1 bits through X, by the count modulo their number; RO leaves X |
| `CpuShift.RotatesBack` | src/core/cpu68000.cpp:1064-1095 | a rotate and the opposite one by the same count restore value and X |
| `Cpu68000.Cpu68000.SetStatus` | src/core/cpu68000.cpp:267-273 | unimplemented bits never get into SR; a change of S swaps the stack pointers |
| `Cpu68000.Cpu68000.TakeInterrupt` | src/core/cpu68000.cpp:355-365 | entry for an interrupt; with an odd SSP nothing is stacked, and SR, both stack pointers and the fault are as at the write below SSP |
| `Cpu68000.Cpu68000.Exception` | src/core/cpu68000.cpp:367-375 | entry for the other exceptions, with the same fault |
| `Cpu68000.Cpu68000.AddressError` | src/core/cpu68000.cpp:285-331 | an address error stacks its 14-byte frame and goes through vector 3; with an odd SSP it halts the CPU, RAM and PC as they were |
| `Cpu68000.Cpu68000.OpRte` | src/core/cpu68000.cpp:1247-1254 | SR and PC from the stack, a fault with nothing changed at an odd A7, or a privilege violation in user mode |
| `Cpu68000.Cpu68000.Execute` | src/core/cpu68000.cpp:333-349 | level 7 on its edge, other levels only above the mask, which they raise to their level; otherwise a stopped CPU idles, and one that runs fetches the next opcode or faults at an odd PC |
| `Cpu68000.Cpu68000.ComingMeans` | src/core/cpu68000.cpp:333-353 | which interrupt is taken, by the number in bits 10 to 8 of SR |
| `Cpu68000.Cpu68000.Step` | src/core/cpu68000.cpp:275-331 | a step never ends in a fault: an odd PC becomes an address error, and an odd SSP halts the CPU in both an interrupt and an address error |
| `CpuExceptions.NestingReturns` | src/core/cpu68000.cpp:275-375 | any properly nested interrupts, exceptions, address errors and RTEs, begun in user or supervisor mode, return PC, SR and SSP exactly, whatever the handlers push, pop and call in between as long as they keep their frame and come back to it; USP is what they last wrote there, and A7 is back |
| `CpuExceptions.Handles` | src/core/cpu68000.cpp:275-375 | a handler that moves A7 freely below its frame ends at its frame, with the frame and all above it as they were and a valid SR, although exceptions come in while its own data lies on the stack |
| `CpuExceptions.Enters` | src/core/cpu68000.cpp:285-375 | where an entry stacks SR and PC, and for an address error the opcode, the address and the kind of access; the memory above SSP stays |
| `CpuExceptions.Returns` | src/core/cpu68000.cpp:1247-1254 | RTE undoes an entry, that of an address error once its eight extra bytes are dropped |
| `CpuExceptions.EntersMask` | src/core/cpu68000.cpp:355-361 | an interrupt sets the mask to its level, other exceptions keep it |
| `CpuExceptions.EntersAt` | src/core/cpu68000.cpp:355-375 | an entry leads to the long at $60 + 4 * level, 4 * vector or $0C, which stacking does not change above the frame |
| `CpuExceptions.AddressErrorMeans` | src/core/cpu68000.cpp:294-305 | what an address error stacks, in numbers: the PC, and R/W, I/N and the function code |
| `CpuExceptions.EntersStatus` | src/core/cpu68000.cpp:355-361 | S set, T cleared, every other bit but the mask of an interrupt as it was |
| `CpuExceptions.StatusBits` | src/core/cpu68000.hpp:63-67 | the bits of SR that exist, by number |
| `CpuExceptions.NestingBounded` | src/core/cpu68000.cpp:339-342 | interrupts of levels up to 6 nest at most 6 - mask deep, in handlers that use the stack as they like |
| `PaulaAudio.PaulaAudio.Tick` | src/core/paula_audio.hpp:62-103 | with the idle fast path or without it, every channel does its tick; idle means silent and stopped, after any run of writes and ticks |
| `PaulaAudio.PaulaAudio.TickOne` | src/core/paula_audio.hpp:67-98 | one channel: switching on and off, countdown, high and low byte, manual mode |
| `PaulaAudio.PaulaAudio.WriteData` | src/core/paula_audio.hpp:47-55 | a data write without DMA plays the word and ends the idle state |
| `PaulaAudio.OutputIsByte` | src/core/paula_audio.hpp:62-96 | with DMA held on, the output t color clocks after switch-on is byte floor(t / p) mod 2l of the buffer as a signed number, p being AUDxPER and l AUDxLEN (65536 when they are 0) |
| `PaulaAudio.InterruptTimes` | src/core/paula_audio.hpp:133-146 | interrupts come at t = 0 and at t = 2p(ml - 1), m >= 1, and at no other time, with the same p and l |
| `PaulaAudio.Plays` | src/core/paula_audio.hpp:86-97 | the whole state of the channel at any time from its registers: word, pointer, words left, byte, countdown |
| `PaulaAudio.SwitchedOff` | src/core/paula_audio.hpp:81-85 | switching DMA off silences the channel at once and for good, with everything else as it was |
| `PaulaAudio.WordRepeats` | src/core/paula_audio.hpp:52-57 | without DMA the word written to AUDxDAT is played high byte first, p color clocks each, with an interrupt after each whole word, and again |
| `PaulaAudio.PaulaAudio.Left` | src/core/paula_audio.hpp:108-113 | the level of a side is that of channels 0 and 3, each times its volume, in -16384 to 16256 |
| `PaulaAudio.WrittenMeans` | src/core/paula_audio.hpp:44-46 | AUDxLEN, AUDxPER and the six bits of AUDxVOL, 64 with bit 6 |
| `Copper.Copper.Tick` | src/core/copper.cpp:53-94 | one color clock of the state machine: a slot, or nothing on odd color clocks and without DMA |
| `Copper.SlotTimes` | src/core/copper.cpp:53-55 | the Copper acts on even color clocks with DMA on, and at no other time |
| `Copper.Copper.Decode` | src/core/copper.cpp:66-83 | MOVE, WAIT and SKIP, and the stop at a forbidden register |
| `Copper.Copper.WriteRegister` | src/core/copper.cpp:20-31 | locations, CDANG and the two jumps |
| `CopperLists.CarriesOut` | src/core/copper.cpp:33-94 | slot by slot the Copper carries out any list, wherever the beam is: writes in list order with two slots per MOVE, WAIT going on one slot after the first slot that satisfies it, SKIP deciding in its second slot, jumps taken |
| `CopperLists.WaitingTrace` | src/core/copper.cpp:86-92 | a WAIT writes nothing until the beam is there, then takes one slot to wake up |
| `CopperLists.NeverForbidden` | src/core/copper.cpp:48-51 | in any state every write goes to $40 or above, and to $80 or above without CDANG, which a list cannot set for itself |
| `CopperLists.MoveSlot` | src/core/copper.cpp:66-73 | a MOVE to $80 or above, or to $40 or above with CDANG, is written in its second slot; any other ends the trace |
| `CopperLists.DecodedMeans` | src/core/copper.cpp:66-83 | MOVE, WAIT and SKIP by the numbers of the two words |
| `CopperLists.RegistersMean` | src/core/copper.cpp:20-31 | what each of the registers of the Copper does, by offset |
| `CopperLists.MaskedCompare` | src/core/copper.cpp:33-39 | any comparison: the selected bits of the line first, V7 always among them, then those of the color clock, H0 never |
| `CopperLists.FullCompare` | src/core/copper.cpp:33-39 | with all bits compared a position is reached when the beam is at or past it, line first |
| `CopperLists.Parks` | src/core/copper.cpp:33-39 | WAIT $FFFF,$FFFE writes nothing more, however long it takes |
| `CopperLists.OnlySlots` | src/core/copper.cpp:53-94 | the writes of any run of color clocks, with DMA on or off, are slot by slot the trace over its slots |
| `CopperLists.ClocksCarryOut` | src/core/copper.cpp:33-94 | so in any color clocks a restarted Copper carries out its list instruction by instruction |
| `CopperLists.RunClocks` | src/core/copper.cpp:53-94 | calling the Copper color clock after color clock gives exactly those writes |
| `Cia.Cia8520.Count` | src/core/cia.cpp:128-137 | one tick of a timer: down by one, or an underflow that reloads it and stops a one-shot timer |
| `Cia.Cia8520.Tick` | src/core/cia.cpp:139-158 | timer A, serial port and timer B, in this order |
| `Cia.TimerACounts` | src/core/cia.cpp:128-143 | freshly loaded, timer A has underflowed floor(k / (NA + 1)) times after k ticks, with the counter to match |
| `Cia.TimerBCounts` | src/core/cia.cpp:139-158 | timer B counting those underflows has underflowed floor(k / ((NA + 1)(NB + 1))) times, with the counter to match |
| `Cia.TimerRuns` | src/core/cia.cpp:128-137 | a freshly loaded timer after n ticks of its input: an underflow every N + 1 ticks, or in one-shot mode one, after which it has reloaded and stopped |
| `Cia.TimerAModes` | src/core/cia.cpp:139-143 | in any state: timer A counts the E clock unless INMODE is set; each underflow leaves its flag |
| `Cia.TimerBModes` | src/core/cia.cpp:153-158 | timer B counts the E clock, nothing, or the underflows of timer A, as bits 5 and 6 of CRB say |
| `Cia.ControlBits` | src/core/cia.hpp:41-47 | CRA and CRB by bit number |
| `Cia.TickMeans` | src/core/cia.cpp:139-158 | one E clock in any state: which timer counts, each flag that is left, and the serial port in continuous mode; nothing else changes |
| `Cia.HighWritten` | src/core/cia.cpp:100-110 | a high byte loads a stopped timer, and loads and starts a one-shot timer |
| `Cia.SerialTakes16` | src/core/cia.cpp:145-152 | a byte is complete after exactly 16 underflows of timer A, and a queued byte follows at once |
| `Cia.Cia8520.TodPulse` | src/core/cia.cpp:160-164 | the counter counts unless halted, and meets the alarm |
| `Cia.Cia8520.ReadTodByte` | src/core/cia.cpp:30-39 | the latch between high and low byte |
| `Cia.Cia8520.WriteTodByte` | src/core/cia.cpp:119-126 | counter or alarm, and the halt between high and low byte |
| `Cia.TodReadsTogether` | src/core/cia.cpp:30-39 | three bytes read high to low are the counter at the first read, however many pulses come in between, and the counter runs on |
| `Cia.TodByteRead` | src/core/cia.cpp:30-39 | any one read: which byte, from the counter or the latch, and what becomes of the latch |
| `Cia.TodWritesTogether` | src/core/cia.cpp:117-126 | three bytes written high to low set the counter exactly, however many pulses come in between |
| `Cia.AlarmWritesTogether` | src/core/cia.cpp:117-126 | with ALARM set three bytes set the alarm and leave the counter alone |
| `Machine.Machine.RunFrame` | src/core/machine.cpp:21-71 | terminates for any positive instruction times and any panic; from the top of a frame it runs exactly 71,051 color clocks, the CPU never a full color clock behind nor more than one instruction ahead, with at most 961 samples |
| `Machine.Machine.RunFrames` | src/core/machine.cpp:21-71 | after k frames there are floor(71051 k / 5) E clocks, floor(71051 k / 74) samples, 313 k line pulses and k frame pulses |
| `Machine.Machine.StepCpu` | src/core/machine.cpp:50-61 | a step adds the cycles of its instruction, so that the time of the CPU is the sum of all of them, or halts it |
| `Machine.Machine.TickChips` | src/core/machine.cpp:64-67 | one color clock, and whether it ends the frame |
| `Machine.Machine.TickDividers` | src/core/machine.cpp:139-156 | line and frame pulses and the E clock divider |
| `Machine.Machine.EndPeriod` | src/core/machine.cpp:126-138 | each period of 74 color clocks gives the average of its levels; the buffer always has room |
| `Machine.SampleMeans` | src/core/machine.cpp:126-131 | a sample is the sum of 74 levels, times 2, over 74, rounded towards zero |
| `Denise.Denise.BuildCollisionTables` | src/core/denise.cpp:12-39 | the three loops fill the tables of the current CLXCON |
| `Denise.Denise.PairsOf` | src/core/denise.cpp:29-38 | the nested loops number the pairs of groups 9 to 14 |
| `Denise.PlaneEntryMatches` | src/core/denise.cpp:15-19 | the masks and XOR mean that every enabled odd (even) plane is as CLXCON asks |
| `Denise.TablesMean` | src/core/denise.cpp:12-39 | the three tables together give the collisions computed directly from CLXCON, for every pattern of planes and sprites |
| `Denise.ClxconBits` | src/core/denise.cpp:13-25 | the fields of CLXCON by bit number |
| `Denise.GroupMeans` | src/core/denise.cpp:17-27 | when a group of two sprites is there |
| `Denise.Denise.Collisions` | src/core/denise.hpp:142-151 | the look-up is the direct definition |
| `Denise.Denise.CollectLine` | src/core/denise.cpp:138-152 | CLXDAT after a line is its old value or the collisions of every column inside the window; the bit 0 shortcut changes nothing |
| `Denise.CollectedMeans` | src/core/denise.cpp:138-152 | read bit by bit: a bit of CLXDAT is set after a line exactly if it was before, or some column inside the window has that collision |
| `Denise.WindowColumns` | src/core/denise.cpp:139-145 | which columns are inside the window |
| `Denise.Denise.CollectPixel` | src/core/denise.cpp:147-152 | one column, with the shortcut |
| `Denise.Denise.WriteClxcon` | src/core/denise.hpp:91 | after any write the tables are those of the new value |
| `Denise.Denise.SpriteMask` | src/core/denise.cpp:50-105 | a sprite is opaque at exactly the columns that one of its starts covers with a pixel that is not colour 0 |
| `Denise.CoversMeans` | src/core/denise.cpp:50-105 | a start covers a column exactly if the pixel it shows there is not of colour 0 |
| `Denise.Denise.RenderCollisions` | src/core/denise.cpp:41-152 | the collisions of a line, from the starts of its sprites |

## Left out

- The SDL front end, file loading, debug dumps, the disassembler, log messages and trace buffers: input and output only.
- The 68000 dispatch table, addressing modes, cycle tables and all handlers not named above: CMP and the shifts are
  modelled on data registers only, NBCD takes the effective address as it is, a step ends with the fetched opcode, and
  `Machine` takes the cost of each CPU step as a parameter.
- Cpu68000.InstructionsChain: asks for two different registers, bytes not through A7 (which moves by two), and operands
  that do not wrap around address 0, because such operands do not make up a number; `Cpu68000.OpAddxSubxMemory` and
  `Cpu68000.OpAbcdSbcdMemory` say what one instruction does in these cases too.
- Cpu68000.InstructionsAdd: asks for the same.
- CpuExceptions.NestingReturns: handlers stay in supervisor mode until their RTE and do not reach SSP by way of user mode;
  frames that would wrap around address 0 are not considered.
- The memory bus: CPU memory is plain RAM of words at even addresses; bus decoding, the ROM overlay and bus errors are
  not part of this model.
- Pointers as 32-bit values during DMA: they are whole numbers here, which only differ modulo 2^19 when an address is used.
- The decoding of blitter register writes, BLTSIZE and the wait for blitter DMA: the registers are simply there.
- Disk writes (the original discards the data) beyond `WriteDsklen` completing at once; DSKBYTR reads; drive status lines.
- Pixel colours, priorities, HAM, dual playfield, bitplane serialising and palettes: case tables; the collision part
  takes the plane patterns of a line as given, and draws the sprites in another order, which no collision can see.
- Audio levels as heard by the mixer: `Machine` takes the two levels of each color clock as parameters; they are in the
  range that `PaulaAudio.PaulaAudio.Left` proves.
- CIA ports, CNT counting, the interrupt lines and the keyboard; timer B is loaded and controlled like timer A.
- The deadlock detector and the warp timer of the scheduler, which only report, and the delay of a disk swap.
- DMA cycle contention: the original does not emulate it either.
- BlitterArea.BlitMoves: says nothing about rectangles that wrap around the end of chip RAM, where a copy onto itself has
  no safe direction.
- CopperLists.CarriesOut: chip RAM stays the same during the trace, and so do the Copper's registers but for what the
  list itself writes to them.
- DiskRead.RunRead: the track under the head stays the same during the read, with the drive selected and spinning.
