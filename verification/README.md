# Verified model of the emulator core

This project models the parts of the Game Boy emulator where several pieces of state have to agree: the
display controller and its renderer, the link cable, the timer, the processor's decimal arithmetic and
stack, the memory map, cartridge banking, palettes, and two text formats. Each module models one component
and proves what the component keeps over whole runs. `dafny verify dfyconfig.toml` checks everything.

## How it is organised

| component | modules |
|---|---|
| values | `Bytes`, `Division` (division as the repeated subtraction of the draining loops) |
| link cable | `SerialLink` |
| display controller | `GpuState`, `Background`, `Sprites`, `Scanline`, `Screens`, `FrameTiming`, `Ppu`, `Gpu` |
| timer | `Timer` |
| processor | `Bcd`, `Stack`, `Processor`, `Interrupts` |
| memory | `MemoryMap`, `MemoryController` |
| cartridge | `Cartridge`, `MemoryBankController` |
| palettes | `PalettePort` |
| codecs | `Base64`, `Text`, `Configuration` |

Objects that the emulator updates in place are classes (`Gpu.GPU`, `Timer.TimerModule`,
`Processor.Processor`, `MemoryController.MemoryController`, `MemoryBankController.MemoryBankController`,
`PalettePort.PaletteMemory`, `Configuration.Configuration`). Their methods keep the code's branches and loops and
are proved equal to a function of the old state; the theorems are about runs of that function.

**Link cable.** Four threads, two on each console: every atomic load and store, every stream operation and
every memory-mapped effect is one step, and schedules interleave them freely. Both sides lower `ready` before
they load `data`; the invariant says why the byte is still the right one. The game may write SB, clear its
interrupt bit and clear the transfer bit at any time outside the calls into the link. A schedule
finishes the exchange once it has gone through 34 rounds in which each thread gets a turn. What the games see
is that of two consoles without threads: a transfer begins with the byte in SB and ends with the other's.

**Display controller.** `Gpu.GPU.Cycle` refines `Ppu.Cycle`. The registers and memory the renderer reads are one
value `Env`, which may differ arbitrarily from call to call and is fixed within one. `FrameTiming.Clock` is the
part that decides timing. The renderer is proved pixel by pixel: the background against an uncached lookup,
sprites against a fold in the comparator's order, which is the only ascending list of the visible sprites, so
the choice of sorting algorithm does not matter. `Screens` says what is shown without the renderer's own terms:
how screens with other scroll, window and flip settings relate, and which colours given bytes at given addresses
have.

**Timer.** The loops that drain ticks are proved equal to a closed form with quotient and remainder, and the
rates are given as numbers.

**Processor.** The eight-bit adder, subtracter and `daa` chained over BCD numbers of any length, and balanced
programs of any nesting depth. `Interrupts` follows a request of the display controller or the timer to the
address of its handler.

**Memory.** A map from addresses to physical cells; a read returns what was last stored in its cell, and which
addresses share a cell is stated on the addresses themselves. The object keeps the region list and one byte
vector per region, and finds, moves down and banks an address the way the regions do.

## Where the code differs from its own comments

* The comment at `src/hardware/gpu.cpp:573-581` says that the sprite of lower address, or in DMG mode the one
  farther to the left, ends on top. The ascending sort paints that sprite first, so the one it puts last does.
  `Sprites.WhenFirstIsOnTop` says for both modes exactly where the comment is right, `Sprites.WhenFirstShows`
  says so with priority flags, and
  `Sprites.LowerAddressLosesInCorner` and `Sprites.LeftSpriteLosesInOverlap` give a screen of each mode on
  which it is wrong.
* The comment at `src/hardware/cartridge.cpp:307-310` says that an MBC1 write to 0x4000-0x5FFF sets the upper
  three bank bits. The code ors them in, so they are never cleared again. `Cartridge.WhenHighBitsAreSet`
  says exactly when the two agree, and `Cartridge.HighBitsStick` gives a write for which they do not.
* The interrupt mask case at `src/hardware/memory/mappedio.cpp:44` is never taken: 0xFFFF belongs to
  the zero page, which stores all eight bits. `MemoryMap.WhenInterruptMaskIsMasked` says exactly for which
  values that makes no difference, and `MemoryMap.InterruptMaskStoresAllBits` gives one for which it does.
* The configuration text restores all values exactly when each is free of newlines, gaps and trailing space;
  `Configuration.ConfigurationRoundTrip` is that equivalence, and `Configuration.DoubledColonIsLost` gives
  values that come back changed.

## Model

| member | source | states |
|---|---|---|
| SerialLink.ExchangeIsSafe | src/hardware/consolelink.cpp:70-128 | In every interleaving of the four threads on a connected session, the n-th byte either console finishes with is the n-th byte the other started with |
| SerialLink.ThreadsAmountToExchange | src/hardware/consolelink.cpp:34-128 | In every interleaving the four threads amount to two consoles without threads: a transfer begins with the byte then in SB, which the game wrote or an earlier transfer brought, and ends with the byte that the other console's transfer of the same number began with |
| SerialLink.StartSendsWhatWasWritten | src/hardware/memory/mappedio.cpp:116-131 | A game that writes a byte to SB and starts sends exactly this byte |
| SerialLink.BytesAreExchanged | src/hardware/consolelink.cpp:34-128 | End to end: after any history, if one game writes v and starts and the other writes w and starts, 34 fair rounds later the first has finished with w and the second with v |
| SerialLink.SlotsAreSafe | src/hardware/consolelink.cpp:70-128 | No tx or rx slot is stored to before its last byte was loaded, and every load finds the byte of the matching store, although `ready` is lowered first |
| SerialLink.EffectsHappenOnce | src/hardware/consolelink.cpp:83-94 | Each transfer requests the serial interrupt exactly once and clears the transfer bit exactly once; the bit is set from the start until then unless the game clears it first, which ends nothing; a requested interrupt stays until the game clears it |
| SerialLink.TransferBitMarksTransfers | src/hardware/consolelink.cpp:83-94 | While the game leaves the transfer bit alone, it is set exactly from the start of a transfer until the transfer clears it |
| SerialLink.RunKeeps | src/hardware/consolelink.cpp:70-128 | Every schedule keeps the invariant that ties slots, locals, flags, program points and the bytes in flight together |
| SerialLink.CpuNextKeeps | src/hardware/consolelink.cpp:70-108 | Every step of the CPU thread keeps its console's invariant and touches neither stream |
| SerialLink.ServerNextKeeps | src/hardware/consolelink.cpp:110-128 | Every step of the server thread keeps its console's invariant and moves exactly the bytes it hands to `wr` and gets from `rd` |
| SerialLink.ServerMovesOnlyWhilePending | src/hardware/consolelink.cpp:110-128 | Whenever the server thread can leave its polling, the CPU thread is waiting for it |
| SerialLink.DeliverKeeps | src/hardware/consolelink.cpp:121-122 | Each direction of the stream stays a FIFO: what was received, then what is in flight, is what was sent |
| SerialLink.StepWorks | src/hardware/consolelink.cpp:70-128 | Once both consoles have started their n-th transfer, an effective step takes exactly one off the work left and no other step of any thread changes it |
| SerialLink.RunWorks | src/hardware/consolelink.cpp:70-128 | Over any continuation, work left plus useful steps made equals the work there was |
| SerialLink.NoDeadlock | src/hardware/consolelink.cpp:70-128 | As long as a transfer that both consoles started is unfinished, one of the four threads has a useful step |
| SerialLink.ExchangeFinishes | src/hardware/consolelink.cpp:34-128 | A continuation leaves both consoles finished exactly when it contains as many useful steps as there was work, at most 34 |
| SerialLink.UsefulStepsWait | src/hardware/consolelink.cpp:70-128 | A useful step stays useful whatever any other thread and the game do |
| SerialLink.TurnMakesProgress | src/hardware/consolelink.cpp:70-128 | Any stretch of a schedule that gives that thread a turn makes progress |
| SerialLink.FairSchedulesFinish | src/hardware/consolelink.cpp:34-128 | Once both consoles have started their n-th transfer, any 34 rounds in which every thread gets a turn, with anything before, between and after, leave both finished |
| FrameTiming.TurnKeepsReachable | src/hardware/gpu.cpp:204-329 | The reachable-state invariant: ticks below the phase length, status mode current or preceding, the line register in the range of its mode, 155 in HBLANK exactly while the status still says VBLANK |
| FrameTiming.MoreLineTicks | src/hardware/gpu.cpp:306-311 | The line counter of the vertical blank counts whole multiples of 414 ticks and keeps the remainder |
| FrameTiming.TurnKeepsMeter | src/hardware/gpu.cpp:242-312 | Between entries into the vertical blank, the ticks fed determine phase, line register and both residuals |
| FrameTiming.FrameLength | src/hardware/gpu.cpp:204-312 | Consecutive VBLANK entries are 65412 + 4560k ticks apart up to residuals, k is 1 or 2, k = 1 exactly when the entry residual is at most `m_vscan` + the first phase's residual + 6, and so whenever it is at most `m_vscan` + 6 |
| Ppu.StatusRegisterParts | src/hardware/gpu.h:270-271 | Mode and enable bits of the status register never disturb each other, neither by the controller's updates nor by the game's masked writes |
| Ppu.StatusRegisterBits | src/hardware/gpu.h:270-271 | The game reads the mode as 0 to 3 for HBLANK, VBLANK, OAM and VRAM, and the four enable bits it wrote |
| Ppu.CycleTurnsClock | src/hardware/gpu.cpp:242-329 | Timing depends on ticks alone, not on registers, video memory or interrupts |
| Ppu.CycleBuffers | src/hardware/gpu.cpp:262-304 | A line is drawn only at the end of a horizontal blank, the buffer is published and blanked only at the first call in a vertical blank, and no other call touches a buffer |
| Ppu.CycleFlags | src/hardware/gpu.cpp:262-329 | The vertical-blank interrupt is requested exactly when the screen is published, the LCD interrupt exactly at the first call in a mode whose enable bit is set, and every other flag bit stays |
| Ppu.RunKeepsInv | src/hardware/gpu.cpp:162-341 | All of the display invariant holds after any run, whatever the game writes between calls |
| Ppu.RunsStayReachable | src/hardware/gpu.cpp:162-329 | In every run from power-on the reachable-state invariant holds, and the ticks fed while the display is on are the completed phases plus `m_ticks` |
| Ppu.PublishedScreen | src/hardware/gpu.cpp:204-343 | Between publications every line 0 to 143 is drawn exactly once in ascending order; row L of the published screen is what drawing line L over a blank row produced; the publication requests the vertical-blank interrupt |
| Ppu.FrameLengthInRuns | src/hardware/gpu.cpp:85-91 | The frame-length law for every entry into the vertical blank in every run |
| Gpu.GPU.constructor | src/hardware/gpu.cpp:100-119 | A new controller has blank buffers of its own and is in the power-on state that runs start from |
| Gpu.GPU.Cycle | src/hardware/gpu.cpp:242-260 | One call on the object is one step of the model on its whole state, and buffers only move from back to front |
| Gpu.GPU.Next | src/hardware/gpu.cpp:204-240 | Reduces the ticks of a completed phase and returns its successor |
| Gpu.GPU.HandleHblank | src/hardware/gpu.cpp:262-283 | Draws the line and advances to the next at the end of the phase, with the restart at 0 after a vertical blank |
| Gpu.GPU.HandleVblank | src/hardware/gpu.cpp:285-312 | Publishes the back buffer, starts a blank one, requests interrupts, and counts lines up to 155 |
| Gpu.GPU.HandleOam | src/hardware/gpu.cpp:314-322 | Shows the mode and requests the LCD interrupt once per phase |
| Gpu.GPU.HandleVram | src/hardware/gpu.cpp:324-329 | Shows the mode |
| Gpu.GPU.UpdateScreen | src/hardware/gpu.cpp:331-341 | Draws the current line if it is on the screen and nothing otherwise |
| Background.DrawBackground | src/hardware/gpu.cpp:430-500 | The loop with two one-entry caches writes to every pixel of the line what an uncached lookup of that pixel gives, records the priority colour, and changes no other row |
| Background.Pixel | src/hardware/gpu.cpp:441-498 | A lookup through a valid cache agrees with the uncached lookup and leaves the cache valid |
| Background.Fetch | src/hardware/gpu.cpp:462-489 | A cache miss stores the whole tile row, with bank, flips and palette |
| Background.PriorityColorMatches | src/hardware/gpu.cpp:491-498 | A background pixel equals the recorded priority colour exactly when its pixel value has the colour of value 0 |
| GpuState.ToRgb | src/hardware/gpu.cpp:373-414 | Each column of a tile row becomes the palette colour of its two bits, mirrored if flipped, transparent for value 0 of a sprite |
| GpuState.PlanesCount | src/hardware/gpu.cpp:382-399 | The first byte of a tile row counts one and the second two, each bit on its own |
| GpuState.SampleRow | src/hardware/gpu.cpp:389-399 | The bytes 0xB4, 0xD1 are the pixels 3, 2, 1, 3, 0, 1, 0, 2 from left to right |
| GpuState.PackedShades | src/hardware/gpu.cpp:401-404 | A palette register packs the entries of the values 0 to 3 from its low bits up |
| GpuState.TileSetsShareTheirUpperHalf | src/hardware/gpu.cpp:142-160 | Two tile numbers of different sets name the same tile exactly when they are equal and at least 128 |
| Sprites.VisibleRowInside | src/hardware/gpu.cpp:699-717 | On every line where a sprite is visible, scanline + 16 - y is a row of the sprite |
| Sprites.LocateRow | src/hardware/gpu.cpp:534-544 | The eight-bit row arithmetic gives that row, mirrored if flipped, also for sprites cut by the top edge |
| Sprites.LocateTile | src/hardware/gpu.cpp:519-549 | Eight-bit arithmetic on the tile number selects the upper or lower tile of a tall sprite |
| Sprites.ReadSprite | src/hardware/gpu.cpp:514-555 | All eight colours of a visible sprite are read; the early return is never taken for one |
| Sprites.Render | src/hardware/gpu.cpp:719-753 | One sprite changes exactly the pixels under its opaque columns on the screen, subject to its priority bit |
| Sprites.DrawSprites | src/hardware/gpu.cpp:557-591 | Each pixel of the line ends as the fold of the painting rule over the visible sprites in order, no other row changes |
| Sprites.BeforeIsStrictTotalOrder | src/hardware/gpu.cpp:582-586 | The comparator is a strict total order on sprites |
| Sprites.AscendingIsUnique | src/hardware/gpu.cpp:582-586 | Two ascending lists with the same members are the same list, so any sort yields the same painting order |
| Sprites.OrderIsTheSortedVisibleSprites | src/hardware/gpu.cpp:561-590 | A list is the painting order if and only if it is ascending and has exactly the visible sprites |
| Sprites.LastOpaqueWins | src/hardware/gpu.cpp:588-590 | A pixel ends as the last opaque sprite in the comparator's order, whatever was painted before |
| Sprites.BackgroundStays | src/hardware/gpu.cpp:738-745 | Where every opaque sprite is behind a background that differs from the recorded colour, the background stays |
| Sprites.PixelIsLastOpaqueOrBackground | src/hardware/gpu.cpp:588-590 | Without priority flags a pixel ends as the last opaque sprite, or as the background exactly if there is none |
| Sprites.FirstIsLowest | src/hardware/gpu.cpp:578-586 | The sprite the comparator puts first is the one the comment gives the highest priority: lowest address in CGB mode, else smallest x and then lowest address |
| Sprites.WhenFirstIsOnTop | src/hardware/gpu.cpp:573-586 | In either mode, where the last opaque sprite is not to be behind the background, the first one shows exactly when the two have the same colour |
| Sprites.FrontAndPeekExist | src/hardware/gpu.cpp:738-745 | Every pixel has a last opaque sprite in front of the background or none, and a first later one behind it in another colour than the recorded one or none |
| Sprites.PixelIsFrontOrPeek | src/hardware/gpu.cpp:719-753 | Whatever the priority flags, a pixel ends as its last front sprite or else the background; only where that equals the recorded colour does the first later sprite behind the background in another colour show |
| Sprites.WhenFirstShows | src/hardware/gpu.cpp:573-586 | Whatever the priority flags, the sprite the comparator puts first shows exactly where it has the colour so decided |
| Sprites.LowerAddressLosesInCorner | src/hardware/gpu.cpp:573-586 | A screen on which the sprite of higher address covers the one of lower address |
| Sprites.LeftSpriteLosesInOverlap | src/hardware/gpu.cpp:573-586 | A DMG screen on which the sprite farther right covers the one farther left |
| Scanline.DrawLine | src/hardware/gpu.cpp:502-512 | Background, then sprites: every pixel of the line as a function of the registers and memory, all other rows as before |
| Screens.ScrollXShifts | src/hardware/gpu.cpp:443-450 | Raising the horizontal scroll by one, modulo 256, shows at each pixel what was one to the right |
| Screens.ScrollYShifts | src/hardware/gpu.cpp:443-450 | Raising the vertical scroll by one, modulo 256, shows at each pixel what was one below |
| Screens.WindowMoves | src/hardware/gpu.cpp:443-450 | Moving the window takes what it shows along, whatever the scroll registers hold |
| Screens.WindowIsACorner | src/hardware/gpu.cpp:416-428 | The window covers exactly the pixels right of `winX` - 7 and below `winY`, if bit 5 is set |
| Screens.FlipMirrorsColumns | src/hardware/gpu.cpp:482-488 | Inverting attribute bit 5 in CGB mode mirrors the entry left to right and changes nothing else in it |
| Screens.FlipMirrorsRows | src/hardware/gpu.cpp:482-488 | Inverting attribute bit 6 mirrors it top to bottom |
| Screens.DmgIgnoresAttributes | src/hardware/gpu.cpp:361-365 | In DMG mode nothing in the second bank of video memory shows |
| Screens.DmgRow | src/hardware/gpu.cpp:343-500 | For every map entry of both layers, both maps and both tile sets: the bytes 0xB4, 0xD1 at the tile's address show as eight given greys |
| Screens.CgbMirroredRow | src/hardware/gpu.cpp:343-500 | The same with attributes 0x6E: palette 6, bank 1, mirrored both ways |
| Screens.CgbPlainRow | src/hardware/gpu.cpp:343-500 | The same with attributes 0x03: palette 3, bank 0, not mirrored |
| Screens.VisibleLines | src/hardware/gpu.cpp:699-717 | A sprite is on a line exactly if the line is among the 8 or 16 from y - 16 on, and neither of its bytes puts it off the screen |
| Screens.CgbMirroredSprite | src/hardware/gpu.cpp:514-555 | A CGB sprite of either height with flags 0x6E shows the given colours of palette 6 from bank 1, mirrored both ways |
| Screens.CgbPlainSprite | src/hardware/gpu.cpp:514-555 | With flags 0x83 it shows those of palette 3 from bank 0, behind the background |
| Screens.DmgSprite | src/hardware/gpu.cpp:686-697 | A DMG sprite shows the greys of the first or second palette register by flag bit 4, transparent for value 0 |
| Screens.Layers | src/hardware/gpu.cpp:502-512 | Bit 0 of the control register shows the background, bit 1 paints the sprites over it |
| Timer.CountIsIterated | src/hardware/timermodule.cpp:74-87 | The closed form of k counts with reload equals counting k times |
| Timer.CountSum | src/hardware/timermodule.cpp:74-87 | Counting j and then k times is counting j + k times, and the overflow is seen exactly once |
| Timer.ElapseSum | src/hardware/timermodule.cpp:42-88 | Two calls amount to one with the sum of their ticks, for divider, counter, interrupt and residuals |
| Timer.CallsMerge | src/hardware/timermodule.cpp:42-88 | Splitting or merging any sequence of calls changes nothing |
| Timer.TimerClosedForm | src/hardware/timermodule.cpp:42-88 | After any calls: k = (t0 + total) / timeout counts, the counter c0 + k or modulo + (c0 + k - 256) mod (256 - modulo), the interrupt iff c0 + k >= 256, the residuals remainders; the divider likewise |
| Timer.Thresholds | src/hardware/timermodule.cpp:13-22 | The thresholds are 1024, 16, 64 and 256 ticks by selection, and 512 for the divider, half of that in double speed |
| Timer.CountsIn1024Ticks | src/hardware/timermodule.cpp:42-88 | 1024 ticks make 1, 64, 16 and 4 counts by selection, and two divider increments |
| Timer.OverflowRequestsBitTwo | src/hardware/timermodule.cpp:80-84 | Passing 0xFF requests the interrupt of bit 2 and no other |
| Timer.StoppedCounterStays | src/hardware/timermodule.cpp:65 | A stopped counter neither counts nor requests |
| Timer.DividerRestarts | src/hardware/timermodule.cpp:47-51 | A write to the divider restarts it from zero, residual and all |
| Timer.RegistersAreWritten | src/hardware/memory/mappedio.cpp:46 | The game reaches the three low bits of the control register, and counter and modulo whole |
| Timer.SpeedIndependence | src/hardware/processor.cpp:211-215 | Over any machine cycles and register writes, double speed gives the same divider, counter, interrupts and pending reset as normal speed, and exactly half the residuals |
| Timer.TimerModule.constructor | src/hardware/timermodule.cpp:24-40 | A new timer is at zero in normal speed |
| Timer.TimerModule.CycleDivider | src/hardware/timermodule.cpp:47-63 | The draining loop advances the divider by the whole increments elapsed and honours a pending reset first |
| Timer.TimerModule.CountOnce | src/hardware/timermodule.cpp:80-84 | One count reloads the modulo and requests the interrupt exactly at 0xFF |
| Timer.TimerModule.Drain | src/hardware/timermodule.cpp:74-87 | The draining loop makes as many counts as whole thresholds elapsed and keeps the rest |
| Timer.TimerModule.Cycle | src/hardware/timermodule.cpp:42-88 | One call on the object is one step of the model on its whole state |
| Bcd.SubUndoesAdd | src/hardware/processor.cpp:390-423 | Subtracting what was added restores the accumulator, with a borrow and half borrow exactly where there was a carry and half carry; both set the zero flag exactly for a zero result |
| Bcd.AddThenDaa | src/hardware/processor.cpp:390-404 | Adding two BCD bytes and correcting gives their two-digit decimal sum, its carry and the other three flags |
| Bcd.SubThenDaa | src/hardware/processor.cpp:406-423 | Subtracting and correcting gives their two-digit decimal difference, its borrow and the other three flags |
| Bcd.CorrectedSum | src/hardware/processor.cpp:884-890 | The correction of a binary sum carries exactly where the digit sums exceed nine |
| Bcd.CorrectedDifference | src/hardware/processor.cpp:881-890 | The correction of a binary difference borrows exactly where the digit differences are negative |
| Bcd.DecimalAddition | src/hardware/processor.cpp:877-895 | For BCD numbers of any length the chain yields the digits of the sum, the carry being the top digit |
| Bcd.DecimalSubtraction | src/hardware/processor.cpp:877-895 | For BCD numbers of any length the chain yields the difference modulo 10^(2n), the carry being the borrow |
| Stack.DispatchServesLowestPending | src/hardware/processor.cpp:169-209 | A dispatch clears exactly the lowest enabled pending bit, jumps to its vector, saves the program counter and leaves IME false |
| Stack.DispatchGoesToVector | src/hardware/interrupt.h:15-23 | With k the lowest enabled pending bit, the handler is at 0x40 + 8k |
| Stack.PushLayout | src/hardware/processor.cpp:616-623 | The high byte lies above the low one, SP is two lower, and no other byte changes |
| Stack.CallAndRetJump | src/hardware/processor.cpp:493-500 | A call goes to its target, a return to the word on top, and only RETI enables interrupts |
| Stack.TopSurvives | src/hardware/processor.cpp:608-623 | A body that keeps the stack above its own pointer hands back the word pushed before it |
| Stack.ExecBalanced | src/hardware/processor.cpp:608-634 | Any one balanced push/pop, call/ret, rst/ret or dispatch/RETI restores SP, its saved word and everything above |
| Stack.ExecAllBalanced | src/hardware/processor.cpp:608-634 | So does any nest of them of any depth that fits on the stack and stores nothing over it |
| Stack.ExecAllKeepsIme | src/hardware/processor.cpp:625-634 | Across any nest without explicit enabling or disabling, the interrupt enable ends as it began |
| Processor.Processor.constructor | src/hardware/processor.cpp:32-50 | A reset processor starts at 0 with its stack at 0xFFFE and interrupts enabled |
| Processor.Processor.Add8 | src/hardware/processor.cpp:390-404 | Accumulator and all four flags of an addition with or without carry |
| Processor.Processor.Sub8 | src/hardware/processor.cpp:406-423 | Accumulator and all four flags of a subtraction with or without borrow |
| Processor.Processor.DecimalAdjust | src/hardware/processor.cpp:877-895 | Accumulator and flags of the correction, in the code's 16-bit arithmetic |
| Processor.Processor.Push | src/hardware/processor.cpp:616-623 | High byte first, low byte below it, SP two lower, also where SP wraps |
| Processor.Processor.Pop | src/hardware/processor.cpp:608-614 | Returns the word on top and changes nothing but SP |
| Processor.Processor.Call | src/hardware/processor.cpp:493-500 | Saves the program counter and jumps |
| Processor.Processor.Rst | src/hardware/processor.cpp:754-759 | The same to a page-zero vector |
| Processor.Processor.Ret | src/hardware/processor.cpp:625-634 | Returns to the saved word, enabling interrupts for RETI only |
| Processor.Processor.Select | src/hardware/processor.cpp:173-189 | The order of tests picks the bit served first, and no vector exactly when no known bit is due |
| Processor.Processor.Interrupt | src/hardware/processor.cpp:169-209 | Dispatches if IME is set and something is due; wakes a halted processor without a dispatch if IME is clear |
| Interrupts.PublicationIsServed | src/hardware/processor.cpp:179-204 | The call that publishes the screen is followed by the handler at 0x40, if bit 0 is enabled |
| Interrupts.LcdRequestIsServed | src/hardware/processor.cpp:181-204 | The first call in a mode enabled by bit 3, 4 or 5 of the status register is followed by the handler at 0x48 |
| Interrupts.TimerOverflowIsServed | src/hardware/processor.cpp:183-204 | The call in which the timer passes 0xFF is followed by the handler at 0x50 |
| MemoryMap.RegionsPartitionTheAddresses | src/hardware/memorycontroller.cpp:48-53 | Every 16-bit address belongs to exactly one region besides the BIOS |
| MemoryMap.AnsweringByAddress | src/hardware/memory/readonly.h:27-33 | Who answers each address: the BIOS below its size except 0x0100 to 0x01FF, then each region in its range |
| MemoryMap.RamRanges | src/hardware/memmap.h:22-41 | RAM is 0x8000-0x9FFF, 0xC000-0xFE9F and from 0xFF80 on |
| MemoryMap.OnlyTheEchoShares | src/hardware/memory/workingram.cpp:28-70 | Two RAM addresses share a physical cell exactly when they are equal or one is 0xC000 to 0xDDFF and the other 0x2000 above it |
| MemoryMap.BanksShare | src/hardware/memory/workingram.cpp:17-26 | The banked half shows the same cells under two settings exactly when they are equal or both at most 1 |
| MemoryMap.VideoBanksShare | src/hardware/gpu.cpp:176-202 | Video memory shows the same cells under two settings exactly when their lowest bits agree |
| MemoryMap.WriteReachesItsCell | src/hardware/memorycontroller.cpp:104-118 | A write changes the cell its address stands for and no other RAM cell |
| MemoryMap.ReadAfterWrite | src/hardware/memorycontroller.cpp:104-143 | After a write to RAM the same address and its echo read the value, and every other address of RAM or of a register reads what it did |
| MemoryMap.RegistersAfterWrite | src/hardware/memory/mappedio.cpp:37-137 | After a write to a register each register reads what it should: the one written by its literal mask, the index that a palette port advances, and every other as before |
| MemoryMap.WriteSelectsBank | src/hardware/memory/mappedio.cpp:133-135 | Writing a bank register selects the bank |
| MemoryMap.WriteElsewhereIsIgnored | src/hardware/memorycontroller.cpp:112-117 | Writes to the other ranges reach none of this memory |
| MemoryMap.WhenInterruptMaskIsMasked | src/hardware/memory/mappedio.cpp:44 | A write to 0xFFFF keeps the three upper bits exactly when they are written as they are |
| MemoryMap.InterruptMaskStoresAllBits | src/hardware/memory/mappedio.cpp:44 | 0xFF written over 0 is stored whole, not as 0x1F |
| MemoryMap.TransferIsSnapshot | src/hardware/memory/mappedio.cpp:82-89 | The copy loop into object memory stores what the source held before, also when it copies object memory onto itself |
| MemoryMap.TransferCopiesPage | src/hardware/memory/mappedio.cpp:82-89 | Afterwards 0xFE00 + i reads what the page read at i |
| MemoryMap.ResetKeepsBanks | src/hardware/memory/mappedio.h:20 | A reset changes no bank selection: every address stands for the cell it did |
| MemoryMap.RunStores | src/hardware/memorycontroller.cpp:104-143 | After any writes, bank switches, transfers, unlockings and resets every cell holds what was last stored in it |
| MemoryMap.ReadReturnsLastStored | src/hardware/memorycontroller.cpp:120-129 | A read returns the last value stored in the physical cell that the address stands for now |
| MemoryMap.RegisterIsLastWritten | src/hardware/memory/mappedio.cpp:133-135 | After any run a register without masks and commands reads what was last written to it |
| MemoryMap.BanksAreLastSelected | src/hardware/memory/workingram.cpp:17-26 | After any run the banks selected are the last ones written |
| MemoryMap.VideoBanksAreSeparate | src/hardware/gpu.cpp:176-202 | A byte stored in one video bank is still there after the other was written, and is overwritten if it is the same |
| MemoryMap.WorkBanksAreSeparate | src/hardware/memory/workingram.cpp:17-50 | The same of the working RAM, where the settings 0 and 1 are one bank |
| MemoryController.MemoryController.constructor | src/hardware/memorycontroller.cpp:35-53 | A new memory has the BIOS in front, reads 0 everywhere but 0xFF at the joypad register, and every address selects a bank that exists |
| MemoryController.MemoryController.Find | src/hardware/memorycontroller.cpp:81-91 | The search always finds a region: the BIOS while it is in front and has the address, else the owner |
| MemoryController.MemoryController.Bank | src/hardware/memory/workingram.cpp:17-26 | The bank of an index: by position in DMG mode, else the first bank below and the selected one, at least 1, above |
| MemoryController.MemoryController.WorkingIndex | src/hardware/memory/workingram.cpp:28-50 | Moving an echo down, subtracting the offset and taking bank and remainder leads to the cell of the map |
| MemoryController.MemoryController.WriteWorking | src/hardware/memory/workingram.cpp:28-38 | A write to working RAM or its echo changes that cell and nothing else |
| MemoryController.MemoryController.ReadWorking | src/hardware/memory/workingram.cpp:40-50 | A read of working RAM or its echo returns that cell |
| MemoryController.MemoryController.WriteVideo | src/hardware/gpu.cpp:176-188 | A write to video memory changes the cell of the selected bank and nothing else |
| MemoryController.MemoryController.ReadVideo | src/hardware/gpu.cpp:190-202 | A read of video memory returns the cell of the selected bank |
| MemoryController.MemoryController.WriteRegister | src/hardware/memory/mappedio.cpp:37-137 | Masks, palette index increments, the divider and the transfer command act on the registers and memory as the map says |
| MemoryController.MemoryController.ResetAll | src/hardware/memorycontroller.cpp:55-62 | A reset puts the BIOS in front and clears RAM; of the registers, whose own reset is empty, only the five that the display controller stores to change |
| MemoryController.MemoryController.Write | src/hardware/memorycontroller.cpp:104-118 | A write through the region search and the region's own code is one step of the map on the whole state |
| MemoryController.MemoryController.CopyToObjectMemory | src/hardware/memory/mappedio.cpp:82-89 | The 160 reads and writes, each through the region search, are the transfer |
| MemoryController.MemoryController.Peek | src/hardware/memorycontroller.cpp:120-129 | A read through the region search, the echo subtraction and the bank selection returns the cell that the address stands for |
| MemoryController.MemoryController.UnlockBios | src/hardware/memorycontroller.h:53-55 | Afterwards every address is answered by its owner, all RAM and registers read what they did, and doing it twice changes nothing more |
| Cartridge.FlatUpdate | src/hardware/cartridge.cpp:243-256 | Storing a byte in a bank is storing it in the concatenated banks at the offset the file is written at |
| Cartridge.RunKeepsMirror | src/hardware/cartridge.cpp:216-258 | After any run of register and RAM writes the save file equals the concatenated RAM banks |
| Cartridge.SessionsPersist | src/hardware/cartridge.cpp:222-236 | A session that loads the file of the last one starts with the RAM the last one ended with |
| Cartridge.RunKeepsBank | src/hardware/cartridge.cpp:289-409 | After any run MBC1's low five bank bits are not zero and MBC3's bank is 1 to 127 |
| Cartridge.WindowShowsSelectedBank | src/hardware/cartridge.cpp:260-268 | The switchable window hits bank * 0x4000 + (address - 0x4000), never the fixed bank, and stays inside an image that holds the bank |
| Cartridge.WhenHighBitsAreSet | src/hardware/cartridge.cpp:305-311 | The upper bank bits become the requested ones exactly when every one set already is requested again |
| Cartridge.HighBitsStick | src/hardware/cartridge.cpp:305-311 | A write for which they do not |
| Cartridge.HighBitsAccumulate | src/hardware/cartridge.cpp:289-322 | Over any run the upper bank bits only grow |
| Cartridge.EnableIsLastWritten | src/hardware/cartridge.cpp:289-409 | After any run RAM is enabled exactly if the last value written below 0x2000 ended in 0x0A, or was before if there is none |
| Cartridge.Mbc1BankIsLastWritten | src/hardware/cartridge.cpp:293-311 | After any run the low five bits of the MBC1 bank are the last ones written, 0 becoming 1 |
| Cartridge.Mbc3BanksAreLastWritten | src/hardware/cartridge.cpp:385-394 | After any run the MBC3 ROM bank is the last one written, 0 becoming 1, and the RAM bank the last one written |
| Cartridge.Mbc1ModeIsLastWritten | src/hardware/cartridge.cpp:315-316 | After any run the MBC1 mode is the last one written, 0 meaning ROM |
| Cartridge.Mbc1RamBankIsLastWritten | src/hardware/cartridge.cpp:305-314 | After any run the MBC1 RAM bank is the low three bits last written there while RAM mode was on |
| Cartridge.LatchNeedsZeroThenOne | src/hardware/cartridge.cpp:394-403 | The clock is latched by writing 1 after 0 and by nothing else |
| Cartridge.LatchShowsClock | src/hardware/cartridge.cpp:339-362 | The latched clock reads as seconds, minutes, hours and the two day registers at the bank numbers 8 to 12 |
| Cartridge.ReadAfterWrite | src/hardware/cartridge.cpp:239-383 | A write to enabled RAM is read back at its address and nowhere else, one to a clock register everywhere; disabled RAM ignores it |
| Cartridge.ExternalReadsLastStored | src/hardware/cartridge.cpp:239-383 | After any run the external range reads 0xFF while disabled, and else what was last stored in the selected bank or clock register |
| MemoryBankController.MemoryBankController.constructor | src/hardware/cartridge.cpp:195-237 | Loads what the save file holds, and with a battery starts with the file mirroring the RAM |
| MemoryBankController.MemoryBankController.InitRam | src/hardware/cartridge.cpp:230-236 | The write-back loop leaves the concatenated banks in the file |
| MemoryBankController.MemoryBankController.Write | src/hardware/cartridge.cpp:181-190 | A write to the cartridge is one step of the model on its whole state |
| MemoryBankController.MemoryBankController.WriteMbc1Rom | src/hardware/cartridge.cpp:289-322 | The register writes of MBC1 |
| MemoryBankController.MemoryBankController.WriteMbc3Rom | src/hardware/cartridge.cpp:385-409 | The register writes of MBC3, the clock latched exactly on 0 followed by 1 |
| MemoryBankController.MemoryBankController.WriteRam | src/hardware/cartridge.cpp:239-258 | RAM, clock registers and file after a write to external RAM |
| MemoryBankController.MemoryBankController.ReadRom | src/hardware/cartridge.cpp:260-268 | The window reads the image at bank * 0x4000 + (address - 0x4000) |
| MemoryBankController.MemoryBankController.ReadRam | src/hardware/cartridge.cpp:270-362 | The external range reads 0xFF while disabled, else the selected bank or clock register |
| PalettePort.CacheIsExact | src/hardware/gpu.cpp:603-640 | After any run every cached colour has the components floor(255 * c / 31) of its two stored bytes, and is opaque exactly if one of them was written |
| PalettePort.ComponentsOfColor | src/hardware/gpu.cpp:630-639 | Red is the low five bits of the first byte, green straddles both, blue is in the second, and its top bit means nothing |
| PalettePort.BurstStores | src/hardware/memory/mappedio.cpp:53-65 | Up to 64 auto-increment writes store their values in consecutive bytes, wrapping, and leave the others |
| PalettePort.FullBurst | src/hardware/memory/mappedio.cpp:53-80 | 64 auto-increment writes from any index store each of the 64 bytes exactly once and return the index |
| PalettePort.TurnsAndSlots | src/hardware/memory/mappedio.cpp:61-63 | The order of the writes and the order of the bytes are inverse to each other |
| PalettePort.PaletteMemory.WritePalette | src/hardware/gpu.cpp:603-640 | Stores the byte and refreshes the cached colour it belongs to |
| PalettePort.PaletteMemory.WriteData | src/hardware/memory/mappedio.cpp:53-80 | The data port writes through the index and advances it exactly if its top bit is set |
| Base64.Encode | src/server/base64.cpp:40-81 | The encoding loop yields the text that the lemmas below speak of |
| Base64.Decode | src/server/base64.cpp:82-121 | The decoding loop yields the bytes of the longest alphabet prefix, for every text |
| Base64.RoundTrip | src/server/base64.cpp:40-121 | Decoding the encoding gives back every byte sequence, and the encoding has 4 * ceil(n / 3) characters |
| Base64.EncodingGroupsBits | src/server/base64.cpp:40-81 | The characters carry the bits of the bytes in order in groups of six, zero-filled, then padded (section 4 of RFC 4648) |
| Base64.SextetsKeepBits | src/server/base64.cpp:50-53 | Four sextets carry the 24-bit group of three bytes |
| Base64.BitsOfPositional | src/server/base64.cpp:50-53 | Digits of n bits side by side are the bits of the number they stand for in base 2^n |
| Base64.CharsAndValues | src/server/base64.cpp:30-38 | The alphabet and its index lookup are inverse |
| Base64.Alphabet | src/server/base64.cpp:30-33 | The alphabet is A to Z, a to z, 0 to 9, + and / in this order |
| Base64.TestVectors | src/server/base64.cpp:40-81 | The texts of f, fo and foo are those of section 10 of RFC 4648 |
| Text.SplitString | src/utility/util.cpp:8-24 | The erasing loop yields the tokens that the lemmas below speak of |
| Text.TrimCuts | src/utility/util.cpp:26-34 | Trimming cuts off the spaces at both ends, all of them and nothing else |
| Text.JoinPieces | src/utility/util.cpp:36-48 | The accumulating loop yields the joined text |
| Text.JoinSplit | src/utility/util.cpp:8-48 | Joining what was split gives the string back exactly if it is trimmed and has no leading or doubled separator |
| Text.JoinedSplit | src/utility/util.cpp:8-48 | Whatever was split, any joined tail of its tokens has no leading or doubled separator and no trailing space |
| Configuration.Configuration.Parse | src/utility/configuration.cpp:68-111 | The line loop yields the parsed settings, and where a key makes it throw, those of the lines before |
| Configuration.Configuration.ReadLine | src/utility/configuration.cpp:80-109 | One line replaces the setting of a known key and type, or none |
| Configuration.Configuration.Print | src/utility/configuration.cpp:126-138 | The text of all settings in the order of the key list |
| Configuration.PortEntry | src/utility/configuration.h:102-109 | The entry of the link port 8008 is `# ConfigKey::LINK_PORT` and `4:int:8008` |
| Configuration.RomEntry | src/utility/configuration.h:102-109 | The entry of an empty ROM name is `# ConfigKey::ROM` and `0:string:` |
| Configuration.ParsedConcat | src/utility/configuration.cpp:78-110 | Parsing whole lines followed by more text is parsing the one and then the other |
| Configuration.ParseCleanEntry | src/utility/configuration.cpp:126-138 | A printed entry restores the type and value of its key and no other |
| Configuration.ConfigurationRoundTrip | src/utility/configuration.cpp:68-138 | Parsing the printed text restores every type and value exactly when each value has no newline, no leading or doubled colon and no trailing space |
| Configuration.WhatComesBack | src/utility/configuration.cpp:68-138 | For any values of one line: each comes back without trailing space and without leading or doubled colons, and its type as it was |
| Configuration.DoubledColonIsLost | src/utility/configuration.cpp:82-92 | Among clean settings, a value like `a::b` comes back as `a:b` and all others as they were |

## Left out

- Link disconnects, reconnects and the simulated 0xFF response of an unconnected console: the session is connected throughout.
- Starting a transfer while one is pending: the model ignores such a start, since the code then overwrites the slot.
- Tick counting in `ConsoleLink::cycle`: the check may happen at any moment while a transfer is pending, which includes the code's own timing.
- Weak memory effects on the link slots: steps interleave, and each is atomic, as the release and acquire orders of the code intend.
- Display calls with more than 80 ticks, and writes of the game to the line register 0xFF44.
- `GPU::reset` in the middle of a run, and the user interface taking a copy of the screen.
- Sharing of registers between the display controller and memory: each call of `Gpu.GPU.Cycle` gets them as one value.
- The algorithm of `std::sort`: an insertion sort stands in for it, and `Sprites.AscendingIsUnique` shows that any other gives the same order.
- Floating point in the palette conversion: 255 * c / 31 in integers, which rounds to the same byte for all 32 components.
- The copy constructor of `RGB`, which swaps green and blue: no modelled path copies a colour that way, except greys in the constant palette, where it changes nothing.
- MemoryMap.ReadReturnsLastStored: an access to banked working RAM while the register selects a bank above 7 is excluded; the code asserts there.
- MemoryController.MemoryController.Peek: covers RAM and the registers other than the palette data ports, which read palette memory.
- Stack.ExecBalanced: the stack lies in plain RAM and does not wrap, because pushing onto registers or ROM has side effects of other components; single pushes and pops do wrap.
- The opcode table, the remaining arithmetic, joypad, sound registers and BIOS images: they add only easy members.
- General-purpose and H-blank DMA by 0xFF55: the second is unfinished in the code, and the first stores 0xFF in its own register, so that the next request is taken for an H-blank one.
- MemoryController.MemoryController.Write: excludes 0xFF55, and object memory transfers from the cartridge or the register page, where reads have sources outside this model.
- Side effects of register writes in other components: starting a transfer, palettes and the divider reset are modelled in their own modules and leave the register bytes alone here.
- Cartridge.RunKeepsMirror: an access to enabled RAM through a bank beyond the cartridge's RAM indexes outside a vector in the code, so runs make none; reading the real clock is an input.
- MBC2, cartridge headers and validity, RAM smaller than a bank, and errors of the save file after it is open.
- Base64 on text with characters above 0x7F: `isalnum` depends on the locale there, and the model takes the C locale.
- `Util::split` and `Util::join` with separators of more than one character, which no caller uses.
- The integers and booleans that settings derive from their text, listeners, file handling in `save`, and the default settings.
- Pausing and resuming the emulator, wall-clock throttling, sockets, the web server, logging and the user interface.
