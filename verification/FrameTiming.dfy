/** The display controller's clockwork: four modes on one tick counter, a second counter for the lines
    of the vertical blank, and the mode shown in the status register, which lags one call behind. */
module FrameTiming {
  import opened Bytes

  datatype Mode = Hblank | Vblank | Oam | Vram

  const LINES := 144
  const OAM_TICKS := 80
  const VRAM_TICKS := 172
  const HBLANK_TICKS := 204
  const VBLANK_TICKS := 4560
  const SCANLINE_MAX := 155
  const SCANLINE_TICKS := 414

  /** Ticks of the lines 0 to 143, the first of which is a horizontal blank only. */
  const VISIBLE_TICKS := 65412

  function Length(m: Mode): nat {
    match m
    case Hblank => HBLANK_TICKS
    case Vblank => VBLANK_TICKS
    case Oam => OAM_TICKS
    case Vram => VRAM_TICKS
  }

  /** The mode being timed, its ticks, the vertical-blank line counter's ticks, the line register and the
      mode the status register shows. */
  datatype Clock = Clock(mode: Mode, ticks: nat, vscan: nat, scanline: byte, shown: Mode)

  /** The line a horizontal blank belongs to: leaving the vertical blank it starts over at 0. */
  function CurrentLine(c: Clock): byte {
    if c.mode == Hblank && c.shown == Vblank then 0 else c.scanline
  }

  /** The line register and `vscan` when the current mode's handler returns. */
  function Handled(c: Clock, ticks: byte): Clock {
    var d := c.(shown := c.mode);
    match c.mode
    case Hblank =>
      d.(scanline := if c.ticks < HBLANK_TICKS then CurrentLine(c) else (CurrentLine(c) + 1) % 256)
    case Vblank =>
      if c.vscan + ticks < SCANLINE_TICKS then d.(vscan := c.vscan + ticks)
      else d.(vscan := c.vscan + ticks - SCANLINE_TICKS, scanline := Min(c.scanline + 1, SCANLINE_MAX))
    case Oam => d
    case Vram => d
  }

  /** The mode after a completed phase. */
  function Successor(c: Clock): Mode {
    match c.mode
    case Hblank => if c.scanline == LINES then Vblank else Oam
    case Vblank => if c.scanline == SCANLINE_MAX then Hblank else Vblank
    case Oam => Vram
    case Vram => Hblank
  }

  /** `GPU::next`. */
  function Advance(c: Clock): Clock {
    if c.ticks < Length(c.mode) then c else c.(ticks := c.ticks - Length(c.mode), mode := Successor(c))
  }

  /** One call of `GPU::cycle` while the display is on. */
  function Turn(c: Clock, ticks: byte): Clock {
    Advance(Handled(c.(ticks := c.ticks + ticks), ticks))
  }

  // ---- The reachable states ----------------------------------------------------------------------

  /** The mode a phase follows. */
  function Predecessor(m: Mode): Mode {
    match m
    case Hblank => Vram
    case Vblank => Hblank
    case Oam => Hblank
    case Vram => Oam
  }

  predicate ScanlineOk(c: Clock) {
    match c.mode
    case Oam => c.scanline < LINES
    case Vram => c.scanline < LINES
    case Hblank => if c.shown == Vblank then c.scanline == SCANLINE_MAX else c.scanline < LINES
    case Vblank => if c.shown == Vblank then LINES <= c.scanline <= SCANLINE_MAX else c.scanline == LINES
  }

  /** Both counters are reduced; the line register is in the range of its mode; the status register shows
      the current mode, or the one before it until the first call made in the current one. */
  predicate Reachable(c: Clock) {
    && c.ticks < Length(c.mode)
    && c.vscan < SCANLINE_TICKS
    && ScanlineOk(c)
    && (c.shown != c.mode ==>
          && c.ticks < 80
          && (c.shown == Predecessor(c.mode) || (c.mode == Hblank && c.shown == Vblank)))
  }

  lemma TurnKeepsReachable(c: Clock, ticks: byte)
    requires Reachable(c) && ticks <= 80
    ensures Reachable(Turn(c, ticks))
  {
  }

  // ---- Frame length ------------------------------------------------------------------------------

  /** Ticks since the last entry into the vertical blank: the residual and `vscan` at that entry, the
      completed vertical-blank phases, and the residual the first of them left. */
  datatype Meter =
    | NoEntry
    | Since(residual: nat, vscan: nat, fed: nat, periods: nat, firstResidual: nat)

  /** This call completes the last visible line. */
  predicate EntersVblank(c: Clock, ticks: byte) {
    c.mode == Hblank && Turn(c, ticks).mode == Vblank
  }

  function Measure(m: Meter, c: Clock, ticks: byte): Meter {
    var d := Turn(c, ticks);
    if EntersVblank(c, ticks) then Since(d.ticks, d.vscan, 0, 0, 0)
    else if m.NoEntry? then m
    else
      var n := m.(fed := m.fed + ticks);
      if c.mode == Vblank && c.ticks + ticks >= VBLANK_TICKS
      then n.(periods := n.periods + 1, firstResidual := if n.periods == 0 then d.ticks else n.firstResidual)
      else n
  }

  /** Ticks from the end of the vertical blank to the start of the current phase. */
  function PhaseStart(c: Clock): int {
    match c.mode
    case Hblank => 456 * CurrentLine(c)
    case Oam => 456 * c.scanline - 252
    case Vram => 456 * c.scanline - 172
    case Vblank => VISIBLE_TICKS
  }

  /** A second vertical-blank phase is needed: after the first, line 155 was not reached. */
  predicate NeedsSecond(m: Meter)
    requires m.Since?
  {
    m.residual > m.vscan + m.firstResidual + 6
  }

  /** What the meter says about the clock. */
  predicate MeterOk(m: Meter, c: Clock)
  {
    m.Since? ==>
      && m.residual < 80 && m.vscan < SCANLINE_TICKS
      && (m.periods > 0 ==> m.firstResidual < 80)
      && if c.mode == Vblank then
           && m.fed == VBLANK_TICKS * m.periods + c.ticks - m.residual
           && c.vscan == (m.vscan + m.fed) % SCANLINE_TICKS
           && c.scanline == Min(LINES + (m.vscan + m.fed) / SCANLINE_TICKS, SCANLINE_MAX)
           && m.periods <= 1
           && (m.periods == 1 ==> NeedsSecond(m))
           && (m.periods == 0 ==> c.ticks >= m.residual)
         else
           && m.fed == VBLANK_TICKS * m.periods + PhaseStart(c) + c.ticks - m.residual
           && m.periods == (if NeedsSecond(m) then 2 else 1)
           && (c.mode == Oam || c.mode == Vram ==> c.scanline > 0)
  }

  /** One more call's ticks on the vertical-blank line counter. */
  lemma MoreLineTicks(total: nat, ticks: byte)
    requires ticks <= 80
    ensures if total % SCANLINE_TICKS + ticks < SCANLINE_TICKS
            then (total + ticks) / SCANLINE_TICKS == total / SCANLINE_TICKS
                 && (total + ticks) % SCANLINE_TICKS == total % SCANLINE_TICKS + ticks
            else (total + ticks) / SCANLINE_TICKS == total / SCANLINE_TICKS + 1
                 && (total + ticks) % SCANLINE_TICKS == total % SCANLINE_TICKS + ticks - SCANLINE_TICKS
  {
  }

  /** The line counter and the line register in the vertical blank, by the ticks fed since the entry. */
  lemma LinesInVblank(m: Meter, c: Clock, ticks: byte)
    requires m.Since? && c.mode == Vblank && Reachable(c) && ticks <= 80 && MeterOk(m, c)
    ensures var d, fed := Handled(c.(ticks := c.ticks + ticks), ticks), m.vscan + m.fed + ticks;
            && d.vscan == fed % SCANLINE_TICKS
            && d.scanline == Min(LINES + fed / SCANLINE_TICKS, SCANLINE_MAX)
  {
    MoreLineTicks(m.vscan + m.fed, ticks);
  }

  lemma TurnStaysInVblank(m: Meter, c: Clock, ticks: byte)
    requires m.Since? && c.mode == Vblank && c.ticks + ticks < VBLANK_TICKS
    requires Reachable(c) && ticks <= 80 && MeterOk(m, c)
    ensures MeterOk(Measure(m, c, ticks), Turn(c, ticks))
  {
    LinesInVblank(m, c, ticks);
  }

  lemma TurnEndsVblank(m: Meter, c: Clock, ticks: byte)
    requires m.Since? && c.mode == Vblank && c.ticks + ticks >= VBLANK_TICKS
    requires Reachable(c) && ticks <= 80 && MeterOk(m, c)
    ensures MeterOk(Measure(m, c, ticks), Turn(c, ticks))
  {
    LinesInVblank(m, c, ticks);
  }

  lemma TurnKeepsMeterInHblank(m: Meter, c: Clock, ticks: byte)
    requires m.Since? && c.mode == Hblank
    requires Reachable(c) && ticks <= 80 && MeterOk(m, c)
    ensures MeterOk(Measure(m, c, ticks), Turn(c, ticks))
  {
    if c.ticks + ticks < HBLANK_TICKS {
      assert Turn(c, ticks).mode == Hblank;
    } else {
      assert Turn(c, ticks).ticks == c.ticks + ticks - HBLANK_TICKS;
    }
  }

  lemma TurnKeepsMeterWhileDrawing(m: Meter, c: Clock, ticks: byte)
    requires m.Since? && (c.mode == Oam || c.mode == Vram)
    requires Reachable(c) && ticks <= 80 && MeterOk(m, c)
    ensures MeterOk(Measure(m, c, ticks), Turn(c, ticks))
  {
  }

  lemma TurnKeepsMeter(m: Meter, c: Clock, ticks: byte)
    requires Reachable(c) && ticks <= 80 && MeterOk(m, c)
    ensures MeterOk(Measure(m, c, ticks), Turn(c, ticks))
  {
    if m.NoEntry? {
      TurnKeepsReachable(c, ticks);
    } else if c.mode == Vblank && c.ticks + ticks < VBLANK_TICKS {
      TurnStaysInVblank(m, c, ticks);
    } else if c.mode == Vblank {
      TurnEndsVblank(m, c, ticks);
    } else if c.mode == Hblank {
      TurnKeepsMeterInHblank(m, c, ticks);
    } else {
      TurnKeepsMeterWhileDrawing(m, c, ticks);
    }
  }

  /** From one entry into the vertical blank to the next, the residuals apart, there are 65412 ticks and
      one or two vertical-blank phases: one exactly when the entry's residual is at most what `vscan`
      and the first phase's own residual make up for, in particular when it is at most `vscan` + 6. */
  lemma FrameLength(m: Meter, c: Clock, ticks: byte)
    requires m.Since? && Reachable(c) && ticks <= 80 && MeterOk(m, c) && EntersVblank(c, ticks)
    ensures var k := m.periods;
            && m.fed + ticks == VISIBLE_TICKS + VBLANK_TICKS * k + Turn(c, ticks).ticks - m.residual
            && k in {1, 2}
            && (k == 1 <==> m.residual <= m.vscan + m.firstResidual + 6)
            && (m.residual <= m.vscan + 6 ==> k == 1)
  {
  }
}
