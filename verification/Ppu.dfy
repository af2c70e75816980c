/** The display controller as a whole: the clockwork, the interrupts it requests, and the buffers it
    draws into and publishes. */
module Ppu {
  import opened Bytes
  import opened GpuState
  import opened Scanline
  import opened FrameTiming

  /** The status register: a mode in its two low bits under the game's enable bits. */
  function StatusRegister(enables: bv8, m: Mode): bv8 {
    (enables & 0xFC) | (match m case Hblank => 0 case Vblank => 1 case Oam => 2 case Vram => 3)
  }

  /** The enable bits after a write of the game, which `MappedIO::write` masks with 0x78. */
  function WriteEnables(enables: bv8, v: bv8): bv8 {
    (enables & 0x87) | (v & 0x78)
  }

  /** Keeping mode and enable bits apart loses nothing: the code's own updates of the register change
      one and leave the other. */
  lemma StatusRegisterParts(enables: bv8, m: Mode, n: Mode, v: bv8)
    ensures (StatusRegister(enables, m) & 0xFC) | StatusRegister(0, n) == StatusRegister(enables, n)
    ensures (StatusRegister(enables, m) & !0x78) | (v & 0x78) == StatusRegister(WriteEnables(enables, v), m)
    ensures StatusRegister(enables, m) & 3 == StatusRegister(0, n) <==> m == n
    ensures StatusRegister(enables, m) & 0x78 == enables & 0x78
  {
  }

  /** What the game reads: the mode as a number below the bits it wrote. */
  lemma StatusRegisterBits(enables: bv8, m: Mode, v: bv8)
    ensures StatusRegister(enables, m) & 0x03 == (match m case Hblank => 0 case Vblank => 1 case Oam => 2 case Vram => 3)
    ensures StatusRegister(WriteEnables(enables, v), m) & 0x78 == v & 0x78
  {
  }

  /** The fields `GPU::cycle` reads and writes. */
  datatype Display = Display(
    mode: Mode, ticks: nat, vscan: nat, scanline: byte, shown: Mode, enables: bv8, flags: bv8,
    screen: Buffer, buffer: Buffer, bg: Buffer)
  {
    function Clock(): Clock { FrameTiming.Clock(mode, ticks, vscan, scanline, shown) }
  }

  const VBLANK_INTERRUPT: bv8 := 0x01
  const LCD_INTERRUPT: bv8 := 0x02

  /** Request the LCD interrupt if the status register enables it for this mode. */
  function LcdFlags(p: Display, enable: bv8): bv8 {
    if p.enables & enable != 0 then p.flags | LCD_INTERRUPT else p.flags
  }

  function UpdateScreen(p: Display, env: Env): Display {
    if p.scanline >= HEIGHT then p
    else p.(buffer := DrawnBuffer(env, p.scanline, p.buffer, p.bg), bg := DrawnBg(env, p.scanline, p.bg))
  }

  function EnterHblank(p: Display): Display {
    if p.shown == Hblank then p
    else p.(scanline := if p.shown == Vblank then 0 else p.scanline,
            flags := LcdFlags(p, 0x08),
            shown := Hblank)
  }

  function HandleHblank(p: Display, env: Env): Display {
    var q := EnterHblank(p);
    if q.ticks < HBLANK_TICKS then q
    else
      var r := UpdateScreen(q, env);
      r.(scanline := (r.scanline + 1) % 256)
  }

  function EnterVblank(p: Display): Display {
    if p.shown == Vblank then p
    else p.(flags := LcdFlags(p, 0x10) | VBLANK_INTERRUPT,
            shown := Vblank,
            screen := p.buffer,
            buffer := BlankBuffer())
  }

  function HandleVblank(p: Display, ticks: byte): Display {
    var q := EnterVblank(p);
    if q.vscan + ticks < SCANLINE_TICKS then q.(vscan := q.vscan + ticks)
    else q.(vscan := q.vscan + ticks - SCANLINE_TICKS, scanline := Min(q.scanline + 1, SCANLINE_MAX))
  }

  function HandleOam(p: Display): Display {
    if p.shown == Oam then p
    else p.(flags := LcdFlags(p, 0x20), shown := Oam)
  }

  function HandleVram(p: Display): Display {
    if p.shown == Vram then p else p.(shown := Vram)
  }

  function Handle(p: Display, env: Env, ticks: byte): Display {
    match p.mode
    case Hblank => HandleHblank(p, env)
    case Vblank => HandleVblank(p, ticks)
    case Oam => HandleOam(p)
    case Vram => HandleVram(p)
  }

  function Next(p: Display): Display {
    var c := Advance(p.Clock());
    p.(ticks := c.ticks, mode := c.mode)
  }

  predicate On(env: Env) {
    env.control & 0x80 != 0
  }

  /** One call of `GPU::cycle`. */
  function Cycle(p: Display, env: Env, ticks: byte): Display {
    if !On(env) then p else Next(Handle(p.(ticks := p.ticks + ticks), env, ticks))
  }

  /** The clockwork does not depend on registers, video memory or interrupts. */
  lemma CycleTurnsClock(p: Display, env: Env, ticks: byte)
    requires On(env)
    ensures Cycle(p, env, ticks).Clock() == Turn(p.Clock(), ticks)
  {
    var q := p.(ticks := p.ticks + ticks);
    HandleTurnsClock(q, env, ticks);
    NextAdvancesClock(Handle(q, env, ticks));
  }

  lemma NextAdvancesClock(p: Display)
    ensures Next(p).Clock() == Advance(p.Clock())
  {
  }

  lemma HandleTurnsClock(p: Display, env: Env, ticks: byte)
    ensures Handle(p, env, ticks).Clock() == Handled(p.Clock(), ticks)
  {
    match p.mode
    case Hblank =>
      var q := EnterHblank(p);
      assert q.Clock() == p.Clock().(scanline := CurrentLine(p.Clock()), shown := Hblank);
    case Vblank =>
      assert EnterVblank(p).Clock() == p.Clock().(shown := Vblank);
    case Oam =>
    case Vram =>
  }

  /** What a call does to the buffers: draw a line at the end of a horizontal blank, publish at the
      first call of a vertical blank. */
  lemma CycleBuffers(p: Display, env: Env, ticks: byte)
    requires On(env)
    ensures var q, line := Cycle(p, env, ticks), CurrentLine(p.Clock());
            if p.mode == Hblank && p.ticks + ticks >= HBLANK_TICKS && line < HEIGHT
            then q.buffer == DrawnBuffer(env, line, p.buffer, p.bg) && q.bg == DrawnBg(env, line, p.bg)
                 && q.screen == p.screen
            else if FirstInVblank(p)
            then q.buffer == BlankBuffer() && q.bg == p.bg && q.screen == p.buffer
            else q.buffer == p.buffer && q.bg == p.bg && q.screen == p.screen
  {
  }

  /** The first call in a vertical blank publishes the screen. */
  predicate FirstInVblank(p: Display) {
    p.mode == Vblank && p.shown != Vblank
  }

  /** The status register's enable bit for the interrupt of a mode; video memory access has none. */
  function EnableBit(m: Mode): bv8 {
    match m
    case Hblank => 0x08
    case Vblank => 0x10
    case Oam => 0x20
    case Vram => 0x00
  }

  /** The first call in a mode that the status register enables requests the LCD interrupt. */
  predicate RequestsLcd(p: Display) {
    LcdDue(p.mode, p.shown, p.enables)
  }

  predicate LcdDue(m: Mode, shown: Mode, enables: bv8) {
    shown != m && enables & EnableBit(m) != 0
  }

  /** The interrupt flags with the two kinds of request added, if made, and every other bit as it was. */
  predicate FlagsAre(before: bv8, after: bv8, published: bool, lcd: bool) {
    && (after & VBLANK_INTERRUPT != 0 <==> before & VBLANK_INTERRUPT != 0 || published)
    && (after & LCD_INTERRUPT != 0 <==> before & LCD_INTERRUPT != 0 || lcd)
    && after & 0xFC == before & 0xFC
  }

  lemma FlagsAdded(f: bv8)
    ensures FlagsAre(f, f, false, false) && FlagsAre(f, f | LCD_INTERRUPT, false, true)
    ensures FlagsAre(f, f | VBLANK_INTERRUPT, true, false)
    ensures FlagsAre(f, (f | LCD_INTERRUPT) | VBLANK_INTERRUPT, true, true)
  {
  }

  /** The flags as a mode's handler leaves them. */
  function Requested(p: Display): bv8 {
    With(p.flags, FirstInVblank(p), RequestsLcd(p))
  }

  function With(flags: bv8, published: bool, lcd: bool): bv8 {
    var f := if lcd then flags | LCD_INTERRUPT else flags;
    if published then f | VBLANK_INTERRUPT else f
  }

  lemma RequestedFlags(p: Display, after: bv8)
    requires after == Requested(p)
    ensures FlagsAre(p.flags, after, FirstInVblank(p), RequestsLcd(p))
  {
    FlagsAdded(p.flags);
  }

  lemma EnteredFlags(p: Display)
    ensures p.mode == Hblank ==> EnterHblank(p).flags == Requested(p)
    ensures p.mode == Vblank ==> EnterVblank(p).flags == Requested(p)
    ensures p.mode == Oam ==> HandleOam(p).flags == Requested(p)
    ensures p.mode == Vram ==> HandleVram(p).flags == Requested(p)
  {
    var lcd := LcdFlags(p, EnableBit(p.mode));
    assert p.shown != p.mode ==> lcd == if RequestsLcd(p) then p.flags | LCD_INTERRUPT else p.flags;
    assert p.enables & 0 == 0;
  }

  lemma HandleFlags(p: Display, env: Env, ticks: byte)
    ensures Handle(p, env, ticks).flags == Requested(p)
  {
    EnteredFlags(p);
    match p.mode
    case Hblank =>
      var q := EnterHblank(p);
      assert UpdateScreen(q, env).flags == q.flags;
    case Vblank =>
    case Oam =>
    case Vram =>
  }

  lemma LaterFlags(p: Display, ticks: nat)
    ensures Requested(p.(ticks := ticks)) == Requested(p)
  {
    var q := p.(ticks := ticks);
    assert RequestsLcd(q) == RequestsLcd(p);
  }

  /** A call requests the vertical-blank interrupt exactly when it publishes the screen, and the LCD
      interrupt exactly when it is the first in an enabled mode; it withdraws nothing. */
  lemma CycleFlags(p: Display, env: Env, ticks: byte)
    requires On(env)
    ensures FlagsAre(p.flags, Cycle(p, env, ticks).flags, FirstInVblank(p), RequestsLcd(p))
  {
    var q := p.(ticks := p.ticks + ticks);
    HandleFlags(q, env, ticks);
    assert Cycle(p, env, ticks).flags == Requested(q);
    LaterFlags(p, q.ticks);
    RequestedFlags(p, Cycle(p, env, ticks).flags);
  }

  // ---- Runs --------------------------------------------------------------------------------------

  /** Time passes, with memory and the other registers as the game left them; the game writes the
      status register; the interrupt flags change. */
  datatype Event =
    | Tick(env: Env, ticks: byte)
    | WriteStat(v: bv8)
    | WriteFlags(v: bv8)

  function Step(p: Display, e: Event): Display {
    match e
    case Tick(env, ticks) => Cycle(p, env, ticks)
    case WriteStat(v) => p.(enables := WriteEnables(p.enables, v))
    case WriteFlags(v) => p.(flags := v)
  }

  /** A call of `cycle` passes at most 80 ticks; the processor charges its steps in such pieces. */
  predicate Small(events: seq<Event>) {
    forall e | e in events :: e.Tick? ==> e.ticks <= 80
  }

  /** After the constructor. */
  predicate PowerOn(p: Display) {
    && p.mode == Oam && p.shown == Oam
    && p.ticks == p.vscan == p.scanline == 0
    && p.buffer == BlankBuffer()
  }

  /** A drawn line, the registers and memory it was drawn from, and the recorded colours before it. */
  datatype Drawn = Drawn(line: byte, env: Env, bg: Buffer)

  /** Lines drawn since the last published screen, ticks fed while the display was on, the total length
      of the completed phases, and the meter of the current frame. */
  datatype Seen = Seen(drawn: seq<Drawn>, on: nat, completed: nat, meter: Meter)

  const NOTHING_SEEN := Seen([], 0, 0, NoEntry)

  predicate Publishes(p: Display, e: Event) {
    e.Tick? && On(e.env) && FirstInVblank(p)
  }

  predicate DrawsLine(p: Display, e: Event) {
    e.Tick? && On(e.env) && p.mode == Hblank && p.ticks + e.ticks >= HBLANK_TICKS && CurrentLine(p.Clock()) < HEIGHT
  }

  function See(s: Seen, p: Display, e: Event): Seen {
    if !e.Tick? || !On(e.env) then s
    else
      Seen(if Publishes(p, e) then []
           else if DrawsLine(p, e) then s.drawn + [Drawn(CurrentLine(p.Clock()), e.env, p.bg)]
           else s.drawn,
           s.on + e.ticks,
           if p.ticks + e.ticks < Length(p.mode) then s.completed else s.completed + Length(p.mode),
           Measure(s.meter, p.Clock(), e.ticks))
  }

  /** The state and what has been seen after a run. */
  function Run(p: Display, s: Seen, events: seq<Event>): (Display, Seen)
    decreases |events|
  {
    if events == [] then (p, s) else Run(Step(p, events[0]), See(s, p, events[0]), events[1..])
  }

  /** How many lines of the next screen are drawn. */
  function LinesDrawn(c: Clock): nat {
    match c.mode
    case Hblank => CurrentLine(c)
    case Vblank => if c.shown == Vblank then 0 else LINES
    case Oam => c.scanline
    case Vram => c.scanline
  }

  /** The drawn lines are 0, 1, 2, ... up to where the clock stands. */
  predicate LinesOk(s: Seen, c: Clock) {
    && |s.drawn| == LinesDrawn(c) <= LINES
    && forall l | 0 <= l < |s.drawn| :: s.drawn[l].line == l
  }

  /** Pixel `i` of the screen being drawn: as its line left it, and blank if its line is still to come. */
  function PixelOf(s: Seen, i: nat): Rgb
    requires i < PIXELS
  {
    var l := i / WIDTH;
    if l < |s.drawn| then DrawnColor(s.drawn[l].env, l, i % WIDTH, BLANK, s.drawn[l].bg[i]) else BLANK
  }

  predicate ContentOk(s: Seen, buffer: Buffer) {
    forall i | 0 <= i < PIXELS :: buffer[i] == PixelOf(s, i)
  }

  predicate Inv(p: Display, s: Seen) {
    && Reachable(p.Clock()) && MeterOk(s.meter, p.Clock())
    && s.on == s.completed + p.ticks
    && LinesOk(s, p.Clock())
    && ContentOk(s, p.buffer)
  }

  lemma PowerOnInv(p: Display)
    requires PowerOn(p)
    ensures Inv(p, NOTHING_SEEN)
  {
  }

  lemma StepKeepsLines(p: Display, s: Seen, e: Event)
    requires Inv(p, s) && e.Tick? && On(e.env) && e.ticks <= 80
    ensures LinesOk(See(s, p, e), Turn(p.Clock(), e.ticks))
  {
  }

  lemma StepKeepsContent(p: Display, s: Seen, e: Event)
    requires Inv(p, s) && e.Tick? && On(e.env)
    ensures ContentOk(See(s, p, e), Step(p, e).buffer)
  {
    CycleBuffers(p, e.env, e.ticks);
    var t, q := See(s, p, e), Step(p, e);
    if DrawsLine(p, e) {
      var line := CurrentLine(p.Clock());
      assert |s.drawn| == line;
      forall i | 0 <= i < PIXELS ensures q.buffer[i] == PixelOf(t, i) {
        assert p.buffer[i] == PixelOf(s, i);
      }
    }
  }

  lemma TickKeepsInv(p: Display, s: Seen, e: Event)
    requires Inv(p, s) && e.Tick? && On(e.env) && e.ticks <= 80
    ensures Inv(Step(p, e), See(s, p, e))
  {
    CycleTurnsClock(p, e.env, e.ticks);
    TurnKeepsReachable(p.Clock(), e.ticks);
    TurnKeepsMeter(s.meter, p.Clock(), e.ticks);
    StepKeepsLines(p, s, e);
    StepKeepsContent(p, s, e);
  }

  lemma StepKeepsInv(p: Display, s: Seen, e: Event)
    requires Inv(p, s) && (e.Tick? ==> e.ticks <= 80)
    ensures Inv(Step(p, e), See(s, p, e))
  {
    if e.Tick? && On(e.env) {
      TickKeepsInv(p, s, e);
    } else {
      assert See(s, p, e) == s && Step(p, e).Clock() == p.Clock() && Step(p, e).buffer == p.buffer;
    }
  }

  lemma {:induction false} RunKeepsInv(p: Display, s: Seen, events: seq<Event>)
    requires Inv(p, s) && Small(events)
    ensures var (q, t) := Run(p, s, events); Inv(q, t)
    decreases |events|
  {
    if events == [] {
    } else {
      assert events[0] in events && forall e | e in events[1..] :: e in events;
      StepKeepsInv(p, s, events[0]);
      RunKeepsInv(Step(p, events[0]), See(s, p, events[0]), events[1..]);
    }
  }

  // ---- What holds of every run -------------------------------------------------------------------

  /** Whatever the game does between calls: the reachable-state invariant, and no tick is lost. */
  lemma RunsStayReachable(p: Display, events: seq<Event>)
    requires PowerOn(p) && Small(events)
    ensures var (q, t) := Run(p, NOTHING_SEEN, events);
            Reachable(q.Clock()) && t.on == t.completed + q.ticks
  {
    PowerOnInv(p);
    RunKeepsInv(p, NOTHING_SEEN, events);
  }

  /** Between consecutive publications each line 0 to 143 is drawn exactly once, in ascending order, and
      row `l` of the published screen is what drawing line `l` over a blank row produced. */
  lemma PublishedScreen(p: Display, events: seq<Event>, e: Event)
    requires PowerOn(p) && Small(events)
    requires var (q, t) := Run(p, NOTHING_SEEN, events); Publishes(q, e)
    ensures var (q, t) := Run(p, NOTHING_SEEN, events);
            && |t.drawn| == HEIGHT
            && (forall l | 0 <= l < HEIGHT :: t.drawn[l].line == l)
            && (forall i | 0 <= i < PIXELS ::
                  Step(q, e).screen[i] ==
                  DrawnColor(t.drawn[i / WIDTH].env, i / WIDTH, i % WIDTH, BLANK, t.drawn[i / WIDTH].bg[i]))
            && Step(q, e).buffer == BlankBuffer()
            && See(t, q, e).drawn == []
            && Step(q, e).flags & VBLANK_INTERRUPT != 0
  {
    PowerOnInv(p);
    RunKeepsInv(p, NOTHING_SEEN, events);
    var (q, t) := Run(p, NOTHING_SEEN, events);
    CycleBuffers(q, e.env, e.ticks);
    CycleFlags(q, e.env, e.ticks);
    forall i | 0 <= i < PIXELS
      ensures Step(q, e).screen[i] ==
              DrawnColor(t.drawn[i / WIDTH].env, i / WIDTH, i % WIDTH, BLANK, t.drawn[i / WIDTH].bg[i])
    {
      assert q.buffer[i] == PixelOf(t, i);
    }
  }

  /** The distance between consecutive entries into the vertical blank, over whole runs. */
  lemma FrameLengthInRuns(p: Display, events: seq<Event>, e: Event)
    requires PowerOn(p) && Small(events) && e.Tick? && On(e.env) && e.ticks <= 80
    requires var (q, t) := Run(p, NOTHING_SEEN, events); t.meter.Since? && EntersVblank(q.Clock(), e.ticks)
    ensures var (q, t) := Run(p, NOTHING_SEEN, events);
            var m := t.meter;
            && m.fed + e.ticks ==
               VISIBLE_TICKS + VBLANK_TICKS * m.periods + Step(q, e).ticks - m.residual
            && m.periods in {1, 2}
            && (m.periods == 1 <==> m.residual <= m.vscan + m.firstResidual + 6)
            && (m.residual <= m.vscan + 6 ==> m.periods == 1)
  {
    PowerOnInv(p);
    RunKeepsInv(p, NOTHING_SEEN, events);
    var (q, t) := Run(p, NOTHING_SEEN, events);
    CycleTurnsClock(q, e.env, e.ticks);
    FrameLength(t.meter, q.Clock(), e.ticks);
  }
}
