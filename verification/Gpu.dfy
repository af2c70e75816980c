/** The display controller object. Each call gets the registers and memory as the game left them. */
module Gpu {
  import opened Bytes
  import opened GpuState
  import opened Scanline
  import opened FrameTiming
  import opened Ppu

  class GPU {
    var mode: Mode
    var ticks: nat
    var vscan: nat
    var scanline: byte
    var shown: Mode     // the mode bits of the status register
    var enables: bv8    // its other bits
    var flags: bv8      // the interrupt flags register
    var screen: array<Rgb>
    var buffer: array<Rgb>
    var bg: array<Rgb>

    ghost predicate Valid()
      reads this
    {
      && screen.Length == buffer.Length == bg.Length == PIXELS
      && screen != buffer && screen != bg && buffer != bg
    }

    /** The abstract value. */
    ghost function State(): Display
      reads this, screen, buffer, bg
      requires Valid()
    {
      Display(mode, ticks, vscan, scanline, shown, enables, flags, screen[..], buffer[..], bg[..])
    }

    constructor ()
      ensures Valid() && fresh(screen) && fresh(buffer) && fresh(bg) && PowerOn(State())
    {
      mode, ticks, vscan, scanline := Oam, 0, 0, 0;
      shown, enables, flags := Oam, 0x84, 0;
      screen := new Rgb[PIXELS](_ => BLANK);
      buffer := new Rgb[PIXELS](_ => BLANK);
      bg := new Rgb[PIXELS](_ => BLANK);
    }

    method UpdateScreen(env: Env)
      requires Valid()
      modifies buffer, bg
      ensures State() == Ppu.UpdateScreen(old(State()), env)
    {
      if scanline >= HEIGHT { return; }
      DrawLine(env, scanline, buffer, bg);
    }

    method RequestLcd(enable: bv8)
      modifies this`flags
      ensures flags == if enables & enable != 0 then old(flags) | LCD_INTERRUPT else old(flags)
    {
      if enables & enable != 0 { flags := flags | LCD_INTERRUPT; }
    }

    method HandleHblank(env: Env)
      requires Valid() && mode == Hblank
      modifies this`shown, this`scanline, this`flags, buffer, bg
      ensures State() == Ppu.HandleHblank(old(State()), env)
    {
      if shown != Hblank {
        if shown == Vblank { scanline := 0; }
        RequestLcd(0x08);
        shown := Hblank;
      }
      if ticks < HBLANK_TICKS { return; }
      UpdateScreen(env);
      scanline := (scanline + 1) % 256;
    }

    method HandleVblank(elapsed: byte)
      requires Valid() && mode == Vblank
      modifies this
      ensures Valid() && State() == Ppu.HandleVblank(old(State()), elapsed)
      ensures bg == old(bg) && screen in {old(screen), old(buffer)} && (buffer == old(buffer) || fresh(buffer))
    {
      if shown != Vblank {
        RequestLcd(0x10);
        flags := flags | VBLANK_INTERRUPT;
        shown := Vblank;
        screen := buffer;
        buffer := new Rgb[PIXELS](_ => BLANK);
        assert buffer[..] == BlankBuffer();
      }
      vscan := vscan + elapsed;
      if SCANLINE_TICKS <= vscan {
        vscan := vscan - SCANLINE_TICKS;
        scanline := Min(scanline + 1, SCANLINE_MAX);
      }
    }

    method HandleOam()
      requires Valid() && mode == Oam
      modifies this`shown, this`flags
      ensures State() == Ppu.HandleOam(old(State()))
    {
      if shown != Oam {
        RequestLcd(0x20);
        shown := Oam;
      }
    }

    method HandleVram()
      requires Valid() && mode == Vram
      modifies this`shown
      ensures State() == Ppu.HandleVram(old(State()))
    {
      if shown != Vram { shown := Vram; }
    }

    /** The switch in `GPU::cycle`. */
    method Dispatch(env: Env, elapsed: byte)
      requires Valid()
      modifies this, buffer, bg
      ensures Valid() && State() == Ppu.Handle(old(State()), env, elapsed)
      ensures bg == old(bg) && screen in {old(screen), old(buffer)} && (buffer == old(buffer) || fresh(buffer))
    {
      match mode
      case Hblank => HandleHblank(env);
      case Vblank => HandleVblank(elapsed);
      case Oam => HandleOam();
      case Vram => HandleVram();
    }

    /** `GPU::next`, which both reduces the ticks and returns the next mode. */
    method Next() returns (next: Mode)
      requires Valid()
      modifies this`ticks
      ensures State().(mode := next) == Ppu.Next(old(State()))
    {
      next := mode;
      match mode
      case Hblank =>
        if ticks < HBLANK_TICKS { return; }
        ticks := ticks - HBLANK_TICKS;
        next := if scanline == HEIGHT then Vblank else Oam;
      case Vblank =>
        if ticks < VBLANK_TICKS { return; }
        ticks := ticks - VBLANK_TICKS;
        next := if scanline == SCANLINE_MAX then Hblank else Vblank;
      case Oam =>
        if ticks < OAM_TICKS { return; }
        ticks := ticks - OAM_TICKS;
        next := Vram;
      case Vram =>
        if ticks < VRAM_TICKS { return; }
        ticks := ticks - VRAM_TICKS;
        next := Hblank;
    }

    /** One call refines one step of the model, so everything proved of runs holds of this object. */
    method Cycle(env: Env, elapsed: byte)
      requires Valid()
      modifies this, buffer, bg
      ensures Valid() && State() == Ppu.Cycle(old(State()), env, elapsed)
      ensures bg == old(bg) && screen in {old(screen), old(buffer)} && (buffer == old(buffer) || fresh(buffer))
    {
      if env.control & 0x80 == 0 { return; }
      Elapse(elapsed);
      Dispatch(env, elapsed);
      Settle();
    }

    method Elapse(elapsed: byte)
      requires Valid()
      modifies this`ticks
      ensures State() == old(State()).(ticks := old(State()).ticks + elapsed)
    {
      ticks := ticks + elapsed;
    }

    method Settle()
      requires Valid()
      modifies this`ticks, this`mode
      ensures State() == Ppu.Next(old(State()))
    {
      var next := Next();
      mode := next;
    }
  }
}
