/** From a request to its handler: what the display controller and the timer ask for, and where the
    processor goes. */
module Interrupts {
  import opened Bytes
  import opened GpuState
  import FrameTiming
  import Ppu
  import Stack
  import Timer

  lemma BitZero(p: bv8)
    requires p & 0x01 != 0
    ensures Stack.IsSet(p, 0)
  {
  }

  lemma BitOne(p: bv8)
    requires p & 0x02 != 0 && p & 0x01 == 0
    ensures Stack.IsSet(p, 1) && !Stack.IsSet(p, 0)
  {
  }

  lemma BitTwo(p: bv8)
    requires p & 0x04 != 0 && p & 0x03 == 0
    ensures Stack.IsSet(p, 2) && !Stack.IsSet(p, 1) && !Stack.IsSet(p, 0)
  {
  }

  /** A single bit that is both enabled and requested is due. */
  lemma Due(mask: bv8, status: bv8, bit: bv8)
    requires bit == 0x01 || bit == 0x02 || bit == 0x04
    requires mask & bit != 0 && status & bit != 0
    ensures (mask & status) & bit != 0
  {
  }

  /** The call that publishes the screen is followed by the handler at 0x40, if bit 0 is enabled. */
  lemma PublicationIsServed(p: Ppu.Display, env: Env, ticks: byte, c: Stack.Cpu)
    requires env.control & 0x80 != 0 && p.mode == FrameTiming.Vblank && p.shown != FrameTiming.Vblank
    requires c.status == Ppu.Cycle(p, env, ticks).flags && c.ime && c.mask & 0x01 != 0
    ensures Stack.Interrupt(c).pc == 0x40 && Stack.Top(Stack.Interrupt(c)) == c.pc
  {
    Ppu.CycleFlags(p, env, ticks);
    Due(c.mask, c.status, 0x01);
    BitZero(c.mask & c.status);
    Stack.DispatchGoesToVector(c, 0);
  }

  /** The first call in a mode enabled in the status register is followed by the handler at 0x48, if bit 1
      is enabled and bit 0 is not due. */
  lemma LcdRequestIsServed(p: Ppu.Display, env: Env, ticks: byte, c: Stack.Cpu)
    requires env.control & 0x80 != 0 && p.shown != p.mode
    requires || (p.mode == FrameTiming.Hblank && p.enables & 0x08 != 0)
             || (p.mode == FrameTiming.Vblank && p.enables & 0x10 != 0)
             || (p.mode == FrameTiming.Oam && p.enables & 0x20 != 0)
    requires c.status == Ppu.Cycle(p, env, ticks).flags && c.ime && c.mask & 0x02 != 0 && c.mask & c.status & 0x01 == 0
    ensures Stack.Interrupt(c).pc == 0x48 && Stack.Top(Stack.Interrupt(c)) == c.pc
  {
    Ppu.CycleFlags(p, env, ticks);
    assert Ppu.RequestsLcd(p);
    Due(c.mask, c.status, 0x02);
    BitOne(c.mask & c.status);
    Stack.DispatchGoesToVector(c, 1);
  }

  /** The call in which the timer passes 0xFF is followed by the handler at 0x50, if bit 2 is enabled and
      the bits before it are not due. */
  lemma TimerOverflowIsServed(t: Timer.State, ticks: nat, c: Stack.Cpu)
    requires t.control & 0x04 != 0 && !t.resetRequested
    requires t.counter + (t.ticks + ticks) / Timer.Timeout(t.control, t.speed) >= 0x100
    requires c.status == Timer.Elapse(t, ticks).flags && c.ime && c.mask & 0x04 != 0 && c.mask & c.status & 0x03 == 0
    ensures Stack.Interrupt(c).pc == 0x50 && Stack.Top(Stack.Interrupt(c)) == c.pc
  {
    Timer.OverflowRequestsBitTwo(t, ticks);
    BitSet(t.flags);
    Due(c.mask, c.status, 0x04);
    BitTwo(c.mask & c.status);
    Stack.DispatchGoesToVector(c, 2);
  }

  lemma BitSet(f: bv8)
    ensures (f | 0x04) & 0x04 != 0
  {
  }
}
