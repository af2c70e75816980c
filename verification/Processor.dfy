/** The processor object: the parts of it that do decimal arithmetic and use the stack. */
module Processor {
  import opened Bytes
  import opened Bcd
  import opened Stack

  class Processor {
    var a: byte
    var z: bool
    var n: bool
    var h: bool
    var c: bool
    var pc: word
    var sp: word
    var ime: bool
    var halted: bool
    var mask: bv8
    var status: bv8
    const memory: array<byte>

    ghost predicate Valid()
      reads this
    {
      memory.Length == 0x1_0000
    }

    function Flags(): Alu
      reads this
    {
      Alu(a, z, n, h, c)
    }

    ghost function State(): Cpu
      reads this, memory
      requires Valid()
    {
      Cpu(pc, sp, ime, halted, mask, status, memory[..])
    }

    constructor ()
      ensures Valid() && fresh(memory)
      ensures pc == 0 && sp == 0xFFFE && ime && mask == 0 && status == 0 && Flags() == Alu(0, false, false, false, false)
    {
      a, z, n, h, c := 0, false, false, false, false;
      pc, sp, ime, halted, mask, status := 0, 0xFFFE, true, false, 0, 0;
      memory := new byte[0x1_0000](_ => 0);
    }

    method Add8(value: byte, carry: bool)
      modifies this`a, this`z, this`n, this`h, this`c
      ensures Flags() == Add(old(Flags()), value, carry)
    {
      var adjust := if carry && c then 1 else 0;
      z, n, h, c := false, false, false, false;
      var result: int := a + value + adjust;
      if result >= 0x100 { c := true; }
      var half: int := a % 16 + value % 16 + adjust;
      if half >= 0x10 { h := true; }
      a := result % 0x100;
      if a == 0 { z := true; }
    }

    method Sub8(value: byte, carry: bool)
      modifies this`a, this`z, this`n, this`h, this`c
      ensures Flags() == Sub(old(Flags()), value, carry)
    {
      var adjust := if carry && c then 1 else 0;
      z, n, h, c := false, false, false, false;
      var operand: int := value + adjust;
      if a < operand { c := true; }
      if a % 16 < value % 16 + adjust { h := true; }
      a := (a - operand) % 0x100;
      if a == 0 { z := true; }
      n := true;
    }

    method DecimalAdjust()
      modifies this`a, this`z, this`h, this`c
      ensures Flags() == Daa(old(Flags()))
    {
      var value: int := a;
      if n {
        if h { value := (value - 0x06) % 0x100; }
        if c { value := (value - 0x60) % 0x1_0000; }
      } else {
        if h || value % 16 > 0x09 { value := value + 0x06; }
        if c || value > 0x9F { value := value + 0x60; }
      }
      h := false;
      if value >= 0x100 { c := true; }
      a := value % 0x100;
      z := a == 0;
    }

    method Push(value: word)
      requires Valid()
      modifies this`sp, memory
      ensures State() == Stack.Push(old(State()), value)
    {
      sp := (sp - 1) % 0x1_0000;
      memory[sp] := value / 0x100;
      sp := (sp - 1) % 0x1_0000;
      memory[sp] := value % 0x100;
    }

    method Pop() returns (value: word)
      requires Valid()
      modifies this`sp
      ensures value == Top(old(State())) && State() == Drop(old(State()))
    {
      var lower: int := memory[sp];
      sp := (sp + 1) % 0x1_0000;
      var upper: int := memory[sp];
      sp := (sp + 1) % 0x1_0000;
      value := upper * 0x100 + lower;
    }

    method Call(target: word)
      requires Valid()
      modifies this`sp, this`pc, memory
      ensures State() == Stack.Call(old(State()), target)
    {
      Push(pc);
      pc := target;
    }

    method Rst(vector: byte)
      requires Valid()
      modifies this`sp, this`pc, memory
      ensures State() == Stack.Call(old(State()), vector)
    {
      Push(pc);
      pc := 0x0000 + vector;
    }

    method Ret(enable: bool)
      requires Valid()
      modifies this`sp, this`pc, this`ime
      ensures State() == Stack.Ret(old(State()), enable)
    {
      pc := Pop();
      if enable { ime := true; }
    }

    /** The vector of the interrupt served first, and its bit; vector 0 if none is due. */
    method Select(due: bv8) returns (vector: word, bit: bv8)
      ensures vector == 0 <==> due & 0x1F == 0
      ensures vector != 0 ==> bit == Served(due) && vector == Vector(bit)
    {
      LowBits(due);
      vector, bit := 0, 0;
      if due & 1 != 0 { vector, bit := 0x40, 1; }
      else if due & 2 != 0 { vector, bit := 0x48, 2; }
      else if due & 4 != 0 { vector, bit := 0x50, 4; }
      else if due & 8 != 0 { vector, bit := 0x58, 8; }
      else if due & 16 != 0 { vector, bit := 0x60, 16; }
    }

    method Dispatch(vector: word, bit: bv8)
      requires Valid() && vector == Vector(bit)
      modifies this`sp, this`pc, this`status, this`ime, memory
      ensures State() == Enter(old(State()), bit)
    {
      Push(pc);
      pc := vector;
      status := status & !bit;
      ime := false;
    }

    /** A halted processor with interrupts disabled is woken up without a dispatch. */
    method Interrupt() returns (woken: bool)
      requires Valid()
      modifies this`sp, this`pc, this`status, this`ime, memory
      ensures State() == Stack.Interrupt(old(State()))
      ensures woken <==> (old(ime) || old(halted)) && Pending(old(State())) != 0
    {
      if !ime && !halted { return false; }
      var vector, bit := Select(mask & status);
      NextState(State(), vector, bit);
      if vector == 0 { return false; }
      if ime { Dispatch(vector, bit); }
      return true;
    }
  }

  lemma NextState(s: Cpu, vector: word, bit: bv8)
    requires vector == 0 <==> (s.mask & s.status) & 0x1F == 0
    requires vector != 0 ==> bit == Served(s.mask & s.status)
    ensures Stack.Interrupt(s) == if s.ime && vector != 0 then Enter(s, bit) else s
    ensures Pending(s) != 0 <==> vector != 0
  {
  }

  lemma LowBits(p: bv8)
    ensures p & 0x1F != 0 <==>
            p & 1 != 0 || p & 2 != 0 || p & 4 != 0 || p & 8 != 0 || p & 16 != 0
  {
  }
}
