/** The stack: push and pop, calls, restarts and interrupt dispatch, on plain RAM. */
module Stack {
  import opened Bytes

  type Ram = m: seq<byte> | |m| == 0x1_0000 witness seq(0x1_0000, _ => 0)

  /** The registers the stack operations use; `mask` and `status` are the two interrupt registers. */
  datatype Cpu = Cpu(pc: word, sp: word, ime: bool, halted: bool, mask: bv8, status: bv8, mem: Ram)

  function Write(m: Ram, a: word, v: byte): (r: Ram) {
    m[a := v]
  }

  function Push(c: Cpu, w: word): Cpu {
    var sp1, sp2 := (c.sp - 1) % 0x1_0000, (c.sp - 2) % 0x1_0000;
    c.(sp := sp2, mem := Write(Write(c.mem, sp1, w / 0x100), sp2, w % 0x100))
  }

  /** The word on top of the stack. */
  function Top(c: Cpu): word {
    var high: int := c.mem[(c.sp + 1) % 0x1_0000];
    high * 0x100 + c.mem[c.sp]
  }

  function Drop(c: Cpu): Cpu {
    c.(sp := (c.sp + 2) % 0x1_0000)
  }

  function Call(c: Cpu, target: word): Cpu {
    Push(c, c.pc).(pc := target)
  }

  function Ret(c: Cpu, enable: bool): Cpu {
    var d := Drop(c).(pc := Top(c));
    if enable then d.(ime := true) else d
  }

  /** The pending interrupt that is served first: the code tests the bits in this order. */
  function Served(p: bv8): bv8 {
    if p & 1 != 0 then 1 else if p & 2 != 0 then 2 else if p & 4 != 0 then 4
    else if p & 8 != 0 then 8 else if p & 16 != 0 then 16 else 0
  }

  function Vector(bit: bv8): word {
    if bit == 1 then 0x40 else if bit == 2 then 0x48 else if bit == 4 then 0x50
    else if bit == 8 then 0x58 else 0x60
  }

  function Pending(c: Cpu): bv8 {
    c.mask & c.status & 0x1F
  }

  predicate Dispatches(c: Cpu) {
    c.ime && Pending(c) != 0
  }

  /** Save the program counter and jump to the handler of `bit`. */
  function Enter(c: Cpu, bit: bv8): Cpu {
    Push(c, c.pc).(pc := Vector(bit), status := c.status & !bit, ime := false)
  }

  function Interrupt(c: Cpu): Cpu {
    if Dispatches(c) then Enter(c, Served(c.mask & c.status)) else c
  }

  /** A dispatch saves the program counter, jumps to the vector of the lowest enabled pending bit, clears
      that bit and no other, and disables interrupts. */
  lemma DispatchServesLowestPending(c: Cpu) returns (bit: bv8)
    requires Dispatches(c)
    ensures bit == Pending(c) & (0 - Pending(c)) && bit != 0 && bit & c.mask & c.status == bit
    ensures var d := Interrupt(c);
            && d.status == c.status - bit
            && d.pc == Vector(bit) && !d.ime
            && Top(d) == c.pc && d.sp == (c.sp - 2) % 0x1_0000
  {
    bit := Served(c.mask & c.status);
    ServedBit(c.mask, c.status);
    EnterSaves(c, bit);
  }

  lemma EnterSaves(c: Cpu, bit: bv8)
    ensures var d := Enter(c, bit);
            && d.status == c.status & !bit && d.pc == Vector(bit) && !d.ime
            && Top(d) == c.pc && d.sp == (c.sp - 2) % 0x1_0000
  {
    PushedTop(c, c.pc);
  }

  lemma PushedTop(c: Cpu, w: word)
    ensures Top(Push(c, w)) == w
  {
  }

  lemma ServedBit(mask: bv8, status: bv8)
    requires mask & status & 0x1F != 0
    ensures var p, bit := mask & status & 0x1F, Served(mask & status);
            && bit == p & (0 - p) && bit != 0
            && bit & mask & status == bit && status & !bit == status - bit
  {
    LowestBit(mask & status);
    StatusMinusBit(mask, status, Served(mask & status));
  }

  lemma LowestBit(p: bv8)
    requires p & 0x1F != 0
    ensures Served(p) == (p & 0x1F) & (0 - (p & 0x1F))
    ensures Served(p) != 0 && Served(p) & p == Served(p)
  {
  }

  lemma StatusMinusBit(mask: bv8, status: bv8, bit: bv8)
    requires bit & (mask & status) == bit
    ensures status & !bit == status - bit && bit & mask & status == bit
  {
  }

  predicate IsSet(p: bv8, k: nat)
    requires k < 8
  {
    (p >> k) & 1 == 1
  }

  /** `k` is the lowest set bit. */
  predicate Lowest(p: bv8, k: nat)
    requires k < 8
  {
    IsSet(p, k) && forall j | 0 <= j < k :: !IsSet(p, j)
  }

  /** With `k` the lowest enabled pending interrupt, the handler is at 0x40 + 8 * k. */
  lemma DispatchGoesToVector(c: Cpu, k: nat)
    requires c.ime && k < 5 && Lowest(c.mask & c.status, k)
    ensures Interrupt(c).pc == 0x40 + 8 * k && Top(Interrupt(c)) == c.pc
  {
    ServedAt(c.mask & c.status, k);
    EnterSaves(c, Served(c.mask & c.status));
  }

  lemma ServedAt(p: bv8, k: nat)
    requires k < 5 && Lowest(p, k)
    ensures p & 0x1F != 0 && Vector(Served(p)) == 0x40 + 8 * k
  {
    ServedIs(p, IsSet(p, 0), IsSet(p, 1), IsSet(p, 2), IsSet(p, 3), IsSet(p, 4));
  }

  lemma ServedIs(p: bv8, b0: bool, b1: bool, b2: bool, b3: bool, b4: bool)
    requires b0 == IsSet(p, 0) && b1 == IsSet(p, 1) && b2 == IsSet(p, 2) && b3 == IsSet(p, 3) && b4 == IsSet(p, 4)
    ensures Served(p) == if b0 then 1 else if b1 then 2 else if b2 then 4 else if b3 then 8 else if b4 then 16 else 0
    ensures p & 0x1F != 0 <==> b0 || b1 || b2 || b3 || b4
  {
  }

  /** The stack grows downwards, the high byte at the higher address; nothing else is stored to. */
  lemma PushLayout(c: Cpu, w: word)
    requires c.sp >= 2
    ensures var d := Push(c, w);
            && d.sp == c.sp - 2 && d.mem[c.sp - 1] == w / 0x100 && d.mem[c.sp - 2] == w % 0x100
            && (forall a: word | a != c.sp - 1 && a != c.sp - 2 :: d.mem[a] == c.mem[a])
            && d.pc == c.pc && d.ime == c.ime
  {
  }

  /** A call goes to its target and a return to the word on top; only RETI touches the interrupt enable. */
  lemma CallAndRetJump(c: Cpu, target: word, enable: bool)
    ensures Call(c, target).pc == target && Top(Call(c, target)) == c.pc && Call(c, target).ime == c.ime
    ensures Ret(c, enable).pc == Top(c) && Ret(c, enable).sp == (c.sp + 2) % 0x1_0000
    ensures Ret(c, enable).ime == (c.ime || enable) && Ret(c, enable).mem == c.mem
  {
    PushedTop(c, c.pc);
  }

  // ---- Balanced programs -------------------------------------------------------------------------

  /** What a program does, as far as the stack is concerned. The bodies may hold anything balanced. */
  datatype Op =
    | Jump(pc: word)                     // instructions that leave the program counter here
    | Store(addr: word, v: byte)
    | SetIme(on: bool)
    | Request(bits: bv8)                 // hardware raises interrupt flags
    | PushPop(w: word, body: seq<Op>)    // PUSH ... POP
    | CallRet(target: word, body: seq<Op>)
    | RstRet(vector: byte, body: seq<Op>)
    | Isr(body: seq<Op>)                 // an instruction boundary: dispatch, body, RETI, if one is due

  /** The state after an operation, and whether every word popped was the word pushed for it. */
  function Exec(c: Cpu, op: Op): (Cpu, bool)
    decreases op, 1
  {
    match op
    case Jump(pc) => (c.(pc := pc), true)
    case Store(addr, v) => (c.(mem := Write(c.mem, addr, v)), true)
    case SetIme(on) => (c.(ime := on), true)
    case Request(bits) => (c.(status := c.status | bits), true)
    case PushPop(w, body) =>
      var (d, ok) := ExecAll(Push(c, w), body);
      (Drop(d), ok && Top(d) == w)
    case CallRet(target, body) =>
      var (d, ok) := ExecAll(Call(c, target), body);
      (Ret(d, false), ok && Ret(d, false).pc == c.pc)
    case RstRet(vector, body) =>
      var (d, ok) := ExecAll(Call(c, vector), body);
      (Ret(d, false), ok && Ret(d, false).pc == c.pc)
    case Isr(body) =>
      if !Dispatches(c) then (c, true)
      else
        var (d, ok) := ExecAll(Interrupt(c), body);
        (Ret(d, true), ok && Ret(d, true).pc == c.pc && Ret(d, true).ime)
  }

  function ExecAll(c: Cpu, ops: seq<Op>): (Cpu, bool)
    decreases ops, 0
  {
    if ops == [] then (c, true)
    else
      var (d, ok) := Exec(c, ops[0]);
      var (e, more) := ExecAll(d, ops[1..]);
      (e, ok && more)
  }

  /** Bytes of stack a program needs. */
  function Depth(op: Op): nat
    decreases op, 1
  {
    match op
    case PushPop(_, body) => 2 + DepthAll(body)
    case CallRet(_, body) => 2 + DepthAll(body)
    case RstRet(_, body) => 2 + DepthAll(body)
    case Isr(body) => 2 + DepthAll(body)
    case _ => 0
  }

  function DepthAll(ops: seq<Op>): nat
    decreases ops, 0
  {
    if ops == [] then 0
    else
      var d, e := Depth(ops[0]), DepthAll(ops[1..]);
      if d > e then d else e
  }

  /** No store of the program hits the stack's own bytes `lo` to `hi`. */
  predicate Avoids(op: Op, lo: nat, hi: nat)
    decreases op, 1
  {
    match op
    case Store(addr, _) => !(lo <= addr < hi)
    case PushPop(_, body) => AvoidsAll(body, lo, hi)
    case CallRet(_, body) => AvoidsAll(body, lo, hi)
    case RstRet(_, body) => AvoidsAll(body, lo, hi)
    case Isr(body) => AvoidsAll(body, lo, hi)
    case _ => true
  }

  predicate AvoidsAll(ops: seq<Op>, lo: nat, hi: nat)
    decreases ops, 0
  {
    ops == [] || (Avoids(ops[0], lo, hi) && AvoidsAll(ops[1..], lo, hi))
  }

  /** Nothing from `from` to `hi` changed. */
  predicate Kept(before: Ram, after: Ram, from: nat, hi: nat)
    requires hi <= 0x1_0000
  {
    forall a | from <= a < hi :: after[a] == before[a]
  }

  /** The stack of a program that starts at `c`: room for `depth` bytes above `lo`, no wrap. */
  predicate Room(c: Cpu, depth: nat, lo: nat, hi: nat) {
    lo + depth <= c.sp <= hi <= 0x1_0000
  }

  lemma PushKeeps(c: Cpu, w: word, hi: nat)
    requires 2 <= c.sp <= hi <= 0x1_0000
    ensures Push(c, w).sp == c.sp - 2 && Top(Push(c, w)) == w
    ensures Kept(c.mem, Push(c, w).mem, c.sp, hi)
  {
  }

  /** A body that keeps everything above its own stack pointer hands back the pushed word. */
  lemma TopSurvives(c: Cpu, w: word, d: Cpu, hi: nat)
    requires 2 <= c.sp <= hi <= 0x1_0000
    requires d.sp == c.sp - 2 && Kept(Push(c, w).mem, d.mem, c.sp - 2, hi)
    ensures Top(d) == w && Drop(d).sp == c.sp
    ensures Kept(c.mem, d.mem, c.sp, hi)
  {
    PushKeeps(c, w, hi);
    assert d.mem[c.sp - 2] == Push(c, w).mem[c.sp - 2];
    assert d.mem[c.sp - 1] == Push(c, w).mem[c.sp - 1];
  }

  lemma {:induction false} ExecBalanced(c: Cpu, op: Op, lo: nat, hi: nat)
    requires Room(c, Depth(op), lo, hi) && Avoids(op, lo, hi)
    ensures var (d, ok) := Exec(c, op); ok && d.sp == c.sp && Kept(c.mem, d.mem, c.sp, hi)
    decreases op, 1
  {
    match op
    case PushPop(w, body) =>
      PushKeeps(c, w, hi);
      ExecAllBalanced(Push(c, w), body, lo, hi);
      TopSurvives(c, w, ExecAll(Push(c, w), body).0, hi);
    case CallRet(target, body) =>
      PushKeeps(c, c.pc, hi);
      ExecAllBalanced(Call(c, target), body, lo, hi);
      TopSurvives(c, c.pc, ExecAll(Call(c, target), body).0, hi);
    case RstRet(vector, body) =>
      PushKeeps(c, c.pc, hi);
      ExecAllBalanced(Call(c, vector), body, lo, hi);
      TopSurvives(c, c.pc, ExecAll(Call(c, vector), body).0, hi);
    case Isr(body) =>
      if Dispatches(c) {
        PushKeeps(c, c.pc, hi);
        ExecAllBalanced(Interrupt(c), body, lo, hi);
        TopSurvives(c, c.pc, ExecAll(Interrupt(c), body).0, hi);
      }
    case _ =>
  }

  /** Any balanced nest of pushes, calls, restarts and interrupts restores the stack pointer, returns
      every saved word to where it was saved for, and leaves everything above it alone. */
  lemma {:induction false} ExecAllBalanced(c: Cpu, ops: seq<Op>, lo: nat, hi: nat)
    requires Room(c, DepthAll(ops), lo, hi) && AvoidsAll(ops, lo, hi)
    ensures var (d, ok) := ExecAll(c, ops); ok && d.sp == c.sp && Kept(c.mem, d.mem, c.sp, hi)
    decreases ops, 0
  {
    if ops == [] {
    } else {
      ExecBalanced(c, ops[0], lo, hi);
      ExecAllBalanced(Exec(c, ops[0]).0, ops[1..], lo, hi);
    }
  }

  /** The program itself does not switch interrupts on or off. */
  predicate LeavesIme(op: Op)
    decreases op, 1
  {
    match op
    case SetIme(_) => false
    case PushPop(_, body) => AllLeaveIme(body)
    case CallRet(_, body) => AllLeaveIme(body)
    case RstRet(_, body) => AllLeaveIme(body)
    case Isr(body) => AllLeaveIme(body)
    case _ => true
  }

  predicate AllLeaveIme(ops: seq<Op>)
    decreases ops, 0
  {
    ops == [] || (LeavesIme(ops[0]) && AllLeaveIme(ops[1..]))
  }

  lemma {:induction false} ExecKeepsIme(c: Cpu, op: Op)
    requires LeavesIme(op)
    ensures Exec(c, op).0.ime == c.ime
    decreases op, 1
  {
    match op
    case PushPop(w, body) => ExecAllKeepsIme(Push(c, w), body);
    case CallRet(target, body) => ExecAllKeepsIme(Call(c, target), body);
    case RstRet(vector, body) => ExecAllKeepsIme(Call(c, vector), body);
    case Isr(body) =>
    case _ =>
  }

  /** Across any nest of calls, restarts and interrupts the interrupt enable ends as it began: a plain
      return leaves it, and the RETI of a handler undoes what the dispatch did. */
  lemma {:induction false} ExecAllKeepsIme(c: Cpu, ops: seq<Op>)
    requires AllLeaveIme(ops)
    ensures ExecAll(c, ops).0.ime == c.ime
    decreases ops, 0
  {
    if ops == [] {
    } else {
      ExecKeepsIme(c, ops[0]);
      ExecAllKeepsIme(Exec(c, ops[0]).0, ops[1..]);
    }
  }
}
