/** Cartridge banking: the two memory bank controllers and the battery-backed save file. */
module Cartridge {
  import opened Bytes

  const BANK_SIZE := 0x2000   // EXT_RAM_SIZE
  const ROM_BANK := 0x4000    // ROM_0_SIZE and ROM_1_SIZE

  type Bank = b: seq<bv8> | |b| == BANK_SIZE witness seq(BANK_SIZE, _ => 0)

  datatype Kind = Mbc1 | Mbc3

  datatype Mode = RomMode | RamMode

  /** A save file is open, or the controller has none. */
  datatype SaveFile = NoFile | File(bytes: seq<bv8>)

  /** The banking registers; `latch` is the MBC3 clock latch. */
  datatype Registers = Registers(ramEnable: bool, romBank: bv8, ramBank: bv8, mode: Mode, latch: bv8)

  /** The MBC3 clock. */
  datatype Clock = Clock(seconds: bv8, minutes: bv8, hours: bv8, dayLower: bv8, dayUpper: bv8)

  datatype ClockRegister = Seconds | Minutes | Hours | DayLower | DayUpper

  datatype Controller = Controller(
    kind: Kind, rom: seq<bv8>, ram: seq<Bank>, regs: Registers, rtc: Clock,
    file: SaveFile)

  // ---- Register writes ---------------------------------------------------------------------------

  predicate Unlocks(v: bv8) {
    v & 0x0F == 0x0A
  }

  /** The low five bits an MBC1 bank write stores: 0 becomes 1. */
  function LowBank(v: bv8): bv8 {
    var bank := v & 0x1F;
    if bank == 0x00 || bank == 0x20 || bank == 0x40 || bank == 0x60 then bank | 0x01 else bank
  }

  /** The MBC1 bank after a write of its low and of its high bits. */
  function WithLow(b: bv8, v: bv8): bv8 {
    (b & 0xE0) | LowBank(v)
  }

  function WithHigh(b: bv8, v: bv8): bv8 {
    ((v << 5) & 0xE0) | b
  }

  /** The bank that a value written to the MBC3 bank register selects. */
  function Mbc3Bank(v: bv8): bv8 {
    if v & 0x7F == 0 then 1 else v & 0x7F
  }

  function ModeOf(v: bv8): Mode {
    if v == 0 then RomMode else RamMode
  }

  function WriteMbc1(r: Registers, a: word, v: bv8): Registers
    requires a < 0x8000
  {
    if a < 0x2000 then r.(ramEnable := Unlocks(v))
    else if a < 0x4000 then r.(romBank := WithLow(r.romBank, v))
    else if a < 0x6000 then
      if r.mode == RomMode then r.(romBank := WithHigh(r.romBank, v)) else r.(ramBank := v & 0x07)
    else r.(mode := ModeOf(v))
  }

  function WriteMbc3(r: Registers, a: word, v: bv8): Registers
    requires a < 0x8000
  {
    if a < 0x2000 then r.(ramEnable := Unlocks(v))
    else if a < 0x4000 then r.(romBank := Mbc3Bank(v))
    else if a < 0x6000 then r.(ramBank := v)
    else r.(latch := v)
  }

  /** Writing 1 after 0 to the MBC3 latch copies the clock's reading, an input here. */
  predicate Latches(c: Controller, a: word, v: bv8) {
    c.kind == Mbc3 && 0x6000 <= a < 0x8000 && c.regs.latch == 0 && v == 1
  }

  function WriteRegister(c: Controller, a: word, v: bv8, now: Clock): Controller
    requires a < 0x8000
  {
    var regs := match c.kind case Mbc1 => WriteMbc1(c.regs, a, v) case Mbc3 => WriteMbc3(c.regs, a, v);
    c.(regs := regs, rtc := if Latches(c, a, v) then now else c.rtc)
  }

  // ---- RAM and the save file ---------------------------------------------------------------------

  /** The banks one after the other, as the save file stores them. */
  function Flat(ram: seq<Bank>): seq<bv8> {
    if ram == [] then [] else Flat(ram[..|ram| - 1]) + ram[|ram| - 1]
  }

  lemma {:induction false} FlatLength(ram: seq<Bank>)
    ensures |Flat(ram)| == BANK_SIZE * |ram|
  {
    if ram == [] {
    } else {
      FlatLength(ram[..|ram| - 1]);
    }
  }

  /** Storing a byte in a bank is storing it in the file at the bank's offset. */
  lemma {:induction false} FlatUpdate(ram: seq<Bank>, b: nat, i: nat, v: bv8)
    requires b < |ram| && i < BANK_SIZE
    ensures |Flat(ram)| == BANK_SIZE * |ram|
    ensures Flat(ram[b := ram[b][i := v]]) == Flat(ram)[BANK_SIZE * b + i := v]
  {
    var n := |ram| - 1;
    FlatLength(ram);
    FlatLength(ram[..n]);
    var after := ram[b := ram[b][i := v]];
    if b == n {
      assert after[..n] == ram[..n];
    } else {
      FlatUpdate(ram[..n], b, i, v);
      assert after[..n] == ram[..n][b := ram[b][i := v]];
    }
  }

  /** The RAM bank register selects memory that exists. */
  predicate BankInRange(c: Controller) {
    RamIndex(c) < |c.ram|
  }

  function RamIndex(c: Controller): nat {
    c.regs.ramBank as int
  }

  function WriteRam(c: Controller, a: word, v: bv8): Controller
    requires 0xA000 <= a < 0xC000 && (c.regs.ramEnable ==> BankInRange(c))
  {
    if !c.regs.ramEnable then c
    else
      var b, i := RamIndex(c), a - 0xA000;
      var offset := i + BANK_SIZE * b;
      c.(ram := c.ram[b := c.ram[b][i := v]],
         file := if c.file.File? && offset < |c.file.bytes| then File(c.file.bytes[offset := v]) else c.file)
  }

  /** An MBC3 bank register from 4 on selects a clock register; an unknown one means the seconds. */
  function Selected(ramBank: bv8): ClockRegister {
    if ramBank == 9 then Minutes else if ramBank == 10 then Hours
    else if ramBank == 11 then DayLower else if ramBank == 12 then DayUpper else Seconds
  }

  function ClockAt(t: Clock, k: ClockRegister): bv8 {
    match k
    case Seconds => t.seconds
    case Minutes => t.minutes
    case Hours => t.hours
    case DayLower => t.dayLower
    case DayUpper => t.dayUpper
  }

  function SetClock(t: Clock, k: ClockRegister, v: bv8): Clock {
    match k
    case Seconds => t.(seconds := v)
    case Minutes => t.(minutes := v)
    case Hours => t.(hours := v)
    case DayLower => t.(dayLower := v)
    case DayUpper => t.(dayUpper := v)
  }

  predicate SelectsRam(c: Controller) {
    c.kind == Mbc1 || c.regs.ramBank < 4
  }

  predicate IsExternal(a: word) {
    0xA000 <= a < 0xC000
  }

  /** The game uses RAM only through a bank that exists; beyond it the code indexes out of its vector. */
  predicate AccessOk(c: Controller, a: word) {
    IsExternal(a) && c.regs.ramEnable && SelectsRam(c) ==> BankInRange(c)
  }

  function WriteExternal(c: Controller, a: word, v: bv8): Controller
    requires IsExternal(a) && AccessOk(c, a)
  {
    if SelectsRam(c) then WriteRam(c, a, v)
    else if !c.regs.ramEnable then c
    else c.(rtc := SetClock(c.rtc, Selected(c.regs.ramBank), v))
  }

  /** What the external range reads: 0xFF while RAM is disabled. */
  function ReadExternal(c: Controller, a: word): bv8
    requires IsExternal(a) && AccessOk(c, a)
  {
    if !c.regs.ramEnable then 0xFF
    else if SelectsRam(c) then c.ram[RamIndex(c)][a - 0xA000]
    else ClockAt(c.rtc, Selected(c.regs.ramBank))
  }

  // ---- Runs --------------------------------------------------------------------------------------

  /** A write of the game to the cartridge, with the clock's reading at that moment. */
  datatype Access = Access(a: word, v: bv8, now: Clock)

  /** `Cartridge::write`: the memory map passes on nothing but the ROM and the external RAM range. */
  function Write(c: Controller, x: Access): Controller
    requires AccessOk(c, x.a)
  {
    if x.a < 0x8000 then WriteRegister(c, x.a, x.v, x.now)
    else if IsExternal(x.a) then WriteExternal(c, x.a, x.v)
    else c
  }

  predicate InRange(c: Controller, run: seq<Access>)
    decreases |run|
  {
    run == [] || (AccessOk(c, run[0].a) && InRange(Write(c, run[0]), run[1..]))
  }

  function Run(c: Controller, run: seq<Access>): Controller
    requires InRange(c, run)
    decreases |run|
  {
    if run == [] then c else Run(Write(c, run[0]), run[1..])
  }

  /** The save file mirrors the RAM. */
  predicate Mirrored(c: Controller) {
    c.file == File(Flat(c.ram))
  }

  /** The bank registers stay off the fixed bank. */
  predicate BankOk(kind: Kind, r: Registers) {
    match kind
    case Mbc1 => r.romBank & 0x1F != 0
    case Mbc3 => 1 <= r.romBank < 128
  }

  lemma WriteKeepsMirror(c: Controller, x: Access)
    requires AccessOk(c, x.a)
    requires Mirrored(c)
    ensures Mirrored(Write(c, x)) && |Write(c, x).ram| == |c.ram|
  {
    if IsExternal(x.a) && SelectsRam(c) && c.regs.ramEnable {
      FlatUpdate(c.ram, RamIndex(c), x.a - 0xA000, x.v);
    }
  }

  /** No write of an MBC1 bank register clears its low five bits. */
  lemma Mbc1Banks(b: bv8, v: bv8, after: bv8)
    requires b & 0x1F != 0
    requires after == b || after == WithLow(b, v) || after == WithHigh(b, v)
    ensures after & 0x1F != 0
  {
  }

  lemma Mbc3Banks(v: bv8)
    ensures v & 0x7F < 128
  {
  }

  lemma Mbc1KeepsBank(r: Registers, a: word, v: bv8)
    requires a < 0x8000 && BankOk(Mbc1, r)
    ensures BankOk(Mbc1, WriteMbc1(r, a, v))
  {
    Mbc1Banks(r.romBank, v, WriteMbc1(r, a, v).romBank);
  }

  lemma Mbc3KeepsBank(r: Registers, a: word, v: bv8)
    requires a < 0x8000 && BankOk(Mbc3, r)
    ensures BankOk(Mbc3, WriteMbc3(r, a, v))
  {
    Mbc3Banks(v);
  }

  lemma WriteKeepsBank(c: Controller, x: Access)
    requires AccessOk(c, x.a)
    requires BankOk(c.kind, c.regs)
    ensures BankOk(c.kind, Write(c, x).regs) && Write(c, x).kind == c.kind && Write(c, x).rom == c.rom
  {
    if x.a < 0x8000 {
      match c.kind
      case Mbc1 => Mbc1KeepsBank(c.regs, x.a, x.v);
      case Mbc3 => Mbc3KeepsBank(c.regs, x.a, x.v);
    }
  }

  /** After any run of register and RAM writes the save file equals the concatenated banks. */
  lemma {:induction false} RunKeepsMirror(c: Controller, run: seq<Access>)
    requires InRange(c, run) && Mirrored(c)
    ensures Mirrored(Run(c, run))
    decreases |run|
  {
    if run == [] {
    } else {
      WriteKeepsMirror(c, run[0]);
      RunKeepsMirror(Write(c, run[0]), run[1..]);
    }
  }

  /** MBC1's low five bank bits are never zero, and MBC3's bank is never zero, after any run. */
  lemma {:induction false} RunKeepsBank(c: Controller, run: seq<Access>)
    requires InRange(c, run) && BankOk(c.kind, c.regs)
    ensures BankOk(c.kind, Run(c, run).regs) && Run(c, run).kind == c.kind && Run(c, run).rom == c.rom
    decreases |run|
  {
    if run == [] {
    } else {
      WriteKeepsBank(c, run[0]);
      RunKeepsBank(Write(c, run[0]), run[1..]);
    }
  }

  function RomIndex(c: Controller): nat {
    c.regs.romBank as int
  }

  /** Where `readROM` looks in the image. */
  function WindowIndex(c: Controller, a: word): int {
    a + (RomIndex(c) - 1) * ROM_BANK
  }

  /** Window reads hit the selected bank of the image, and never the fixed first bank. */
  lemma WindowShowsSelectedBank(c: Controller, run: seq<Access>, a: word)
    requires InRange(c, run) && BankOk(c.kind, c.regs) && 0x4000 <= a < 0x8000
    ensures var d := Run(c, run);
            && WindowIndex(d, a) == RomIndex(d) * ROM_BANK + (a - 0x4000)
            && ROM_BANK <= WindowIndex(d, a)
            && (|c.rom| >= (RomIndex(d) + 1) * ROM_BANK ==> WindowIndex(d, a) < |d.rom|)
  {
    RunKeepsBank(c, run);
  }

  // ---- What registers and RAM hold ---------------------------------------------------------------

  /** The last access that goes to the addresses from `lo` up to `hi`, -1 if there is none. */
  function LastTo(run: seq<Access>, lo: int, hi: int): (i: int)
    ensures -1 <= i < |run|
    decreases |run|
  {
    if run == [] then -1
    else
      var i := LastTo(run[1..], lo, hi);
      if i >= 0 then i + 1 else if lo <= run[0].a < hi then 0 else -1
  }

  function LowFive(b: bv8): bv8 {
    b & 0x1F
  }

  /** The MBC1 bank that a value written to the bank register selects, as far as its five bits go. */
  function LowBits(v: bv8): bv8 {
    if LowFive(v) == 0 then 1 else LowFive(v)
  }

  lemma LowBankBits(b: bv8, v: bv8)
    ensures LowFive(WithLow(b, v)) == LowBits(v)
    ensures LowFive(WithHigh(b, v)) == LowFive(b)
  {
  }

  lemma Mbc1Follows(r: Registers, a: word, v: bv8)
    requires a < 0x8000
    ensures LowFive(WriteMbc1(r, a, v).romBank) == if 0x2000 <= a < 0x4000 then LowBits(v) else LowFive(r.romBank)
  {
    LowBankBits(r.romBank, v);
    if 0x2000 <= a < 0x4000 {
      assert WriteMbc1(r, a, v) == r.(romBank := WithLow(r.romBank, v));
    } else if 0x4000 <= a < 0x6000 && r.mode == RomMode {
      assert WriteMbc1(r, a, v) == r.(romBank := WithHigh(r.romBank, v));
    } else {
      assert WriteMbc1(r, a, v).romBank == r.romBank;
    }
  }

  /** After any run RAM is enabled exactly if the last write to its enable register had 0x0A in the low
      four bits, or if it was enabled before and there was none. */
  lemma EnableIsLastWritten(c: Controller, run: seq<Access>)
    requires InRange(c, run)
    ensures var i := LastTo(run, 0, 0x2000);
            Run(c, run).regs.ramEnable == if i < 0 then c.regs.ramEnable else run[i].v & 0x0F == 0x0A
  {
    EnableFollows(c, run);
  }

  lemma {:induction false} EnableFollows(c: Controller, run: seq<Access>)
    requires InRange(c, run)
    ensures var i := LastTo(run, 0, 0x2000);
            Run(c, run).regs.ramEnable == if i < 0 then c.regs.ramEnable else Unlocks(run[i].v)
    decreases |run|
  {
    if run == [] {
    } else {
      OneEnables(c, run[0]);
      EnableFollows(Write(c, run[0]), run[1..]);
    }
  }

  lemma OneEnables(c: Controller, x: Access)
    requires AccessOk(c, x.a)
    ensures Write(c, x).regs.ramEnable == if x.a < 0x2000 then Unlocks(x.v) else c.regs.ramEnable
  {
  }

  /** The low five bits of the MBC1 bank are the last ones written, except that 0 becomes 1. */
  lemma {:induction false} Mbc1BankIsLastWritten(c: Controller, run: seq<Access>)
    requires c.kind == Mbc1 && InRange(c, run)
    ensures var i := LastTo(run, 0x2000, 0x4000);
            LowFive(Run(c, run).regs.romBank) == if i < 0 then LowFive(c.regs.romBank) else LowBits(run[i].v)
    decreases |run|
  {
    if run == [] {
    } else {
      if run[0].a < 0x8000 { Mbc1Follows(c.regs, run[0].a, run[0].v); }
      Mbc1BankIsLastWritten(Write(c, run[0]), run[1..]);
    }
  }

  /** The MBC1 mode is RAM mode exactly if the last value written to its register was not 0. */
  lemma {:induction false} Mbc1ModeIsLastWritten(c: Controller, run: seq<Access>)
    requires c.kind == Mbc1 && InRange(c, run)
    ensures var i := LastTo(run, 0x6000, 0x8000);
            Run(c, run).regs.mode == RamMode <==> if i < 0 then c.regs.mode == RamMode else run[i].v != 0
    decreases |run|
  {
    if run == [] {
    } else {
      Mbc1ModeIsLastWritten(Write(c, run[0]), run[1..]);
    }
  }

  /** The last access to the addresses 0x4000 to 0x5FFF made while RAM mode was on, -1 if there is none. */
  function LastRamSelect(run: seq<Access>, ramMode: bool): (i: int)
    ensures -1 <= i < |run|
    decreases |run|
  {
    if run == [] then -1
    else
      var i := LastRamSelect(run[1..], if 0x6000 <= run[0].a < 0x8000 then run[0].v != 0 else ramMode);
      if i >= 0 then i + 1 else if 0x4000 <= run[0].a < 0x6000 && ramMode then 0 else -1
  }

  /** The MBC1 RAM bank is the low three bits of the last value written there in RAM mode. */
  lemma {:induction false} Mbc1RamBankIsLastWritten(c: Controller, run: seq<Access>)
    requires c.kind == Mbc1 && InRange(c, run)
    ensures var i := LastRamSelect(run, c.regs.mode == RamMode);
            Run(c, run).regs.ramBank == if i < 0 then c.regs.ramBank else run[i].v & 0x07
    decreases |run|
  {
    if run == [] {
    } else {
      OneSelects(c, run[0]);
      Mbc1RamBankIsLastWritten(Write(c, run[0]), run[1..]);
    }
  }

  lemma OneSelects(c: Controller, x: Access)
    requires c.kind == Mbc1 && AccessOk(c, x.a)
    ensures var d := Write(c, x);
            && d.kind == Mbc1
            && (d.regs.mode == RamMode <==> if 0x6000 <= x.a < 0x8000 then x.v != 0 else c.regs.mode == RamMode)
            && d.regs.ramBank == if 0x4000 <= x.a < 0x6000 && c.regs.mode == RamMode then x.v & 0x07 else c.regs.ramBank
  {
  }

  /** The banks that bank writes select, as numbers. */
  lemma BankNumbers(v: bv8)
    ensures LowBits(v) == if v & 0x1F == 0 then 1 else v & 0x1F
    ensures Mbc3Bank(v) == if v & 0x7F == 0 then 1 else v & 0x7F
  {
  }

  /** The clock is latched by writing 1 after 0, anywhere from 0x6000 to 0x7FFF; 1 after anything else
      latches nothing. */
  lemma LatchNeedsZeroThenOne(c: Controller, a: word, b: word, first: bv8, t: Clock, now: Clock)
    requires c.kind == Mbc3 && c.regs.latch != 0 && 0x6000 <= a < 0x8000 && 0x6000 <= b < 0x8000
    ensures Write(Write(c, Access(a, first, t)), Access(b, 1, now)).rtc == if first == 0 then now else c.rtc
  {
  }

  /** A latched clock reads register by register at the bank numbers 8 to 12. */
  lemma LatchShowsClock(c: Controller, now: Clock, later: Clock, a: word)
    requires c.kind == Mbc3 && c.regs.ramEnable && c.regs.latch == 0 && IsExternal(a)
    ensures var d := Write(c, Access(0x6000, 1, now));
            && ReadExternal(Write(d, Access(0x4000, 0x08, later)), a) == now.seconds
            && ReadExternal(Write(d, Access(0x4000, 0x09, later)), a) == now.minutes
            && ReadExternal(Write(d, Access(0x4000, 0x0A, later)), a) == now.hours
            && ReadExternal(Write(d, Access(0x4000, 0x0B, later)), a) == now.dayLower
            && ReadExternal(Write(d, Access(0x4000, 0x0C, later)), a) == now.dayUpper
  {
    var d := Write(c, Access(0x6000, 1, now));
    assert d.rtc == now && d.regs.ramEnable && d.kind == Mbc3;
    ClockReads(d, 0x08, later, a);
    ClockReads(d, 0x09, later, a);
    ClockReads(d, 0x0A, later, a);
    ClockReads(d, 0x0B, later, a);
    ClockReads(d, 0x0C, later, a);
  }

  lemma ClockReads(d: Controller, k: bv8, later: Clock, a: word)
    requires d.kind == Mbc3 && d.regs.ramEnable && IsExternal(a) && k >= 4
    ensures var e := Write(d, Access(0x4000, k, later)); AccessOk(e, a) && ReadExternal(e, a) == ClockAt(d.rtc, Selected(k))
  {
    assert Write(d, Access(0x4000, k, later)) == d.(regs := d.regs.(ramBank := k));
  }

  /** The MBC3 ROM bank is the last one written, except that 0 becomes 1, and the RAM bank the last one
      written. */
  lemma {:induction false} Mbc3BanksAreLastWritten(c: Controller, run: seq<Access>)
    requires c.kind == Mbc3 && InRange(c, run)
    ensures var i := LastTo(run, 0x2000, 0x4000);
            Run(c, run).regs.romBank == if i < 0 then c.regs.romBank else Mbc3Bank(run[i].v)
    ensures var i := LastTo(run, 0x4000, 0x6000);
            Run(c, run).regs.ramBank == if i < 0 then c.regs.ramBank else run[i].v
    decreases |run|
  {
    if run == [] {
    } else {
      Mbc3BanksAreLastWritten(Write(c, run[0]), run[1..]);
    }
  }

  /** A byte of a RAM bank, or a clock register. */
  datatype Place = RamPlace(bank: nat, index: nat) | ClockPlace(k: ClockRegister)

  predicate IsPlace(c: Controller, p: Place) {
    match p
    case RamPlace(b, i) => b < |c.ram| && i < BANK_SIZE
    case ClockPlace(_) => true
  }

  function Holds(c: Controller, p: Place): bv8
    requires IsPlace(c, p)
  {
    match p
    case RamPlace(b, i) => c.ram[b][i]
    case ClockPlace(k) => ClockAt(c.rtc, k)
  }

  /** Where an address of the external range leads. */
  function PlaceOf(c: Controller, a: word): Place
    requires IsExternal(a)
  {
    if SelectsRam(c) then RamPlace(RamIndex(c), a - 0xA000) else ClockPlace(Selected(c.regs.ramBank))
  }

  function Or(v: Option<bv8>, known: bv8): bv8 {
    match v case Some(x) => x case None => known
  }

  /** What an access stores there: a write while RAM is enabled, or the latched clock. */
  function Stored(c: Controller, x: Access, p: Place): Option<bv8>
    requires IsPlace(c, p)
  {
    if IsExternal(x.a) && c.regs.ramEnable && PlaceOf(c, x.a) == p then Some(x.v)
    else if p.ClockPlace? && Latches(c, x.a, x.v) then Some(ClockAt(x.now, p.k))
    else None
  }

  lemma WriteStores(c: Controller, x: Access, p: Place)
    requires AccessOk(c, x.a) && IsPlace(c, p)
    ensures |Write(c, x).ram| == |c.ram| && Holds(Write(c, x), p) == Or(Stored(c, x, p), Holds(c, p))
  {
    if IsExternal(x.a) && c.regs.ramEnable {
      EnabledWriteStores(c, x, p);
    } else {
      assert Write(c, x).ram == c.ram && Write(c, x).rtc == if Latches(c, x.a, x.v) then x.now else c.rtc;
    }
  }

  lemma EnabledWriteStores(c: Controller, x: Access, p: Place)
    requires IsExternal(x.a) && c.regs.ramEnable && AccessOk(c, x.a) && IsPlace(c, p)
    ensures |Write(c, x).ram| == |c.ram|
    ensures Holds(Write(c, x), p) == if PlaceOf(c, x.a) == p then x.v else Holds(c, p)
  {
    var d := Write(c, x);
    if SelectsRam(c) {
      BankStores(c, d, RamIndex(c), x.a - 0xA000, x.v, p);
    } else {
      ClockStores(c, d, Selected(c.regs.ramBank), x.v, p);
    }
  }

  lemma BankStores(c: Controller, d: Controller, b: nat, i: nat, v: bv8, p: Place)
    requires b < |c.ram| && i < BANK_SIZE && IsPlace(c, p)
    requires d.ram == c.ram[b := c.ram[b][i := v]] && d.rtc == c.rtc
    ensures Holds(d, p) == if p == RamPlace(b, i) then v else Holds(c, p)
  {
  }

  lemma ClockStores(c: Controller, d: Controller, k: ClockRegister, v: bv8, p: Place)
    requires IsPlace(c, p) && d.ram == c.ram && d.rtc == SetClock(c.rtc, k, v)
    ensures Holds(d, p) == if p == ClockPlace(k) then v else Holds(c, p)
  {
  }

  /** The value last stored in a place, `known` if none has been. */
  function LastStored(c: Controller, run: seq<Access>, p: Place, known: bv8): bv8
    requires InRange(c, run) && IsPlace(c, p)
    decreases |run|
  {
    if run == [] then known
    else
      WriteStores(c, run[0], p);
      LastStored(Write(c, run[0]), run[1..], p, Or(Stored(c, run[0], p), known))
  }

  lemma {:induction false} RunStores(c: Controller, run: seq<Access>, p: Place)
    requires InRange(c, run) && IsPlace(c, p)
    ensures |Run(c, run).ram| == |c.ram| && Holds(Run(c, run), p) == LastStored(c, run, p, Holds(c, p))
    decreases |run|
  {
    if run == [] {
    } else {
      WriteStores(c, run[0], p);
      RunStores(Write(c, run[0]), run[1..], p);
    }
  }

  /** After any run the external range reads 0xFF while RAM is disabled, and else the value last stored
      in the selected place. */
  lemma ExternalReadsLastStored(c: Controller, run: seq<Access>, a: word)
    requires InRange(c, run) && IsExternal(a) && AccessOk(Run(c, run), a)
    ensures var d := Run(c, run);
            if !d.regs.ramEnable then ReadExternal(d, a) == 0xFF
            else IsPlace(c, PlaceOf(d, a)) &&
                 ReadExternal(d, a) == LastStored(c, run, PlaceOf(d, a), Holds(c, PlaceOf(d, a)))
  {
    var d := Run(c, run);
    RunKeepsRamSize(c, run);
    if d.regs.ramEnable { RunStores(c, run, PlaceOf(d, a)); }
  }

  lemma RunKeepsRamSize(c: Controller, run: seq<Access>)
    requires InRange(c, run)
    ensures |Run(c, run).ram| == |c.ram|
  {
    RunStores(c, run, ClockPlace(Seconds));
  }

  /** After a write to enabled external RAM the same address reads the value and no other does anything
      new; a clock register shows at every address; disabled RAM ignores the write. */
  lemma ReadAfterWrite(c: Controller, x: Access, b: word)
    requires IsExternal(x.a) && IsExternal(b) && AccessOk(c, x.a)
    ensures var d := Write(c, x);
            && AccessOk(d, b)
            && ReadExternal(d, b) == if c.regs.ramEnable && (b == x.a || !SelectsRam(c)) then x.v else ReadExternal(c, b)
  {
    if c.regs.ramEnable {
      WriteStores(c, x, PlaceOf(c, b));
    }
  }

  // ---- The high bank bits of MBC1 ----------------------------------------------------------------

  /** The comment promises that a write to 0x4000-0x5FFF sets the upper three bits. */
  predicate HighBitsSet(r: Registers, v: bv8) {
    WriteMbc1(r, 0x4000, v).romBank == (v << 5) | (r.romBank & 0x1F)
  }

  /** The code ors them in, so the promise is kept exactly when every high bit that is set already is
      asked for again. */
  lemma WhenHighBitsAreSet(r: Registers, v: bv8)
    requires r.mode == RomMode
    ensures HighBitsSet(r, v) <==> (r.romBank & 0xE0) & !(v << 5) == 0
  {
  }

  /** The promise fails here: from bank 0x21, asking for the high bits 2 selects bank 0x61. */
  lemma HighBitsStick(r: Registers)
    requires r.mode == RomMode && r.romBank == 0x21
    ensures WriteMbc1(r, 0x4000, 2).romBank == 0x61 && !HighBitsSet(r, 2)
  {
  }

  /** The high bits of `a` are among those of `b`. */
  predicate HighBitsWithin(a: bv8, b: bv8) {
    (a & 0xE0) & !b == 0
  }

  lemma WriteKeepsHighBits(c: Controller, x: Access)
    requires c.kind == Mbc1 && AccessOk(c, x.a)
    ensures HighBitsWithin(c.regs.romBank, Write(c, x).regs.romBank) && Write(c, x).kind == Mbc1
  {
  }

  lemma WithinIsTransitive(a: bv8, b: bv8, c: bv8)
    requires HighBitsWithin(a, b) && HighBitsWithin(b, c)
    ensures HighBitsWithin(a, c)
  {
  }

  /** Over a run the high bank bits of an MBC1 only ever accumulate. */
  lemma {:induction false} HighBitsAccumulate(c: Controller, run: seq<Access>)
    requires c.kind == Mbc1 && InRange(c, run)
    ensures HighBitsWithin(c.regs.romBank, Run(c, run).regs.romBank)
    decreases |run|
  {
    if run == [] {
    } else {
      var d := Write(c, run[0]);
      WriteKeepsHighBits(c, run[0]);
      HighBitsAccumulate(d, run[1..]);
      WithinIsTransitive(c.regs.romBank, d.regs.romBank, Run(d, run[1..]).regs.romBank);
    }
  }

  // ---- Sessions ----------------------------------------------------------------------------------

  /** The byte at `p` of a save file, 0 past its end. */
  function Saved(saved: seq<bv8>, p: nat): bv8 {
    if p < |saved| then saved[p] else 0
  }

  /** The banks read from a save file. */
  function Loaded(count: nat, saved: seq<bv8>): (ram: seq<Bank>)
    ensures |ram| == count
    ensures forall b, i | 0 <= b < count && 0 <= i < BANK_SIZE :: ram[b][i] == Saved(saved, BANK_SIZE * b + i)
  {
    seq(count, b requires 0 <= b < count => LoadedBank(b, saved))
  }

  function LoadedBank(b: nat, saved: seq<bv8>): (bank: Bank)
    ensures forall i | 0 <= i < BANK_SIZE :: bank[i] == Saved(saved, BANK_SIZE * b + i)
  {
    seq(BANK_SIZE, i requires 0 <= i < BANK_SIZE => Saved(saved, BANK_SIZE * b + i))
  }

  lemma {:induction false} FlatIndex(ram: seq<Bank>, b: nat, i: nat)
    requires b < |ram| && i < BANK_SIZE
    ensures |Flat(ram)| == BANK_SIZE * |ram|
    ensures Flat(ram)[BANK_SIZE * b + i] == ram[b][i]
  {
    var n := |ram| - 1;
    FlatLength(ram);
    FlatLength(ram[..n]);
    if b == n {
    } else {
      FlatIndex(ram[..n], b, i);
    }
  }

  /** A new session on the file of the last one starts with the RAM the last one ended with. */
  lemma SessionsPersist(ended: Controller)
    requires Mirrored(ended)
    ensures Loaded(|ended.ram|, ended.file.bytes) == ended.ram
  {
    var ram := Loaded(|ended.ram|, ended.file.bytes);
    forall b | 0 <= b < |ram| ensures ram[b] == ended.ram[b] {
      forall i | 0 <= i < BANK_SIZE ensures ram[b][i] == ended.ram[b][i] {
        FlatIndex(ended.ram, b, i);
      }
    }
  }
}
