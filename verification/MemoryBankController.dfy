/** The memory bank controller object, with its save file. */
module MemoryBankController {
  import opened Bytes
  import opened Cartridge

  /** A battery-backed or plain memory bank controller. */
  class MemoryBankController {
    var kind: Kind
    var rom: seq<bv8>
    var ram: seq<Bank>
    var regs: Registers
    var rtc: Clock
    var file: SaveFile

    ghost function State(): Controller
      reads this
    {
      Controller(kind, rom, ram, regs, rtc, file)
    }

    /** Load the save file if there is a battery and one was saved, then write all of it back. */
    constructor (kind: Kind, rom: seq<bv8>, banks: nat, battery: bool, saved: seq<bv8>, now: Clock)
      ensures this.kind == kind && this.rom == rom && BankOk(kind, regs)
      ensures regs == Registers(false, 1, 0, RomMode, 0)
      ensures ram == Loaded(banks, if battery then saved else [])
      ensures if battery then Mirrored(State()) else file == NoFile
    {
      this.kind, this.rom := kind, rom;
      ram := Loaded(banks, if battery then saved else []);
      regs := Registers(false, 1, 0, RomMode, 0);
      rtc := now;
      file := NoFile;
      new;
      if battery { InitRam(); }
    }

    /** The write-back loop of `initRAM`. */
    method InitRam()
      modifies this`file
      ensures file == File(Flat(ram))
    {
      var bytes: seq<bv8> := [];
      for b := 0 to |ram|
        invariant bytes == Flat(ram[..b])
      {
        assert ram[..b + 1][..b] == ram[..b];
        bytes := bytes + ram[b];
      }
      assert ram[..|ram|] == ram;
      file := File(bytes);
    }

    /** `Cartridge::write` and what it calls. */
    method Write(a: word, v: bv8, now: Clock)
      requires AccessOk(State(), a)
      modifies this
      ensures State() == Cartridge.Write(old(State()), Access(a, v, now))
    {
      if a < 0x8000 {
        WriteRom(a, v, now);
      } else if 0xA000 <= a < 0xC000 {
        WriteRam(a, v);
      }
    }

    method WriteRom(a: word, v: bv8, now: Clock)
      requires a < 0x8000
      modifies this`regs, this`rtc
      ensures State() == WriteRegister(old(State()), a, v, now)
    {
      match kind
      case Mbc1 => WriteMbc1Rom(a, v);
      case Mbc3 => WriteMbc3Rom(a, v, now);
    }

    method WriteMbc1Rom(a: word, v: bv8)
      requires a < 0x8000
      modifies this`regs
      ensures regs == WriteMbc1(old(regs), a, v)
    {
      if a < 0x2000 {
        regs := regs.(ramEnable := Unlocks(v));
      } else if a < 0x4000 {
        var bank := LowBank(v);
        regs := regs.(romBank := (regs.romBank & 0xE0) | bank);
      } else if a < 0x6000 {
        if regs.mode == RomMode {
          regs := regs.(romBank := ((v << 5) & 0xE0) | regs.romBank);
        } else {
          regs := regs.(ramBank := v & 0x07);
        }
      } else {
        regs := regs.(mode := if v == 0 then RomMode else RamMode);
      }
    }

    method WriteMbc3Rom(a: word, v: bv8, now: Clock)
      requires a < 0x8000 && kind == Mbc3
      modifies this`regs, this`rtc
      ensures regs == WriteMbc3(old(regs), a, v)
      ensures rtc == if Latches(old(State()), a, v) then now else old(rtc)
    {
      if a < 0x2000 {
        regs := regs.(ramEnable := Unlocks(v));
      } else if a < 0x4000 {
        var bank := v & 0x7F;
        regs := regs.(romBank := if bank != 0 then bank else 1);
      } else if a < 0x6000 {
        regs := regs.(ramBank := v);
      } else {
        var last := regs.latch;
        regs := regs.(latch := v);
        if !(last == 0 && regs.latch == 1) { return; }
        rtc := now;
      }
    }

    method WriteRam(a: word, v: bv8)
      requires IsExternal(a) && AccessOk(State(), a)
      modifies this`ram, this`rtc, this`file
      ensures State() == WriteExternal(old(State()), a, v)
    {
      if !regs.ramEnable { return; }
      var bank := regs.ramBank as int;
      if kind == Mbc3 && bank >= 4 {
        match regs.ramBank {
          case 9 => rtc := rtc.(minutes := v);
          case 10 => rtc := rtc.(hours := v);
          case 11 => rtc := rtc.(dayLower := v);
          case 12 => rtc := rtc.(dayUpper := v);
          case _ => rtc := rtc.(seconds := v);
        }
        return;
      }
      var index := a - 0xA000;
      ram := ram[bank := ram[bank][index := v]];
      if file.File? && index + BANK_SIZE * bank < |file.bytes| {
        file := File(file.bytes[index + BANK_SIZE * bank := v]);
      }
    }

    /** The switchable window shows the selected bank of the image. */
    method ReadRom(a: word) returns (v: bv8)
      requires 0x4000 <= a < 0x8000 && BankOk(kind, regs) && (RomIndex(State()) + 1) * ROM_BANK <= |rom|
      ensures v == rom[RomIndex(State()) * ROM_BANK + (a - 0x4000)]
    {
      v := rom[a + (regs.romBank as int - 1) * ROM_BANK];
    }

    method ReadRam(a: word) returns (v: bv8)
      requires IsExternal(a) && AccessOk(State(), a)
      ensures v == ReadExternal(State(), a)
    {
      if !regs.ramEnable { return 0xFF; }
      var bank := regs.ramBank as int;
      if kind == Mbc3 && bank >= 4 {
        match regs.ramBank
        case 9 => return rtc.minutes;
        case 10 => return rtc.hours;
        case 11 => return rtc.dayLower;
        case 12 => return rtc.dayUpper;
        case _ => return rtc.seconds;
      }
      v := ram[bank][a - 0xA000];
    }
  }
}
