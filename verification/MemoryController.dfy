/** The memory controller object: the region list and the byte vectors behind it. */
module MemoryController {
  import opened Bytes
  import opened MemoryMap

  class MemoryController {
    var regions: seq<Region>
    var cgb: bool
    var biosSize: word
    var video: seq<seq<bv8>>
    var working: seq<seq<bv8>>
    var oam: seq<bv8>
    var io: seq<bv8>
    var zero: seq<bv8>

    predicate InBios()
      reads this
    {
      regions != [] && regions[0] == Bios
    }

    function Data(): MemoryData
      reads this
    {
      Memory(cgb, InBios(), biosSize, video, working, oam, io, zero)
    }

    predicate Valid()
      reads this
    {
      regions == Regions(InBios()) && Sized(Data())
    }

    /** The abstract value. */
    function State(): Memory
      reads this
      requires Valid()
    {
      Data()
    }

    constructor (cgb: bool, biosSize: word)
      requires biosSize <= 0x8000
      ensures Valid() && InBios() && this.cgb == cgb
      ensures forall a: word | Mapped(State(), a) ::
                MemoryMap.Read(State(), a) == if a == 0xFF00 then 0xFF else 0
      ensures forall a: word :: BankExists(State(), a)
    {
      regions := Regions(true);
      this.cgb, this.biosSize := cgb, biosSize;
      video, working := seq(2, _ => Zeros(8192)), seq(8, _ => Zeros(WORK_SIZE));
      oam, io, zero := Zeros(160), Zeros(128)[0 := 0xFF], Zeros(128);
    }

    /** The first region in the list that has the address; there always is one. */
    method Find(a: word) returns (found: Option<Region>)
      requires Valid()
      ensures found == Some(Answering(a, InBios(), biosSize))
    {
      assert Owner(a) in UNLOCKED && Owner(a) in regions;
      var i := 0;
      while i < |regions|
        invariant 0 <= i <= |regions|
        invariant forall j | 0 <= j < i :: !IsAddressed(regions[j], a, biosSize)
      {
        if IsAddressed(regions[i], a, biosSize) {
          if regions[i] in UNLOCKED {
            RegionsPartitionTheAddresses(a, regions[i], biosSize);
          }
          return Some(regions[i]);
        }
        i := i + 1;
      }
      RegionsPartitionTheAddresses(a, Owner(a), biosSize);
      found := None;
    }

    /** Taking the BIOS out of the list hands its addresses to the cartridge and moves no RAM. */
    method UnlockBios()
      requires Valid()
      modifies this`regions
      ensures Valid() && State() == Step(old(State()), Unlock)
      ensures forall a: word :: Answering(a, InBios(), biosSize) == Owner(a)
      ensures forall a: word | Mapped(State(), a) :: MemoryMap.Read(State(), a) == MemoryMap.Read(old(State()), a)
    {
      if InBios() {
        regions := regions[1..];
      }
      assert regions == UNLOCKED;
    }

    /** The reset of each region in turn; that of the registers does nothing. */
    method ResetAll()
      requires Valid()
      modifies this
      ensures Valid() && State() == Step(old(State()), Reset)
    {
      regions := Regions(true);
      video, working := seq(2, _ => Zeros(8192)), seq(8, _ => Zeros(WORK_SIZE));
      oam, zero := Zeros(160), Zeros(128);
      ResetDisplay();
    }

    /** The registers that `GPU::reset` stores to. */
    method ResetDisplay()
      requires |io| == 128
      modifies this`io
      ensures io == old(io)[0x40 := 0x91][0x41 := 0x86][0x42 := 0][0x43 := 0][0x44 := 0]
    {
      io := io[0x40 := 0x91];
      io := io[0x41 := 0x85];
      io := io[0x41 := (io[0x41] & 0xFC) | 2];
      io := io[0x43 := 0][0x42 := 0][0x44 := 0];
    }

    // ---- The regions -----------------------------------------------------------------------------

    /** `WorkingRam::bank`, as the number of the bank. */
    method Bank(index: nat) returns (bank: nat)
      requires Valid() && index < 2 * WORK_SIZE
      requires cgb && index >= WORK_SIZE ==> WorkSelect(State()) <= 7
      ensures bank < 8 && bank == WorkBank(State(), index)
    {
      if !cgb { return index / WORK_SIZE; }
      if index < WORK_SIZE { return 0; }
      bank := io[0x70] as int;
      if bank < 1 { bank := 1; }
    }

    /** Where `WorkingRam::read` and `WorkingRam::write` look: an echo address is moved down first. */
    method WorkingIndex(address: word) returns (bank: nat, index: nat)
      requires Valid() && Owner(address) == Working && BankExists(State(), address)
      ensures CellOf(State(), address) == WorkCell(bank, index)
    {
      var a: int := address;
      if IsShadow(address) { a := a - WORK_SIZE * 2; }
      var i := a - 0xC000;
      bank := Bank(i);
      index := i % WORK_SIZE;
    }

    method WriteWorking(address: word, v: bv8)
      requires Valid() && Owner(address) == Working && BankExists(State(), address)
      modifies this`working
      ensures Valid() && State() == Put(old(State()), CellOf(old(State()), address), v)
    {
      var bank, index := WorkingIndex(address);
      working := working[bank := working[bank][index := v]];
    }

    method ReadWorking(address: word) returns (v: bv8)
      requires Valid() && Owner(address) == Working && BankExists(State(), address)
      ensures v == MemoryMap.Read(State(), address)
    {
      var bank, index := WorkingIndex(address);
      v := working[bank][index];
    }

    method WriteVideo(address: word, v: bv8)
      requires Valid() && Owner(address) == Video
      modifies this`video
      ensures Valid() && State() == Put(old(State()), CellOf(old(State()), address), v)
    {
      var selected := io[0x4F] & 0x01;
      var bank, index := selected as int, address - 0x8000;
      VideoSelect(io[0x4F]);
      video := video[bank := video[bank][index := v]];
    }

    method ReadVideo(address: word) returns (v: bv8)
      requires Valid() && Owner(address) == Video
      ensures v == MemoryMap.Read(State(), address)
    {
      var selected := io[0x4F] & 0x01;
      VideoSelect(io[0x4F]);
      v := video[selected as int][address - 0x8000];
    }

    // ---- Writes and reads ------------------------------------------------------------------------

    /** A write of the game; a transfer command runs its loop of writes. */
    method Write(a: word, v: bv8)
      requires Valid() && Allowed(State(), Made(a, v))
      modifies this
      ensures Valid() && State() == Step(old(State()), Made(a, v))
      decreases if IsCommand(a) then 1 else 0, 2
    {
      var found := Find(a);
      match found.value
      case Bios =>
      case Cartridge =>
      case Video => WriteVideo(a, v);
      case Working => WriteWorking(a, v);
      case ObjectMemory => oam := oam[a - 0xFE00 := v];
      case Unusable =>
      case MappedIo => WriteRegister(a, v);
      case ZeroPage => zero := zero[a - 0xFF80 := v];
    }

    /** `MappedIO::write`. */
    method WriteRegister(a: word, v: bv8)
      requires Valid() && Owner(a) == MappedIo && Allowed(State(), Made(a, v))
      modifies this
      ensures Valid() && State() == Step(old(State()), Made(a, v))
      decreases if IsCommand(a) then 1 else 0, 1
    {
      NotBios(State(), a);
      if a == OAM_TRANSFER { CopyToObjectMemory(v as int); }
      else if a == 0xFF69 { Increment(0xFF68); }
      else if a == 0xFF6B { Increment(0xFF6A); }
      else if a == DIVIDER { return; }
      else { WriteMasked(a, v); }
    }

    /** The registers without a command. */
    method WriteMasked(a: word, v: bv8)
      requires Valid() && Owner(a) == MappedIo
      modifies this`io
      ensures Valid()
      ensures State() == Put(old(State()), IoCell(a - 0xFF00), Merged(old(io)[a - 0xFF00], v, WriteMask(a)))
    {
      if a == 0xFF41 { WriteBytes(a, v, 0x78); }
      else if a == 0xFF00 { WriteBytes(a, v, 0x30); }
      else if a == 0xFF0F { WriteBytes(a, v, 0x1F); }
      else if a == 0xFF07 { WriteBytes(a, v, 0x07); }
      else if a == 0xFF02 { WriteBytes(a, v, 0x83); }
      else { WriteByte(a, v); }
    }

    /** `MemoryRegion::write` on the registers: all bits. */
    method WriteByte(a: word, v: bv8)
      requires Valid() && Owner(a) == MappedIo
      modifies this`io
      ensures Valid() && State() == Put(old(State()), IoCell(a - 0xFF00), Merged(old(io)[a - 0xFF00], v, 0xFF))
    {
      WholeByte(io[a - 0xFF00], v);
      io := io[a - 0xFF00 := v];
    }

    /** The bits of a register that the mask leaves to the game. */
    method WriteBytes(a: word, v: bv8, mask: bv8)
      requires Valid() && Owner(a) == MappedIo
      modifies this`io
      ensures Valid()
      ensures State() == Put(old(State()), IoCell(a - 0xFF00), Merged(old(io)[a - 0xFF00], v, mask))
    {
      io := io[a - 0xFF00 := Merged(io[a - 0xFF00], v, mask)];
    }

    /** The palette index at `a` after a write of its data port. */
    method Increment(a: word)
      requires Valid() && (a == 0xFF68 || a == 0xFF6A)
      modifies this
      ensures Valid() && State() == AutoIncrement(old(State()), a - 0xFF00)
      decreases 1, 0
    {
      var pointer := Peek(a);
      if Increments(pointer) {
        WholeByte(pointer, NextIndex(pointer));
        Write(a, NextIndex(pointer));
      }
    }

    method CopyToObjectMemory(page: byte)
      requires Valid() && Allowed(State(), Transfer(page))
      modifies this
      ensures Valid() && State() == Step(old(State()), Transfer(page))
      decreases 1, 0
    {
      for i := 0 to 160
        invariant Valid() && State() == TransferBytes(old(State()), page, i)
      {
        SourceMapped(State(), page, i);
        var v := Peek(page * 0x100 + i);
        ObjectAddress(State(), i, v);
        Write(0xFE00 + i, v);
      }
    }

    /** A read of RAM or of a register other than the palette data ports: the region is searched, an
        echo is moved down, and the bank selected. */
    method Peek(a: word) returns (v: bv8)
      requires Valid() && Mapped(State(), a) && a != 0xFF69 && a != 0xFF6B
      ensures v == MemoryMap.Read(State(), a)
    {
      var found := Find(a);
      match found.value
      case Video => v := ReadVideo(a);
      case Working => v := ReadWorking(a);
      case ObjectMemory => v := oam[a - 0xFE00];
      case MappedIo => v := io[a - 0xFF00];
      case ZeroPage => v := zero[a - 0xFF80];
    }
  }

  /** The access that a write makes. */
  function Made(a: word, v: bv8): Access {
    if a == OAM_TRANSFER then Transfer(v as int) else Poke(a, v)
  }

  /** Writing this register makes further writes. */
  predicate IsCommand(a: word) {
    a == OAM_TRANSFER || a == 0xFF69 || a == 0xFF6B
  }

  /** A write to a register is not one to the BIOS. */
  lemma NotBios(m: Memory, a: word)
    requires Owner(a) == MappedIo
    ensures !IsAddressed(Bios, a, m.biosSize) && BankExists(m, a)
    ensures forall v :: MemoryMap.Write(m, a, v) == WriteIo(m, a, v)
  {
  }

  /** A write to object memory is a poke of its cell. */
  lemma ObjectAddress(m: Memory, i: nat, v: bv8)
    requires i < 160
    ensures Allowed(m, Made(0xFE00 + i, v)) && !IsCommand(0xFE00 + i)
    ensures Step(m, Made(0xFE00 + i, v)) == Put(m, ObjectCell(i), v)
  {
  }

  lemma VideoSelect(r: bv8)
    ensures (r & 0x01) as int == if r & 1 != 0 then 1 else 0
  {
  }

  lemma WholeByte(before: bv8, v: bv8)
    ensures Merged(before, v, 0xFF) == v
  {
  }
}
