/** The memory map: layered regions, echoed and banked RAM, and the transfer into object memory. */
module MemoryMap {
  import opened Bytes

  /** In the order of the region list; the BIOS is in front until it is unlocked. */
  datatype Region = Bios | Cartridge | Video | Working | ObjectMemory | Unusable | MappedIo | ZeroPage

  const WORK_SIZE := 0x1000

  /** Echo of the working RAM (`WorkingRam::isShadowAddressed`). */
  predicate IsShadow(a: word) {
    var lower := 0xC000 + WORK_SIZE * 2;
    lower <= a < lower + (WORK_SIZE * 2 - 512)
  }

  predicate IsAddressed(r: Region, a: word, biosSize: word) {
    match r
    case Bios => !(0x0100 <= a < 0x0200) && a < biosSize
    case Cartridge => a < 0x4000 || 0x4000 <= a < 0x8000 || 0xA000 <= a < 0xC000
    case Video => 0x8000 <= a < 0x8000 + 8192
    case Working => 0xC000 <= a < 0xC000 + WORK_SIZE * 2 || IsShadow(a)
    case ObjectMemory => 0xFE00 <= a < 0xFE00 + 160
    case Unusable => 0xFEA0 <= a < 0xFEA0 + 96
    case MappedIo => 0xFF00 <= a < 0xFF00 + 128
    case ZeroPage => 0xFF80 <= a < 0xFF80 + 128
  }

  const UNLOCKED := [Cartridge, Video, Working, ObjectMemory, Unusable, MappedIo, ZeroPage]

  function Regions(inBios: bool): (s: seq<Region>)
    ensures forall r | r in s :: r == Bios || r in UNLOCKED
    ensures forall r | r in UNLOCKED :: r in s
    ensures |s| > 0
    ensures if inBios then s[0] == Bios else Bios !in s
  {
    assert forall i | 0 <= i < 7 :: ([Bios] + UNLOCKED)[i + 1] == UNLOCKED[i];
    if inBios then [Bios] + UNLOCKED else UNLOCKED
  }

  /** The region that answers an address once the BIOS is unlocked. */
  function Owner(a: word): Region {
    if a < 0x8000 then Cartridge
    else if a < 0xA000 then Video
    else if a < 0xC000 then Cartridge
    else if a < 0xFE00 then Working
    else if a < 0xFEA0 then ObjectMemory
    else if a < 0xFF00 then Unusable
    else if a < 0xFF80 then MappedIo
    else ZeroPage
  }

  /** Every address has exactly one owner among the regions other than the BIOS. */
  lemma RegionsPartitionTheAddresses(a: word, r: Region, biosSize: word)
    requires r in UNLOCKED
    ensures IsAddressed(r, a, biosSize) <==> r == Owner(a)
  {
  }

  /** The first region in the list that has the address. */
  function Answering(a: word, inBios: bool, biosSize: word): Region {
    if inBios && IsAddressed(Bios, a, biosSize) then Bios else Owner(a)
  }

  /** Who answers: the BIOS up to its size, but not where the cartridge header shows through; then the
      regions by address. */
  lemma AnsweringByAddress(a: word, inBios: bool, biosSize: word)
    ensures var r := Answering(a, inBios, biosSize);
            && (r == Bios <==> inBios && a < biosSize && (a < 0x0100 || a >= 0x0200))
            && (r == Cartridge ==> a < 0x8000 || 0xA000 <= a < 0xC000)
            && (r == Video ==> 0x8000 <= a < 0xA000) && (r == Working ==> 0xC000 <= a < 0xFE00)
            && (r == ObjectMemory ==> 0xFE00 <= a < 0xFEA0) && (r == Unusable ==> 0xFEA0 <= a < 0xFF00)
            && (r == MappedIo ==> 0xFF00 <= a < 0xFF80) && (r == ZeroPage ==> 0xFF80 <= a)
  {
  }

  // ---- The RAM behind the map --------------------------------------------------------------------

  /** The byte vectors of the regions, by bank where a region has banks. */
  datatype MemoryData = Memory(
    cgb: bool, inBios: bool, biosSize: word,
    video: seq<seq<bv8>>, working: seq<seq<bv8>>, oam: seq<bv8>, io: seq<bv8>, zero: seq<bv8>)

  predicate Sized(m: MemoryData) {
    && |m.video| == 2 && |m.video[0]| == 8192 && |m.video[1]| == 8192
    && |m.working| == 8 && (forall b | 0 <= b < 8 :: |m.working[b]| == WORK_SIZE)
    && |m.oam| == 160 && |m.io| == 128 && |m.zero| == 128
    && m.biosSize <= 0x8000
  }

  type Memory = m: MemoryData | Sized(m)
    witness Memory(false, false, 0, seq(2, _ => Zeros(8192)), seq(8, _ => Zeros(WORK_SIZE)),
                   Zeros(160), Zeros(128), Zeros(128))

  /** A cell of physical memory. */
  datatype Cell =
    | VideoCell(bank: nat, index: nat)
    | WorkCell(bank: nat, index: nat)
    | ObjectCell(index: nat)
    | ZeroCell(index: nat)
    | IoCell(index: nat)

  predicate IsCell(c: Cell) {
    match c
    case VideoCell(b, i) => b < 2 && i < 8192
    case WorkCell(b, i) => b < 8 && i < WORK_SIZE
    case ObjectCell(i) => i < 160
    case ZeroCell(i) => i < 128
    case IoCell(i) => i < 128
  }

  function Contents(m: Memory, c: Cell): bv8
    requires IsCell(c)
  {
    match c
    case VideoCell(b, i) => m.video[b][i]
    case WorkCell(b, i) => m.working[b][i]
    case ObjectCell(i) => m.oam[i]
    case ZeroCell(i) => m.zero[i]
    case IoCell(i) => m.io[i]
  }

  /** The memory with one cell changed. */
  function Put(m: Memory, c: Cell, v: bv8): Memory
    requires IsCell(c)
  {
    match c
    case VideoCell(b, i) => m.(video := m.video[b := m.video[b][i := v]])
    case WorkCell(b, i) => m.(working := m.working[b := m.working[b][i := v]])
    case ObjectCell(i) => m.(oam := m.oam[i := v])
    case ZeroCell(i) => m.(zero := m.zero[i := v])
    case IoCell(i) => m.(io := m.io[i := v])
  }

  lemma PutChangesOneCell(m: Memory, c: Cell, v: bv8, d: Cell)
    requires IsCell(c) && IsCell(d)
    ensures Contents(Put(m, c, v), d) == if d == c then v else Contents(m, d)
  {
  }

  /** The bank select register for the upper half of the working RAM. */
  function WorkSelect(m: Memory): byte {
    m.io[0x70] as int
  }

  /** If the address lies in the banked half of the working RAM, the register selects a bank that
      exists; the code asserts as much when it looks the bank up. */
  predicate BankExists(m: Memory, a: word) {
    m.cgb && Owner(a) == Working && Unshadowed(a) >= 0xD000 ==> WorkSelect(m) <= 7
  }

  /** `WorkingRam::bank` as an index. */
  function WorkBank(m: Memory, index: nat): (b: nat)
    requires index < 2 * WORK_SIZE
    requires m.cgb && index >= WORK_SIZE ==> WorkSelect(m) <= 7
    ensures b < 8
  {
    if !m.cgb then index / WORK_SIZE
    else if index < WORK_SIZE then 0
    else if WorkSelect(m) < 1 then 1 else WorkSelect(m)
  }

  function VideoBank(m: Memory): (b: nat)
    ensures b < 2
  {
    if m.io[0x4F] & 1 != 0 then 1 else 0
  }

  predicate IsRam(a: word) {
    Owner(a) in {Video, Working, ObjectMemory, ZeroPage}
  }

  /** The address below the echo. */
  function Unshadowed(a: word): word {
    if IsShadow(a) then a - 2 * WORK_SIZE else a
  }

  /** The address stands for a cell: of RAM, or of the mapped registers. */
  predicate Mapped(m: Memory, a: word) {
    (IsRam(a) || Owner(a) == MappedIo) && BankExists(m, a)
  }

  /** The cell that it stands for. */
  function CellOf(m: Memory, a: word): (c: Cell)
    requires Mapped(m, a)
    ensures IsCell(c) && (c.IoCell? <==> Owner(a) == MappedIo)
  {
    match Owner(a)
    case Video => VideoCell(VideoBank(m), a - 0x8000)
    case Working =>
      var index := Unshadowed(a) - 0xC000;
      WorkCell(WorkBank(m, index), index % WORK_SIZE)
    case ObjectMemory => ObjectCell(a - 0xFE00)
    case ZeroPage => ZeroCell(a - 0xFF80)
    case MappedIo => IoCell(a - 0xFF00)
  }

  /** `b` is the echo of `a`. */
  predicate Echoes(a: word, b: word) {
    0xC000 <= a < 0xDE00 && b == a + 0x2000
  }

  /** Two RAM addresses share a cell exactly if they are the same or one is the echo of the other. */
  lemma OnlyTheEchoShares(m: Memory, a: word, b: word)
    requires IsRam(a) && IsRam(b) && Mapped(m, a) && Mapped(m, b)
    ensures CellOf(m, a) == CellOf(m, b) <==> a == b || Echoes(a, b) || Echoes(b, a)
  {
  }

  /** Across a bank switch the upper half of the working RAM shares its cells exactly when the two
      settings select the same bank; settings 0 and 1 do. */
  lemma BanksShare(m: Memory, n: Memory, a: word)
    requires m.cgb && n.cgb && 0xD000 <= a < 0xE000 && Mapped(m, a) && Mapped(n, a)
    ensures CellOf(m, a) == CellOf(n, a) <==>
            WorkSelect(m) == WorkSelect(n) || (WorkSelect(m) <= 1 && WorkSelect(n) <= 1)
  {
  }

  /** The video memory shares its cells exactly when the lowest bits of the bank register agree. */
  lemma VideoBanksShare(m: Memory, n: Memory, a: word)
    requires 0x8000 <= a < 0xA000
    ensures CellOf(m, a) == CellOf(n, a) <==> m.io[0x4F] & 1 == n.io[0x4F] & 1
  {
  }

  // ---- Writes and reads --------------------------------------------------------------------------

  /** The bits of a mapped register that the game can change (`MappedIO::write`). */
  function WriteMask(a: word): bv8 {
    if a == 0xFF41 then 0x78 else if a == 0xFF00 then 0x30 else if a == 0xFF0F then 0x1F
    else if a == 0xFF07 then 0x07 else if a == 0xFF02 then 0x83 else 0xFF
  }

  /** A byte with the bits of the mask replaced. */
  function Merged(before: bv8, v: bv8, mask: bv8): bv8 {
    (before & !mask) | (v & mask)
  }

  /** Registers whose write is a command: the divider, the palette data ports and the two transfers. */
  const DIVIDER := 0xFF04
  const OAM_TRANSFER := 0xFF46
  const VIDEO_TRANSFER := 0xFF55

  function WriteIo(m: Memory, a: word, v: bv8): Memory
    requires Owner(a) == MappedIo
  {
    var i := a - 0xFF00;
    if a == DIVIDER then m
    else if a == 0xFF69 then AutoIncrement(m, 0x68)
    else if a == 0xFF6B then AutoIncrement(m, 0x6A)
    else Put(m, IoCell(i), Merged(m.io[i], v, WriteMask(a)))
  }

  /** The palette index register after a write of its data port. */
  function AutoIncrement(m: Memory, i: nat): Memory
    requires i < 128
  {
    if Increments(m.io[i]) then Put(m, IoCell(i), NextIndex(m.io[i])) else m
  }

  predicate Increments(index: bv8) {
    index & 0x80 != 0
  }

  function NextIndex(index: bv8): bv8 {
    0x80 + ((index + 1) & 0x3F)
  }

  /** A write of the game to any address, other than the transfer commands. */
  function Write(m: Memory, a: word, v: bv8): Memory
    requires BankExists(m, a)
  {
    if m.inBios && IsAddressed(Bios, a, m.biosSize) then m
    else if IsRam(a) then Put(m, CellOf(m, a), v)
    else if Owner(a) == MappedIo then WriteIo(m, a, v)
    else m
  }

  function Read(m: Memory, a: word): bv8
    requires Mapped(m, a)
  {
    Contents(m, CellOf(m, a))
  }

  /** A write reaches the cell it is addressed to and no other RAM cell. */
  lemma WriteReachesItsCell(m: Memory, a: word, v: bv8, c: Cell)
    requires BankExists(m, a) && IsCell(c) && !c.IoCell?
    ensures Contents(Write(m, a, v), c) == if IsRam(a) && c == CellOf(m, a) then v else Contents(m, c)
  {
    if IsRam(a) { PutChangesOneCell(m, CellOf(m, a), v, c); }
  }

  /** After a write to RAM, the same address and its echo read the value written, and every other
      address of RAM or of a register reads what it did. */
  lemma ReadAfterWrite(m: Memory, a: word, v: bv8, b: word)
    requires IsRam(a) && Mapped(m, a) && Mapped(m, b)
    ensures var n := Write(m, a, v);
            && Mapped(n, b)
            && Read(n, b) == if a == b || Echoes(a, b) || Echoes(b, a) then v else Read(m, b)
  {
    PutKeepsMap(m, CellOf(m, a), v, b);
    PutChangesOneCell(m, CellOf(m, a), v, CellOf(m, b));
    if IsRam(b) { OnlyTheEchoShares(m, a, b); }
  }

  /** The addresses of RAM. */
  lemma RamRanges(a: word)
    ensures IsRam(a) <==> 0x8000 <= a < 0xA000 || 0xC000 <= a < 0xFEA0 || 0xFF80 <= a
  {
  }

  /** Writes to the BIOS, the cartridge range and the unusable range reach none of this memory. */
  lemma WriteElsewhereIsIgnored(m: Memory, a: word, v: bv8)
    requires a < 0x8000 || 0xA000 <= a < 0xC000 || 0xFEA0 <= a < 0xFF00
    ensures Write(m, a, v) == m
  {
  }

  /** What a register reads after the game wrote `v` over `o`: in some only the bits shown can be written. */
  function Rewritten(a: word, o: bv8, v: bv8): bv8 {
    match a
    case 0xFF00 => (o & 0xCF) | (v & 0x30)
    case 0xFF02 => (o & 0x7C) | (v & 0x83)
    case 0xFF04 => o
    case 0xFF07 => (o & 0xF8) | (v & 0x07)
    case 0xFF0F => (o & 0xE0) | (v & 0x1F)
    case 0xFF41 => (o & 0x87) | (v & 0x78)
    case 0xFF69 => o
    case 0xFF6B => o
    case _ => v
  }

  /** Register by register: the one written, the index that a palette port advances, and no other. */
  lemma RegistersAfterWrite(m: Memory, a: word, v: bv8, b: word)
    requires 0xFF00 <= a < 0xFF80 && 0xFF00 <= b < 0xFF80 && a != OAM_TRANSFER && a != VIDEO_TRANSFER
    ensures var o, n := Read(m, b), Write(m, a, v);
            Read(n, b) ==
            if a == b then Rewritten(a, o, v)
            else if ((a == 0xFF69 && b == 0xFF68) || (a == 0xFF6B && b == 0xFF6A)) && o & 0x80 != 0
            then 0x80 | ((o + 1) & 0x3F)
            else o
  {
    if a == 0xFF04 {
    } else if a == 0xFF69 || a == 0xFF6B {
      IndexAfterWrite(m, a, v, b);
    } else {
      RegisterAfterWrite(m, a, v, b);
    }
  }

  lemma RegisterAfterWrite(m: Memory, a: word, v: bv8, b: word)
    requires 0xFF00 <= a < 0xFF80 && 0xFF00 <= b < 0xFF80 && a != OAM_TRANSFER && a != VIDEO_TRANSFER
    requires a != 0xFF04 && a != 0xFF69 && a != 0xFF6B
    ensures Read(Write(m, a, v), b) == if a == b then Rewritten(a, Read(m, b), v) else Read(m, b)
  {
    RewrittenIsMerged(a, Read(m, a), v);
    assert Write(m, a, v) == Put(m, IoCell(a - 0xFF00), Merged(Read(m, a), v, WriteMask(a)));
  }

  lemma IndexAfterWrite(m: Memory, a: word, v: bv8, b: word)
    requires (a == 0xFF69 || a == 0xFF6B) && 0xFF00 <= b < 0xFF80
    ensures Read(Write(m, a, v), b) ==
            if b == a - 1 && Read(m, b) & 0x80 != 0 then 0x80 | ((Read(m, b) + 1) & 0x3F) else Read(m, b)
  {
    NextIndexIs(Read(m, a - 1));
    PortAdvances(m, a, v);
  }

  /** A write to a palette port, by the index before it. */
  lemma PortAdvances(m: Memory, a: word, v: bv8)
    requires a == 0xFF69 || a == 0xFF6B
    ensures var o, n := Read(m, a - 1), Write(m, a, v);
            n == if Increments(o) then m.(io := m.io[a - 1 - 0xFF00 := NextIndex(o)]) else m
  {
    if a == 0xFF69 {
      assert Read(m, 0xFF68) == m.io[0x68];
    } else {
      assert Read(m, 0xFF6A) == m.io[0x6A];
    }
  }

  lemma RewrittenIsMerged(a: word, o: bv8, v: bv8)
    requires a != 0xFF04 && a != 0xFF69 && a != 0xFF6B
    ensures Rewritten(a, o, v) == Merged(o, v, WriteMask(a))
  {
    Masks(o, v);
    match a
    case 0xFF00 => assert WriteMask(a) == 0x30;
    case 0xFF02 => assert WriteMask(a) == 0x83;
    case 0xFF07 => assert WriteMask(a) == 0x07;
    case 0xFF0F => assert WriteMask(a) == 0x1F;
    case 0xFF41 => assert WriteMask(a) == 0x78;
    case _ => assert WriteMask(a) == 0xFF;
  }

  lemma Masks(o: bv8, v: bv8)
    ensures Merged(o, v, 0x30) == (o & 0xCF) | (v & 0x30) && Merged(o, v, 0x83) == (o & 0x7C) | (v & 0x83)
    ensures Merged(o, v, 0x07) == (o & 0xF8) | (v & 0x07) && Merged(o, v, 0x1F) == (o & 0xE0) | (v & 0x1F)
    ensures Merged(o, v, 0x78) == (o & 0x87) | (v & 0x78) && Merged(o, v, 0xFF) == v
  {
  }

  lemma NextIndexIs(o: bv8)
    ensures NextIndex(o) == 0x80 | ((o + 1) & 0x3F) && (Increments(o) <==> o & 0x80 != 0)
  {
  }

  /** Writing a bank register selects the bank. */
  lemma WriteSelectsBank(m: Memory, v: bv8)
    ensures VideoBank(Write(m, 0xFF4F, v)) == (v & 1) as int
    ensures WorkSelect(Write(m, 0xFF70, v)) == v as int
  {
    RegistersAfterWrite(m, 0xFF4F, v, 0xFF4F);
    RegistersAfterWrite(m, 0xFF70, v, 0xFF70);
    LowestBit(v);
  }

  lemma LowestBit(v: bv8)
    ensures (v & 1) as int == if v & 1 != 0 then 1 else 0
  {
  }

  /** Only a write to a register can change which cells the addresses stand for. */
  lemma PutKeepsMap(m: Memory, c: Cell, v: bv8, b: word)
    requires IsCell(c) && !c.IoCell? && Mapped(m, b)
    ensures var n := Put(m, c, v); Mapped(n, b) && CellOf(n, b) == CellOf(m, b)
  {
    assert Put(m, c, v).io == m.io;
  }

  /** A write to the interrupt mask would keep the three upper bits, were its case in the code of the
      mapped registers ever reached; but 0xFFFF belongs to the zero page, which stores all eight. So
      the two agree exactly when the upper bits written are those already there. */
  lemma WhenInterruptMaskIsMasked(m: Memory, v: bv8)
    ensures !IsAddressed(MappedIo, 0xFFFF, m.biosSize)
    ensures Read(Write(m, 0xFFFF, v), 0xFFFF) == (Read(m, 0xFFFF) & 0xE0) | (v & 0x1F) <==>
            v & 0xE0 == Read(m, 0xFFFF) & 0xE0
  {
    ReadAfterWrite(m, 0xFFFF, v, 0xFFFF);
    MaskedByte(Read(m, 0xFFFF), v);
  }

  /** They differ here: all eight bits written over zeros are stored, not the five under the mask. */
  lemma InterruptMaskStoresAllBits(m: Memory)
    requires Read(m, 0xFFFF) == 0
    ensures Read(Write(m, 0xFFFF, 0xFF), 0xFFFF) == 0xFF != (Read(m, 0xFFFF) & 0xE0) | (0xFF & 0x1F)
  {
    WhenInterruptMaskIsMasked(m, 0xFF);
    ReadAfterWrite(m, 0xFFFF, 0xFF, 0xFFFF);
  }

  lemma MaskedByte(before: bv8, v: bv8)
    ensures v == (before & 0xE0) | (v & 0x1F) <==> v & 0xE0 == before & 0xE0
  {
  }

  /** What happens to memory: a write of the game; the transfer into object memory from the page
      `page`, which the code allows from RAM; the BIOS leaving the region list; a reset. */
  datatype Access = Poke(a: word, v: bv8) | Transfer(page: byte) | Unlock | Reset

  predicate FromRam(page: byte) {
    0x80 <= page < 0xA0 || 0xC0 <= page < 0xFF
  }

  predicate Allowed(m: Memory, x: Access) {
    match x
    case Poke(a, _) => a != OAM_TRANSFER && a != VIDEO_TRANSFER && BankExists(m, a)
    case Transfer(page) => FromRam(page) && BankExists(m, page * 0x100)
    case Unlock => true
    case Reset => true
  }

  /** A transfer reads one bank throughout. */
  lemma SourceMapped(m: Memory, page: byte, i: nat)
    requires Allowed(m, Transfer(page)) && i < 160
    ensures IsRam(page * 0x100 + i) && Mapped(m, page * 0x100 + i)
  {
  }

  /** Byte `i` of the page a transfer reads. */
  function SourceByte(m: Memory, page: byte, i: nat): bv8
    requires Allowed(m, Transfer(page)) && i < 160
  {
    SourceMapped(m, page, i);
    Read(m, page * 0x100 + i)
  }

  /** The first `n` bytes of a transfer, one write each. */
  function TransferBytes(m: Memory, page: byte, n: nat): (r: Memory)
    requires Allowed(m, Transfer(page)) && n <= 160
    ensures r == m.(oam := r.oam)
  {
    if n == 0 then m
    else
      var p := TransferBytes(m, page, n - 1);
      Put(p, ObjectCell(n - 1), SourceByte(p, page, n - 1))
  }

  /** A transfer copies what the source held before it, also onto itself. */
  lemma {:induction false} TransferIsSnapshot(m: Memory, page: byte, n: nat)
    requires Allowed(m, Transfer(page)) && n <= 160
    ensures var r := TransferBytes(m, page, n);
            forall i | 0 <= i < 160 :: r.oam[i] == if i < n then SourceByte(m, page, i) else m.oam[i]
  {
    if n == 0 {
    } else {
      TransferIsSnapshot(m, page, n - 1);
      var p := TransferBytes(m, page, n - 1);
      SourceByteKept(m, p, page, n - 1);
      assert TransferBytes(m, page, n).oam == p.oam[n - 1 := SourceByte(m, page, n - 1)];
    }
  }

  /** The part of object memory still to be overwritten is all of it that the transfer still reads. */
  lemma SourceByteKept(m: Memory, p: Memory, page: byte, i: nat)
    requires Allowed(m, Transfer(page)) && i < 160
    requires p == m.(oam := p.oam) && p.oam[i] == m.oam[i]
    ensures SourceByte(p, page, i) == SourceByte(m, page, i)
  {
    var a := page * 0x100 + i;
    SourceMapped(m, page, i);
    if page == 0xFE {
      assert CellOf(m, a) == ObjectCell(i) == CellOf(p, a);
    } else {
      assert Owner(a) == Video || Owner(a) == Working;
      assert CellOf(p, a) == CellOf(m, a);
    }
  }

  /** The page ends up in object memory byte by byte. */
  lemma TransferCopiesPage(m: Memory, page: byte, i: nat)
    requires Allowed(m, Transfer(page)) && i < 160
    ensures Mapped(m, page * 0x100 + i)
    ensures Read(Step(m, Transfer(page)), 0xFE00 + i) == Read(m, page * 0x100 + i)
  {
    SourceMapped(m, page, i);
    TransferIsSnapshot(m, page, 160);
    var r := TransferBytes(m, page, 160);
    assert r.oam[i] == SourceByte(m, page, i);
    assert CellOf(r, 0xFE00 + i) == ObjectCell(i);
  }

  // ---- Runs --------------------------------------------------------------------------------------

  /** `MemoryController::reset`: the BIOS is in front again and RAM is cleared. The registers have an
      empty reset of their own; only the display controller's stores to five of them. */
  function Restarted(m: Memory): Memory {
    Memory(m.cgb, true, m.biosSize, seq(2, _ => Zeros(8192)), seq(8, _ => Zeros(WORK_SIZE)),
           Zeros(160), m.io[0x40 := 0x91][0x41 := 0x86][0x42 := 0][0x43 := 0][0x44 := 0], Zeros(128))
  }

  /** A reset keeps every bank selected, so addresses stand for the cells they did. */
  lemma ResetKeepsBanks(m: Memory, a: word)
    requires Mapped(m, a)
    ensures Mapped(Restarted(m), a) && CellOf(Restarted(m), a) == CellOf(m, a)
  {
    assert Restarted(m).io[0x4F] == m.io[0x4F] && Restarted(m).io[0x70] == m.io[0x70];
  }

  function Step(m: Memory, x: Access): Memory
    requires Allowed(m, x)
  {
    match x
    case Poke(a, v) => Write(m, a, v)
    case Transfer(page) => TransferBytes(m, page, 160)
    case Unlock => m.(inBios := false)
    case Reset => Restarted(m)
  }

  /** Every access is allowed when it is made. */
  predicate LegalRun(m: Memory, run: seq<Access>)
    decreases |run|
  {
    run == [] || (Allowed(m, run[0]) && LegalRun(Step(m, run[0]), run[1..]))
  }

  function Run(m: Memory, run: seq<Access>): Memory
    requires LegalRun(m, run)
    decreases |run|
  {
    if run == [] then m else Run(Step(m, run[0]), run[1..])
  }

  /** What an access stores in a RAM cell: a write does if its address stands for the cell at that
      moment, a transfer if it is an object cell, a reset always. */
  function Stored(m: Memory, x: Access, c: Cell): Option<bv8>
    requires Allowed(m, x) && IsCell(c)
  {
    match x
    case Poke(a, v) => if IsRam(a) && CellOf(m, a) == c then Some(v) else None
    case Transfer(page) => if c.ObjectCell? then Some(SourceByte(m, page, c.index)) else None
    case Unlock => None
    case Reset => Some(0)
  }

  /** The value last stored in a RAM cell, `known` if none has been. */
  function LastStored(m: Memory, run: seq<Access>, c: Cell, known: bv8): bv8
    requires LegalRun(m, run) && IsCell(c)
    decreases |run|
  {
    if run == [] then known
    else
      var stored := match Stored(m, run[0], c) case Some(v) => v case None => known;
      LastStored(Step(m, run[0]), run[1..], c, stored)
  }

  lemma StepStores(m: Memory, x: Access, c: Cell)
    requires Allowed(m, x) && IsCell(c) && !c.IoCell?
    ensures Contents(Step(m, x), c) ==
            match Stored(m, x, c) case Some(v) => v case None => Contents(m, c)
  {
    match x
    case Poke(a, v) => WriteReachesItsCell(m, a, v, c);
    case Transfer(page) => TransferIsSnapshot(m, page, 160);
    case Unlock =>
    case Reset =>
  }

  lemma {:induction false} RunStores(m: Memory, run: seq<Access>, c: Cell)
    requires LegalRun(m, run) && IsCell(c) && !c.IoCell?
    ensures Contents(Run(m, run), c) == LastStored(m, run, c, Contents(m, c))
    decreases |run|
  {
    if run == [] {
    } else {
      StepStores(m, run[0], c);
      RunStores(Step(m, run[0]), run[1..], c);
    }
  }

  /** Whatever was written and switched before, a read of RAM returns the last value stored in the
      physical cell that the address stands for now. */
  lemma ReadReturnsLastStored(m: Memory, run: seq<Access>, a: word)
    requires LegalRun(m, run) && IsRam(a) && Mapped(Run(m, run), a)
    ensures var r := Run(m, run);
            Read(r, a) == LastStored(m, run, CellOf(r, a), Contents(m, CellOf(r, a)))
  {
    RunStores(m, run, CellOf(Run(m, run), a));
  }

  // ---- Bank switches -----------------------------------------------------------------------------

  /** The last write to an address, -1 if there is none. */
  function LastPoke(run: seq<Access>, a: word): (i: int)
    ensures -1 <= i < |run| && (i >= 0 ==> run[i].Poke? && run[i].a == a)
    decreases |run|
  {
    if run == [] then -1
    else
      var i := LastPoke(run[1..], a);
      if i >= 0 then i + 1 else if run[0].Poke? && run[0].a == a then 0 else -1
  }

  /** A register that the game writes whole and nothing else changes. */
  predicate IsPlain(a: word) {
    && 0xFF00 <= a < 0xFF80 && !(0xFF40 <= a <= 0xFF44) && a != OAM_TRANSFER && a != VIDEO_TRANSFER
    && a !in {0xFF00, 0xFF02, 0xFF04, 0xFF07, 0xFF0F, 0xFF68, 0xFF69, 0xFF6A, 0xFF6B}
  }

  lemma StepOnPlain(m: Memory, x: Access, a: word)
    requires Allowed(m, x) && IsPlain(a)
    ensures Read(Step(m, x), a) == if x.Poke? && x.a == a then x.v else Read(m, a)
  {
    match x
    case Poke(b, v) =>
      if Owner(b) == MappedIo { RegistersAfterWrite(m, b, v, a); }
    case Transfer(page) =>
    case Unlock =>
    case Reset =>
  }

  /** After any run such a register reads what was last written to it. */
  lemma {:induction false} RegisterIsLastWritten(m: Memory, run: seq<Access>, a: word)
    requires LegalRun(m, run) && IsPlain(a)
    ensures var i := LastPoke(run, a); Read(Run(m, run), a) == if i < 0 then Read(m, a) else run[i].v
    decreases |run|
  {
    if run == [] {
    } else {
      StepOnPlain(m, run[0], a);
      RegisterIsLastWritten(Step(m, run[0]), run[1..], a);
    }
  }

  /** After any run the banks selected are the last ones written. */
  lemma BanksAreLastSelected(m: Memory, run: seq<Access>)
    requires LegalRun(m, run)
    ensures var i := LastPoke(run, 0xFF4F);
            VideoBank(Run(m, run)) == if i < 0 then VideoBank(m) else (run[i].v & 1) as int
    ensures var i := LastPoke(run, 0xFF70);
            WorkSelect(Run(m, run)) == if i < 0 then WorkSelect(m) else run[i].v as int
  {
    RegisterIsLastWritten(m, run, 0xFF4F);
    RegisterIsLastWritten(m, run, 0xFF70);
    var i := LastPoke(run, 0xFF4F);
    if i >= 0 { LowestBit(run[i].v); }
  }

  /** Switching away and back: select `i`, store `v`, select `j`, store `w` at the same address, and select
      `i` again. */
  function ThereAndBack(register: word, i: bv8, a: word, v: bv8, j: bv8, w: bv8): seq<Access> {
    [Poke(register, i), Poke(a, v), Poke(register, j), Poke(a, w), Poke(register, i)]
  }

  lemma RunOfFive(m: Memory, x1: Access, x2: Access, x3: Access, x4: Access, x5: Access)
    requires Allowed(m, x1) && Allowed(Step(m, x1), x2) && Allowed(Step(Step(m, x1), x2), x3)
    requires Allowed(Step(Step(Step(m, x1), x2), x3), x4)
    requires Allowed(Step(Step(Step(Step(m, x1), x2), x3), x4), x5)
    ensures LegalRun(m, [x1, x2, x3, x4, x5])
    ensures Run(m, [x1, x2, x3, x4, x5]) == Step(Step(Step(Step(Step(m, x1), x2), x3), x4), x5)
  {
    var m1 := Step(m, x1);
    var m2 := Step(m1, x2);
    var m3 := Step(m2, x3);
    var m4 := Step(m3, x4);
    RunOneMore(m4, x5, []);
    RunOneMore(m3, x4, [x5]);
    RunOneMore(m2, x3, [x4, x5]);
    RunOneMore(m1, x2, [x3, x4, x5]);
    RunOneMore(m, x1, [x2, x3, x4, x5]);
    assert [x5] + [] == [x5] && [x4] + [x5] == [x4, x5] && [x3] + [x4, x5] == [x3, x4, x5];
    assert [x2] + [x3, x4, x5] == [x2, x3, x4, x5] && [x1] + [x2, x3, x4, x5] == [x1, x2, x3, x4, x5];
  }

  lemma RunOneMore(m: Memory, x: Access, rest: seq<Access>)
    requires Allowed(m, x) && LegalRun(Step(m, x), rest)
    ensures LegalRun(m, [x] + rest) && Run(m, [x] + rest) == Run(Step(m, x), rest)
  {
    assert ([x] + rest)[1..] == rest;
  }

  /** A byte stored in one video bank is still there after the other bank was written. */
  lemma VideoBanksAreSeparate(m: Memory, i: bv8, a: word, v: bv8, j: bv8, w: bv8)
    requires 0x8000 <= a < 0xA000
    ensures LegalRun(m, ThereAndBack(0xFF4F, i, a, v, j, w))
    ensures Mapped(Run(m, ThereAndBack(0xFF4F, i, a, v, j, w)), a)
    ensures Read(Run(m, ThereAndBack(0xFF4F, i, a, v, j, w)), a) == if i & 1 == j & 1 then w else v
  {
    var m1 := Write(m, 0xFF4F, i);
    var m2 := Write(m1, a, v);
    var m3 := Write(m2, 0xFF4F, j);
    var m4 := Write(m3, a, w);
    var m5 := Write(m4, 0xFF4F, i);
    RunOfFive(m, Poke(0xFF4F, i), Poke(a, v), Poke(0xFF4F, j), Poke(a, w), Poke(0xFF4F, i));
    Selected(m, 0xFF4F, i);
    Selected(m2, 0xFF4F, j);
    Selected(m4, 0xFF4F, i);
    VideoBanksShare(m1, m3, a);
    VideoBanksShare(m1, m5, a);
    StoredAndBack(m1, m2, m3, m4, m5, a, v, w);
    assert Run(m, ThereAndBack(0xFF4F, i, a, v, j, w)) == m5;
  }

  lemma Selected(m: Memory, register: word, v: bv8)
    requires register == 0xFF4F || register == 0xFF70
    ensures var n := Write(m, register, v);
            n.io[register - 0xFF00] == v && n == m.(io := n.io) &&
            n.io[if register == 0xFF4F then 0x70 else 0x4F] == m.io[if register == 0xFF4F then 0x70 else 0x4F]
  {
    RegistersAfterWrite(m, register, v, register);
    RegistersAfterWrite(m, register, v, if register == 0xFF4F then 0xFF70 else 0xFF4F);
  }

  lemma StoredAndBack(m1: Memory, m2: Memory, m3: Memory, m4: Memory, m5: Memory, a: word, v: bv8, w: bv8)
    requires IsRam(a) && Mapped(m1, a) && Mapped(m3, a) && Mapped(m5, a) && CellOf(m5, a) == CellOf(m1, a)
    requires m2 == Write(m1, a, v) && m3 == m2.(io := m3.io) && m4 == Write(m3, a, w) && m5 == m4.(io := m5.io)
    ensures Read(m5, a) == if CellOf(m3, a) == CellOf(m1, a) then w else v
  {
    var c := CellOf(m1, a);
    WriteReachesItsCell(m1, a, v, c);
    WriteReachesItsCell(m3, a, w, c);
    assert Contents(m3, c) == Contents(m2, c) && Contents(m5, c) == Contents(m4, c);
  }

  /** The same of the working RAM in CGB mode; the settings 0 and 1 select the same bank. */
  lemma WorkBanksAreSeparate(m: Memory, i: bv8, a: word, v: bv8, j: bv8, w: bv8)
    requires m.cgb && 0xD000 <= a < 0xE000 && i <= 7 && j <= 7
    ensures LegalRun(m, ThereAndBack(0xFF70, i, a, v, j, w))
    ensures Mapped(Run(m, ThereAndBack(0xFF70, i, a, v, j, w)), a)
    ensures Read(Run(m, ThereAndBack(0xFF70, i, a, v, j, w)), a) == if i == j || (i <= 1 && j <= 1) then w else v
  {
    Settings(i, j);
    var m1 := Write(m, 0xFF70, i);
    WorkSelected(m, i);
    var m2 := Write(m1, a, v);
    var m3 := Write(m2, 0xFF70, j);
    WorkSelected(m2, j);
    var m4 := Write(m3, a, w);
    var m5 := Write(m4, 0xFF70, i);
    WorkSelected(m4, i);
    SameWorkCells(m1, m3, m5, a);
    RunOfFive(m, Poke(0xFF70, i), Poke(a, v), Poke(0xFF70, j), Poke(a, w), Poke(0xFF70, i));
    StoredAndBack(m1, m2, m3, m4, m5, a, v, w);
  }

  lemma WorkSelected(m: Memory, i: bv8)
    requires i <= 7
    ensures var n := Write(m, 0xFF70, i); n == m.(io := n.io) && WorkSelect(n) == i as int <= 7
  {
    Selected(m, 0xFF70, i);
    Settings(i, i);
  }

  lemma SameWorkCells(m1: Memory, m3: Memory, m5: Memory, a: word)
    requires m1.cgb && m3.cgb && m5.cgb && 0xD000 <= a < 0xE000
    requires WorkSelect(m1) <= 7 && WorkSelect(m3) <= 7 && WorkSelect(m5) == WorkSelect(m1)
    ensures Mapped(m1, a) && Mapped(m3, a) && Mapped(m5, a) && CellOf(m5, a) == CellOf(m1, a)
    ensures CellOf(m3, a) == CellOf(m1, a) <==>
            WorkSelect(m1) == WorkSelect(m3) || (WorkSelect(m1) <= 1 && WorkSelect(m3) <= 1)
  {
    BanksShare(m1, m3, a);
    BanksShare(m1, m5, a);
  }

  lemma Settings(i: bv8, j: bv8)
    ensures (i as int == j as int <==> i == j) && (i as int <= 1 <==> i <= 1) && (j as int <= 1 <==> j <= 1)
    ensures (i as int <= 7 <==> i <= 7) && (j as int <= 7 <==> j <= 7)
  {
  }
}
