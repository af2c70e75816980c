/** A CGB palette behind its index and data ports: 64 bytes, two for each of 32 colours, and the colours
    converted once when a byte is written. */
module PalettePort {
  import opened Bytes
  import opened GpuState

  const BYTES := 64
  const COLORS := 32

  type PaletteBytes = b: seq<byte> | |b| == BYTES witness seq(BYTES, _ => 0)
  type PaletteColors = c: seq<Rgb> | |c| == COLORS witness seq(COLORS, _ => BLANK)

  /** Stored bytes, cached colours, and the index register. */
  datatype Port = Port(bytes: PaletteBytes, rgb: PaletteColors, index: byte)

  const POWER_ON := Port(seq(BYTES, _ => 0), seq(COLORS, _ => BLANK), 0)

  /** A five-bit component scaled to eight bits, rounded down. */
  function Scaled(c: int): byte
    requires 0 <= c < 32
  {
    255 * c / 31
  }

  /** The colour that the two bytes of colour `c` encode: five bits each of red, green and blue. */
  function ColorOf(bytes: PaletteBytes, c: nat): Rgb
    requires c < COLORS
  {
    var low: int, high: int := bytes[2 * c], bytes[2 * c + 1];
    var bits := high * 0x100 + low;
    Rgb(Scaled(bits % 32), Scaled(bits / 32 % 32), Scaled(bits / 1024 % 32), 0xFF)
  }

  /** Red is in the low five bits of the first byte, green across both, blue in the second; its top bit
      means nothing. */
  lemma ComponentsOfColor(bytes: PaletteBytes, c: nat, red: int, green: int, blue: int, top: int)
    requires c < COLORS && 0 <= red < 32 && 0 <= green < 32 && 0 <= blue < 32 && 0 <= top <= 1
    requires bytes[2 * c] == red + 32 * (green % 8) && bytes[2 * c + 1] == green / 8 + 4 * blue + 128 * top
    ensures ColorOf(bytes, c) == Rgb(255 * red / 31, 255 * green / 31, 255 * blue / 31, 255)
  {
    var bits := (green / 8 + 4 * blue + 128 * top) * 0x100 + red + 32 * (green % 8);
    Fields(bits, red, green, blue, top);
  }

  lemma Fields(bits: int, red: int, green: int, blue: int, top: int)
    requires 0 <= red < 32 && 0 <= green < 32 && 0 <= blue < 32 && 0 <= top <= 1
    requires bits == (green / 8 + 4 * blue + 128 * top) * 0x100 + red + 32 * (green % 8)
    ensures bits % 32 == red && bits / 32 % 32 == green && bits / 1024 % 32 == blue
  {
    assert bits == red + 32 * (green + 32 * (blue + 32 * top));
    FiveBits(red, green + 32 * (blue + 32 * top));
    FiveBits(green, blue + 32 * top);
    FiveBits(blue, top);
    assert bits / 1024 == bits / 32 / 32;
  }

  lemma FiveBits(low: int, high: int)
    requires 0 <= low < 32 && 0 <= high
    ensures (low + 32 * high) % 32 == low && (low + 32 * high) / 32 == high
  {
  }

  /** `GPU::writePalette`. */
  function WriteByte(p: Port, at: nat, value: byte): Port
    requires at < BYTES
  {
    var bytes := p.bytes[at := value];
    p.(bytes := bytes, rgb := p.rgb[at / 2 := ColorOf(bytes, at / 2)])
  }

  /** The index register after a data write. */
  function NextIndex(index: byte): byte {
    if index >= 0x80 then 0x80 + (index + 1) % 0x40 else index
  }

  datatype Event = SetIndex(v: byte) | Data(v: byte)

  function Step(p: Port, e: Event): Port {
    match e
    case SetIndex(v) => p.(index := v)
    case Data(v) => WriteByte(p, p.index % 0x40, v).(index := NextIndex(p.index))
  }

  function Run(p: Port, events: seq<Event>): Port
    decreases |events|
  {
    if events == [] then p else Run(Step(p, events[0]), events[1..])
  }

  /** The colours that a run writes a byte of. */
  function Written(p: Port, events: seq<Event>): set<nat>
    decreases |events|
  {
    if events == [] then {}
    else (if events[0].Data? then {p.index % 0x40 / 2} else {}) + Written(Step(p, events[0]), events[1..])
  }

  /** The cache agrees with the bytes; a colour is opaque exactly if it was written. */
  predicate CacheOk(p: Port, written: set<nat>) {
    forall c: nat | c < COLORS ::
      p.rgb[c] == ColorOf(p.bytes, c).(alpha := if c in written then 0xFF else 0)
  }

  lemma WriteKeepsCache(p: Port, at: nat, value: byte, written: set<nat>)
    requires at < BYTES && CacheOk(p, written)
    ensures CacheOk(WriteByte(p, at, value), written + {at / 2})
  {
    var q := WriteByte(p, at, value);
    forall c: nat | c < COLORS
      ensures q.rgb[c] == ColorOf(q.bytes, c).(alpha := if c in written + {at / 2} then 0xFF else 0)
    {
      if c != at / 2 {
        assert q.bytes[2 * c] == p.bytes[2 * c] && q.bytes[2 * c + 1] == p.bytes[2 * c + 1];
      }
    }
  }

  lemma {:induction false} RunKeepsCache(p: Port, events: seq<Event>, written: set<nat>)
    requires CacheOk(p, written)
    ensures CacheOk(Run(p, events), written + Written(p, events))
    decreases |events|
  {
    if events == [] {
      assert written + {} == written;
    } else {
      var now: set<nat> := if events[0].Data? then {p.index % 0x40 / 2} else {};
      var q := Step(p, events[0]);
      if events[0].Data? {
        WriteKeepsCache(p, p.index % 0x40, events[0].v, written);
      } else {
        assert written + now == written;
      }
      RunKeepsCache(q, events[1..], written + now);
      assert (written + now) + Written(q, events[1..]) == written + Written(p, events);
    }
  }

  /** After any run every colour's cached components are those of its two stored bytes, and it is opaque
      exactly if one of them was ever written. */
  lemma CacheIsExact(events: seq<Event>)
    ensures CacheOk(Run(POWER_ON, events), Written(POWER_ON, events))
  {
    assert {} + Written(POWER_ON, events) == Written(POWER_ON, events);
    RunKeepsCache(POWER_ON, events, {});
  }

  /** The events of a burst of data writes. */
  function Burst(values: seq<byte>): (events: seq<Event>)
    ensures |events| == |values| && forall i | 0 <= i < |values| :: events[i] == Data(values[i])
  {
    seq(|values|, i requires 0 <= i < |values| => Data(values[i]))
  }

  /** How many data writes come before the one that reaches byte `at`. */
  function Turn(index: byte, at: nat): (t: nat)
    requires at < BYTES
    ensures t < BYTES
  {
    (at - index) % 0x40
  }

  /** The byte that the `turn`-th data write reaches. */
  function Slot(index: byte, turn: nat): (at: nat)
    ensures at < BYTES
  {
    (index + turn) % 0x40
  }

  /** Within 64 writes every byte has its own turn. */
  lemma TurnsAndSlots(index: byte, n: nat)
    requires n < BYTES
    ensures Slot(index, Turn(index, n)) == n && Turn(index, Slot(index, n)) == n
  {
    SlotOfTurn(index, n);
    TurnOfSlot(index, n);
  }

  lemma SlotOfTurn(index: byte, n: nat)
    requires n < BYTES
    ensures Slot(index, Turn(index, n)) == n
  {
    TurnIs(index, n);
  }

  lemma TurnOfSlot(index: byte, n: nat)
    requires n < BYTES
    ensures Turn(index, Slot(index, n)) == n
  {
    SlotIs(index, n);
    TurnIs(index, Slot(index, n));
  }

  lemma SlotIs(index: byte, n: nat)
    requires n < BYTES
    ensures Slot(index, n) == index % 0x40 + n - (if index % 0x40 + n < 0x40 then 0 else 0x40)
  {
  }

  lemma TurnAfterOne(index: byte, at: nat)
    requires index >= 0x80 && at < BYTES
    ensures Turn(index, at) == 0 <==> at == index % 0x40
    ensures Turn(NextIndex(index), at) == if at == index % 0x40 then BYTES - 1 else Turn(index, at) - 1
  {
    NextPlace(index);
    TurnIs(index, at);
    TurnIs(NextIndex(index), at);
  }

  lemma TurnIs(index: byte, at: nat)
    requires at < BYTES
    ensures Turn(index, at) == at - index % 0x40 + (if at < index % 0x40 then 0x40 else 0)
  {
  }

  lemma NextPlace(index: byte)
    requires index >= 0x80
    ensures NextIndex(index) % 0x40 == if index % 0x40 == 0x3F then 0 else index % 0x40 + 1
  {
  }

  /** `q` is `p` with the values in consecutive bytes, wrapping, and the index after the last. */
  ghost predicate BurstStored(p: Port, q: Port, values: seq<byte>)
    requires |values| <= BYTES
  {
    && q.index == (if values == [] then p.index else 0x80 + Slot(p.index, |values|))
    && forall at | 0 <= at < BYTES ::
         q.bytes[at] == if Turn(p.index, at) < |values| then values[Turn(p.index, at)] else p.bytes[at]
  }

  /** Up to 64 data writes with the increment on store their values in consecutive bytes, wrapping. */
  lemma {:induction false} BurstStores(p: Port, values: seq<byte>)
    requires p.index >= 0x80 && |values| <= BYTES
    ensures BurstStored(p, Run(p, Burst(values)), values)
    decreases |values|
  {
    if values == [] {
    } else {
      var r := Step(p, Data(values[0]));
      assert Burst(values)[0] == Data(values[0]) && Burst(values)[1..] == Burst(values[1..]);
      BurstStores(r, values[1..]);
      var q := Run(r, Burst(values[1..]));
      SlotAfterOne(p.index, |values|);
      forall at | 0 <= at < BYTES
        ensures q.bytes[at] == if Turn(p.index, at) < |values| then values[Turn(p.index, at)] else p.bytes[at]
      {
        TurnAfterOne(p.index, at);
      }
    }
  }

  lemma SlotAfterOne(index: byte, n: nat)
    requires index >= 0x80 && n > 0
    ensures Slot(NextIndex(index), n - 1) == Slot(index, n) && NextIndex(index) >= 0x80
    ensures n == 1 ==> NextIndex(index) == 0x80 + Slot(index, 1)
  {
  }

  /** 64 data writes from any index store each of the 64 bytes exactly once, in the order of the turns,
      and return the index to where it was. */
  lemma FullBurst(p: Port, values: seq<byte>)
    requires p.index >= 0x80 && |values| == BYTES
    ensures var q := Run(p, Burst(values));
            && q.index % 0x40 == p.index % 0x40 && q.index >= 0x80
            && (forall at | 0 <= at < BYTES :: q.bytes[at] == values[Turn(p.index, at)])
            && (forall i | 0 <= i < BYTES :: q.bytes[Slot(p.index, i)] == values[i])
  {
    BurstStores(p, values);
    FullBurstStored(p, Run(p, Burst(values)), values);
  }

  lemma FullBurstStored(p: Port, q: Port, values: seq<byte>)
    requires p.index >= 0x80 && |values| == BYTES && BurstStored(p, q, values)
    ensures q.index % 0x40 == p.index % 0x40 && q.index >= 0x80
    ensures forall at | 0 <= at < BYTES :: q.bytes[at] == values[Turn(p.index, at)]
    ensures forall i | 0 <= i < BYTES :: q.bytes[Slot(p.index, i)] == values[i]
  {
    FullCircle(p.index);
    EachSlotOnce(p.index, q.bytes, values);
  }

  lemma FullCircle(index: byte)
    ensures Slot(index, BYTES) == index % 0x40
    ensures (0x80 + Slot(index, BYTES)) % 0x40 == index % 0x40
  {
  }

  lemma EachSlotOnce(index: byte, bytes: PaletteBytes, values: seq<byte>)
    requires |values| == BYTES
    requires forall at | 0 <= at < BYTES :: bytes[at] == values[Turn(index, at)]
    ensures forall i | 0 <= i < BYTES :: bytes[Slot(index, i)] == values[i]
  {
    forall i | 0 <= i < BYTES ensures bytes[Slot(index, i)] == values[i] {
      TurnsAndSlots(index, i);
    }
  }

  /** The palette memory of the display controller. */
  class PaletteMemory {
    const bytes: array<byte>
    const rgb: array<Rgb>
    var index: byte

    ghost predicate Valid()
      reads this
    {
      bytes.Length == BYTES && rgb.Length == COLORS
    }

    ghost function State(): Port
      reads this, bytes, rgb
      requires Valid()
    {
      Port(bytes[..], rgb[..], index)
    }

    constructor ()
      ensures Valid() && fresh(bytes) && fresh(rgb) && State() == POWER_ON
    {
      bytes := new byte[BYTES](_ => 0);
      rgb := new Rgb[COLORS](_ => BLANK);
      index := 0;
    }

    method WritePalette(at: nat, value: byte)
      requires Valid() && at < BYTES
      modifies bytes, rgb
      ensures State() == WriteByte(old(State()), at, value)
    {
      bytes[at] := value;
      var color := at / 2;
      var low: int, high: int := bytes[2 * color], bytes[2 * color + 1];
      var bits := high * 0x100 + low;
      rgb[color] := Rgb(Scaled(bits % 32), Scaled(bits / 32 % 32), Scaled(bits / 1024 % 32), 0xFF);
    }

    /** The data port of `MappedIO::write`. */
    method WriteData(value: byte)
      requires Valid()
      modifies this`index, bytes, rgb
      ensures State() == Step(old(State()), Data(value))
    {
      var pointer: int := index;
      WritePalette(pointer % 0x40, value);
      if pointer >= 0x80 {
        index := 0x80 + (pointer + 1) % 0x40;
      }
    }
  }
}
