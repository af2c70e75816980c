/** What the renderer reads: registers, video memory, object memory and palettes. */
module GpuState {
  import opened Bytes

  datatype Rgb = Rgb(red: byte, green: byte, blue: byte, alpha: byte)

  const WIDTH := 160
  const HEIGHT := 144
  const PIXELS := 23040
  const VRAM_SIZE := 8192

  /** A pixel of a freshly resized buffer. */
  const BLANK := Rgb(0, 0, 0, 0)

  /** A palette: the colours of the four pixel values. */
  type Palette = p: seq<Rgb> | |p| == 4 witness [BLANK, BLANK, BLANK, BLANK]

  const DMG_PALETTE: Palette := [
    Rgb(255, 255, 255, 0xFF), Rgb(192, 192, 192, 0xFF), Rgb(96, 96, 96, 0xFF), Rgb(0, 0, 0, 0xFF)]

  datatype EnvData = EnvData(
    control: bv8, palette: bv8, obp0: bv8, obp1: bv8,
    scrollX: byte, scrollY: byte, winX: byte, winY: byte,
    cgb: bool,
    vram: seq<seq<bv8>>, oam: seq<bv8>,
    bgPalettes: seq<Palette>, spritePalettes: seq<Palette>)

  predicate Sized(e: EnvData) {
    && |e.vram| == 2 && |e.vram[0]| == VRAM_SIZE && |e.vram[1]| == VRAM_SIZE
    && |e.oam| == 160 && |e.bgPalettes| == 8 && |e.spritePalettes| == 8
  }

  const NO_PALETTE: Palette := [BLANK, BLANK, BLANK, BLANK]

  type Env = e: EnvData | Sized(e)
    witness EnvData(0, 0, 0, 0, 0, 0, 0, 0, false, [Zeros(VRAM_SIZE), Zeros(VRAM_SIZE)], Zeros(160),
                    seq(8, _ => NO_PALETTE), seq(8, _ => NO_PALETTE))

  /** Bit `k` of `b`, as a number. */
  function Bit(b: bv8, k: nat): (r: int)
    requires k < 8
    ensures 0 <= r <= 1
  {
    if (b >> k) & 1 == 1 then 1 else 0
  }

  /** A number read from memory. */
  function Num(b: bv8): byte {
    b as int
  }

  /** The low three bits. */
  function Low3(b: bv8): (r: int)
    ensures 0 <= r < 8
  {
    4 * Bit(b, 2) + 2 * Bit(b, 1) + Bit(b, 0)
  }

  datatype TileSet = TileSet0 | TileSet1

  /** Where tile `number` of a set starts in a bank; set 1 is indexed by a signed byte around 0x1000. */
  function TileOffset(tiles: TileSet, number: byte): (offset: nat)
    ensures offset + 16 <= 0x1800
  {
    match tiles
    case TileSet0 => number * 16
    case TileSet1 => 0x1000 + (if number < 128 then number else number - 256) * 16
  }

  /** The two sets share their tiles 128 to 255, and the first half of each is its own. */
  lemma TileSetsShareTheirUpperHalf(a: byte, b: byte)
    ensures TileOffset(TileSet0, a) == TileOffset(TileSet1, b) <==> a == b && a >= 128
  {
  }

  /** One 8-pixel row of a tile. */
  datatype TileRow = TileRow(lower: bv8, upper: bv8)

  function ReadRow(env: Env, bank: nat, tiles: TileSet, number: byte, row: nat): TileRow
    requires bank < 2 && row < 8
  {
    var offset := TileOffset(tiles, number) + 2 * row;
    TileRow(env.vram[bank][offset], env.vram[bank][offset + 1])
  }

  /** The pixel value, 0 to 3, in column `k` counted from the left. */
  function PixelValue(t: TileRow, k: nat): (v: int)
    requires k < 8
    ensures 0 <= v < 4
  {
    2 * Bit(t.upper, 7 - k) + Bit(t.lower, 7 - k)
  }

  /** The first byte of a row counts one and the second two, each on its own. */
  lemma PlanesCount(t: TileRow, k: nat)
    requires k < 8
    ensures PixelValue(TileRow(0xFF, 0x00), k) == 1 && PixelValue(TileRow(0x00, 0xFF), k) == 2
    ensures PixelValue(t, k) == PixelValue(TileRow(t.lower, 0x00), k) + PixelValue(TileRow(0x00, t.upper), k)
  {
    BitsOfBytes(k);
  }

  lemma BitsOfBytes(k: nat)
    requires k < 8
    ensures Bit(0xFF, 7 - k) == 1 && Bit(0x00, 7 - k) == 0
  {
    assert k in {0, 1, 2, 3, 4, 5, 6, 7};
  }

  /** The top bits are on the left: a row without any symmetry, column by column. */
  lemma SampleRow(k: nat)
    requires k < 8
    ensures PixelValue(TileRow(0xB4, 0xD1), k) == [3, 2, 1, 3, 0, 1, 0, 2][k]
  {
    assert k in {0, 1, 2, 3, 4, 5, 6, 7};
  }

  /** The entry of the colour table a pixel value selects, through a DMG palette register if given. */
  function Shade(pal: Option<bv8>, v: int): (r: int)
    requires 0 <= v < 4
    ensures 0 <= r < 4
  {
    match pal
    case None => v
    case Some(p) => 2 * Bit(p, 2 * v + 1) + Bit(p, 2 * v)
  }

  /** A palette register packs its four entries from the low bits up. */
  lemma PackedShades(a: bv8, b: bv8, c: bv8, d: bv8, v: int)
    requires a < 4 && b < 4 && c < 4 && d < 4 && 0 <= v < 4
    ensures Shade(Some(a | (b << 2) | (c << 4) | (d << 6)), v) == [a, b, c, d][v] as int
  {
    var p := a | (b << 2) | (c << 4) | (d << 6);
    match v
    case 0 => TwoBits(p, 0, a);
    case 1 => TwoBits(p, 2, b);
    case 2 => TwoBits(p, 4, c);
    case 3 => TwoBits(p, 6, d);
  }

  lemma TwoBits(p: bv8, at: nat, a: bv8)
    requires at in {0, 2, 4, 6} && a < 4 && a == (p >> at) & 3
    ensures 2 * Bit(p, at + 1) + Bit(p, at) == a as int
  {
    assert a == 0 || a == 1 || a == 2 || a == 3;
  }

  /** The low three bits as a number. */
  lemma LowThreeBits(b: bv8)
    ensures Low3(b) == (b & 7) as int
  {
    var c := b & 7;
    assert c == 0 || c == 1 || c == 2 || c == 3 || c == 4 || c == 5 || c == 6 || c == 7;
  }

  /** Column `k` of a tile row as a colour; pixel value 0 of a sprite is transparent. */
  function RowColor(rgb: Palette, pal: Option<bv8>, t: TileRow, white: bool, flip: bool, k: nat): Rgb
    requires k < 8
  {
    var v := PixelValue(t, if flip then 7 - k else k);
    var c := rgb[Shade(pal, v)];
    if v == 0 && !white then c.(alpha := 0) else c
  }

  /** A tile row turned into colours. */
  method ToRgb(rgb: Palette, pal: Option<bv8>, t: TileRow, white: bool, flip: bool)
    returns (colors: seq<Rgb>)
    ensures |colors| == 8
    ensures forall k | 0 <= k < 8 :: colors[k] == RowColor(rgb, pal, t, white, flip, k)
  {
    colors := [];
    for j := 0 to 8
      invariant |colors| == j
      invariant forall k | 0 <= k < j :: colors[k] == RowColor(rgb, pal, t, white, flip, k)
    {
      var pixel := PixelValue(t, if flip then 7 - j else j);
      var color := rgb[Shade(pal, pixel)];
      if pixel == 0 && !white {
        color := color.(alpha := 0);
      }
      colors := colors + [color];
    }
  }
}
