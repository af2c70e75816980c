/** What the renderer shows, without its own terms: laws that relate screens to each other, and rows whose
    bytes, addresses and colours are written out. */
module Screens {
  import opened Bytes
  import opened GpuState
  import opened Background
  import opened Sprites
  import opened Scanline

  // ---- Scrolling -----------------------------------------------------------------------------------

  /** The same registers and memory, except where the background and the window are placed. */
  predicate Moved(e: Env, f: Env) {
    f == e.(scrollX := f.scrollX, scrollY := f.scrollY, winX := f.winX, winY := f.winY)
  }

  lemma SameEntry(e: Env, f: Env, win: bool, x: nat, y: nat, sub: nat, k: nat)
    requires Moved(e, f) && x < 32 && y < 32 && sub < 8 && k < 8
    ensures EntryColor(e, win, x, y, sub, k) == EntryColor(f, win, x, y, sub, k)
  {
    SameEntryRow(e, f, win, x, y, sub);
  }

  lemma SameEntryRow(e: Env, f: Env, win: bool, x: nat, y: nat, sub: nat)
    requires Moved(e, f) && x < 32 && y < 32 && sub < 8
    ensures MapOffset(e, win) == MapOffset(f, win) && Attributes(e, win, x, y) == Attributes(f, win, x, y)
    ensures EntryPalette(e, win, x, y) == EntryPalette(f, win, x, y)
    ensures EntryRow(e, win, x, y, sub) == EntryRow(f, win, x, y, sub)
  {
    assert e.control == f.control && e.vram == f.vram && e.cgb == f.cgb && e.bgPalettes == f.bgPalettes;
  }

  lemma SamePlane(e: Env, f: Env, win: bool, col: nat, row: nat)
    requires Moved(e, f) && col < 256 && row < 256
    ensures PlaneColor(e, win, col, row) == PlaneColor(f, win, col, row)
  {
    SameEntry(e, f, win, col / 8, row / 8, row % 8, col % 8);
  }

  /** Scrolling by one to the right shows what was one pixel to the right, also past the end of the plane. */
  lemma ScrollXShifts(e: Env, f: Env, x: byte, y: byte)
    requires x < WIDTH - 1 && !WindowSelected(e, x + 1, y) && !WindowSelected(f, x, y)
    requires f == e.(scrollX := (e.scrollX + 1) % 256)
    ensures BackgroundPixel(f, x, y) == BackgroundPixel(e, x + 1, y)
  {
    NextPlace(e.scrollX, x);
    assert PlaneCol(f, x, y) == PlaneCol(e, x + 1, y) && PlaneRow(f, false, y) == PlaneRow(e, false, y);
    SamePlane(e, f, false, PlaneCol(f, x, y), PlaneRow(f, false, y));
  }

  lemma NextPlace(scroll: byte, at: byte)
    ensures ((scroll + 1) % 256 + at) % 256 == (scroll + (at + 1)) % 256
  {
  }

  /** The same downwards. */
  lemma ScrollYShifts(e: Env, f: Env, x: byte, y: byte)
    requires y < HEIGHT - 1 && !WindowSelected(e, x, y + 1) && !WindowSelected(f, x, y)
    requires f == e.(scrollY := (e.scrollY + 1) % 256)
    ensures BackgroundPixel(f, x, y) == BackgroundPixel(e, x, y + 1)
  {
    NextPlace(e.scrollY, y);
    assert PlaneRow(f, false, y) == PlaneRow(e, false, y + 1) && PlaneCol(f, x, y) == PlaneCol(e, x, y + 1);
    SamePlane(e, f, false, PlaneCol(f, x, y), PlaneRow(f, false, y));
  }

  /** Moving the window takes what it shows along; the scroll registers do not move it. */
  lemma WindowMoves(e: Env, f: Env, x: byte, y: byte, dx: byte, dy: byte)
    requires Moved(e, f) && f.winX == e.winX + dx && f.winY == e.winY + dy
    requires WindowSelected(e, x, y) && x + dx < WIDTH && y + dy < HEIGHT
    ensures WindowSelected(f, x + dx, y + dy)
    ensures BackgroundPixel(f, x + dx, y + dy) == BackgroundPixel(e, x, y)
  {
    assert PlaneCol(f, x + dx, y + dy) == PlaneCol(e, x, y);
    assert PlaneRow(f, true, y + dy) == PlaneRow(e, true, y);
    SamePlane(e, f, true, PlaneCol(e, x, y), PlaneRow(e, true, y));
  }

  /** The window is everything right of and below its corner, which is seven pixels left of `winX`. */
  lemma WindowIsACorner(env: Env, x: byte, y: byte)
    requires x < 160 && y < 144
    ensures WindowSelected(env, x, y) <==> env.control & 0x20 != 0 && x >= env.winX - 7 && y >= env.winY
  {
  }

  // ---- Flipping ------------------------------------------------------------------------------------

  /** `f` is `e` with some bits of the attributes of one map entry inverted. */
  predicate Toggled(e: Env, f: Env, at: nat, bits: bv8)
    requires at < VRAM_SIZE
  {
    f == e.(vram := [e.vram[0], e.vram[1][at := e.vram[1][at] ^ bits]])
  }

  /** Attributes lie behind the tiles, so changing them changes no tile row. */
  lemma SameTiles(e: Env, f: Env, at: nat, bits: bv8, bank: nat, tiles: TileSet, number: byte, row: nat)
    requires 0x1800 <= at < VRAM_SIZE && Toggled(e, f, at, bits) && bank < 2 && row < 8
    ensures ReadRow(f, bank, tiles, number, row) == ReadRow(e, bank, tiles, number, row)
    ensures f.vram[0] == e.vram[0]
  {
  }

  lemma RowMirrors(rgb: Palette, pal: Option<bv8>, t: TileRow, white: bool, flip: bool, k: nat)
    requires k < 8
    ensures RowColor(rgb, pal, t, white, flip, k) == RowColor(rgb, pal, t, white, !flip, 7 - k)
  {
  }

  /** The attributes after one of the flip bits was inverted: palette and bank are as they were. */
  lemma ToggledEntry(e: Env, f: Env, win: bool, x: nat, y: nat, bits: bv8)
    requires x < 32 && y < 32 && e.cgb && (bits == 0x20 || bits == 0x40)
    requires Toggled(e, f, MapOffset(e, win) + 32 * y + x, bits)
    ensures Attributes(f, win, x, y) == Attributes(e, win, x, y) ^ bits
    ensures EntryPalette(f, win, x, y) == EntryPalette(e, win, x, y)
  {
    ToggleBits(Attributes(e, win, x, y));
    LowThreeBits(Attributes(e, win, x, y));
    LowThreeBits(Attributes(f, win, x, y));
  }

  /** The row of an entry in CGB mode, by its attributes. */
  lemma CgbEntryRow(e: Env, win: bool, x: nat, y: nat, sub: nat, bank: nat, flipped: bool)
    requires x < 32 && y < 32 && sub < 8 && e.cgb
    requires flipped <==> Attributes(e, win, x, y) & 0x40 != 0
    requires bank == if Attributes(e, win, x, y) & 0x08 != 0 then 1 else 0
    ensures EntryRow(e, win, x, y, sub) ==
            ReadRow(e, bank, SelectedSet(e), Num(e.vram[0][MapOffset(e, win) + 32 * y + x]), if flipped then 7 - sub else sub)
  {
  }

  lemma CgbEntryColor(e: Env, win: bool, x: nat, y: nat, sub: nat, k: nat, flip: bool)
    requires x < 32 && y < 32 && sub < 8 && k < 8 && e.cgb
    requires flip <==> Attributes(e, win, x, y) & 0x20 != 0
    ensures EntryColor(e, win, x, y, sub, k) ==
            RowColor(EntryPalette(e, win, x, y), None, EntryRow(e, win, x, y, sub), true, flip, k)
  {
  }

  /** Bit 5 mirrors an entry left to right in CGB mode. */
  lemma FlipMirrorsColumns(e: Env, f: Env, win: bool, x: nat, y: nat, sub: nat, k: nat)
    requires x < 32 && y < 32 && sub < 8 && k < 8 && e.cgb && Toggled(e, f, MapOffset(e, win) + 32 * y + x, 0x20)
    ensures EntryColor(f, win, x, y, sub, k) == EntryColor(e, win, x, y, sub, 7 - k)
  {
    var a := Attributes(e, win, x, y);
    var flip, flipped, bank := a & 0x20 != 0, a & 0x40 != 0, if a & 0x08 != 0 then 1 else 0;
    ToggledEntry(e, f, win, x, y, 0x20);
    ToggleBits(a);
    ToggledRow(e, f, win, x, y, 0x20, bank, if flipped then 7 - sub else sub);
    CgbEntryRow(e, win, x, y, sub, bank, flipped);
    CgbEntryRow(f, win, x, y, sub, bank, flipped);
    CgbEntryColor(e, win, x, y, sub, 7 - k, flip);
    CgbEntryColor(f, win, x, y, sub, k, !flip);
    RowMirrors(EntryPalette(e, win, x, y), None, EntryRow(e, win, x, y, sub), true, !flip, k);
  }

  /** Tile and tile set of the entry are as they were. */
  lemma ToggledRow(e: Env, f: Env, win: bool, x: nat, y: nat, bits: bv8, bank: nat, row: nat)
    requires x < 32 && y < 32 && row < 8 && bank < 2
    requires Toggled(e, f, MapOffset(e, win) + 32 * y + x, bits)
    ensures var at := MapOffset(e, win) + 32 * y + x;
            ReadRow(f, bank, SelectedSet(f), Num(f.vram[0][MapOffset(f, win) + 32 * y + x]), row) ==
            ReadRow(e, bank, SelectedSet(e), Num(e.vram[0][at]), row)
  {
    var at := MapOffset(e, win) + 32 * y + x;
    SameTiles(e, f, at, bits, bank, SelectedSet(e), Num(e.vram[0][at]), row);
  }

  /** Bit 6 mirrors it top to bottom. */
  lemma FlipMirrorsRows(e: Env, f: Env, win: bool, x: nat, y: nat, sub: nat, k: nat)
    requires x < 32 && y < 32 && sub < 8 && k < 8 && e.cgb && Toggled(e, f, MapOffset(e, win) + 32 * y + x, 0x40)
    ensures EntryColor(f, win, x, y, sub, k) == EntryColor(e, win, x, y, 7 - sub, k)
  {
    var a := Attributes(e, win, x, y);
    var flip, flipped, bank := a & 0x20 != 0, a & 0x40 != 0, if a & 0x08 != 0 then 1 else 0;
    ToggledEntry(e, f, win, x, y, 0x40);
    ToggleBits(a);
    ToggledRow(e, f, win, x, y, 0x40, bank, if flipped then sub else 7 - sub);
    CgbEntryRow(e, win, x, y, 7 - sub, bank, flipped);
    CgbEntryRow(f, win, x, y, sub, bank, !flipped);
    CgbEntryColor(e, win, x, y, 7 - sub, k, flip);
    CgbEntryColor(f, win, x, y, sub, k, flip);
  }

  lemma ToggleBits(a: bv8)
    ensures (a ^ 0x20) & 0x07 == a & 0x07 && (a ^ 0x20) & 0x08 == a & 0x08 && (a ^ 0x20) & 0x40 == a & 0x40
    ensures (a ^ 0x20) & 0x20 != 0 <==> a & 0x20 == 0
    ensures (a ^ 0x40) & 0x07 == a & 0x07 && (a ^ 0x40) & 0x08 == a & 0x08 && (a ^ 0x40) & 0x20 == a & 0x20
    ensures (a ^ 0x40) & 0x40 != 0 <==> a & 0x40 == 0
  {
  }

  /** In DMG mode attributes mean nothing. */
  lemma DmgIgnoresAttributes(e: Env, f: Env, x: byte, y: byte)
    requires !e.cgb && f == e.(vram := [e.vram[0], f.vram[1]])
    ensures BackgroundPixel(f, x, y) == BackgroundPixel(e, x, y)
  {
    var win := WindowSelected(e, x, y);
    var col, row := PlaneCol(e, x, y), PlaneRow(e, win, y);
    assert WindowSelected(f, x, y) == win && PlaneCol(f, x, y) == col && PlaneRow(f, win, y) == row;
    DmgEntry(e, f, win, col / 8, row / 8, row % 8, col % 8);
  }

  lemma DmgEntry(e: Env, f: Env, win: bool, x: nat, y: nat, sub: nat, k: nat)
    requires !e.cgb && f == e.(vram := [e.vram[0], f.vram[1]]) && x < 32 && y < 32 && sub < 8 && k < 8
    ensures EntryColor(f, win, x, y, sub, k) == EntryColor(e, win, x, y, sub, k)
  {
    assert f.vram[0] == e.vram[0] && MapOffset(f, win) == MapOffset(e, win) && SelectedSet(f) == SelectedSet(e);
    assert EntryRow(f, win, x, y, sub) == EntryRow(e, win, x, y, sub);
  }

  // ---- Background rows in bytes --------------------------------------------------------------------

  /** The pixel values of the row 0xB4, 0xD1 from left to right. */
  function Sample(k: nat): (v: int)
    requires k < 8
    ensures 0 <= v < 4
  {
    [3, 2, 1, 3, 0, 1, 0, 2][k]
  }

  /** The row at an address of a bank. */
  predicate SampleAt(env: Env, bank: nat, at: int)
    requires bank < 2
  {
    0 <= at < VRAM_SIZE - 1 && env.vram[bank][at] == 0xB4 && env.vram[bank][at + 1] == 0xD1
  }

  /** Where a background tile's row is: from 0x8000 on, or around 0x9000 for signed numbers. */
  function TileAddress(control: bv8, n: byte, r: int): int {
    if control & 0x10 != 0 then 16 * n + 2 * r
    else if n < 128 then 0x1000 + 16 * n + 2 * r
    else 16 * n + 2 * r
  }

  /** The four greys. */
  function Grey(v: int): Rgb
    requires 0 <= v < 4
  {
    var g := if v == 0 then 255 else if v == 1 then 192 else if v == 2 then 96 else 0;
    Rgb(g, g, g, 255)
  }

  /** A map entry of the window starts where the window does, one of the background at the corner of the
      unscrolled plane. */
  predicate Shows(env: Env, win: bool) {
    if win then env.control & 0x20 != 0 && env.winX == 7 && env.winY == 0
    else env.control & 0x20 == 0 && env.scrollX == 0 && env.scrollY == 0
  }

  /** The map of each layer. */
  function MapAddress(control: bv8, win: bool, cx: nat, cy: nat): (at: nat)
    requires cx < 32 && cy < 32
    ensures at < VRAM_SIZE
  {
    (if win then (if control & 0x40 != 0 then 0x1C00 else 0x1800) else (if control & 0x08 != 0 then 0x1C00 else 0x1800))
    + 32 * cy + cx
  }

  lemma Cell(c: nat, k: nat)
    requires c < 32 && k < 8
    ensures (8 * c + k) / 8 == c && (8 * c + k) % 8 == k && (8 * c + k) % 256 == 8 * c + k
  {
  }

  /** The pixel that shows column `k` of row `r` of an entry. */
  lemma Placed(env: Env, win: bool, cx: nat, cy: nat, r: nat, k: nat)
    requires Shows(env, win) && cx < 20 && cy < 18 && r < 8 && k < 8
    ensures BackgroundPixel(env, 8 * cx + k, 8 * cy + r) == EntryColor(env, win, cx, cy, r, k)
  {
    var x, y := 8 * cx + k, 8 * cy + r;
    Cell(cx, k);
    Cell(cy, r);
    WindowIsACorner(env, x, y);
    assert PlaneCol(env, x, y) == x && PlaneRow(env, win, y) == y;
  }

  lemma Addresses(env: Env, win: bool, cx: nat, cy: nat, n: byte, r: nat)
    requires cx < 32 && cy < 32 && r < 8
    ensures MapAddress(env.control, win, cx, cy) == MapOffset(env, win) + 32 * cy + cx
    ensures TileAddress(env.control, n, r) == TileOffset(SelectedSet(env), n) + 2 * r
  {
  }

  /** The sample row of a tile, if it is where the control register says. */
  lemma SampleTile(env: Env, bank: nat, n: byte, r: nat)
    requires bank < 2 && r < 8 && SampleAt(env, bank, TileAddress(env.control, n, r))
    ensures ReadRow(env, bank, SelectedSet(env), n, r) == TileRow(0xB4, 0xD1)
  {
    Addresses(env, false, 0, 0, n, r);
  }

  /** The sample row in a DMG tile: through the palette register 0xE4, its values are its greys. */
  lemma DmgRow(env: Env, win: bool, cx: nat, cy: nat, r: nat, k: nat, n: byte)
    requires !env.cgb && env.palette == 0xE4 && Shows(env, win) && cx < 20 && cy < 18 && r < 8 && k < 8
    requires env.vram[0][MapAddress(env.control, win, cx, cy)] as int == n && SampleAt(env, 0, TileAddress(env.control, n, r))
    ensures BackgroundPixel(env, 8 * cx + k, 8 * cy + r) == Grey(Sample(k))
  {
    Placed(env, win, cx, cy, r, k);
    Addresses(env, win, cx, cy, n, r);
    SampleTile(env, 0, n, r);
    DmgEntryColor(env, win, cx, cy, r, k);
    DmgSample(env.palette, k);
  }

  lemma DmgSample(palette: bv8, k: nat)
    requires palette == 0xE4 && k < 8
    ensures RowColor(DMG_PALETTE, Some(palette), TileRow(0xB4, 0xD1), true, false, k) == Grey(Sample(k))
  {
    SampleRow(k);
    GreyOf(Sample(k));
  }

  lemma DmgEntryColor(env: Env, win: bool, x: nat, y: nat, sub: nat, k: nat)
    requires x < 32 && y < 32 && sub < 8 && k < 8 && !env.cgb
    ensures EntryColor(env, win, x, y, sub, k) ==
            RowColor(DMG_PALETTE, Some(env.palette),
                     ReadRow(env, 0, SelectedSet(env), Num(env.vram[0][MapOffset(env, win) + 32 * y + x]), sub), true, false, k)
  {
  }

  lemma PlainPalette(v: int)
    requires 0 <= v < 4
    ensures Shade(Some(0xE4), v) == v && Shade(Some(0x1B), v) == 3 - v
  {
    assert v in {0, 1, 2, 3};
  }

  lemma GreyOf(v: int)
    requires 0 <= v < 4
    ensures DMG_PALETTE[Shade(Some(0xE4), v)] == Grey(v) && DMG_PALETTE[Shade(Some(0x1B), v)] == Grey(3 - v)
  {
    PlainPalette(v);
    DmgGreys(v);
    DmgGreys(3 - v);
  }

  lemma DmgGreys(v: int)
    requires 0 <= v < 4
    ensures DMG_PALETTE[v] == Grey(v)
  {
  }

  /** The sample row in a CGB tile with attributes 0x6E: palette 6, bank 1, mirrored both ways. */
  lemma CgbMirroredRow(env: Env, win: bool, cx: nat, cy: nat, r: nat, k: nat, n: byte)
    requires env.cgb && Shows(env, win) && cx < 20 && cy < 18 && r < 8 && k < 8
    requires env.vram[0][MapAddress(env.control, win, cx, cy)] as int == n
    requires env.vram[1][MapAddress(env.control, win, cx, cy)] == 0x6E
    requires SampleAt(env, 1, TileAddress(env.control, n, 7 - r))
    ensures BackgroundPixel(env, 8 * cx + k, 8 * cy + r) == env.bgPalettes[6][Sample(7 - k)]
  {
    Placed(env, win, cx, cy, r, k);
    Addresses(env, win, cx, cy, n, 7 - r);
    SampleTile(env, 1, n, 7 - r);
    CgbEntryRow(env, win, cx, cy, r, 1, true);
    CgbEntryColor(env, win, cx, cy, r, k, true);
    LowThreeBits(0x6E);
    CgbSample(env.bgPalettes[6], true, k);
  }

  lemma CgbSample(p: Palette, flip: bool, k: nat)
    requires k < 8
    ensures RowColor(p, None, TileRow(0xB4, 0xD1), true, flip, k) == p[Sample(if flip then 7 - k else k)]
  {
    SampleRow(if flip then 7 - k else k);
  }

  /** And with attributes 0x03: palette 3, bank 0, not mirrored. */
  lemma CgbPlainRow(env: Env, win: bool, cx: nat, cy: nat, r: nat, k: nat, n: byte)
    requires env.cgb && Shows(env, win) && cx < 20 && cy < 18 && r < 8 && k < 8
    requires env.vram[0][MapAddress(env.control, win, cx, cy)] as int == n
    requires env.vram[1][MapAddress(env.control, win, cx, cy)] == 0x03
    requires SampleAt(env, 0, TileAddress(env.control, n, r))
    ensures BackgroundPixel(env, 8 * cx + k, 8 * cy + r) == env.bgPalettes[3][Sample(k)]
  {
    Placed(env, win, cx, cy, r, k);
    Addresses(env, win, cx, cy, n, r);
    SampleTile(env, 0, n, r);
    CgbEntryRow(env, win, cx, cy, r, 0, false);
    CgbEntryColor(env, win, cx, cy, r, k, false);
    LowThreeBits(0x03);
    CgbSample(env.bgPalettes[3], false, k);
  }

  // ---- Sprites in bytes ----------------------------------------------------------------------------

  /** The lines a sprite is on, and so the pixels: its corner is 16 lines above and 8 pixels left of what
      its bytes say, and at 0 and off the screen it is nowhere. */
  lemma VisibleLines(env: Env, i: Index, line: byte)
    requires line < 144
    ensures var y, x := env.oam[4 * i] as int, env.oam[4 * i + 1] as int;
            IsVisible(env, i, line) <==>
            0 < x < 168 && 0 < y < 160 && y - 16 <= line < y - 16 + (if env.control & 0x04 != 0 then 16 else 8)
  {
  }

  /** The row of a sprite in its bank: the two tiles of a tall sprite follow each other. */
  function SpriteAddress(tall: bool, n: byte, r: int): int {
    if tall then 32 * (n / 2) + 2 * r else 16 * n + 2 * r
  }

  lemma SpriteRowIs(env: Env, i: Index, row: nat, flipped: bool, bank: nat)
    requires row < Height(env) && bank < 2
    requires flipped <==> Flags(env, i) & 0x40 != 0
    requires bank == if env.cgb && Flags(env, i) & 0x08 != 0 then 1 else 0
    requires var r := if flipped then Height(env) - 1 - row else row;
             SampleAt(env, bank, SpriteAddress(env.control & 0x04 != 0, TileNumber(env, i), r))
    ensures SpriteTileRow(env, i, row) == TileRow(0xB4, 0xD1)
  {
  }

  function DmgInk(v: int, second: bool): Rgb
    requires 0 <= v < 4
  {
    var grey := Grey(if second then 3 - v else v);
    if v == 0 then grey.(alpha := 0) else grey
  }

  /** A colour, without its alpha where the pixel value is 0. */
  function Inked(p: Palette, v: int): Rgb
    requires 0 <= v < 4
  {
    if v == 0 then p[0].(alpha := 0) else p[v]
  }

  /** The sample row in a CGB sprite with flags 0x6E: palette 6, bank 1, mirrored both ways, in either
      height. */
  lemma CgbMirroredSprite(env: Env, i: Index, line: byte, k: nat)
    requires env.cgb && line < 144 && IsVisible(env, i, line) && k < 8 && Flags(env, i) == 0x6E
    requires var tall := env.control & 0x04 != 0;
             SampleAt(env, 1, SpriteAddress(tall, TileNumber(env, i), (if tall then 15 else 7) - (line + 16 - Y(env, i))))
    ensures SpriteColor(env, i, line, k) == Inked(env.spritePalettes[6], Sample(7 - k))
    ensures !BehindBackground(env, i)
  {
    SpriteRowIs(env, i, SpriteRow(env, i, line), true, 1);
    LowThreeBits(0x6E);
    SampleRow(7 - k);
  }

  /** With flags 0x83: palette 3, bank 0, not mirrored, behind the background. */
  lemma CgbPlainSprite(env: Env, i: Index, line: byte, k: nat)
    requires env.cgb && line < 144 && IsVisible(env, i, line) && k < 8 && Flags(env, i) == 0x83
    requires SampleAt(env, 0, SpriteAddress(env.control & 0x04 != 0, TileNumber(env, i), line + 16 - Y(env, i)))
    ensures SpriteColor(env, i, line, k) == Inked(env.spritePalettes[3], Sample(k))
    ensures BehindBackground(env, i)
  {
    SpriteRowIs(env, i, SpriteRow(env, i, line), false, 0);
    LowThreeBits(0x83);
    SampleRow(k);
  }

  /** In a DMG sprite: flag 4 takes the second palette register, the low bits and bank mean nothing. */
  lemma DmgSprite(env: Env, i: Index, line: byte, k: nat, second: bool)
    requires !env.cgb && line < 144 && IsVisible(env, i, line) && k < 8 && Flags(env, i) == if second then 0x1F else 0x0F
    requires env.obp0 == 0xE4 && env.obp1 == 0x1B
    requires SampleAt(env, 0, SpriteAddress(env.control & 0x04 != 0, TileNumber(env, i), line + 16 - Y(env, i)))
    ensures SpriteColor(env, i, line, k) == DmgInk(Sample(k), second)
  {
    SpriteRowIs(env, i, SpriteRow(env, i, line), false, 0);
    SampleRow(k);
    GreyOf(Sample(k));
  }

  // ---- Layers --------------------------------------------------------------------------------------

  /** Bit 0 of the control register shows the background, bit 1 the sprites. */
  lemma Layers(env: Env, line: byte, x: byte, shown: Rgb, zero: Rgb)
    requires line < HEIGHT
    ensures env.control & 3 == 0 ==> DrawnColor(env, line, x, shown, zero) == shown
    ensures env.control & 3 == 1 ==> DrawnColor(env, line, x, shown, zero) == BackgroundPixel(env, x, line)
    ensures env.control & 3 == 2 ==>
              DrawnColor(env, line, x, shown, zero) == Paint(env, Order(env, line), line, x, shown, zero)
    ensures env.control & 3 == 3 ==>
              DrawnColor(env, line, x, shown, zero) ==
              Paint(env, Order(env, line), line, x, BackgroundPixel(env, x, line), PriorityColor(env, x, line))
  {
    TwoLayers(env.control);
  }

  lemma TwoLayers(c: bv8)
    ensures c & 3 == 0 ==> c & 1 == 0 && c & 2 == 0
    ensures c & 3 == 1 ==> c & 1 != 0 && c & 2 == 0
    ensures c & 3 == 2 ==> c & 1 == 0 && c & 2 != 0
    ensures c & 3 == 3 ==> c & 1 != 0 && c & 2 != 0
  {
  }
}
