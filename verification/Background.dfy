/** The background and window layer of one scanline. */
module Background {
  import opened Bytes
  import opened GpuState

  predicate WindowSelected(env: Env, x: byte, y: byte) {
    && env.control & 0x20 != 0
    && env.winY <= y < HEIGHT
    && env.winX <= x + 7
    && x < WIDTH + 7
  }

  /** The tile set, and the tile map of either layer, that the control register selects. */
  function SelectedSet(env: Env): TileSet {
    if env.control & 0x10 != 0 then TileSet0 else TileSet1
  }

  function MapOffset(env: Env, win: bool): nat {
    if env.control & (if win then 0x40 else 0x08) != 0 then 0x1C00 else 0x1800
  }

  /** The attributes of the map entry in tile column `x`, tile row `y`. */
  function Attributes(env: Env, win: bool, x: nat, y: nat): bv8
    requires x < 32 && y < 32
  {
    env.vram[1][MapOffset(env, win) + 32 * y + x]
  }

  function EntryPalette(env: Env, win: bool, x: nat, y: nat): Palette
    requires x < 32 && y < 32
  {
    if env.cgb then env.bgPalettes[Low3(Attributes(env, win, x, y))] else DMG_PALETTE
  }

  /** The row of the entry's tile that covers row `sub` of the entry. */
  function EntryRow(env: Env, win: bool, x: nat, y: nat, sub: nat): TileRow
    requires x < 32 && y < 32 && sub < 8
  {
    var atts := Attributes(env, win, x, y);
    var number := Num(env.vram[0][MapOffset(env, win) + 32 * y + x]);
    ReadRow(env, if env.cgb && atts & 0x08 != 0 then 1 else 0, SelectedSet(env), number,
            if env.cgb && atts & 0x40 != 0 then 7 - sub else sub)
  }

  /** Column `k` of row `sub` of the entry, as a colour. */
  function EntryColor(env: Env, win: bool, x: nat, y: nat, sub: nat, k: nat): Rgb
    requires x < 32 && y < 32 && sub < 8 && k < 8
  {
    RowColor(EntryPalette(env, win, x, y), if env.cgb then None else Some(env.palette),
             EntryRow(env, win, x, y, sub), true, env.cgb && Attributes(env, win, x, y) & 0x20 != 0, k)
  }

  /** The colour at one point of the 256 by 256 plane of the background or the window. */
  function PlaneColor(env: Env, win: bool, col: nat, row: nat): Rgb
    requires col < 256 && row < 256
  {
    EntryColor(env, win, col / 8, row / 8, row % 8, col % 8)
  }

  /** The point of its plane that pixel `x` of scanline `y` shows. */
  function PlaneCol(env: Env, x: byte, y: byte): nat {
    (if WindowSelected(env, x, y) then x - env.winX + 7 else env.scrollX + x) % 256
  }

  function PlaneRow(env: Env, win: bool, y: byte): nat
    requires win ==> env.winY <= y
  {
    (if win then y - env.winY else env.scrollY + y) % 256
  }

  /** What pixel `x` of scanline `y` shows, looked up on its own. */
  function BackgroundPixel(env: Env, x: byte, y: byte): Rgb {
    var win := WindowSelected(env, x, y);
    PlaneColor(env, win, PlaneCol(env, x, y), PlaneRow(env, win, y))
  }

  /** The colour recorded for sprite priority: entry 0 of the map entry's CGB palette, or the entry
      that the two low bits of the DMG palette register select. */
  function PriorityColor(env: Env, x: byte, y: byte): Rgb {
    var win := WindowSelected(env, x, y);
    var p := EntryPalette(env, win, PlaneCol(env, x, y) / 8, PlaneRow(env, win, y) / 8);
    p[if env.cgb then 0 else 2 * Bit(env.palette, 1) + Bit(env.palette, 0)]
  }

  /** A whole line, as functions of the pixel. */
  function BackgroundLine(env: Env, y: byte): byte -> Rgb {
    (x: byte) => BackgroundPixel(env, x, y)
  }

  function PriorityLine(env: Env, y: byte): byte -> Rgb {
    (x: byte) => PriorityColor(env, x, y)
  }

  /** The pixel value, 0 to 3, that pixel `x` of scanline `y` is drawn from. */
  function BackgroundValue(env: Env, x: byte, y: byte): int {
    var win := WindowSelected(env, x, y);
    var col, row := PlaneCol(env, x, y), PlaneRow(env, win, y);
    var flip := env.cgb && Attributes(env, win, col / 8, row / 8) & 0x20 != 0;
    PixelValue(EntryRow(env, win, col / 8, row / 8, row % 8), if flip then 7 - col % 8 else col % 8)
  }

  /** A pixel equals the recorded colour exactly when its value has the colour of value 0: always for
      value 0, and for another value only if the palette repeats that colour. */
  lemma PriorityColorMatches(env: Env, x: byte, y: byte)
    ensures var win := WindowSelected(env, x, y);
            var rgb := EntryPalette(env, win, PlaneCol(env, x, y) / 8, PlaneRow(env, win, y) / 8);
            var pal := if env.cgb then None else Some(env.palette);
            BackgroundPixel(env, x, y) == PriorityColor(env, x, y) <==>
            rgb[Shade(pal, BackgroundValue(env, x, y))] == rgb[Shade(pal, 0)]
  {
  }

  /** The last tile row looked up for one layer. */
  datatype Cache = Cache(x: nat, rgb: seq<Rgb>, p: Palette)

  const NOTHING_CACHED := Cache(0xFFFF, [], NO_PALETTE)

  /** The cache is empty, or holds tile column `c.x` of the plane row `row`. */
  ghost predicate CacheOk(env: Env, win: bool, row: nat, c: Cache)
    requires row < 256
  {
    c.x == 0xFFFF
    || ( && c.x < 32
         && |c.rgb| == 8
         && (forall k | 0 <= k < 8 :: c.rgb[k] == EntryColor(env, win, c.x, row / 8, row % 8, k))
         && c.p == EntryPalette(env, win, c.x, row / 8))
  }

  /** Fill a cache with one tile row. */
  method Fetch(env: Env, win: bool, row: nat, x: nat) returns (c: Cache)
    requires x < 32 && row < 256
    ensures c.x == x && CacheOk(env, win, row, c)
  {
    var atts := Attributes(env, win, x, row / 8);
    var rgb := EntryPalette(env, win, x, row / 8);
    var colors := ToRgb(rgb, if env.cgb then None else Some(env.palette),
                        EntryRow(env, win, x, row / 8, row % 8), true, env.cgb && atts & 0x20 != 0);
    c := Cache(x, colors, rgb);
  }

  /** Look a pixel up through the cache of its layer. */
  method Pixel(env: Env, x: byte, y: byte, cached: Cache) returns (cache: Cache, color: Rgb, priority: Rgb)
    requires CacheOk(env, WindowSelected(env, x, y), PlaneRow(env, WindowSelected(env, x, y), y), cached)
    ensures CacheOk(env, WindowSelected(env, x, y), PlaneRow(env, WindowSelected(env, x, y), y), cache)
    ensures color == BackgroundPixel(env, x, y) && priority == PriorityColor(env, x, y)
  {
    var win := WindowSelected(env, x, y);
    var col, row := PlaneCol(env, x, y), PlaneRow(env, win, y);
    cache := cached;
    if cache.x != col / 8 {
      cache := Fetch(env, win, row, col / 8);
    }
    priority := cache.p[if env.cgb then 0 else 2 * Bit(env.palette, 1) + Bit(env.palette, 0)];
    color := cache.rgb[col % 8];
  }

  /** A buffer after a line is drawn: the line's own pixels, everything else as before. */
  ghost predicate LineDrawn(y: byte, before: seq<Rgb>, after: seq<Rgb>, color: byte -> Rgb)
    requires |before| == PIXELS && |after| == PIXELS && y < HEIGHT
  {
    forall i | 0 <= i < PIXELS ::
      after[i] == if i / WIDTH == y then color(i % WIDTH) else before[i]
  }

  /** The same after the first `n` pixels of the line. */
  ghost predicate PartDrawn(y: byte, n: nat, before: seq<Rgb>, after: seq<Rgb>, color: byte -> Rgb)
    requires |before| == PIXELS && |after| == PIXELS && y < HEIGHT && n <= WIDTH
  {
    forall i | 0 <= i < PIXELS ::
      after[i] == if y * WIDTH <= i < y * WIDTH + n then color(i - y * WIDTH) else before[i]
  }

  lemma PartOfWholeLine(y: byte, before: seq<Rgb>, after: seq<Rgb>, color: byte -> Rgb)
    requires |before| == PIXELS && |after| == PIXELS && y < HEIGHT
    requires PartDrawn(y, WIDTH, before, after, color)
    ensures LineDrawn(y, before, after, color)
  {
    forall i | 0 <= i < PIXELS
      ensures after[i] == if i / WIDTH == y then color(i % WIDTH) else before[i]
    {
      assert i / WIDTH == y <==> y * WIDTH <= i < y * WIDTH + WIDTH;
      assert i / WIDTH == y ==> i % WIDTH == i - y * WIDTH;
    }
  }

  /** One more pixel of a line. */
  lemma OneMorePixel(y: byte, n: byte, before: seq<Rgb>, middle: seq<Rgb>, after: seq<Rgb>, color: byte -> Rgb)
    requires |before| == |middle| == |after| == PIXELS && y < HEIGHT && n < WIDTH
    requires PartDrawn(y, n, before, middle, color) && after == middle[y * WIDTH + n := color(n)]
    ensures PartDrawn(y, n + 1, before, after, color)
  {
    forall i | 0 <= i < PIXELS
      ensures after[i] == if y * WIDTH <= i < y * WIDTH + (n + 1) then color(i - y * WIDTH) else before[i]
    {
      if i == y * WIDTH + n { assert i - y * WIDTH == n; }
    }
  }

  method Plot(y: byte, n: byte, buffer: array<Rgb>, value: Rgb, ghost before: seq<Rgb>, ghost color: byte -> Rgb)
    requires y < HEIGHT && n < WIDTH && buffer.Length == |before| == PIXELS
    requires PartDrawn(y, n, before, buffer[..], color) && value == color(n)
    modifies buffer
    ensures PartDrawn(y, n + 1, before, buffer[..], color)
  {
    ghost var middle := buffer[..];
    buffer[y * WIDTH + n] := value;
    OneMorePixel(y, n, before, middle, buffer[..], color);
  }

  /** Draw the background of one line, looking up each tile row once while it lasts. */
  method DrawBackground(env: Env, y: byte, buffer: array<Rgb>, bg: array<Rgb>)
    requires y < HEIGHT && buffer != bg && buffer.Length == PIXELS && bg.Length == PIXELS
    modifies buffer, bg
    ensures env.control & 0x01 == 0 ==> buffer[..] == old(buffer[..]) && bg[..] == old(bg[..])
    ensures env.control & 0x01 != 0 ==>
              && LineDrawn(y, old(buffer[..]), buffer[..], BackgroundLine(env, y))
              && LineDrawn(y, old(bg[..]), bg[..], PriorityLine(env, y))
  {
    if env.control & 0x01 == 0 { return; }
    var winCache, bgCache := NOTHING_CACHED, NOTHING_CACHED;
    ghost var colors, priorities := BackgroundLine(env, y), PriorityLine(env, y);
    ghost var shown, recorded := buffer[..], bg[..];
    for pixel := 0 to WIDTH
      invariant env.winY <= y ==> CacheOk(env, true, PlaneRow(env, true, y), winCache)
      invariant CacheOk(env, false, PlaneRow(env, false, y), bgCache)
      invariant PartDrawn(y, pixel, shown, buffer[..], colors)
      invariant PartDrawn(y, pixel, recorded, bg[..], priorities)
    {
      var color, priority;
      if WindowSelected(env, pixel, y) {
        winCache, color, priority := Pixel(env, pixel, y, winCache);
      } else {
        bgCache, color, priority := Pixel(env, pixel, y, bgCache);
      }
      assert color == colors(pixel) && priority == priorities(pixel);
      Plot(y, pixel, bg, priority, recorded, priorities);
      Plot(y, pixel, buffer, color, shown, colors);
    }
    PartOfWholeLine(y, shown, buffer[..], colors);
    PartOfWholeLine(y, recorded, bg[..], priorities);
  }
}
