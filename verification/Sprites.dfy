/** The sprite layer of one scanline. */
module Sprites {
  import opened Bytes
  import opened GpuState
  import opened Background

  const SPRITES := 40

  /** Index of a sprite in object memory; its address is 0xFE00 + 4 * index. */
  type Index = i: nat | i < SPRITES

  function Y(env: Env, i: Index): byte { Num(env.oam[4 * i]) }
  function X(env: Env, i: Index): byte { Num(env.oam[4 * i + 1]) }
  function TileNumber(env: Env, i: Index): byte { Num(env.oam[4 * i + 2]) }
  function Flags(env: Env, i: Index): bv8 { env.oam[4 * i + 3] }

  function Height(env: Env): int {
    if env.control & 0x04 != 0 then 16 else 8
  }

  /** `SpriteData::isVisible`; `row` is computed in eight bits. */
  predicate IsVisible(env: Env, i: Index, line: byte) {
    && X(env, i) != 0 && Y(env, i) != 0
    && X(env, i) < WIDTH + 8 && Y(env, i) < HEIGHT + 16
    && var row := (line + 16) % 256; Y(env, i) <= row < Y(env, i) + Height(env)
  }

  /** The row of the sprite that a line shows. */
  function SpriteRow(env: Env, i: Index, line: byte): int {
    line + 16 - Y(env, i)
  }

  lemma VisibleRowInside(env: Env, i: Index, line: byte)
    requires line < HEIGHT && IsVisible(env, i, line)
    ensures 0 <= SpriteRow(env, i, line) < Height(env)
  {
  }

  function SpriteColors(env: Env, i: Index): (Option<bv8>, Palette) {
    if env.cgb then (None, env.spritePalettes[Low3(Flags(env, i))])
    else (Some(if Flags(env, i) & 0x10 != 0 then env.obp1 else env.obp0), DMG_PALETTE)
  }

  function SpriteBank(env: Env, i: Index): (bank: nat)
    ensures bank < 2
  {
    if env.cgb && Flags(env, i) & 0x08 != 0 then 1 else 0
  }

  /** The tile that holds row `r`: a tall sprite is an even tile over the odd one that follows. */
  function TileUnder(tile: byte, height: int, r: nat): byte
    requires height in {8, 16} && r < height
  {
    if height == 8 then tile else if r < 8 then tile / 2 * 2 else tile / 2 * 2 + 1
  }

  /** The tile row under row `row` of the sprite. */
  function SpriteTileRow(env: Env, i: Index, row: nat): TileRow
    requires row < Height(env)
  {
    var r := if Flags(env, i) & 0x40 != 0 then Height(env) - 1 - row else row;
    ReadRow(env, SpriteBank(env, i), TileSet0, TileUnder(TileNumber(env, i), Height(env), r), r % 8)
  }

  /** Column `k` of the sprite on a line it is visible on. */
  function SpriteColor(env: Env, i: Index, line: byte, k: nat): Rgb
    requires line < HEIGHT && IsVisible(env, i, line) && k < 8
  {
    var (pal, rgb) := SpriteColors(env, i);
    RowColor(rgb, pal, SpriteTileRow(env, i, SpriteRow(env, i, line)), false, Flags(env, i) & 0x20 != 0, k)
  }

  /** The row arithmetic of `GPU::readSprite`, in eight bits; `found` is false where it bails out. */
  method LocateRow(y: byte, line: byte, height: int, flip: bool) returns (found: bool, row: byte)
    requires height in {8, 16} && line < HEIGHT && y < HEIGHT + 16
    ensures found <==> y >= 16 || line + 16 - y < height
    ensures 0 <= line + 16 - y < height ==>
              row == if flip then height - 1 - (line + 16 - y) else line + 16 - y
  {
    found := true;
    row := (line - (y - 16)) % 256;
    if y < 16 {
      row := (16 - y + line) % 256;
      if row >= height { return false, row; }
    }
    if flip { row := (height - row - 1) % 256; }
  }

  /** The tile arithmetic of `GPU::readSprite`, in eight bits. */
  method LocateTile(tile: byte, height: int, row: byte) returns (number: byte)
    requires height in {8, 16} && row < height
    ensures number == TileUnder(tile, height, row)
  {
    number := tile;
    if height == 16 { number := number - number % 2; }
    if row >= 8 { number := (number + 1) % 256; }
  }

  /** `GPU::readSprite`; the colours stay as they were if it bails out. */
  method ReadSprite(env: Env, i: Index, line: byte, stale: seq<Rgb>) returns (colors: seq<Rgb>)
    requires line < HEIGHT && IsVisible(env, i, line)
    ensures |colors| == 8
    ensures forall k | 0 <= k < 8 :: colors[k] == SpriteColor(env, i, line, k)
  {
    var found, row := LocateRow(Y(env, i), line, Height(env), Flags(env, i) & 0x40 != 0);
    if !found { return stale; }
    var number := LocateTile(TileNumber(env, i), Height(env), row);
    var tileRow := ReadRow(env, SpriteBank(env, i), TileSet0, number, row % 8);
    assert tileRow == SpriteTileRow(env, i, SpriteRow(env, i, line));
    var (pal, rgb) := SpriteColors(env, i);
    colors := ToRgb(rgb, pal, tileRow, false, Flags(env, i) & 0x20 != 0);
  }

  /** Sprite `i` has a pixel at `x` that is not transparent. */
  predicate Opaque(env: Env, i: Index, line: byte, x: byte)
    requires line < HEIGHT
  {
    IsVisible(env, i, line) && X(env, i) <= x + 8 < X(env, i) + 8 &&
    SpriteColor(env, i, line, x + 8 - X(env, i)).alpha != 0
  }

  predicate BehindBackground(env: Env, i: Index) {
    Flags(env, i) & 0x80 != 0
  }

  /** One sprite painted over the pixel at `x`, which shows `shown` over a recorded colour `zero`. */
  function PaintOne(env: Env, i: Index, line: byte, x: byte, shown: Rgb, zero: Rgb): Rgb
    requires line < HEIGHT
  {
    if !Opaque(env, i, line, x) || (BehindBackground(env, i) && shown != zero) then shown
    else SpriteColor(env, i, line, x + 8 - X(env, i))
  }

  /** A list of sprites painted one after the other. */
  function Paint(env: Env, order: seq<Index>, line: byte, x: byte, shown: Rgb, zero: Rgb): Rgb
    requires line < HEIGHT
  {
    if order == [] then shown
    else
      var n := |order| - 1;
      PaintOne(env, order[n], line, x, Paint(env, order[..n], line, x, shown, zero), zero)
  }

  // ---- The order of painting -----------------------------------------------------------------

  /** The comparator handed to the sort. */
  predicate Before(env: Env, a: Index, b: Index) {
    if env.cgb || X(env, a) == X(env, b) then a < b else X(env, a) < X(env, b)
  }

  lemma BeforeIsStrictTotalOrder(env: Env, a: Index, b: Index, c: Index)
    ensures !Before(env, a, a)
    ensures Before(env, a, b) && Before(env, b, c) ==> Before(env, a, c)
    ensures a != b ==> Before(env, a, b) != Before(env, b, a)
  {
  }

  ghost predicate Ascending(env: Env, s: seq<Index>) {
    forall p, q | 0 <= p < q < |s| :: Before(env, s[p], s[q])
  }

  /** The visible sprites among the first `n`, by address. */
  function Visible(env: Env, line: byte, n: nat): (s: seq<Index>)
    requires n <= SPRITES
    ensures forall i: Index :: i in s <==> i < n && IsVisible(env, i, line)
  {
    if n == 0 then []
    else if IsVisible(env, n - 1, line) then Visible(env, line, n - 1) + [n - 1]
    else Visible(env, line, n - 1)
  }

  /** Put `i` in its place. */
  function Insert(env: Env, s: seq<Index>, i: Index): (r: seq<Index>)
    requires i !in s
    ensures forall j: Index :: j in r <==> j in s || j == i
  {
    if s == [] || Before(env, s[|s| - 1], i) then s + [i]
    else Insert(env, s[..|s| - 1], i) + [s[|s| - 1]]
  }

  lemma {:induction false} InsertAscends(env: Env, s: seq<Index>, i: Index)
    requires Ascending(env, s) && i !in s
    ensures Ascending(env, Insert(env, s, i))
  {
    var r := Insert(env, s, i);
    if s == [] || Before(env, s[|s| - 1], i) {
      forall p, q | 0 <= p < q < |r| ensures Before(env, r[p], r[q]) {
        if q == |s| && p < |s| - 1 { BeforeIsStrictTotalOrder(env, s[p], s[|s| - 1], i); }
      }
    } else {
      var n := |s| - 1;
      InsertAscends(env, s[..n], i);
      var t := Insert(env, s[..n], i);
      forall p, q | 0 <= p < q < |r| ensures Before(env, r[p], r[q]) {
        if q == |t| && t[p] in s[..n] {
          assert t[p] in s[..n];
          var m :| 0 <= m < n && s[m] == t[p];
        }
      }
    }
  }

  ghost predicate Distinct(s: seq<Index>) {
    forall p, q | 0 <= p < q < |s| :: s[p] != s[q]
  }

  /** The list sorted by the comparator. */
  function Sort(env: Env, s: seq<Index>): (r: seq<Index>)
    requires Distinct(s)
    ensures forall j: Index :: j in r <==> j in s
  {
    if s == [] then [] else Insert(env, Sort(env, s[..|s| - 1]), s[|s| - 1])
  }

  lemma {:induction false} SortAscends(env: Env, s: seq<Index>)
    requires Distinct(s)
    ensures Ascending(env, Sort(env, s))
  {
    if s == [] {
    } else {
      var n := |s| - 1;
      SortAscends(env, s[..n]);
      InsertAscends(env, Sort(env, s[..n]), s[n]);
    }
  }

  /** Only one ascending list has given members, so any sorting algorithm yields the same order. */
  lemma {:induction false} AscendingIsUnique(env: Env, s: seq<Index>, t: seq<Index>)
    requires Ascending(env, s) && Ascending(env, t)
    requires forall j: Index :: j in s <==> j in t
    ensures s == t
    decreases |s|
  {
    assert s != [] ==> s[0] in s;
    assert t != [] ==> t[0] in t;
    if s == [] {
    } else {
      var m, n := |s| - 1, |t| - 1;
      assert s[m] in t && t[n] in s;
      assert s[m] == t[n] by {
        var p :| 0 <= p < |t| && t[p] == s[m];
        var q :| 0 <= q < |s| && s[q] == t[n];
        if p < n && q < m { BeforeIsStrictTotalOrder(env, s[m], t[n], s[m]); }
      }
      forall j: Index ensures j in s[..m] <==> j in t[..n] {
        DropLast(env, s, j);
        DropLast(env, t, j);
      }
      AscendingIsUnique(env, s[..m], t[..n]);
    }
  }

  lemma DropLast(env: Env, s: seq<Index>, j: Index)
    requires Ascending(env, s) && s != []
    ensures j in s[..|s| - 1] <==> j in s && j != s[|s| - 1]
  {
    if j in s[..|s| - 1] {
      var p :| 0 <= p < |s| - 1 && s[p] == j;
      BeforeIsStrictTotalOrder(env, j, j, j);
    }
  }

  /** The visible sprites of a line in the order they are painted. */
  function Order(env: Env, line: byte): seq<Index> {
    VisibleAreDistinct(env, line, SPRITES);
    Sort(env, Visible(env, line, SPRITES))
  }

  lemma {:induction false} VisibleAreDistinct(env: Env, line: byte, n: nat)
    requires n <= SPRITES
    ensures Distinct(Visible(env, line, n))
  {
    if n == 0 {
    } else {
      VisibleAreDistinct(env, line, n - 1);
      var s, t := Visible(env, line, n), Visible(env, line, n - 1);
      forall p, q | 0 <= p < q < |s| ensures s[p] != s[q] {
        if q == |t| { assert s[p] == t[p] && t[p] in t; }
      }
    }
  }

  /** The painting order lists each visible sprite once, ascending in the comparator; and it is the
      only list that does. */
  lemma OrderIsTheSortedVisibleSprites(env: Env, line: byte, s: seq<Index>)
    ensures Ascending(env, s) && (forall i: Index :: i in s <==> IsVisible(env, i, line))
            <==> s == Order(env, line)
  {
    VisibleAreDistinct(env, line, SPRITES);
    SortAscends(env, Visible(env, line, SPRITES));
    if Ascending(env, s) && (forall i: Index :: i in s <==> IsVisible(env, i, line)) {
      AscendingIsUnique(env, s, Order(env, line));
    }
  }

  // ---- Drawing -------------------------------------------------------------------------------

  /** A line with the first `k` columns of one sprite painted over what the buffers held. */
  function RenderedLine(env: Env, i: Index, line: byte, k: nat, shown: seq<Rgb>, zero: seq<Rgb>): byte -> Rgb
    requires |shown| == PIXELS && |zero| == PIXELS && line < HEIGHT
  {
    (x: byte) =>
      if x >= WIDTH then BLANK
      else if X(env, i) <= x + 8 < X(env, i) + k
      then PaintOne(env, i, line, x, shown[line * WIDTH + x], zero[line * WIDTH + x])
      else shown[line * WIDTH + x]
  }

  /** `SpriteData::render`: one sprite over the line. */
  method Render(env: Env, i: Index, line: byte, display: array<Rgb>, bg: array<Rgb>)
    requires line < HEIGHT && display != bg && display.Length == PIXELS && bg.Length == PIXELS
    requires IsVisible(env, i, line)
    modifies display
    ensures PartDrawn(line, WIDTH, old(display[..]), display[..],
                      RenderedLine(env, i, line, 8, old(display[..]), bg[..]))
  {
    var colors := ReadSprite(env, i, line, []);
    var left: int := X(env, i);
    ghost var shown, zero := display[..], bg[..];
    NothingRendered(env, i, line, shown, zero);
    for k := 0 to 8
      invariant PartDrawn(line, WIDTH, shown, display[..], RenderedLine(env, i, line, k, shown, zero))
    {
      var x := (left + k - 8) % 256;
      ghost var before := display[..];
      if colors[k].alpha != 0 && x < WIDTH {
        var index := line * WIDTH + x;
        if !BehindBackground(env, i) || display[index] == bg[index] {
          display[index] := colors[k];
        }
      }
      ColumnOnScreen(X(env, i), k);
      RenderedColumn(env, i, line, k, left + k - 8, colors[k], shown, before, display[..], zero);
    }
  }

  lemma NothingRendered(env: Env, i: Index, line: byte, shown: seq<Rgb>, zero: seq<Rgb>)
    requires |shown| == |zero| == PIXELS && line < HEIGHT
    ensures PartDrawn(line, WIDTH, shown, shown, RenderedLine(env, i, line, 0, shown, zero))
  {
    forall p | 0 <= p < PIXELS
      ensures shown[p] == if line * WIDTH <= p < line * WIDTH + WIDTH
              then RenderedLine(env, i, line, 0, shown, zero)(p - line * WIDTH) else shown[p]
    {
      assert line * WIDTH + (p - line * WIDTH) == p;
    }
  }

  /** One column of a sprite: its colour goes in unless it is transparent, off the screen, or behind
      a background pixel that differs from the recorded colour. */
  lemma RenderedColumn(env: Env, i: Index, line: byte, k: nat, at: int, color: Rgb,
                       shown: seq<Rgb>, before: seq<Rgb>, after: seq<Rgb>, zero: seq<Rgb>)
    requires |shown| == |before| == |after| == |zero| == PIXELS && line < HEIGHT && k < 8
    requires IsVisible(env, i, line) && at == X(env, i) + k - 8 && color == SpriteColor(env, i, line, k)
    requires PartDrawn(line, WIDTH, shown, before, RenderedLine(env, i, line, k, shown, zero))
    requires if 0 <= at < WIDTH && color.alpha != 0
                && (!BehindBackground(env, i) || before[line * WIDTH + at] == zero[line * WIDTH + at])
             then after == before[line * WIDTH + at := color] else after == before
    ensures PartDrawn(line, WIDTH, shown, after, RenderedLine(env, i, line, k + 1, shown, zero))
  {
    var f, g := RenderedLine(env, i, line, k, shown, zero), RenderedLine(env, i, line, k + 1, shown, zero);
    forall x: byte | x < WIDTH && x != at ensures g(x) == f(x) {
      OtherColumn(env, i, line, k, x, shown, zero);
    }
    if 0 <= at < WIDTH {
      SameColumn(env, i, line, k, at, shown, zero);
      ColumnStored(line, at, color, BehindBackground(env, i), f, g, shown, before, after, zero);
    } else {
      OnePixelMore(line, at, f, g, shown, before, after);
    }
  }

  lemma ColumnStored(line: byte, at: byte, color: Rgb, behind: bool, f: byte -> Rgb, g: byte -> Rgb,
                     shown: seq<Rgb>, before: seq<Rgb>, after: seq<Rgb>, zero: seq<Rgb>)
    requires |shown| == |before| == |after| == |zero| == PIXELS && line < HEIGHT && at < WIDTH
    requires PartDrawn(line, WIDTH, shown, before, f)
    requires forall x: byte | x < WIDTH && x != at :: g(x) == f(x)
    requires var p := line * WIDTH + at;
             && f(at) == shown[p]
             && g(at) == (if color.alpha != 0 && (!behind || shown[p] == zero[p]) then color else shown[p])
             && after == if color.alpha != 0 && (!behind || before[p] == zero[p]) then before[p := color] else before
    ensures PartDrawn(line, WIDTH, shown, after, g)
  {
    var p := line * WIDTH + at;
    assert p - line * WIDTH == at;
    assert before[p] == shown[p];
    assert after == before[p := g(at)];
    OnePixelMore(line, at, f, g, shown, before, after);
  }

  /** A column left of the screen wraps around to the right of it. */
  lemma ColumnOnScreen(x: byte, k: nat)
    requires 0 < x < WIDTH + 8 && k < 8
    ensures (x + k - 8) % 256 < WIDTH <==> 0 <= x + k - 8 < WIDTH
    ensures 0 <= x + k - 8 < WIDTH ==> (x + k - 8) % 256 == x + k - 8
  {
  }

  lemma OtherColumn(env: Env, i: Index, line: byte, k: nat, x: byte, shown: seq<Rgb>, zero: seq<Rgb>)
    requires |shown| == |zero| == PIXELS && line < HEIGHT && k < 8 && x < WIDTH && x + 8 != X(env, i) + k
    ensures RenderedLine(env, i, line, k + 1, shown, zero)(x) == RenderedLine(env, i, line, k, shown, zero)(x)
  {
    var left: int := X(env, i);
    assert left <= x + 8 < left + k + 1 <==> left <= x + 8 < left + k;
  }

  lemma SameColumn(env: Env, i: Index, line: byte, k: nat, x: byte, shown: seq<Rgb>, zero: seq<Rgb>)
    requires |shown| == |zero| == PIXELS && line < HEIGHT && k < 8 && IsVisible(env, i, line)
    requires x < WIDTH && x + 8 == X(env, i) + k
    ensures var p, color := line * WIDTH + x, SpriteColor(env, i, line, k);
            && RenderedLine(env, i, line, k, shown, zero)(x) == shown[p]
            && RenderedLine(env, i, line, k + 1, shown, zero)(x) ==
               if color.alpha != 0 && (!BehindBackground(env, i) || shown[p] == zero[p]) then color else shown[p]
  {
    var p := line * WIDTH + x;
    RenderedAt(env, i, line, k, x, shown, zero);
    RenderedAt(env, i, line, k + 1, x, shown, zero);
    ColumnPaint(env, i, line, k, x, shown[p], zero[p]);
  }

  lemma RenderedAt(env: Env, i: Index, line: byte, k: nat, x: byte, shown: seq<Rgb>, zero: seq<Rgb>)
    requires |shown| == |zero| == PIXELS && line < HEIGHT && x < WIDTH && X(env, i) <= x + 8
    ensures RenderedLine(env, i, line, k, shown, zero)(x) ==
            if x + 8 < X(env, i) + k then PaintOne(env, i, line, x, shown[line * WIDTH + x], zero[line * WIDTH + x])
            else shown[line * WIDTH + x]
  {
  }

  /** What painting does to the pixel under column `k` of a sprite. */
  lemma ColumnPaint(env: Env, i: Index, line: byte, k: nat, x: byte, shown: Rgb, zero: Rgb)
    requires line < HEIGHT && k < 8 && IsVisible(env, i, line) && x + 8 == X(env, i) + k
    ensures var color := SpriteColor(env, i, line, k);
            PaintOne(env, i, line, x, shown, zero) ==
            if color.alpha != 0 && (!BehindBackground(env, i) || shown == zero) then color else shown
  {
  }

  /** Changing one pixel of a line. */
  lemma OnePixelMore(line: byte, at: int, f: byte -> Rgb, g: byte -> Rgb,
                     shown: seq<Rgb>, before: seq<Rgb>, after: seq<Rgb>)
    requires |shown| == |before| == |after| == PIXELS && line < HEIGHT
    requires PartDrawn(line, WIDTH, shown, before, f)
    requires forall x: byte | x < WIDTH && x != at :: g(x) == f(x)
    requires after == if 0 <= at < WIDTH then before[line * WIDTH + at := g(at)] else before
    ensures PartDrawn(line, WIDTH, shown, after, g)
  {
    forall p | 0 <= p < PIXELS
      ensures after[p] == if line * WIDTH <= p < line * WIDTH + WIDTH then g(p - line * WIDTH) else shown[p]
    {
      if 0 <= at < WIDTH && p == line * WIDTH + at {
        assert p - line * WIDTH == at;
      } else {
        assert after[p] == before[p];
      }
    }
  }

  /** A line with a list of sprites painted over what the buffers held. */
  function PaintedLine(env: Env, order: seq<Index>, line: byte, shown: seq<Rgb>, zero: seq<Rgb>): byte -> Rgb
    requires |shown| == PIXELS && |zero| == PIXELS && line < HEIGHT
  {
    (x: byte) =>
      if x < WIDTH then Paint(env, order, line, x, shown[line * WIDTH + x], zero[line * WIDTH + x]) else BLANK
  }

  lemma PaintOneMore(env: Env, order: seq<Index>, n: nat, line: byte, x: byte, shown: Rgb, zero: Rgb)
    requires line < HEIGHT && n < |order|
    ensures Paint(env, order[..n + 1], line, x, shown, zero) ==
            PaintOne(env, order[n], line, x, Paint(env, order[..n], line, x, shown, zero), zero)
  {
    assert order[..n + 1][..n] == order[..n];
  }

  /** One more sprite over a painted line. */
  lemma RenderAfterPaint(env: Env, order: seq<Index>, n: nat, line: byte,
                         before: seq<Rgb>, middle: seq<Rgb>, after: seq<Rgb>, zero: seq<Rgb>)
    requires |before| == |middle| == |after| == |zero| == PIXELS && line < HEIGHT && n < |order|
    requires PartDrawn(line, WIDTH, before, middle, PaintedLine(env, order[..n], line, before, zero))
    requires PartDrawn(line, WIDTH, middle, after, RenderedLine(env, order[n], line, 8, middle, zero))
    ensures PartDrawn(line, WIDTH, before, after, PaintedLine(env, order[..n + 1], line, before, zero))
  {
    forall p | 0 <= p < PIXELS
      ensures after[p] ==
              if line * WIDTH <= p < line * WIDTH + WIDTH
              then PaintedLine(env, order[..n + 1], line, before, zero)(p - line * WIDTH) else before[p]
    {
      if line * WIDTH <= p < line * WIDTH + WIDTH {
        var x := p - line * WIDTH;
        assert line * WIDTH + x == p;
        PaintOneMore(env, order, n, line, x, before[p], zero[p]);
        assert RenderedLine(env, order[n], line, 8, middle, zero)(x) ==
               PaintOne(env, order[n], line, x, middle[p], zero[p]);
      }
    }
  }

  lemma NothingPainted(env: Env, order: seq<Index>, line: byte, shown: seq<Rgb>, zero: seq<Rgb>)
    requires |shown| == |zero| == PIXELS && line < HEIGHT
    ensures PartDrawn(line, WIDTH, shown, shown, PaintedLine(env, order[..0], line, shown, zero))
  {
    assert order[..0] == [];
    forall p | 0 <= p < PIXELS
      ensures shown[p] == if line * WIDTH <= p < line * WIDTH + WIDTH
              then PaintedLine(env, [], line, shown, zero)(p - line * WIDTH) else shown[p]
    {
      if line * WIDTH <= p < line * WIDTH + WIDTH {
        var x := p - line * WIDTH;
        assert line * WIDTH + x == p;
        assert Paint(env, [], line, x, shown[p], zero[p]) == shown[p];
      }
    }
  }

  /** `GPU::drawSprites`. */
  method DrawSprites(env: Env, line: byte, display: array<Rgb>, bg: array<Rgb>)
    requires line < HEIGHT && display != bg && display.Length == PIXELS && bg.Length == PIXELS
    modifies display
    ensures env.control & 0x02 == 0 ==> display[..] == old(display[..])
    ensures env.control & 0x02 != 0 ==>
              LineDrawn(line, old(display[..]), display[..],
                        PaintedLine(env, Order(env, line), line, old(display[..]), bg[..]))
  {
    if env.control & 0x02 == 0 { return; }
    var enabled: seq<Index> := [];
    for i := 0 to SPRITES
      invariant enabled == Visible(env, line, i)
    {
      if IsVisible(env, i, line) { enabled := enabled + [i]; }
    }
    VisibleAreDistinct(env, line, SPRITES);
    var order := Sort(env, enabled);
    PaintInOrder(env, order, line, display, bg);
    PartOfWholeLine(line, old(display[..]), display[..], PaintedLine(env, order, line, old(display[..]), bg[..]));
  }

  /** The painting loop of `GPU::drawSprites`. */
  method PaintInOrder(env: Env, order: seq<Index>, line: byte, display: array<Rgb>, bg: array<Rgb>)
    requires line < HEIGHT && display != bg && display.Length == PIXELS && bg.Length == PIXELS
    requires forall i: Index | i in order :: IsVisible(env, i, line)
    modifies display
    ensures PartDrawn(line, WIDTH, old(display[..]), display[..],
                      PaintedLine(env, order, line, old(display[..]), bg[..]))
  {
    ghost var shown, zero := display[..], bg[..];
    NothingPainted(env, order, line, shown, zero);
    for n := 0 to |order|
      invariant PartDrawn(line, WIDTH, shown, display[..], PaintedLine(env, order[..n], line, shown, zero))
    {
      ghost var middle := display[..];
      assert order[n] in order;
      Render(env, order[n], line, display, bg);
      RenderAfterPaint(env, order, n, line, shown, middle, display[..], zero);
    }
    assert order[..|order|] == order;
  }

  // ---- What a pixel ends as --------------------------------------------------------------------

  /** `i` is the last opaque sprite at `x` in the comparator's order. */
  ghost predicate LastOpaque(env: Env, i: Index, line: byte, x: byte)
    requires line < HEIGHT
  {
    Opaque(env, i, line, x) && forall j: Index | Opaque(env, j, line, x) && j != i :: Before(env, j, i)
  }

  ghost predicate NoneBehind(env: Env, line: byte, x: byte)
    requires line < HEIGHT
  {
    forall i: Index | Opaque(env, i, line, x) :: !BehindBackground(env, i)
  }

  lemma {:induction false} PaintKeepsLastOpaque(env: Env, s: seq<Index>, i: Index, line: byte, x: byte, shown: Rgb, zero: Rgb)
    requires line < HEIGHT && Ascending(env, s) && i in s
    requires LastOpaque(env, i, line, x) && !BehindBackground(env, i)
    ensures Paint(env, s, line, x, shown, zero) == SpriteColor(env, i, line, x + 8 - X(env, i))
  {
    var n := |s| - 1;
    if s[n] == i {
    } else {
      DropLast(env, s, i);
      var p :| 0 <= p < n && s[p] == i;
      assert Before(env, i, s[n]);
      BeforeIsStrictTotalOrder(env, i, s[n], i);
      PaintKeepsLastOpaque(env, s[..n], i, line, x, shown, zero);
    }
  }

  /** Unless it is to be behind the background, the last opaque sprite in the comparator's order is
      what a pixel ends as, whatever was painted before it. */
  lemma LastOpaqueWins(env: Env, i: Index, line: byte, x: byte, shown: Rgb, zero: Rgb)
    requires line < HEIGHT && LastOpaque(env, i, line, x) && !BehindBackground(env, i)
    ensures Paint(env, Order(env, line), line, x, shown, zero) == SpriteColor(env, i, line, x + 8 - X(env, i))
  {
    OrderIsTheSortedVisibleSprites(env, line, Order(env, line));
    PaintKeepsLastOpaque(env, Order(env, line), i, line, x, shown, zero);
  }

  lemma {:induction false} HiddenSpritesLeavePixel(env: Env, s: seq<Index>, line: byte, x: byte, shown: Rgb, zero: Rgb)
    requires line < HEIGHT
    requires forall i: Index | i in s && Opaque(env, i, line, x) :: BehindBackground(env, i) && shown != zero
    ensures Paint(env, s, line, x, shown, zero) == shown
  {
    if s == [] {
    } else {
      var n := |s| - 1;
      assert s[n] in s && forall i: Index | i in s[..n] :: i in s;
      HiddenSpritesLeavePixel(env, s[..n], line, x, shown, zero);
    }
  }

  /** Where no sprite is opaque, and where every opaque sprite is to be behind a background that
      differs from the recorded colour, the background stays. */
  lemma BackgroundStays(env: Env, line: byte, x: byte, shown: Rgb, zero: Rgb)
    requires line < HEIGHT
    requires forall i: Index | Opaque(env, i, line, x) :: BehindBackground(env, i) && shown != zero
    ensures Paint(env, Order(env, line), line, x, shown, zero) == shown
  {
    HiddenSpritesLeavePixel(env, Order(env, line), line, x, shown, zero);
  }

  /** A non-empty set of listed sprites has a last one. */
  lemma {:induction false} SomeIsLast(env: Env, s: seq<Index>, marked: set<Index>) returns (i: Index)
    requires Ascending(env, s) && marked != {} && forall j: Index | j in marked :: j in s
    ensures i in marked && forall j: Index | j in marked && j != i :: Before(env, j, i)
  {
    var n := |s| - 1;
    if s[n] in marked {
      i := s[n];
    } else {
      forall j: Index | j in marked ensures j in s[..n] {
        DropLast(env, s, j);
      }
      i := SomeIsLast(env, s[..n], marked);
    }
  }

  /** The sprites with an opaque pixel at `x`. */
  ghost function OpaqueAt(env: Env, line: byte, x: byte): set<Index>
    requires line < HEIGHT
  {
    set i: Index | i < SPRITES && Opaque(env, i, line, x)
  }

  /** With no sprite behind the background, a pixel ends as the last opaque sprite or the background. */
  lemma PixelIsLastOpaqueOrBackground(env: Env, line: byte, x: byte, shown: Rgb, zero: Rgb)
    requires line < HEIGHT && NoneBehind(env, line, x)
    ensures var c := Paint(env, Order(env, line), line, x, shown, zero);
            || (c == shown && OpaqueAt(env, line, x) == {})
            || (exists i: Index :: LastOpaque(env, i, line, x) && c == SpriteColor(env, i, line, x + 8 - X(env, i)))
  {
    var marked := OpaqueAt(env, line, x);
    if marked != {} {
      OrderIsTheSortedVisibleSprites(env, line, Order(env, line));
      forall j: Index | j in marked ensures j in Order(env, line) {}
      var i := SomeIsLast(env, Order(env, line), marked);
      assert forall j: Index :: j in marked <==> Opaque(env, j, line, x);
      assert LastOpaque(env, i, line, x);
      LastOpaqueWins(env, i, line, x, shown, zero);
    } else {
      assert forall j: Index :: j in marked <==> Opaque(env, j, line, x);
      BackgroundStays(env, line, x, shown, zero);
    }
  }

  /** `i` is the first opaque sprite at `x` in the comparator's order. */
  ghost predicate FirstOpaque(env: Env, i: Index, line: byte, x: byte)
    requires line < HEIGHT
  {
    Opaque(env, i, line, x) && forall j: Index | Opaque(env, j, line, x) && j != i :: Before(env, i, j)
  }

  /** What that means: in CGB mode the lowest address, else the smallest x and among those the lowest
      address. */
  lemma FirstIsLowest(env: Env, i: Index, line: byte, x: byte)
    requires line < HEIGHT && Opaque(env, i, line, x)
    ensures FirstOpaque(env, i, line, x) <==>
            forall j: Index | Opaque(env, j, line, x) ::
              if env.cgb then i <= j else X(env, i) < X(env, j) || (X(env, i) == X(env, j) && i <= j)
  {
  }

  /** The comment above the sort promises that the opaque sprite the comparator puts first ends up on
      top. It is the one put last, so in either mode, unless that one is to be behind the background,
      the promise is kept exactly where the two have the same colour, in particular where only one
      sprite is opaque. */
  lemma WhenFirstIsOnTop(env: Env, line: byte, x: byte, first: Index, last: Index, shown: Rgb, zero: Rgb)
    requires line < HEIGHT && FirstOpaque(env, first, line, x)
    requires LastOpaque(env, last, line, x) && !BehindBackground(env, last)
    ensures Paint(env, Order(env, line), line, x, shown, zero) == SpriteColor(env, first, line, x + 8 - X(env, first))
            <==>
            SpriteColor(env, first, line, x + 8 - X(env, first)) == SpriteColor(env, last, line, x + 8 - X(env, last))
  {
    LastOpaqueWins(env, last, line, x, shown, zero);
  }

  // ---- With priority flags -------------------------------------------------------------------------

  predicate InFront(env: Env, i: Index, line: byte, x: byte)
    requires line < HEIGHT
  {
    Opaque(env, i, line, x) && !BehindBackground(env, i)
  }

  /** `front` is the last sprite in front of the background that is opaque at `x`, if there is one. */
  ghost predicate IsFront(env: Env, front: Option<Index>, line: byte, x: byte)
    requires line < HEIGHT
  {
    match front
    case None => forall i: Index :: !InFront(env, i, line, x)
    case Some(f) =>
      InFront(env, f, line, x) && forall i: Index | InFront(env, i, line, x) && i != f :: Before(env, i, f)
  }

  /** What the pixel is before the sprites behind the background that come after `front`. */
  function Base(env: Env, front: Option<Index>, line: byte, x: byte, shown: Rgb): Rgb
    requires line < HEIGHT && (front.Some? ==> Opaque(env, front.value, line, x))
  {
    match front
    case None => shown
    case Some(f) => SpriteColor(env, f, line, x + 8 - X(env, f))
  }

  /** An opaque sprite behind the background, after `front`, in another colour than the recorded one. */
  predicate Peeks(env: Env, front: Option<Index>, i: Index, line: byte, x: byte, zero: Rgb)
    requires line < HEIGHT
  {
    && Opaque(env, i, line, x) && BehindBackground(env, i)
    && (front.Some? ==> Before(env, front.value, i))
    && SpriteColor(env, i, line, x + 8 - X(env, i)) != zero
  }

  /** `peek` is the first such sprite, if there is one. */
  ghost predicate IsPeek(env: Env, front: Option<Index>, peek: Option<Index>, line: byte, x: byte, zero: Rgb)
    requires line < HEIGHT
  {
    match peek
    case None => forall i: Index :: !Peeks(env, front, i, line, x, zero)
    case Some(p) =>
      Peeks(env, front, p, line, x, zero) &&
      forall i: Index | Peeks(env, front, i, line, x, zero) && i != p :: Before(env, p, i)
  }

  /** Every pixel has both, or has none. */
  lemma FrontAndPeekExist(env: Env, line: byte, x: byte, zero: Rgb) returns (front: Option<Index>, peek: Option<Index>)
    requires line < HEIGHT
    ensures IsFront(env, front, line, x) && IsPeek(env, front, peek, line, x, zero)
  {
    OrderIsTheSortedVisibleSprites(env, line, Order(env, line));
    var fronts := set i: Index | i < SPRITES && InFront(env, i, line, x);
    assert forall i: Index :: i in fronts <==> InFront(env, i, line, x);
    front, peek := None, None;
    if fronts != {} {
      var f := SomeIsLast(env, Order(env, line), fronts);
      front := Some(f);
    }
    var peeks := set i: Index | i < SPRITES && Peeks(env, front, i, line, x, zero);
    assert forall i: Index :: i in peeks <==> Peeks(env, front, i, line, x, zero);
    if peeks != {} {
      var p := SomeIsFirst(env, Order(env, line), peeks);
      peek := Some(p);
    }
  }

  /** A non-empty set of listed sprites has a first one. */
  lemma {:induction false} SomeIsFirst(env: Env, s: seq<Index>, marked: set<Index>) returns (i: Index)
    requires Ascending(env, s) && marked != {} && forall j: Index | j in marked :: j in s
    ensures i in marked && forall j: Index | j in marked && j != i :: Before(env, i, j)
    decreases |s|
  {
    assert s != [] by { var j :| j in marked; assert j in s; }
    if s[0] in marked {
      i := s[0];
      forall j: Index | j in marked && j != i ensures Before(env, i, j) {
        var p :| 0 <= p < |s| && s[p] == j;
      }
    } else {
      forall j: Index | j in marked ensures j in s[1..] {
        var p :| 0 <= p < |s| && s[p] == j;
        assert s[1..][p - 1] == j;
      }
      i := SomeIsFirst(env, s[1..], marked);
    }
  }

  /** Sprites behind the background leave a pixel that differs from the recorded colour. */
  lemma {:induction false} HiddenAfter(env: Env, s: seq<Index>, n: nat, line: byte, x: byte, shown: Rgb, zero: Rgb)
    requires line < HEIGHT && n <= |s| && Paint(env, s[..n], line, x, shown, zero) != zero
    requires forall q | n <= q < |s| && Opaque(env, s[q], line, x) :: BehindBackground(env, s[q])
    ensures Paint(env, s, line, x, shown, zero) == Paint(env, s[..n], line, x, shown, zero)
    decreases |s|
  {
    if n == |s| {
      assert s[..n] == s;
    } else {
      var t := s[..|s| - 1];
      assert t[..n] == s[..n];
      HiddenAfter(env, t, n, line, x, shown, zero);
    }
  }

  /** Over the recorded colour, sprites of that colour change nothing. */
  lemma {:induction false} SameAfter(env: Env, s: seq<Index>, n: nat, line: byte, x: byte, shown: Rgb, zero: Rgb)
    requires line < HEIGHT && n <= |s| && Paint(env, s[..n], line, x, shown, zero) == zero
    requires forall q | n <= q < |s| && Opaque(env, s[q], line, x) ::
               SpriteColor(env, s[q], line, x + 8 - X(env, s[q])) == zero
    ensures Paint(env, s, line, x, shown, zero) == zero
    decreases |s|
  {
    if n == |s| {
      assert s[..n] == s;
    } else {
      var t := s[..|s| - 1];
      assert t[..n] == s[..n];
      SameAfter(env, t, n, line, x, shown, zero);
    }
  }

  /** The first of another colour shows, and the sprites behind the background after it do not. */
  lemma PeekAfter(env: Env, s: seq<Index>, n: nat, k: nat, line: byte, x: byte, shown: Rgb, zero: Rgb)
    requires line < HEIGHT && n <= k < |s| && Paint(env, s[..n], line, x, shown, zero) == zero
    requires forall q | n <= q < |s| && Opaque(env, s[q], line, x) :: BehindBackground(env, s[q])
    requires forall q | n <= q < k && Opaque(env, s[q], line, x) ::
               SpriteColor(env, s[q], line, x + 8 - X(env, s[q])) == zero
    requires Opaque(env, s[k], line, x) && SpriteColor(env, s[k], line, x + 8 - X(env, s[k])) != zero
    ensures Paint(env, s, line, x, shown, zero) == SpriteColor(env, s[k], line, x + 8 - X(env, s[k]))
  {
    ShowsAt(env, s, n, k, line, x, shown, zero);
    HiddenAfter(env, s, k + 1, line, x, shown, zero);
  }

  lemma ShowsAt(env: Env, s: seq<Index>, n: nat, k: nat, line: byte, x: byte, shown: Rgb, zero: Rgb)
    requires line < HEIGHT && n <= k < |s| && Paint(env, s[..n], line, x, shown, zero) == zero
    requires forall q | n <= q < k && Opaque(env, s[q], line, x) ::
               SpriteColor(env, s[q], line, x + 8 - X(env, s[q])) == zero
    requires Opaque(env, s[k], line, x)
    ensures Paint(env, s[..k + 1], line, x, shown, zero) == SpriteColor(env, s[k], line, x + 8 - X(env, s[k]))
  {
    SameUpTo(env, s, n, k, line, x, shown, zero);
    PaintOneMore(env, s, k, line, x, shown, zero);
    PaintOverZero(env, s[k], line, x, zero);
  }

  lemma PaintOverZero(env: Env, i: Index, line: byte, x: byte, zero: Rgb)
    requires line < HEIGHT && Opaque(env, i, line, x)
    ensures PaintOne(env, i, line, x, zero, zero) == SpriteColor(env, i, line, x + 8 - X(env, i))
  {
  }

  lemma SameUpTo(env: Env, s: seq<Index>, n: nat, k: nat, line: byte, x: byte, shown: Rgb, zero: Rgb)
    requires line < HEIGHT && n <= k <= |s| && Paint(env, s[..n], line, x, shown, zero) == zero
    requires forall q | n <= q < k && Opaque(env, s[q], line, x) ::
               SpriteColor(env, s[q], line, x + 8 - X(env, s[q])) == zero
    ensures Paint(env, s[..k], line, x, shown, zero) == zero
  {
    assert s[..k][..n] == s[..n];
    SameAfter(env, s[..k], n, line, x, shown, zero);
  }

  /** What a pixel ends as, whatever the flags: the last front sprite, or the background without one; but
      where that equals the recorded colour, the first later sprite behind the background of another
      colour shows through. */
  lemma PixelIsFrontOrPeek(env: Env, line: byte, x: byte, front: Option<Index>, peek: Option<Index>, shown: Rgb, zero: Rgb)
    requires line < HEIGHT && IsFront(env, front, line, x) && IsPeek(env, front, peek, line, x, zero)
    ensures Paint(env, Order(env, line), line, x, shown, zero) == Decided(env, line, x, front, peek, shown, zero)
  {
    var s := Order(env, line);
    OrderIsTheSortedVisibleSprites(env, line, s);
    var n := PlaceAfterFront(env, s, line, x, front);
    BehindAfterFront(env, s, n, line, x, front);
    PaintedFront(env, s, n, line, x, front, shown, zero);
    PaintedRest(env, s, n, line, x, front, peek, shown, zero);
  }

  /** The colour that this is. */
  function Decided(env: Env, line: byte, x: byte, front: Option<Index>, peek: Option<Index>, shown: Rgb, zero: Rgb): Rgb
    requires line < HEIGHT && (front.Some? ==> Opaque(env, front.value, line, x))
    requires peek.Some? ==> Opaque(env, peek.value, line, x)
  {
    var base := Base(env, front, line, x, shown);
    if base != zero then base
    else match peek case None => zero case Some(p) => SpriteColor(env, p, line, x + 8 - X(env, p))
  }

  ghost predicate Lists(env: Env, s: seq<Index>, line: byte) {
    Ascending(env, s) && forall i: Index :: i in s <==> IsVisible(env, i, line)
  }

  /** `n` is the place in the order after the front sprite. */
  predicate AfterFront(s: seq<Index>, n: nat, front: Option<Index>) {
    n <= |s| && match front case None => n == 0 case Some(f) => n > 0 && s[n - 1] == f
  }

  lemma PlaceAfterFront(env: Env, s: seq<Index>, line: byte, x: byte, front: Option<Index>) returns (n: nat)
    requires line < HEIGHT && IsFront(env, front, line, x) && Lists(env, s, line)
    ensures AfterFront(s, n, front)
  {
    n := 0;
    if front.Some? {
      assert front.value in s;
      var p :| 0 <= p < |s| && s[p] == front.value;
      n := p + 1;
    }
  }

  lemma BehindAfterFront(env: Env, s: seq<Index>, n: nat, line: byte, x: byte, front: Option<Index>)
    requires line < HEIGHT && IsFront(env, front, line, x) && Lists(env, s, line) && AfterFront(s, n, front)
    ensures forall q | n <= q < |s| && Opaque(env, s[q], line, x) :: BehindBackground(env, s[q])
  {
    forall q | n <= q < |s| && Opaque(env, s[q], line, x) ensures BehindBackground(env, s[q]) {
      if !BehindBackground(env, s[q]) {
        assert InFront(env, s[q], line, x);
        assert Before(env, s[n - 1], s[q]);
        BeforeIsStrictTotalOrder(env, front.value, s[q], front.value);
      }
    }
  }

  lemma PaintedFront(env: Env, s: seq<Index>, n: nat, line: byte, x: byte, front: Option<Index>, shown: Rgb, zero: Rgb)
    requires line < HEIGHT && IsFront(env, front, line, x) && AfterFront(s, n, front)
    ensures Paint(env, s[..n], line, x, shown, zero) == Base(env, front, line, x, shown)
  {
    if front.Some? {
      PaintOneMore(env, s, n - 1, line, x, shown, zero);
    } else {
      assert s[..n] == [];
    }
  }

  lemma PaintedRest(env: Env, s: seq<Index>, n: nat, line: byte, x: byte, front: Option<Index>, peek: Option<Index>,
                    shown: Rgb, zero: Rgb)
    requires line < HEIGHT && IsFront(env, front, line, x) && IsPeek(env, front, peek, line, x, zero)
    requires Lists(env, s, line) && AfterFront(s, n, front)
    requires forall q | n <= q < |s| && Opaque(env, s[q], line, x) :: BehindBackground(env, s[q])
    requires Paint(env, s[..n], line, x, shown, zero) == Base(env, front, line, x, shown)
    ensures Paint(env, s, line, x, shown, zero) == Decided(env, line, x, front, peek, shown, zero)
  {
    if Base(env, front, line, x, shown) != zero {
      HiddenAfter(env, s, n, line, x, shown, zero);
    } else {
      match peek
      case None => NoPeek(env, s, n, line, x, front, shown, zero);
      case Some(p) => SomePeek(env, s, n, line, x, front, p, shown, zero);
    }
  }

  lemma NoPeek(env: Env, s: seq<Index>, n: nat, line: byte, x: byte, front: Option<Index>, shown: Rgb, zero: Rgb)
    requires line < HEIGHT && IsPeek(env, front, None, line, x, zero) && Lists(env, s, line) && AfterFront(s, n, front)
    requires forall q | n <= q < |s| && Opaque(env, s[q], line, x) :: BehindBackground(env, s[q])
    requires Paint(env, s[..n], line, x, shown, zero) == zero
    ensures Paint(env, s, line, x, shown, zero) == zero
  {
    var k := PlaceOfPeek(env, s, n, line, x, front, None, zero);
    assert k == |s|;
    SameAfter(env, s, n, line, x, shown, zero);
  }

  lemma SomePeek(env: Env, s: seq<Index>, n: nat, line: byte, x: byte, front: Option<Index>, p: Index, shown: Rgb, zero: Rgb)
    requires line < HEIGHT && IsPeek(env, front, Some(p), line, x, zero) && Lists(env, s, line) && AfterFront(s, n, front)
    requires forall q | n <= q < |s| && Opaque(env, s[q], line, x) :: BehindBackground(env, s[q])
    requires Paint(env, s[..n], line, x, shown, zero) == zero
    ensures Paint(env, s, line, x, shown, zero) == SpriteColor(env, p, line, x + 8 - X(env, p))
  {
    var k := PlaceOfPeek(env, s, n, line, x, front, Some(p), zero);
    assert s[k] == p && Peeks(env, front, p, line, x, zero);
    PeekAfter(env, s, n, k, line, x, shown, zero);
  }

  /** The place of the sprite that shows through, the end of the order if there is none. */
  lemma PlaceOfPeek(env: Env, s: seq<Index>, n: nat, line: byte, x: byte, front: Option<Index>, peek: Option<Index>, zero: Rgb)
    returns (k: nat)
    requires line < HEIGHT && n <= |s| && IsPeek(env, front, peek, line, x, zero)
    requires Lists(env, s, line) && AfterFront(s, n, front)
    requires forall q | n <= q < |s| && Opaque(env, s[q], line, x) :: BehindBackground(env, s[q])
    ensures n <= k <= |s| && (k < |s| <==> peek.Some?) && (k < |s| ==> s[k] == peek.value)
    ensures forall q | n <= q < k && Opaque(env, s[q], line, x) ::
              SpriteColor(env, s[q], line, x + 8 - X(env, s[q])) == zero
  {
    k := |s|;
    if peek.Some? {
      k :| 0 <= k < |s| && s[k] == peek.value;
      if k < n { BeforeIsStrictTotalOrder(env, s[k], front.value, s[k]); }
    }
    forall q | n <= q < k && Opaque(env, s[q], line, x)
      ensures SpriteColor(env, s[q], line, x + 8 - X(env, s[q])) == zero
    {
      if !(SpriteColor(env, s[q], line, x + 8 - X(env, s[q])) == zero) {
        assert front.Some? ==> Before(env, s[n - 1], s[q]);
        assert Peeks(env, front, s[q], line, x, zero);
        if peek.Some? { BeforeIsStrictTotalOrder(env, s[q], s[k], s[q]); }
      }
    }
  }

  /** The promise with priority flags: the sprite that the comparator puts first shows exactly where it
      has the colour of the one that decides the pixel, or of the background if none does. */
  lemma WhenFirstShows(env: Env, line: byte, x: byte, first: Index, front: Option<Index>, peek: Option<Index>,
                       shown: Rgb, zero: Rgb)
    requires line < HEIGHT && FirstOpaque(env, first, line, x)
    requires IsFront(env, front, line, x) && IsPeek(env, front, peek, line, x, zero)
    ensures Paint(env, Order(env, line), line, x, shown, zero) == SpriteColor(env, first, line, x + 8 - X(env, first))
            <==>
            SpriteColor(env, first, line, x + 8 - X(env, first)) == Decided(env, line, x, front, peek, shown, zero)
  {
    PixelIsFrontOrPeek(env, line, x, front, peek, shown, zero);
  }

  const RED := Rgb(255, 0, 0, 255)
  const BLUE := Rgb(0, 0, 255, 255)
  const REDS: Palette := [RED, RED, RED, RED]
  const BLUES: Palette := [BLUE, BLUE, BLUE, BLUE]

  /** Tile rows filled with pixel value 3. */
  function FullTiles(): (s: seq<bv8>)
    ensures |s| == VRAM_SIZE && forall k | 0 <= k < VRAM_SIZE :: s[k] == 0xFF
  {
    seq(VRAM_SIZE, _ => 0xFF)
  }

  /** A red sprite at address 0xFE00 and a blue one at 0xFE04, both in the top left corner. */
  function Corner(): (env: Env)
    ensures env.cgb && env.control == 0x82 && env.vram[0] == FullTiles()
    ensures env.spritePalettes[0] == REDS && env.spritePalettes[1] == BLUES
    ensures env.oam[..8] == [16, 8, 0, 0, 16, 8, 0, 1] && forall k | 8 <= k < 160 :: env.oam[k] == 0
  {
    EnvData(0x82, 0, 0, 0, 0, 0, 0, 0, true, [FullTiles(), FullTiles()],
            [16, 8, 0, 0, 16, 8, 0, 1] + Zeros(152),
            seq(8, _ => NO_PALETTE), [REDS, BLUES] + seq(6, _ => NO_PALETTE))
  }

  lemma FullRow(k: nat)
    requires k < 8
    ensures PixelValue(TileRow(0xFF, 0xFF), k) == 3
  {
    assert k in {0, 1, 2, 3, 4, 5, 6, 7};
  }

  /** A sprite in the top left corner made of full tiles. */
  lemma FullTileIsOpaque(env: Env, i: Index, color: Rgb, line: byte, x: byte)
    requires env.cgb && env.control & 0x04 == 0 && color.alpha != 0 && env.vram[0] == FullTiles()
    requires Y(env, i) == 16 && X(env, i) == 8 && TileNumber(env, i) == 0 && line < 8 && x < 8
    requires Flags(env, i) & 0xF8 == 0 && env.spritePalettes[Low3(Flags(env, i))] == [color, color, color, color]
    ensures Opaque(env, i, line, x) && SpriteColor(env, i, line, x + 8 - X(env, i)) == color
    ensures !BehindBackground(env, i)
  {
    assert SpriteTileRow(env, i, SpriteRow(env, i, line)) == TileRow(0xFF, 0xFF);
    FullRow(x);
    FullRow(7 - x);
  }

  lemma CornerBytes(env: Env, head: seq<bv8>)
    requires head == env.oam[..8] == [16, 8, 0, 0, 16, 8, 0, 1]
    ensures Y(env, 0) == 16 && X(env, 0) == 8 && TileNumber(env, 0) == 0 && Flags(env, 0) == 0
    ensures Y(env, 1) == 16 && X(env, 1) == 8 && TileNumber(env, 1) == 0 && Flags(env, 1) == 1
  {
    assert env.oam[0] == head[0] && env.oam[1] == head[1] && env.oam[2] == head[2] && env.oam[3] == head[3];
    assert env.oam[4] == head[4] && env.oam[5] == head[5] && env.oam[6] == head[6] && env.oam[7] == head[7];
  }

  lemma CornerSprites(env: Env, line: byte, x: byte)
    requires env == Corner() && line < 8 && x < 8
    ensures Opaque(env, 0, line, x) && SpriteColor(env, 0, line, x + 8 - X(env, 0)) == RED
    ensures Opaque(env, 1, line, x) && SpriteColor(env, 1, line, x + 8 - X(env, 1)) == BLUE
    ensures !BehindBackground(env, 0) && !BehindBackground(env, 1)
  {
    CornerBytes(env, env.oam[..8]);
    FullTileIsOpaque(env, 0, RED, line, x);
    FullTileIsOpaque(env, 1, BLUE, line, x);
  }

  lemma CornerIsEmptyElsewhere(env: Env, i: Index, line: byte, x: byte)
    requires env == Corner() && i > 1 && line < HEIGHT
    ensures !Opaque(env, i, line, x)
  {
    assert env.oam[4 * i] == 0;
    assert Y(env, i) == 0;
  }

  /** The promise fails in CGB mode: all over the corner the sprite of higher address shows. */
  lemma LowerAddressLosesInCorner(env: Env, line: byte, x: byte, shown: Rgb, zero: Rgb)
    requires env == Corner() && line < 8 && x < 8
    ensures Opaque(env, 0, line, x) && SpriteColor(env, 0, line, x + 8 - X(env, 0)) == RED
    ensures Paint(env, Order(env, line), line, x, shown, zero) == BLUE
  {
    CornerSprites(env, line, x);
    forall j: Index | Opaque(env, j, line, x) ensures j == 0 || j == 1 {
      if j > 1 { CornerIsEmptyElsewhere(env, j, line, x); }
    }
    assert Before(env, 0, 1);
    assert LastOpaque(env, 1, line, x);
    LastOpaqueWins(env, 1, line, x, shown, zero);
  }

  /** A DMG screen: a black sprite at the left edge, and a white one of higher address a pixel to the
      right of it. */
  function Overlap(): (env: Env)
    ensures !env.cgb && env.control == 0x82 && env.vram[0] == FullTiles()
    ensures env.obp0 == 0xFF && env.obp1 == 0x00
    ensures env.oam[..8] == [16, 8, 0, 0, 16, 9, 0, 0x10] && forall k | 8 <= k < 160 :: env.oam[k] == 0
  {
    EnvData(0x82, 0, 0xFF, 0x00, 0, 0, 0, 0, false, [FullTiles(), FullTiles()],
            [16, 8, 0, 0, 16, 9, 0, 0x10] + Zeros(152),
            seq(8, _ => NO_PALETTE), seq(8, _ => NO_PALETTE))
  }

  const BLACK := Rgb(0, 0, 0, 0xFF)
  const WHITE := Rgb(255, 255, 255, 0xFF)

  lemma OverlapBytes(env: Env, head: seq<bv8>)
    requires head == env.oam[..8] == [16, 8, 0, 0, 16, 9, 0, 0x10]
    ensures Y(env, 0) == 16 && X(env, 0) == 8 && TileNumber(env, 0) == 0 && Flags(env, 0) == 0
    ensures Y(env, 1) == 16 && X(env, 1) == 9 && TileNumber(env, 1) == 0 && Flags(env, 1) == 0x10
  {
    assert env.oam[0] == head[0] && env.oam[1] == head[1] && env.oam[2] == head[2] && env.oam[3] == head[3];
    assert env.oam[4] == head[4] && env.oam[5] == head[5] && env.oam[6] == head[6] && env.oam[7] == head[7];
  }

  /** Value 3 selects the darkest colour through a palette register of ones, the lightest through zeros. */
  lemma ShadeOfThree()
    ensures Shade(Some(0xFF), 3) == 3 && Shade(Some(0x00), 3) == 0
  {
  }

  /** A full tile of a DMG sprite in the top row of the screen. */
  lemma FullDmgTile(env: Env, i: Index, line: byte, x: byte)
    requires !env.cgb && env.control & 0x04 == 0 && env.vram[0] == FullTiles() && line < 8
    requires Y(env, i) == 16 && 0 < X(env, i) < WIDTH + 8 && X(env, i) <= x + 8 < X(env, i) + 8 && TileNumber(env, i) == 0
    requires Flags(env, i) & 0xE0 == 0
    ensures Opaque(env, i, line, x) && !BehindBackground(env, i)
    ensures SpriteColor(env, i, line, x + 8 - X(env, i)) ==
            DMG_PALETTE[Shade(Some(if Flags(env, i) & 0x10 != 0 then env.obp1 else env.obp0), 3)]
  {
    assert SpriteTileRow(env, i, SpriteRow(env, i, line)) == TileRow(0xFF, 0xFF);
    FullRow(x + 8 - X(env, i));
  }

  lemma OverlapSprites(env: Env, line: byte, x: byte)
    requires env == Overlap() && line < 8 && 1 <= x < 8
    ensures Opaque(env, 0, line, x) && SpriteColor(env, 0, line, x + 8 - X(env, 0)) == BLACK
    ensures Opaque(env, 1, line, x) && SpriteColor(env, 1, line, x + 8 - X(env, 1)) == WHITE
    ensures !BehindBackground(env, 1) && Before(env, 0, 1)
  {
    OverlapBytes(env, env.oam[..8]);
    FullDmgTile(env, 0, line, x);
    FullDmgTile(env, 1, line, x);
    ShadeOfThree();
  }

  lemma OverlapIsEmptyElsewhere(env: Env, i: Index, line: byte, x: byte)
    requires env == Overlap() && i > 1 && line < HEIGHT
    ensures !Opaque(env, i, line, x)
  {
    assert env.oam[4 * i] == 0;
    assert Y(env, i) == 0;
  }

  /** The promise fails in DMG mode too: where the sprites overlap the one farther right shows, although
      the one farther left also has the lower address. */
  lemma LeftSpriteLosesInOverlap(env: Env, line: byte, x: byte, shown: Rgb, zero: Rgb)
    requires env == Overlap() && line < 8 && 1 <= x < 8
    ensures FirstOpaque(env, 0, line, x) && SpriteColor(env, 0, line, x + 8 - X(env, 0)) == BLACK
    ensures Paint(env, Order(env, line), line, x, shown, zero) == WHITE
  {
    OverlapSprites(env, line, x);
    forall j: Index | Opaque(env, j, line, x) ensures j == 0 || j == 1 {
      if j > 1 { OverlapIsEmptyElsewhere(env, j, line, x); }
    }
    assert LastOpaque(env, 1, line, x);
    LastOpaqueWins(env, 1, line, x, shown, zero);
  }
}
