/** One scanline as a whole: background, window and sprites over the two pixel buffers. */
module Scanline {
  import opened Bytes
  import opened GpuState
  import opened Background
  import opened Sprites

  /** The priority colour and the colour of a pixel after its line is drawn. */
  function DrawnZero(env: Env, line: byte, x: byte, zero: Rgb): Rgb {
    if env.control & 0x01 != 0 then PriorityColor(env, x, line) else zero
  }

  function DrawnColor(env: Env, line: byte, x: byte, shown: Rgb, zero: Rgb): Rgb
    requires line < HEIGHT
  {
    var under := if env.control & 0x01 != 0 then BackgroundPixel(env, x, line) else shown;
    if env.control & 0x02 != 0
    then Paint(env, Order(env, line), line, x, under, DrawnZero(env, line, x, zero)) else under
  }

  type Buffer = b: seq<Rgb> | |b| == PIXELS witness seq(PIXELS, _ => BLANK)

  function BlankBuffer(): (b: Buffer)
    ensures forall i | 0 <= i < PIXELS :: b[i] == BLANK
  {
    seq(PIXELS, _ => BLANK)
  }

  function DrawnBuffer(env: Env, line: byte, buffer: Buffer, bg: Buffer): (b: Buffer)
    requires line < HEIGHT
    ensures forall i | 0 <= i < PIXELS && i / WIDTH != line :: b[i] == buffer[i]
    ensures forall i | 0 <= i < PIXELS && i / WIDTH == line ::
              b[i] == DrawnColor(env, line, i % WIDTH, buffer[i], bg[i])
  {
    seq(PIXELS, i requires 0 <= i < PIXELS =>
      if i / WIDTH == line then DrawnColor(env, line, i % WIDTH, buffer[i], bg[i]) else buffer[i])
  }

  function DrawnBg(env: Env, line: byte, bg: Buffer): (b: Buffer)
    requires line < HEIGHT
    ensures forall i | 0 <= i < PIXELS ::
              b[i] == if i / WIDTH == line then DrawnZero(env, line, i % WIDTH, bg[i]) else bg[i]
  {
    seq(PIXELS, i requires 0 <= i < PIXELS =>
      if i / WIDTH == line then DrawnZero(env, line, i % WIDTH, bg[i]) else bg[i])
  }

  /** `GPU::draw` over the two buffers. */
  method DrawLine(env: Env, line: byte, buffer: array<Rgb>, bg: array<Rgb>)
    requires line < HEIGHT && buffer != bg && buffer.Length == PIXELS && bg.Length == PIXELS
    modifies buffer, bg
    ensures buffer[..] == DrawnBuffer(env, line, old(buffer[..]), old(bg[..]))
    ensures bg[..] == DrawnBg(env, line, old(bg[..]))
  {
    ghost var shown, zero := buffer[..], bg[..];
    DrawBackground(env, line, buffer, bg);
    ghost var under := buffer[..];
    BackgroundOfLine(env, line, shown, under, zero, bg[..]);
    DrawSprites(env, line, buffer, bg);
    SpritesOfLine(env, line, shown, under, buffer[..], zero, bg[..]);
  }

  lemma BackgroundOfLine(env: Env, line: byte, shown: Buffer, under: Buffer, zero: Buffer, bg: Buffer)
    requires line < HEIGHT
    requires env.control & 0x01 == 0 ==> under == shown && bg == zero
    requires env.control & 0x01 != 0 ==>
               LineDrawn(line, shown, under, BackgroundLine(env, line)) &&
               LineDrawn(line, zero, bg, PriorityLine(env, line))
    ensures bg == DrawnBg(env, line, zero)
    ensures forall i | 0 <= i < PIXELS ::
              under[i] == if i / WIDTH == line && env.control & 0x01 != 0
                          then BackgroundPixel(env, i % WIDTH, line) else shown[i]
  {
    var b := DrawnBg(env, line, zero);
    forall i | 0 <= i < PIXELS
      ensures bg[i] == b[i]
      ensures under[i] == if i / WIDTH == line && env.control & 0x01 != 0
                          then BackgroundPixel(env, i % WIDTH, line) else shown[i]
    {
    }
  }

  lemma SpritesOfLine(env: Env, line: byte, shown: Buffer, under: Buffer, after: Buffer, zero: Buffer, bg: Buffer)
    requires line < HEIGHT && bg == DrawnBg(env, line, zero)
    requires forall i | 0 <= i < PIXELS ::
               under[i] == if i / WIDTH == line && env.control & 0x01 != 0
                           then BackgroundPixel(env, i % WIDTH, line) else shown[i]
    requires env.control & 0x02 == 0 ==> after == under
    requires env.control & 0x02 != 0 ==>
               LineDrawn(line, under, after, PaintedLine(env, Order(env, line), line, under, bg))
    ensures after == DrawnBuffer(env, line, shown, zero)
  {
    var b := DrawnBuffer(env, line, shown, zero);
    forall i | 0 <= i < PIXELS
      ensures after[i] == b[i]
    {
      if i / WIDTH == line {
        assert b[i] == DrawnColor(env, line, i % WIDTH, shown[i], zero[i]);
        SpritePixel(env, line, i, under, after, bg);
        assert bg[i] == DrawnZero(env, line, i % WIDTH, zero[i]);
      } else {
        assert b[i] == shown[i];
      }
    }
  }

  lemma SpritePixel(env: Env, line: byte, i: nat, under: Buffer, after: Buffer, bg: Buffer)
    requires line < HEIGHT && i < PIXELS && i / WIDTH == line
    requires env.control & 0x02 == 0 ==> after == under
    requires env.control & 0x02 != 0 ==>
               LineDrawn(line, under, after, PaintedLine(env, Order(env, line), line, under, bg))
    ensures after[i] == if env.control & 0x02 != 0
                        then Paint(env, Order(env, line), line, i % WIDTH, under[i], bg[i]) else under[i]
  {
    var x: byte := i % WIDTH;
    assert line * WIDTH + x == i;
    if env.control & 0x02 != 0 {
      var f := PaintedLine(env, Order(env, line), line, under, bg);
      assert after[line * WIDTH + x] == f(x);
      assert f(x) == Paint(env, Order(env, line), line, x, under[i], bg[i]);
    }
  }
}
