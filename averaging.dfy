/** `OptimizedConverter` (src/image/converter.rs): the nearest-colour converter plus optional
    block averaging. The image is cut into `w` x `h` blocks starting at (0, 0) and clipped at the
    right and bottom edges; each block's channels are averaged with integer division, the average
    is matched once, and the whole block is filled with the match. */
module Averaging {
  import opened Wrappers
  import opened Types
  import opened Errors
  import opened Image
  import opened Converter

  /** Running channel sums and the number of pixels summed (the source's `u32` accumulators,
      unbounded here). */
  datatype Totals = Totals(r: int, g: int, b: int, a: int, count: int)

  const Zero := Totals(0, 0, 0, 0, 0)

  /** Every sum is non-negative and every channel sum at most 255 per pixel. */
  predicate Bounded(t: Totals)
  {
    0 <= t.count && 0 <= t.r && 0 <= t.g && 0 <= t.b && 0 <= t.a &&
    t.r <= 255 * t.count && t.g <= 255 * t.count && t.b <= 255 * t.count && t.a <= 255 * t.count
  }

  function Plus(s: Totals, t: Totals): Totals
  {
    Totals(s.r + t.r, s.g + t.g, s.b + t.b, s.a + t.a, s.count + t.count)
  }

  function AddPixel(t: Totals, p: Rgba): Totals
  {
    Totals(t.r + p.r, t.g + p.g, t.b + p.b, t.a + p.a, t.count + 1)
  }

  /** Length of the half-open range `lo..hi`; empty when `hi <= lo`. */
  function Span(lo: int, hi: int): nat
  {
    if hi <= lo then 0 else hi - lo
  }

  /** The sums over pixels `x0 <= x < x1` of row `y`. */
  function RowTotals(img: array2<Rgba>, y: nat, x0: nat, x1: nat): (t: Totals)
    requires y < img.Length1 && (x1 <= img.Length0 || x1 <= x0)
    reads img
    decreases x1
  {
    if x1 <= x0 then Zero
    else AddPixel(RowTotals(img, y, x0, x1 - 1), img[x1 - 1, y])
  }

  /** The sums over the block `x0 <= x < x1`, `y0 <= y < y1`, row by row. */
  function BlockTotals(img: array2<Rgba>, x0: nat, x1: nat, y0: nat, y1: nat): (t: Totals)
    requires (x1 <= img.Length0 || x1 <= x0) && (y1 <= img.Length1 || y1 <= y0)
    reads img
    decreases y1
  {
    if y1 <= y0 then Zero
    else Plus(BlockTotals(img, x0, x1, y0, y1 - 1), RowTotals(img, y1 - 1, x0, x1))
  }

  /** A row's sums count its pixels and stay within 255 per pixel. */
  lemma {:induction false} RowBounded(img: array2<Rgba>, y: nat, x0: nat, x1: nat)
    requires y < img.Length1 && (x1 <= img.Length0 || x1 <= x0)
    ensures RowTotals(img, y, x0, x1).count == Span(x0, x1)
    ensures Bounded(RowTotals(img, y, x0, x1))
    decreases x1
  {
    if x0 < x1 {
      RowBounded(img, y, x0, x1 - 1);
    }
  }

  /** A block's sums stay within 255 per pixel. */
  lemma {:induction false} BlockBounded(img: array2<Rgba>, x0: nat, x1: nat, y0: nat, y1: nat)
    requires (x1 <= img.Length0 || x1 <= x0) && (y1 <= img.Length1 || y1 <= y0)
    ensures Bounded(BlockTotals(img, x0, x1, y0, y1))
    decreases y1
  {
    if y0 < y1 {
      BlockBounded(img, x0, x1, y0, y1 - 1);
      RowBounded(img, y1 - 1, x0, x1);
    }
  }

  /** A block's pixel count is its width times its height. */
  lemma {:induction false} BlockCount(img: array2<Rgba>, x0: nat, x1: nat, y0: nat, y1: nat)
    requires (x1 <= img.Length0 || x1 <= x0) && (y1 <= img.Length1 || y1 <= y0)
    ensures BlockTotals(img, x0, x1, y0, y1).count == Span(x0, x1) * Span(y0, y1)
    decreases y1
  {
    if y0 < y1 {
      BlockCount(img, x0, x1, y0, y1 - 1);
      RowBounded(img, y1 - 1, x0, x1);
      assert Span(y0, y1) == Span(y0, y1 - 1) + 1;
      assert Span(x0, x1) * Span(y0, y1) == Span(x0, x1) * Span(y0, y1 - 1) + Span(x0, x1);
    }
  }

  lemma DivBound(total: int, count: int)
    requires 0 < count && 0 <= total <= 255 * count
    ensures 0 <= total / count <= 255
  {
  }

  lemma MulMonoNat(a: nat, b: nat, c: nat)
    requires a <= b
    ensures a * c <= b * c
  {
  }

  /** The cast `as u8`: the low eight bits. */
  function AsU8(n: int): (b: byte)
    ensures 0 <= n <= 255 ==> b == n
  {
    n % 256
  }

  /** The per-channel average with integer division, each quotient cast `as u8`, or all zeros for
      an empty block. */
  function AverageOf(t: Totals): (p: Rgba)
    ensures t.count == 0 ==> p == Rgba(0, 0, 0, 0)
  {
    if t.count > 0 then
      Rgba(AsU8(t.r / t.count), AsU8(t.g / t.count), AsU8(t.b / t.count), AsU8(t.a / t.count))
    else
      Rgba(0, 0, 0, 0)
  }

  /** The casts never truncate: the average of bytes is a byte, so each channel is the exact
      rounded-down quotient. */
  lemma AverageExact(t: Totals)
    requires Bounded(t) && t.count > 0
    ensures AverageOf(t).r == t.r / t.count && AverageOf(t).g == t.g / t.count
    ensures AverageOf(t).b == t.b / t.count && AverageOf(t).a == t.a / t.count
  {
    DivBound(t.r, t.count);
    DivBound(t.g, t.count);
    DivBound(t.b, t.count);
    DivBound(t.a, t.count);
  }

  /** The start of the block, of size `w`, that holds coordinate `v`. */
  function BlockStart(v: nat, w: nat): (s: nat)
    requires w >= 1
    ensures s <= v < s + w
  {
    DivMod(v, w);
    (v / w) * w
  }

  lemma DivMod(v: nat, w: nat)
    requires w >= 1
    ensures (v / w) * w <= v < (v / w) * w + w
  {
    assert v == (v / w) * w + v % w;
  }

  /** A block start is the start of the block of every coordinate inside the block. */
  lemma {:induction false} BlockStartInside(start: nat, v: nat, w: nat, q: nat)
    requires w >= 1 && start == q * w && start <= v < start + w
    ensures BlockStart(v, w) == start
  {
    var d := v / w;
    DivMod(v, w);
    if d < q {
      MulMonoNat(d + 1, q, w);
    } else if d > q {
      MulMonoNat(q + 1, d, w);
    }
  }

  /** The sums a summing loop keeps: all four channels, or only the colour channels with the
      alpha sum left at 0. */
  function Kept(t: Totals, withAlpha: bool): Totals
  {
    if withAlpha then t else t.(a := 0)
  }

  /** Leaving out the alpha sum commutes with adding sums. */
  lemma KeptPlus(s: Totals, t: Totals, withAlpha: bool)
    ensures Kept(Plus(s, t), withAlpha) == Plus(Kept(s, withAlpha), Kept(t, withAlpha))
  {
  }

  /** The inner `for x in start_x..end_x` loop of both averaging functions: row `y`'s pixels
      added to `sums`, alpha only when the image has it. */
  method SumRow(img: array2<Rgba>, y: nat, x0: nat, x1: nat, sums: Totals, withAlpha: bool) returns (total: Totals)
    requires y < img.Length1 && x1 <= img.Length0
    ensures total == Plus(sums, Kept(RowTotals(img, y, x0, x1), withAlpha))
  {
    total := sums;
    var x := x0;
    while x < x1
      invariant x0 <= x <= if x1 < x0 then x0 else x1
      invariant total == Plus(sums, Kept(RowTotals(img, y, x0, x), withAlpha))
    {
      var pixel := img[x, y];
      var alpha := if withAlpha then total.a + pixel.a else total.a;
      total := Totals(total.r + pixel.r, total.g + pixel.g, total.b + pixel.b, alpha, total.count + 1);
      x := x + 1;
    }
    if x != x1 {
      assert RowTotals(img, y, x0, x) == Zero == RowTotals(img, y, x0, x1);
    }
  }

  /** The outer `for y in start_y..end_y` loop: the sums over the block `x0 <= x < x1`,
      `y0 <= y < y1`. */
  method SumBlock(img: array2<Rgba>, x0: nat, x1: nat, y0: nat, y1: nat, withAlpha: bool) returns (sums: Totals)
    requires x1 <= img.Length0 && y1 <= img.Length1
    ensures sums == Kept(BlockTotals(img, x0, x1, y0, y1), withAlpha)
  {
    sums := Zero;
    var y := y0;
    while y < y1
      invariant y0 <= y <= if y1 < y0 then y0 else y1
      invariant sums == Kept(BlockTotals(img, x0, x1, y0, y), withAlpha)
    {
      ghost var before := BlockTotals(img, x0, x1, y0, y);
      ghost var row := RowTotals(img, y, x0, x1);
      assert BlockTotals(img, x0, x1, y0, y + 1) == Plus(before, row);
      KeptPlus(before, row, withAlpha);
      sums := SumRow(img, y, x0, x1, sums, withAlpha);
      assert sums == Kept(Plus(before, row), withAlpha);
      y := y + 1;
    }
    if y != y1 {
      assert BlockTotals(img, x0, x1, y0, y) == Zero == BlockTotals(img, x0, x1, y0, y1);
    }
  }

  /** A converter with its block size and whether averaging is on. */
  datatype OptimizedConverter = OptimizedConverter(converter: NearestColorConverter, pixelArea: (u32, u32), useAveraging: bool)
  {
    predicate Valid()
    {
      converter.Valid()
    }

    /** `new`: the plain converter built from the whole palette or the selection, and the block
        size, (1, 1) when none is given. */
    static function Build(palette: Palette, selected: seq<string>, pixelArea: Option<(u32, u32)>, useAveraging: bool)
      : (r: BucketResult<OptimizedConverter>)
      requires Decodable(palette.colors)
      ensures r.Ok? ==> r.value.Valid() && r.value.useAveraging == useAveraging
      ensures r.Ok? ==> r.value.pixelArea == if pixelArea.Some? then pixelArea.value else (1, 1)
      ensures r.Ok? <==> NearestColorConverter.FromSelection(palette, selected).Ok?
      ensures r.Err? ==> r.error == NearestColorConverter.FromSelection(palette, selected).error
    {
      var converter :- NearestColorConverter.FromSelection(palette, selected);
      Ok(OptimizedConverter(converter, if pixelArea.Some? then pixelArea.value else (1, 1), useAveraging))
    }

    static method New(palette: Palette, selected: seq<string>, pixelArea: Option<(u32, u32)>, useAveraging: bool)
      returns (r: BucketResult<OptimizedConverter>)
      requires Decodable(palette.colors)
      ensures r == Build(palette, selected, pixelArea, useAveraging)
    {
      var converter: NearestColorConverter;
      if selected == [] {
        converter :- NearestColorConverter.New(palette);
      } else {
        converter :- NearestColorConverter.NewWithSelectedColors(palette, selected);
      }
      var area := if pixelArea.Some? then pixelArea.value else (1, 1);
      return Ok(OptimizedConverter(converter, area, useAveraging));
    }

    /** Whether `convert_image` averages: averaging on and a block other than (1, 1). */
    predicate Averages()
    {
      useAveraging && pixelArea != (1, 1)
    }

    /** The sums over the clipped block whose top-left pixel is (startX, startY). */
    function BlockAt(img: array2<Rgba>, startX: nat, startY: nat): (t: Totals)
      reads img
      ensures Bounded(t)
    {
      BlockBounded(img, startX, Min(startX + pixelArea.0, img.Length0), startY, Min(startY + pixelArea.1, img.Length1));
      BlockTotals(img, startX, Min(startX + pixelArea.0, img.Length0), startY, Min(startY + pixelArea.1, img.Length1))
    }

    /** `average_rgba_pixels`: the rounded-down average of the clipped block. */
    function BlockAverage(img: array2<Rgba>, startX: nat, startY: nat): Rgba
      reads img
    {
      AverageOf(BlockAt(img, startX, startY))
    }

    /** `average_pixels`: the sums of the three colour channels over the clipped block, then
        their average. */
    method AveragePixels(img: array2<Rgba>, startX: nat, startY: nat) returns (avg: Rgb)
      ensures avg == RgbOf(BlockAverage(img, startX, startY))
    {
      var width, height := img.Length0, img.Length1;
      var (areaW, areaH) := pixelArea;
      var sums := SumBlock(img, startX, Min(startX + areaW, width), startY, Min(startY + areaH, height), false);
      avg := RgbOf(AverageOf(sums));
    }

    /** `average_rgba_pixels`: as `average_pixels`, with the alpha channel summed too. */
    method AverageRgbaPixels(img: array2<Rgba>, startX: nat, startY: nat) returns (avg: Rgba)
      ensures avg == BlockAverage(img, startX, startY)
    {
      var width, height := img.Length0, img.Length1;
      var (areaW, areaH) := pixelArea;
      var sums := SumBlock(img, startX, Min(startX + areaW, width), startY, Min(startY + areaH, height), true);
      avg := AverageOf(sums);
    }

    /** The colour an averaging path writes at (x, y): the match of its block's average, with the
        block's average alpha on the RGBA path and opaque on the RGB one. */
    function BlockColor(img: array2<Rgba>, x: nat, y: nat, withAlpha: bool): Rgba
      requires Valid() && pixelArea.0 >= 1 && pixelArea.1 >= 1
      reads img
    {
      var avg := BlockAverage(img, BlockStart(x, pixelArea.0), BlockStart(y, pixelArea.1));
      var c := converter.Nearest(RgbOf(avg));
      Rgba(c.r, c.g, c.b, if withAlpha then avg.a else 255)
    }

    /** What the averaging paths produce: an image of the input's size whose every pixel holds its
        block's colour; `ImageRgba8` for the RGBA variants, `ImageRgb8` otherwise. */
    predicate AveragedByBlocks(img: DynamicImage, out: DynamicImage)
      requires Valid() && pixelArea.0 >= 1 && pixelArea.1 >= 1
      reads img.pixels, out.pixels
    {
      SameSize(out, img) &&
      out.colorType == (if TakesAlphaPath(img.colorType) then Rgba8 else Rgb8) &&
      forall x, y | 0 <= x < Width(img) && 0 <= y < Height(img) ::
        out.pixels[x, y] == BlockColor(img.pixels, x, y, TakesAlphaPath(img.colorType))
    }

    /** One pass of the outer `step_by(area_h)` loop of both averaging paths: the row of blocks
        starting at row `y`, left to right, each block averaged (with alpha on the RGBA path),
        matched once and filled. Rows outside the band are left alone. */
    method ConvertBlockRow(img: array2<Rgba>, output: array2<Rgba>, y: nat, ghost blockY: nat, withAlpha: bool)
      requires Valid() && pixelArea.0 >= 1 && pixelArea.1 >= 1
      requires output != img && output.Length0 == img.Length0 && output.Length1 == img.Length1
      requires y == blockY * pixelArea.1 && y < img.Length1
      modifies output
      ensures forall x', y' | 0 <= x' < output.Length0 && 0 <= y' < output.Length1 ::
        output[x', y'] ==
          if y <= y' < Min(y + pixelArea.1, img.Length1) then BlockColor(img, x', y', withAlpha)
          else old(output[x', y'])
    {
      var width, height := img.Length0, img.Length1;
      var (areaW, areaH) := pixelArea;
      var yEnd := Min(y + areaH, height);
      var x := 0;
      ghost var blockX := 0;
      while x < width
        invariant x == blockX * areaW
        invariant forall x', y' | 0 <= x' < width && 0 <= y' < height ::
          output[x', y'] ==
            if y <= y' < yEnd && x' < x then BlockColor(img, x', y', withAlpha) else old(output[x', y'])
      {
        ConvertBlock(img, output, x, blockX, y, blockY, withAlpha);
        x := x + areaW;
        blockX := blockX + 1;
      }
    }

    /** The body of the inner `step_by(area_w)` loop: the block at (x, y) averaged (with alpha on
        the RGBA path), matched once, and every pixel of it filled with the match. */
    method ConvertBlock(img: array2<Rgba>, output: array2<Rgba>, x: nat, ghost blockX: nat, y: nat, ghost blockY: nat,
                        withAlpha: bool)
      requires Valid() && pixelArea.0 >= 1 && pixelArea.1 >= 1
      requires output != img && output.Length0 == img.Length0 && output.Length1 == img.Length1
      requires x == blockX * pixelArea.0 && y == blockY * pixelArea.1
      modifies output
      ensures forall x', y' | 0 <= x' < output.Length0 && 0 <= y' < output.Length1 ::
        output[x', y'] ==
          if x <= x' < x + pixelArea.0 && y <= y' < y + pixelArea.1 then BlockColor(img, x', y', withAlpha)
          else old(output[x', y'])
    {
      var fill: Rgba;
      if withAlpha {
        var avgColor := AverageRgbaPixels(img, x, y);
        var converted := converter.ConvertPixel(RgbOf(avgColor));
        fill := Rgba(converted.r, converted.g, converted.b, avgColor.a);
      } else {
        var avgColor := AveragePixels(img, x, y);
        var converted := converter.ConvertPixel(avgColor);
        fill := Rgba(converted.r, converted.g, converted.b, 255);
      }
      var xEnd, yEnd := Min(x + pixelArea.0, img.Length0), Min(y + pixelArea.1, img.Length1);
      FillBlock(output, x, xEnd, y, yEnd, fill);
      forall x', y' | x <= x' < xEnd && y <= y' < yEnd
        ensures BlockColor(img, x', y', withAlpha) == fill
      {
        BlockStartInside(x, x', pixelArea.0, blockX);
        BlockStartInside(y, y', pixelArea.1, blockY);
      }
    }

    /** The row-of-blocks loop shared by `convert_rgb_with_averaging` (`withAlpha` false) and
        `convert_rgba_with_averaging` (`withAlpha` true). */
    method ConvertWithAveraging(img: DynamicImage, withAlpha: bool) returns (output: array2<Rgba>)
      requires Valid() && pixelArea.0 >= 1 && pixelArea.1 >= 1
      ensures fresh(output) && output.Length0 == Width(img) && output.Length1 == Height(img)
      ensures forall x, y | 0 <= x < Width(img) && 0 <= y < Height(img) ::
        output[x, y] == BlockColor(img.pixels, x, y, withAlpha)
    {
      var width, height := img.pixels.Length0, img.pixels.Length1;
      output := new Rgba[width, height]((_, _) => Rgba(0, 0, 0, if withAlpha then 0 else 255));
      var y := 0;
      ghost var blockY := 0;
      while y < height
        invariant y == blockY * pixelArea.1
        invariant forall x', y' | 0 <= x' < width && 0 <= y' < height && y' < y ::
          output[x', y'] == BlockColor(img.pixels, x', y', withAlpha)
      {
        ConvertBlockRow(img.pixels, output, y, blockY, withAlpha);
        y := y + pixelArea.1;
        blockY := blockY + 1;
      }
    }

    /** `convert_rgb_with_averaging`: every block matched on its colour average, an `ImageRgb8`. */
    method ConvertRgbWithAveraging(img: DynamicImage) returns (out: DynamicImage)
      requires Valid() && pixelArea.0 >= 1 && pixelArea.1 >= 1
      ensures fresh(out.pixels) && SameSize(out, img) && out.colorType == Rgb8
      ensures forall x, y | 0 <= x < Width(img) && 0 <= y < Height(img) ::
        out.pixels[x, y] == BlockColor(img.pixels, x, y, false)
    {
      var output := ConvertWithAveraging(img, false);
      out := DynamicImage(Rgb8, output);
    }

    /** `convert_rgba_with_averaging`: as the RGB path, the block's average alpha carried into
        every pixel of the block, an `ImageRgba8`. */
    method ConvertRgbaWithAveraging(img: DynamicImage) returns (out: DynamicImage)
      requires Valid() && pixelArea.0 >= 1 && pixelArea.1 >= 1
      ensures fresh(out.pixels) && SameSize(out, img) && out.colorType == Rgba8
      ensures forall x, y | 0 <= x < Width(img) && 0 <= y < Height(img) ::
        out.pixels[x, y] == BlockColor(img.pixels, x, y, true)
    {
      var output := ConvertWithAveraging(img, true);
      out := DynamicImage(Rgba8, output);
    }

    /** `convert_image`: the plain converter unless averaging is on with a block other than
        (1, 1); then the RGBA variants take the RGBA averaging path and the rest the RGB one. A
        block with a zero side makes `step_by` panic, so averaging needs both sides positive. */
    method ConvertImage(img: DynamicImage) returns (out: DynamicImage)
      requires Valid()
      requires Averages() ==> pixelArea.0 >= 1 && pixelArea.1 >= 1
      ensures fresh(out.pixels)
      ensures !Averages() ==> converter.ConvertedPerPixel(img, out)
      ensures Averages() ==> AveragedByBlocks(img, out)
    {
      if !useAveraging || pixelArea == (1, 1) {
        out := converter.ConvertImage(img);
        return;
      }
      if TakesAlphaPath(img.colorType) {
        out := ConvertRgbaWithAveraging(img);
      } else {
        out := ConvertRgbWithAveraging(img);
      }
    }

    /** `convert_image_with_alpha`: always the plain converter's alpha path. */
    method ConvertImageWithAlpha(img: DynamicImage) returns (out: DynamicImage)
      requires Valid()
      ensures fresh(out.pixels) && converter.KeptAlpha(img, out)
    {
      out := converter.ConvertImageWithAlpha(img);
    }

    /** `convert_pixel`: the plain converter's match. */
    method ConvertPixel(rgb: Rgb) returns (c: Rgb)
      requires Valid()
      ensures c == converter.Nearest(rgb)
    {
      c := converter.ConvertPixel(rgb);
    }
  }

  /** The two fill loops: every pixel of the block `x0 <= x < x1`, `y0 <= y < y1` gets `c`, and
      nothing else changes. */
  method FillBlock(output: array2<Rgba>, x0: nat, x1: nat, y0: nat, y1: nat, c: Rgba)
    requires x1 <= output.Length0 && y1 <= output.Length1
    modifies output
    ensures forall x, y | 0 <= x < output.Length0 && 0 <= y < output.Length1 ::
      output[x, y] == if x0 <= x < x1 && y0 <= y < y1 then c else old(output[x, y])
  {
    var fillY := y0;
    while fillY < y1
      invariant fillY == y0 || y0 <= fillY <= y1
      invariant forall x, y | 0 <= x < output.Length0 && 0 <= y < output.Length1 ::
        output[x, y] == if x0 <= x < x1 && y0 <= y < fillY then c else old(output[x, y])
    {
      var fillX := x0;
      while fillX < x1
        invariant fillX == x0 || x0 <= fillX <= x1
        invariant forall x, y | 0 <= x < output.Length0 && 0 <= y < output.Length1 ::
          output[x, y] == if (x0 <= x < x1 && y0 <= y < fillY) || (y == fillY && x0 <= x < fillX) then c
            else old(output[x, y])
      {
        output[fillX, fillY] := c;
        fillX := fillX + 1;
      }
      fillY := fillY + 1;
    }
  }

  /** The sums of `n` copies of `p`. */
  function Scaled(p: Rgba, n: nat): Totals
  {
    Totals(p.r * n, p.g * n, p.b * n, p.a * n, n)
  }

  /** A row of identical pixels sums to copies of that pixel. */
  lemma {:induction false} UniformRow(img: array2<Rgba>, y: nat, x0: nat, x1: nat, p: Rgba)
    requires y < img.Length1 && x1 <= img.Length0
    requires forall x | x0 <= x < x1 :: img[x, y] == p
    ensures RowTotals(img, y, x0, x1) == Scaled(p, Span(x0, x1))
    decreases x1
  {
    if x0 < x1 {
      UniformRow(img, y, x0, x1 - 1, p);
      assert img[x1 - 1, y] == p;
      ScaledOneMore(p, Span(x0, x1 - 1));
    }
  }

  lemma ScaledOneMore(p: Rgba, n: nat)
    ensures AddPixel(Scaled(p, n), p) == Scaled(p, n + 1)
  {
    ScaledAdds(p, n, 1);
  }

  /** A block of identical pixels sums to copies of that pixel, one per pixel. */
  lemma {:induction false} UniformBlock(img: array2<Rgba>, x0: nat, x1: nat, y0: nat, y1: nat, p: Rgba)
    requires x1 <= img.Length0 && y1 <= img.Length1
    requires forall x, y | x0 <= x < x1 && y0 <= y < y1 :: img[x, y] == p
    ensures BlockTotals(img, x0, x1, y0, y1) == Scaled(p, Span(x0, x1) * Span(y0, y1))
    decreases y1
  {
    if y0 < y1 {
      UniformBlock(img, x0, x1, y0, y1 - 1, p);
      UniformRow(img, y1 - 1, x0, x1, p);
      var w, h := Span(x0, x1), Span(y0, y1 - 1);
      assert Span(y0, y1) == h + 1;
      ScaledRows(p, w, h);
    }
  }

  lemma ScaledAdds(p: Rgba, m: nat, n: nat)
    ensures Plus(Scaled(p, m), Scaled(p, n)) == Scaled(p, m + n)
  {
    assert p.r * (m + n) == p.r * m + p.r * n && p.g * (m + n) == p.g * m + p.g * n;
    assert p.b * (m + n) == p.b * m + p.b * n && p.a * (m + n) == p.a * m + p.a * n;
  }

  /** One more row of `w` copies. */
  lemma ScaledRows(p: Rgba, w: nat, h: nat)
    ensures Plus(Scaled(p, w * h), Scaled(p, w)) == Scaled(p, w * (h + 1))
  {
    assert w * (h + 1) == w * h + w;
    ScaledAdds(p, w * h, w);
  }

  lemma MulDiv(a: nat, n: nat)
    requires n > 0
    ensures (a * n) / n == a
  {
    var q := (a * n) / n;
    assert a * n == q * n + (a * n) % n;
    if q < a {
      MulMonoNat(q + 1, a, n);
    } else if q > a {
      MulMonoNat(a + 1, q, n);
    }
  }

  /** Copies of one pixel average back to that pixel. */
  lemma AverageOfScaled(p: Rgba, n: nat)
    requires n > 0
    ensures AverageOf(Scaled(p, n)) == p
  {
    MulDiv(p.r, n);
    MulDiv(p.g, n);
    MulDiv(p.b, n);
    MulDiv(p.a, n);
  }

  /** Every block the averaging loops visit holds at least one pixel, so the all-zero fallback of
      an empty block never reaches the output. */
  lemma BlockNonEmpty(conv: OptimizedConverter, img: array2<Rgba>, x: nat, y: nat)
    requires conv.pixelArea.0 >= 1 && conv.pixelArea.1 >= 1 && x < img.Length0 && y < img.Length1
    ensures conv.BlockAt(img, BlockStart(x, conv.pixelArea.0), BlockStart(y, conv.pixelArea.1)).count >= 1
  {
    var sx, sy := BlockStart(x, conv.pixelArea.0), BlockStart(y, conv.pixelArea.1);
    var ex, ey := Min(sx + conv.pixelArea.0, img.Length0), Min(sy + conv.pixelArea.1, img.Length1);
    BlockCount(img, sx, ex, sy, ey);
    MulMonoNat(1, Span(sx, ex), Span(sy, ey));
  }

  /** With a 1 x 1 block every pixel is its own block: averaging gives exactly the per-pixel
      conversion, which is why `convert_image` may skip it for that size. */
  lemma UnitBlockIsPixel(conv: OptimizedConverter, img: array2<Rgba>, x: nat, y: nat, withAlpha: bool)
    requires conv.Valid() && conv.pixelArea == (1, 1) && x < img.Length0 && y < img.Length1
    ensures conv.BlockColor(img, x, y, withAlpha) ==
      if withAlpha then conv.converter.RemapKeepAlpha(img[x, y]) else conv.converter.RemapOpaque(img[x, y])
  {
    assert BlockStart(x, 1) == x && BlockStart(y, 1) == y;
    assert Min(x + 1, img.Length0) == x + 1 && Min(y + 1, img.Length1) == y + 1;
    assert RowTotals(img, y, x, x + 1) == AddPixel(Zero, img[x, y]);
    assert BlockTotals(img, x, x + 1, y, y + 1) == AddPixel(Zero, img[x, y]) == Scaled(img[x, y], 1);
    AverageOfScaled(img[x, y], 1);
  }

  /** Averaging with a 1 x 1 block and per-pixel conversion describe the same output. */
  lemma UnitBlocksConvertPerPixel(conv: OptimizedConverter, img: DynamicImage, out: DynamicImage)
    requires conv.Valid() && conv.pixelArea == (1, 1)
    ensures conv.AveragedByBlocks(img, out) <==> conv.converter.ConvertedPerPixel(img, out)
  {
    var alpha := TakesAlphaPath(img.colorType);
    forall x, y | 0 <= x < Width(img) && 0 <= y < Height(img)
      ensures conv.BlockColor(img.pixels, x, y, alpha) ==
        if alpha then conv.converter.RemapKeepAlpha(img.pixels[x, y]) else conv.converter.RemapOpaque(img.pixels[x, y])
    {
      UnitBlockIsPixel(conv, img.pixels, x, y, alpha);
    }
  }

  /** A single-colour image stays single-coloured under averaging: every block averages to that
      colour, so every pixel gets that colour's match. */
  lemma SolidImageStaysSolid(conv: OptimizedConverter, img: array2<Rgba>, p: Rgba, x: nat, y: nat, withAlpha: bool)
    requires conv.Valid() && conv.pixelArea.0 >= 1 && conv.pixelArea.1 >= 1
    requires forall i, j | 0 <= i < img.Length0 && 0 <= j < img.Length1 :: img[i, j] == p
    requires x < img.Length0 && y < img.Length1
    ensures conv.BlockColor(img, x, y, withAlpha) ==
      if withAlpha then conv.converter.RemapKeepAlpha(p) else conv.converter.RemapOpaque(p)
  {
    var sx, sy := BlockStart(x, conv.pixelArea.0), BlockStart(y, conv.pixelArea.1);
    var ex, ey := Min(sx + conv.pixelArea.0, img.Length0), Min(sy + conv.pixelArea.1, img.Length1);
    UniformBlock(img, sx, ex, sy, ey, p);
    BlockNonEmpty(conv, img, x, y);
    BlockCount(img, sx, ex, sy, ey);
    AverageOfScaled(p, Span(sx, ex) * Span(sy, ey));
  }
}
