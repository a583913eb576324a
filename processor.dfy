/** The pipeline of src/image/processor.rs: which converter a configuration builds, whether block
    averaging really runs, which blur preset is used, and the fixed order convert, then blur, then
    format. The blur itself is a call into the `image` crate and is a parameter here. */
module Processor {
  import opened Wrappers
  import opened Types
  import opened Errors
  import opened Image
  import opened Converter
  import opened Averaging

  /** `BlurConfig`: a standard deviation and a kernel radius. `f32` sigmas are held as reals. */
  datatype BlurConfig = BlurConfig(sigma: real, radius: nat)

  /** `BlurConfig::new`: the radius is three sigmas rounded up. */
  function NewBlur(sigma: real): (c: BlurConfig)
    requires sigma >= 0.0
    ensures c.sigma == sigma
    ensures (c.radius as real) - 1.0 < 3.0 * sigma <= c.radius as real
  {
    var x := 3.0 * sigma;
    var f := x.Floor;
    BlurConfig(sigma, if f as real == x then f else f + 1)
  }

  function Light(): BlurConfig { NewBlur(0.8) }
  function Moderate(): BlurConfig { NewBlur(1.2) }
  function Heavy(): BlurConfig { NewBlur(2.0) }

  /** The three presets and their radii. */
  lemma PresetRadii()
    ensures Light() == BlurConfig(0.8, 3) && Moderate() == BlurConfig(1.2, 4) && Heavy() == BlurConfig(2.0, 6)
  {
    assert (3.0 * 0.8).Floor == 2;
    assert (3.0 * 1.2).Floor == 3;
    assert (3.0 * 2.0).Floor == 6;
  }

  /** The preset `apply_blur` picks: light for an area wider or taller than 2, moderate otherwise
      (with no area as well). */
  function ChooseBlur(config: Config): (b: BlurConfig)
    ensures b == Light() || b == Moderate()
    ensures b == Light() <==>
      (config.pixelsArea.Some? && (config.pixelsArea.value.0 > 2 || config.pixelsArea.value.1 > 2))
  {
    PresetRadii();
    match config.pixelsArea
    case Some((w, h)) => if w > 2 || h > 2 then Light() else Moderate()
    case None => Moderate()
  }

  /** The boxed converter `create_converter` returns. */
  datatype ImageConverter = Plain(plain: NearestColorConverter) | Optimized(optimized: OptimizedConverter)
  {
    predicate Valid()
    {
      match this
      case Plain(c) => c.Valid()
      case Optimized(o) => o.Valid()
    }

    /** Whether `convert_image` averages blocks. */
    predicate Averages()
    {
      Optimized? && optimized.Averages()
    }

    /** The colours it matches against. */
    function Colors(): seq<Rgb>
    {
      match this
      case Plain(c) => c.paletteColors
      case Optimized(o) => o.converter.paletteColors
    }

    /** What `convert_image` of this converter produces from `img`. */
    predicate Converts(img: DynamicImage, out: DynamicImage)
      requires Valid() && (Averages() ==> optimized.pixelArea.0 >= 1 && optimized.pixelArea.1 >= 1)
      reads img.pixels, out.pixels
    {
      match this
      case Plain(c) => c.ConvertedPerPixel(img, out)
      case Optimized(o) => if o.Averages() then o.AveragedByBlocks(img, out) else o.converter.ConvertedPerPixel(img, out)
    }

    /** `convert_image` through the trait object. */
    method ConvertImage(img: DynamicImage) returns (out: DynamicImage)
      requires Valid() && (Averages() ==> optimized.pixelArea.0 >= 1 && optimized.pixelArea.1 >= 1)
      ensures fresh(out.pixels) && Converts(img, out) && SameSize(out, img)
    {
      match this
      case Plain(c) =>
        out := c.ConvertImage(img);
      case Optimized(o) =>
        out := o.ConvertImage(img);
    }
  }

  /** Whether the configuration asks for block averaging that does something: an area other than
      (1, 1) and averaging not disabled. */
  predicate AveragingRequested(config: Config)
  {
    config.pixelsArea.Some? && config.pixelsArea.value != (1, 1) && !config.disableAvgPixels
  }

  /** `create_converter`: the optimized converter when an area is given or averaging is not
      disabled, averaging on exactly when not disabled; the plain one otherwise, from the whole
      palette or the selection. */
  function ConverterFor(config: Config, palette: Palette): (r: BucketResult<ImageConverter>)
    requires Decodable(palette.colors)
    ensures r.Ok? <==> NearestColorConverter.FromSelection(palette, config.colors).Ok?
    ensures r.Err? ==> r.error == NearestColorConverter.FromSelection(palette, config.colors).error
    ensures r.Ok? ==> r.value.Valid() && r.value.Colors() == NearestColorConverter.FromSelection(palette, config.colors).value.paletteColors
    ensures r.Ok? ==> (r.value.Optimized? <==> config.pixelsArea.Some? || !config.disableAvgPixels)
    ensures r.Ok? && r.value.Optimized? ==> r.value.optimized.useAveraging == !config.disableAvgPixels
    ensures r.Ok? ==> (r.value.Averages() <==> AveragingRequested(config))
  {
    if config.pixelsArea.Some? || !config.disableAvgPixels then
      var o :- OptimizedConverter.Build(palette, config.colors, config.pixelsArea, !config.disableAvgPixels);
      Ok(Optimized(o))
    else
      var c :- NearestColorConverter.FromSelection(palette, config.colors);
      Ok(Plain(c))
  }

  method CreateConverter(config: Config, palette: Palette) returns (r: BucketResult<ImageConverter>)
    requires Decodable(palette.colors)
    ensures r == ConverterFor(config, palette)
  {
    if config.pixelsArea.Some? || !config.disableAvgPixels {
      var o :- OptimizedConverter.New(palette, config.colors, config.pixelsArea, !config.disableAvgPixels);
      return Ok(Optimized(o));
    } else {
      var c: NearestColorConverter;
      if config.colors == [] {
        c :- NearestColorConverter.New(palette);
      } else {
        c :- NearestColorConverter.NewWithSelectedColors(palette, config.colors);
      }
      return Ok(Plain(c));
    }
  }

  /** With no area given (the default), conversion is per pixel whichever converter is built. */
  lemma DefaultIsPerPixel(config: Config, palette: Palette)
    requires Decodable(palette.colors) && config.pixelsArea.None?
    ensures ConverterFor(config, palette).Ok? ==> !ConverterFor(config, palette).value.Averages()
  {
  }

  /** `apply_blur`: the chosen preset handed to the blur; it cannot fail. */
  function ApplyBlur(config: Config, img: DynamicImage, blur: (DynamicImage, BlurConfig) -> DynamicImage)
    : (r: BucketResult<DynamicImage>)
    ensures r.Ok? && r.value == blur(img, ChooseBlur(config))
  {
    Ok(blur(img, ChooseBlur(config)))
  }

  /** `preserve_format`: the processed image, whatever the original was. */
  function PreserveFormat(processed: DynamicImage, original: DynamicImage): (r: DynamicImage)
    ensures r == processed
  {
    processed
  }

  /** `process_image`: build the converter (its error is returned), convert, blur when enabled,
      then `preserve_format`. `converted` is the converter's output before the blur. The blur is a call into the `image`
      crate: the result keeps the input's width and height whenever the blur keeps those of its
      own input. */
  method ProcessImage(config: Config, img: DynamicImage, palette: Palette, blur: (DynamicImage, BlurConfig) -> DynamicImage)
    returns (r: BucketResult<DynamicImage>, ghost converter: ImageConverter, ghost converted: DynamicImage)
    requires Decodable(palette.colors)
    requires AveragingRequested(config) ==> config.pixelsArea.value.0 >= 1 && config.pixelsArea.value.1 >= 1
    ensures r.Err? <==> ConverterFor(config, palette).Err?
    ensures r.Err? ==> r.error == ConverterFor(config, palette).error
    ensures r.Ok? ==> ConverterFor(config, palette) == Ok(converter)
    ensures r.Ok? ==> converter.Converts(img, converted) && SameSize(converted, img)
    ensures r.Ok? ==> r.value == if config.enableBlur then blur(converted, ChooseBlur(config)) else converted
    ensures r.Ok? && (config.enableBlur ==> SameSize(blur(converted, ChooseBlur(config)), converted)) ==>
      SameSize(r.value, img)
  {
    var c := CreateConverter(config, palette);
    if c.Err? {
      converter, converted := Plain(NearestColorConverter([])), img;
      return Err(c.error), converter, converted;
    }
    var cv := c.value;
    converter := cv;
    var processed := cv.ConvertImage(img);
    converted := processed;
    if config.enableBlur {
      var blurred := ApplyBlur(config, processed, blur);
      processed := blurred.value;
    }
    processed := PreserveFormat(processed, img);
    return Ok(processed), converter, converted;
  }

  /** `estimate_processing_time`, over reals: a microsecond per pixel, times 1 + 0.1 w h when
      averaging is not disabled and an area is given, times 1.5 with blur. */
  function EstimateProcessingTime(width: nat, height: nat, config: Config): (t: real)
    ensures t >= 0.0
    ensures t > 0.0 <==> width * height > 0
  {
    var pixelCount := (width * height) as real;
    var base := pixelCount * 0.000001;
    var averaged := if !config.disableAvgPixels && config.pixelsArea.Some? then
      base * (1.0 + (config.pixelsArea.value.0 * config.pixelsArea.value.1) as real * 0.1)
    else base;
    PositiveProduct(base, if !config.disableAvgPixels && config.pixelsArea.Some? then
      1.0 + (config.pixelsArea.value.0 * config.pixelsArea.value.1) as real * 0.1 else 1.0);
    PositiveProduct(averaged, if config.enableBlur then 1.5 else 1.0);
    if config.enableBlur then averaged * 1.5 else averaged
  }

  lemma PositiveProduct(x: real, k: real)
    requires x >= 0.0 && k >= 1.0
    ensures x * k >= 0.0 && (x * k > 0.0 <==> x > 0.0)
  {
    if x > 0.0 {
      assert x * k >= x * 1.0;
    }
  }

  /** Turning blur on multiplies the estimate by 1.5, so it is strictly larger for any non-empty
      image. */
  lemma BlurCostsMore(width: nat, height: nat, config: Config)
    requires width * height > 0
    ensures EstimateProcessingTime(width, height, config.(enableBlur := true)) ==
      1.5 * EstimateProcessingTime(width, height, config.(enableBlur := false))
    ensures EstimateProcessingTime(width, height, config.(enableBlur := true)) >
      EstimateProcessingTime(width, height, config.(enableBlur := false))
  {
    var t := EstimateProcessingTime(width, height, config.(enableBlur := false));
    assert t > 0.0;
  }

  /** The averaging factor applies exactly when averaging is not disabled and an area is given:
      otherwise the estimate (without blur) is the bare per-pixel cost. */
  lemma AveragingFactorOnlyWhenEnabled(width: nat, height: nat, config: Config)
    requires !config.enableBlur
    ensures config.disableAvgPixels || config.pixelsArea.None? ==>
      EstimateProcessingTime(width, height, config) == (width * height) as real * 0.000001
    ensures !config.disableAvgPixels && config.pixelsArea.Some? ==>
      var (w, h) := config.pixelsArea.value;
      EstimateProcessingTime(width, height, config) ==
        (width * height) as real * 0.000001 * (1.0 + (w * h) as real * 0.1)
  {
  }
}
